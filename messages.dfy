/** The data carried by a message event on a shared-worker port, and the
    status texts that both mirror clients show. */
module Messages {

  datatype Option<T> = None | Some(value: T)

  datatype Result<T> = Ok(value: T) | Err(error: string)

  /** `e.data` as the mirror clients look at it. `Falsy` stands for every
      value that fails the `msg && ...` test (undefined, null, false, 0, "").
      `Obj` is any other value; `kind` is its `type` property and `source`
      its `source` property, `None` when the property is missing or is not
      a string (neither can then equal a string with `===`). */
  datatype Msg =
    | Falsy
    | Obj(kind: Option<string>, source: Option<string>, text: string)

  /** The value of `type` that marks a mirror payload. */
  const MirrorKind: string := "mirror"

  /** Status line texts. */
  const StatusConnected: string := "상태: 연결됨"
  const StatusSent: string := "상태: 전송됨"
  const StatusUpdated: string := "상태: 외부에서 업데이트됨"

  /** `msg && msg.type === 'mirror'` */
  function IsMirror(msg: Msg): (r: bool) {
    msg.Obj? && msg.kind == Some(MirrorKind)
  }

  /** The object literal `{ type: 'mirror', source, text }` that both
      clients post. */
  function MirrorPayload(source: string, text: string): (m: Msg) {
    Obj(Some(MirrorKind), Some(source), text)
  }
}

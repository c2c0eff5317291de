/** The reusable mirror client: one editor and status element, one port to
    the shared worker, and a `programmaticUpdate` flag raised while a
    received text is written into the editor. */
module Bridge {
  import opened Messages

  /** The inbound filter of `_onMessage`: a present mirror message that some
      other client sent. */
  function Accepts(clientId: string, msg: Msg): (r: bool) {
    IsMirror(msg) && msg.source != Some(clientId)
  }

  /** Round trip: a payload that a bridge with id `source` posts is ignored
      by every bridge with that same id and taken by every other bridge. */
  lemma PayloadAcceptedIffForeign(clientId: string, source: string, text: string)
    ensures Accepts(clientId, MirrorPayload(source, text)) <==> clientId != source
  {
  }

  class MirrorBridge {
    const clientId: string
    /** `editor.value` */
    var editor: string
    /** `status.textContent` */
    var status: string
    var programmaticUpdate: bool
    /** Every value handed to `port.postMessage`, oldest first. */
    var outbox: seq<Msg>
    /** Status resets scheduled with `setTimeout` that have not fired yet. */
    var pendingResets: nat

    /** Between events the flag is down. */
    ghost predicate Valid()
      reads this
    {
      !programmaticUpdate
    }

    /** The constructor once both elements are found: fields set, then
        `_connect` (status "connected") and `_bindEvents`. */
    constructor (clientId: string, editorValue: string)
      ensures this.clientId == clientId && editor == editorValue
      ensures status == StatusConnected && !programmaticUpdate
      ensures outbox == [] && pendingResets == 0
      ensures Valid()
    {
      this.clientId := clientId;
      editor := editorValue;
      programmaticUpdate := false;
      status := StatusConnected;
      outbox := [];
      pendingResets := 0;
    }

    /** `new MirrorBridge(clientId, editorEl, statusEl)`: `None` is an
        element that was not found, `Some(v)` one whose current value is
        `v`. The editor is checked first. */
    static method Create(clientId: string, editorEl: Option<string>, statusEl: Option<string>)
      returns (r: Result<MirrorBridge>)
      ensures editorEl.None? ==> r == Err("editor element not found")
      ensures editorEl.Some? && statusEl.None? ==> r == Err("status element not found")
      ensures editorEl.Some? && statusEl.Some? ==>
        r.Ok? && fresh(r.value) && r.value.clientId == clientId && r.value.editor == editorEl.value
        && r.value.status == StatusConnected && !r.value.programmaticUpdate
        && r.value.outbox == [] && r.value.pendingResets == 0 && r.value.Valid()
    {
      if editorEl.None? {
        return Err("editor element not found");
      }
      if statusEl.None? {
        return Err("status element not found");
      }
      var b := new MirrorBridge(clientId, editorEl.value);
      return Ok(b);
    }

    /** `_setStatus(text)`; the status element always exists once the
        constructor has returned. */
    method SetStatus(text: string)
      modifies this
      ensures status == text
      ensures editor == old(editor) && programmaticUpdate == old(programmaticUpdate)
      ensures outbox == old(outbox) && pendingResets == old(pendingResets)
    {
      status := text;
    }

    /** `_postMirror(text)`: exactly one mirror payload from this client. */
    method PostMirror(text: string)
      modifies this
      ensures outbox == old(outbox) + [MirrorPayload(clientId, text)]
      ensures editor == old(editor) && status == old(status)
      ensures programmaticUpdate == old(programmaticUpdate) && pendingResets == old(pendingResets)
    {
      outbox := outbox + [MirrorPayload(clientId, text)];
    }

    /** The `input` listener bound in `_bindEvents`. While the flag is up it
        does nothing; otherwise it sends the editor's text, shows "sent" and
        schedules a status reset. */
    method OnInput()
      modifies this
      ensures editor == old(editor) && programmaticUpdate == old(programmaticUpdate)
      ensures old(programmaticUpdate) ==>
        outbox == old(outbox) && status == old(status) && pendingResets == old(pendingResets)
      ensures !old(programmaticUpdate) ==>
        outbox == old(outbox) + [MirrorPayload(clientId, editor)]
        && status == StatusSent && pendingResets == old(pendingResets) + 1
    {
      if programmaticUpdate {
        return;
      }
      PostMirror(editor);
      SetStatus(StatusSent);
      pendingResets := pendingResets + 1;
    }

    /** The user changes the editor's text; the browser then dispatches
        `input`. */
    method Edit(text: string)
      modifies this
      ensures editor == text && programmaticUpdate == old(programmaticUpdate)
      ensures old(programmaticUpdate) ==>
        outbox == old(outbox) && status == old(status) && pendingResets == old(pendingResets)
      ensures !old(programmaticUpdate) ==>
        outbox == old(outbox) + [MirrorPayload(clientId, text)]
        && status == StatusSent && pendingResets == old(pendingResets) + 1
    {
      editor := text;
      OnInput();
    }

    /** A `setTimeout(..., 600)` scheduled by an input fires. */
    method StatusTimerFired()
      requires pendingResets > 0
      modifies this
      ensures status == StatusConnected && pendingResets == old(pendingResets) - 1
      ensures editor == old(editor) && programmaticUpdate == old(programmaticUpdate)
      ensures outbox == old(outbox)
    {
      SetStatus(StatusConnected);
      pendingResets := pendingResets - 1;
    }

    /** `_onMessage(e)` with `e.data == msg`. An accepted message replaces
        the editor's text with the flag up and shows "updated from outside";
        any other message changes nothing. Nothing is ever posted. */
    method OnMessage(msg: Msg)
      modifies this
      ensures Accepts(clientId, msg) ==>
        editor == msg.text && status == StatusUpdated && !programmaticUpdate
      ensures !Accepts(clientId, msg) ==>
        editor == old(editor) && status == old(status) && programmaticUpdate == old(programmaticUpdate)
      ensures outbox == old(outbox) && pendingResets == old(pendingResets)
    {
      if Accepts(clientId, msg) {
        programmaticUpdate := true;
        editor := msg.text;
        programmaticUpdate := false;
        SetStatus(StatusUpdated);
      }
    }
  }
}

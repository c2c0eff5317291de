/** The inline mirror client of the stand-alone page: the same protocol as
    the reusable bridge, with a fixed id and no filter on the sender. */
module MainPage {
  import opened Messages
  import Bridge

  /** `const clientId = 'main';` */
  const MainId: string := "main"

  /** The inbound filter of `port.onmessage`: only present mirror messages
      pass, and the verdict does not depend on who sent the message. */
  function Accepts(msg: Msg): (r: bool)
    ensures r ==> msg.Obj? && msg.kind == Some(MirrorKind)
    ensures msg.Obj? ==> forall s: Option<string> :: r == IsMirror(Obj(msg.kind, s, msg.text))
  {
    IsMirror(msg)
  }

  /** The page's filter does not look at `source`, so it also takes its own
      payloads, which the bridge drops; the bridge's filter is the page's
      plus exactly the sender test. */
  lemma FilterComparedToBridge(clientId: string, msg: Msg, text: string)
    ensures Accepts(MirrorPayload(MainId, text))
    ensures !Bridge.Accepts(MainId, MirrorPayload(MainId, text))
    ensures Bridge.Accepts(clientId, msg) <==> Accepts(msg) && msg.source != Some(clientId)
  {
  }

  class Page {
    /** `editor.value` */
    var editor: string
    /** `status.textContent` */
    var status: string
    var programmaticUpdate: bool
    /** Every value handed to `port.postMessage`, oldest first. */
    var outbox: seq<Msg>
    /** Status resets scheduled with `setTimeout` that have not fired yet. */
    var pendingResets: nat

    ghost predicate Valid()
      reads this
    {
      !programmaticUpdate
    }

    /** Running the page script: flag down, handlers installed, status
        "connected". */
    constructor (editorValue: string)
      ensures editor == editorValue && status == StatusConnected
      ensures !programmaticUpdate && outbox == [] && pendingResets == 0
      ensures Valid()
    {
      editor := editorValue;
      programmaticUpdate := false;
      status := StatusConnected;
      outbox := [];
      pendingResets := 0;
    }

    /** `port.onmessage` with `e.data == msg`. */
    method OnMessage(msg: Msg)
      modifies this
      ensures Accepts(msg) ==>
        editor == msg.text && status == StatusUpdated && !programmaticUpdate
      ensures !Accepts(msg) ==>
        editor == old(editor) && status == old(status) && programmaticUpdate == old(programmaticUpdate)
      ensures outbox == old(outbox) && pendingResets == old(pendingResets)
    {
      if Accepts(msg) {
        programmaticUpdate := true;
        editor := msg.text;
        programmaticUpdate := false;
        status := StatusUpdated;
      }
    }

    /** The `input` listener: nothing while the flag is up; otherwise post
        `{ type: 'mirror', source: 'main', text: editor.value }`, show
        "sent" and schedule a status reset. */
    method OnInput()
      modifies this
      ensures editor == old(editor) && programmaticUpdate == old(programmaticUpdate)
      ensures old(programmaticUpdate) ==>
        outbox == old(outbox) && status == old(status) && pendingResets == old(pendingResets)
      ensures !old(programmaticUpdate) ==>
        outbox == old(outbox) + [MirrorPayload(MainId, editor)]
        && status == StatusSent && pendingResets == old(pendingResets) + 1
    {
      if programmaticUpdate {
        return;
      }
      var payload := MirrorPayload(MainId, editor);
      outbox := outbox + [payload];
      status := StatusSent;
      pendingResets := pendingResets + 1;
    }

    /** The user changes the editor's text; the browser then dispatches
        `input`. */
    method Edit(text: string)
      modifies this
      ensures editor == text && programmaticUpdate == old(programmaticUpdate)
      ensures old(programmaticUpdate) ==>
        outbox == old(outbox) && status == old(status) && pendingResets == old(pendingResets)
      ensures !old(programmaticUpdate) ==>
        outbox == old(outbox) + [MirrorPayload(MainId, text)]
        && status == StatusSent && pendingResets == old(pendingResets) + 1
    {
      editor := text;
      OnInput();
    }

    /** A `setTimeout(..., 600)` scheduled by an input fires. */
    method StatusTimerFired()
      requires pendingResets > 0
      modifies this
      ensures status == StatusConnected && pendingResets == old(pendingResets) - 1
      ensures editor == old(editor) && programmaticUpdate == old(programmaticUpdate)
      ensures outbox == old(outbox)
    {
      status := StatusConnected;
      pendingResets := pendingResets - 1;
    }
  }
}

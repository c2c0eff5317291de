/** Clients and the shared worker together: one edit travels from the
    editing client through the worker to the other client. */
module Scenario {
  import opened Messages
  import opened SharedWorker
  import opened Bridge
  import MainPage

  /** Some delivery in `log[from..upto]` is addressed to `p`. */
  ghost predicate DeliveredTo(log: seq<Delivery>, from: nat, upto: nat, p: PortId)
    requires from <= upto <= |log|
  {
    exists j :: from <= j < upto && log[j].to == p
  }

  /** Bridge `a` on port `pa` and bridge `b` on port `pb`, both registered
      with the worker. The user types `text` into `a`; `a` posts it; the
      worker relays it; every post addressed to `pb` is handed to `b`.
      Afterwards `b` shows `text`, nothing was addressed back to `pa`, and
      `b` posted nothing, so the update is not sent out again. */
  method BridgeToBridge(hub: Hub, a: MirrorBridge, pa: PortId, b: MirrorBridge, pb: PortId, text: string)
    requires a != b && a.clientId != b.clientId && pa != pb
    requires pa in hub.ports && pb in hub.ports
    requires a.Valid() && b.Valid()
    modifies hub, a, b
    ensures hub.ports == old(hub.ports)
    ensures hub.log == old(hub.log) + Fanout(hub.ports, pa, MirrorPayload(a.clientId, text))
    ensures a.editor == text && a.status == StatusSent && a.Valid()
    ensures a.outbox == old(a.outbox) + [MirrorPayload(a.clientId, text)]
    ensures b.editor == a.editor && b.status == StatusUpdated && b.Valid()
    ensures b.outbox == old(b.outbox)
    ensures a.pendingResets == old(a.pendingResets) + 1 && b.pendingResets == old(b.pendingResets)
    ensures forall i :: |old(hub.log)| <= i < |hub.log| ==> hub.log[i].to != pa
    ensures DeliveredTo(hub.log, |old(hub.log)|, |hub.log|, pb)
  {
    a.Edit(text);
    var m := a.outbox[|a.outbox| - 1];
    assert Accepts(b.clientId, m);
    var n0 := |hub.log|;
    hub.OnMessage(pa, m);
    RelayReaches(hub.ports, pa, pb, m);
    var k :| 0 <= k < |Fanout(hub.ports, pa, m)| && Fanout(hub.ports, pa, m)[k] == Delivery(pb, m);
    assert hub.log[n0 + k].to == pb;

    var i := n0;
    while i < |hub.log|
      invariant n0 <= i <= |hub.log|
      invariant hub.ports == old(hub.ports) && hub.log == old(hub.log) + Fanout(hub.ports, pa, m)
      invariant a.editor == text && a.status == StatusSent && a.Valid()
      invariant a.outbox == old(a.outbox) + [m]
      invariant b.outbox == old(b.outbox) && b.Valid()
      invariant a.pendingResets == old(a.pendingResets) + 1 && b.pendingResets == old(b.pendingResets)
      invariant DeliveredTo(hub.log, n0, i, pb) ==> b.editor == text && b.status == StatusUpdated
    {
      var d := hub.log[i];
      if d.to == pb {
        b.OnMessage(d.msg);
      }
      i := i + 1;
    }
  }

  /** The stand-alone page on port `pa` and a bridge with another id on
      port `pb`: an edit on the page reaches the bridge and nothing comes
      back to the page. */
  method PageToBridge(hub: Hub, a: MainPage.Page, pa: PortId, b: MirrorBridge, pb: PortId, text: string)
    requires b.clientId != MainPage.MainId && pa != pb
    requires pa in hub.ports && pb in hub.ports
    requires a.Valid() && b.Valid()
    modifies hub, a, b
    ensures hub.ports == old(hub.ports)
    ensures hub.log == old(hub.log) + Fanout(hub.ports, pa, MirrorPayload(MainPage.MainId, text))
    ensures a.editor == text && a.status == StatusSent && a.Valid()
    ensures a.outbox == old(a.outbox) + [MirrorPayload(MainPage.MainId, text)]
    ensures b.editor == a.editor && b.status == StatusUpdated && b.Valid()
    ensures b.outbox == old(b.outbox)
    ensures a.pendingResets == old(a.pendingResets) + 1 && b.pendingResets == old(b.pendingResets)
    ensures forall i :: |old(hub.log)| <= i < |hub.log| ==> hub.log[i].to != pa
    ensures DeliveredTo(hub.log, |old(hub.log)|, |hub.log|, pb)
  {
    a.Edit(text);
    var m := a.outbox[|a.outbox| - 1];
    assert Accepts(b.clientId, m);
    var n0 := |hub.log|;
    hub.OnMessage(pa, m);
    RelayReaches(hub.ports, pa, pb, m);
    var k :| 0 <= k < |Fanout(hub.ports, pa, m)| && Fanout(hub.ports, pa, m)[k] == Delivery(pb, m);
    assert hub.log[n0 + k].to == pb;

    var i := n0;
    while i < |hub.log|
      invariant n0 <= i <= |hub.log|
      invariant hub.ports == old(hub.ports) && hub.log == old(hub.log) + Fanout(hub.ports, pa, m)
      invariant a.editor == text && a.status == StatusSent && a.Valid()
      invariant a.outbox == old(a.outbox) + [m]
      invariant b.outbox == old(b.outbox) && b.Valid()
      invariant a.pendingResets == old(a.pendingResets) + 1 && b.pendingResets == old(b.pendingResets)
      invariant DeliveredTo(hub.log, n0, i, pb) ==> b.editor == text && b.status == StatusUpdated
    {
      var d := hub.log[i];
      if d.to == pb {
        b.OnMessage(d.msg);
      }
      i := i + 1;
    }
  }

  /** The reverse direction: an edit on the bridge reaches the stand-alone
      page, which takes any mirror message whatever its sender. */
  method BridgeToPage(hub: Hub, a: MirrorBridge, pa: PortId, b: MainPage.Page, pb: PortId, text: string)
    requires pa != pb
    requires pa in hub.ports && pb in hub.ports
    requires a.Valid() && b.Valid()
    modifies hub, a, b
    ensures hub.ports == old(hub.ports)
    ensures hub.log == old(hub.log) + Fanout(hub.ports, pa, MirrorPayload(a.clientId, text))
    ensures a.editor == text && a.status == StatusSent && a.Valid()
    ensures a.outbox == old(a.outbox) + [MirrorPayload(a.clientId, text)]
    ensures b.editor == a.editor && b.status == StatusUpdated && b.Valid()
    ensures b.outbox == old(b.outbox)
    ensures a.pendingResets == old(a.pendingResets) + 1 && b.pendingResets == old(b.pendingResets)
    ensures forall i :: |old(hub.log)| <= i < |hub.log| ==> hub.log[i].to != pa
    ensures DeliveredTo(hub.log, |old(hub.log)|, |hub.log|, pb)
  {
    a.Edit(text);
    var m := a.outbox[|a.outbox| - 1];
    assert MainPage.Accepts(m);
    var n0 := |hub.log|;
    hub.OnMessage(pa, m);
    RelayReaches(hub.ports, pa, pb, m);
    var k :| 0 <= k < |Fanout(hub.ports, pa, m)| && Fanout(hub.ports, pa, m)[k] == Delivery(pb, m);
    assert hub.log[n0 + k].to == pb;

    var i := n0;
    while i < |hub.log|
      invariant n0 <= i <= |hub.log|
      invariant hub.ports == old(hub.ports) && hub.log == old(hub.log) + Fanout(hub.ports, pa, m)
      invariant a.editor == text && a.status == StatusSent && a.Valid()
      invariant a.outbox == old(a.outbox) + [m]
      invariant b.outbox == old(b.outbox) && b.Valid()
      invariant a.pendingResets == old(a.pendingResets) + 1 && b.pendingResets == old(b.pendingResets)
      invariant DeliveredTo(hub.log, n0, i, pb) ==> b.editor == text && b.status == StatusUpdated
    {
      var d := hub.log[i];
      if d.to == pb {
        b.OnMessage(d.msg);
      }
      i := i + 1;
    }
  }
}

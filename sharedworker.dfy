/** The shared worker: a list of connected ports, and a relay that posts
    every message arriving on one port to every other port. */
module SharedWorker {
  import opened Messages

  /** A port is an opaque handle compared by identity (`p !== port`). */
  type PortId = nat

  /** One `p.postMessage(msg)` call made by the worker. */
  datatype Delivery = Delivery(to: PortId, msg: Msg)

  /** The posts made while relaying `msg` from `sender` over `ports`, in
      the order the `forEach` makes them. Defined by peeling the last port,
      which is how the relay loop extends it. */
  function Fanout(ports: seq<PortId>, sender: PortId, msg: Msg): (r: seq<Delivery>)
    ensures |r| <= |ports|
    ensures forall i :: 0 <= i < |r| ==> r[i].to != sender && r[i].msg == msg
  {
    if ports == [] then []
    else
      var last := ports[|ports| - 1];
      Fanout(ports[..|ports| - 1], sender, msg)
        + (if last != sender then [Delivery(last, msg)] else [])
  }

  /** Reference definition: the ports other than `sender`, in order. */
  function Without(ports: seq<PortId>, sender: PortId): (r: seq<PortId>) {
    if ports == [] then []
    else (if ports[0] != sender then [ports[0]] else []) + Without(ports[1..], sender)
  }

  /** The addressees of a sequence of posts. */
  function Recipients(ds: seq<Delivery>): (r: seq<PortId>) {
    if ds == [] then [] else [ds[0].to] + Recipients(ds[1..])
  }

  lemma {:induction false} RecipientsAppend(a: seq<Delivery>, b: seq<Delivery>)
    ensures Recipients(a + b) == Recipients(a) + Recipients(b)
  {
    if a == [] {
      assert a + b == b;
    } else {
      assert (a + b)[1..] == a[1..] + b;
      RecipientsAppend(a[1..], b);
    }
  }

  lemma {:induction false} WithoutAppend(a: seq<PortId>, b: seq<PortId>, sender: PortId)
    ensures Without(a + b, sender) == Without(a, sender) + Without(b, sender)
  {
    if a == [] {
      assert a + b == b;
    } else {
      assert (a + b)[1..] == a[1..] + b;
      WithoutAppend(a[1..], b, sender);
    }
  }

  /** Posts go out in registration order: the addressees are exactly the
      registered ports other than the sender, in the order of `ports`. */
  lemma {:induction false} FanoutOrder(ports: seq<PortId>, sender: PortId, msg: Msg)
    ensures Recipients(Fanout(ports, sender, msg)) == Without(ports, sender)
  {
    if ports != [] {
      var init, last := ports[..|ports| - 1], ports[|ports| - 1];
      assert ports == init + [last];
      FanoutOrder(init, sender, msg);
      var tail := if last != sender then [Delivery(last, msg)] else [];
      RecipientsAppend(Fanout(init, sender, msg), tail);
      WithoutAppend(init, [last], sender);
      assert Recipients(tail) == Without([last], sender);
    }
  }

  /** A post to `p` carrying `m` is made exactly when `p` is a registered
      port other than the sender and `m` is the message received: every
      other port is reached, the sender never is, and the message is
      passed on as it arrived. */
  lemma {:induction false} FanoutMembership(ports: seq<PortId>, sender: PortId, msg: Msg, p: PortId, m: Msg)
    ensures Delivery(p, m) in Fanout(ports, sender, msg) <==> p in ports && p != sender && m == msg
  {
    if ports != [] {
      var init, last := ports[..|ports| - 1], ports[|ports| - 1];
      assert ports == init + [last];
      FanoutMembership(init, sender, msg, p, m);
    }
  }

  /** One post per registered entry that is not the sender. */
  lemma {:induction false} FanoutCount(ports: seq<PortId>, sender: PortId, msg: Msg)
    ensures |Fanout(ports, sender, msg)| == |ports| - multiset(ports)[sender]
  {
    if ports != [] {
      var init, last := ports[..|ports| - 1], ports[|ports| - 1];
      assert ports == init + [last];
      assert multiset(ports) == multiset(init) + multiset{last};
      FanoutCount(init, sender, msg);
    }
  }

  /** A relay from `sender` reaches every other registered port `p`: some
      post is addressed to `p`, and none to the sender. */
  lemma RelayReaches(ports: seq<PortId>, sender: PortId, p: PortId, msg: Msg)
    requires p in ports && p != sender
    ensures exists k :: 0 <= k < |Fanout(ports, sender, msg)| && Fanout(ports, sender, msg)[k] == Delivery(p, msg)
    ensures forall k :: 0 <= k < |Fanout(ports, sender, msg)| ==> Fanout(ports, sender, msg)[k].to != sender
  {
    FanoutMembership(ports, sender, msg, p, msg);
  }

  /** A sender registered once causes exactly `|ports| - 1` posts. */
  lemma FanoutCountRegisteredOnce(ports: seq<PortId>, sender: PortId, msg: Msg)
    requires multiset(ports)[sender] == 1
    ensures |Fanout(ports, sender, msg)| == |ports| - 1
  {
    FanoutCount(ports, sender, msg);
  }

  /** The worker's module-level state: the `ports` array, and every post it
      has made so far. */
  class Hub {
    var ports: seq<PortId>
    var log: seq<Delivery>

    /** `const ports = [];` */
    constructor ()
      ensures ports == [] && log == []
    {
      ports := [];
      log := [];
    }

    /** `onconnect`: register the new port at the end of `ports`. */
    method Connect(port: PortId)
      modifies this
      ensures ports == old(ports) + [port]
      ensures |ports| == |old(ports)| + 1 && ports[..|old(ports)|] == old(ports)
      ensures log == old(log)
    {
      ports := ports + [port];
    }

    /** `port.postMessage(msg)` made by the worker. */
    method Post(to: PortId, msg: Msg)
      modifies this
      ensures log == old(log) + [Delivery(to, msg)]
      ensures ports == old(ports)
    {
      log := log + [Delivery(to, msg)];
    }

    /** The `onmessage` handler of port `sender`, installed only on a port
        that `onconnect` has just registered: post `msg` to every other port
        in `ports`, leaving `ports` alone. */
    method OnMessage(sender: PortId, msg: Msg)
      requires sender in ports
      modifies this
      ensures ports == old(ports)
      ensures log == old(log) + Fanout(ports, sender, msg)
      ensures forall i :: |old(log)| <= i < |log| ==> log[i].to != sender && log[i].msg == msg
    {
      var i := 0;
      while i < |ports|
        invariant 0 <= i <= |ports|
        invariant ports == old(ports)
        invariant log == old(log) + Fanout(ports[..i], sender, msg)
      {
        var p := ports[i];
        assert ports[..i + 1][..i] == ports[..i];
        if p != sender {
          Post(p, msg);
        }
        i := i + 1;
      }
      assert ports[..i] == ports;
    }
  }
}

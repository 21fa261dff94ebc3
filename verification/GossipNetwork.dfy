/**
 Any number of nodes that start from the same leaves and pull from each other in any order: no exchange ever fails,
 and no two nodes ever come to hold different chains (src/node/core.go, src/node/node.go).
 */
module GossipNetwork {
  import opened Wrappers
  import opened EventDag
  import opened DagInvariant
  import opened DagOrder
  import opened GossipWire
  import opened Gossip

  datatype Peer = Peer(party: Party, node: Node)

  type Network = seq<Peer>

  ghost predicate PeerOk(p: Peer) {
    NodeOk(p.party, p.node) && Current(p.party, p.node) && Signs(p.party)
  }

  ghost predicate PairOk(a: Peer, b: Peer) {
    && Partners(a.party, a.node, b.party, b.node) && a.party.me != b.party.me
    && Leads(a.node.dag, b.node.dag, a.party.me)
  }

  ghost predicate Healthy(net: Network) {
    && (forall i {:trigger PeerOk(net[i])} :: 0 <= i < |net| ==> PeerOk(net[i]))
    && (forall i, j {:trigger PairOk(net[i], net[j])} ::
          0 <= i < |net| && 0 <= j < |net| && i != j ==> PairOk(net[i], net[j]))
  }

  // ------------------------------------------------------------------------------------------
  // Third parties
  // ------------------------------------------------------------------------------------------

  /** After an exchange every chain is the receiver's or the sender's. */
  lemma MergedChain(d0: Dag, d: Dag, s: Dag, c: Creator)
    requires Inv(d0) && Inv(d) && Inv(s) && Kin(d0, s) && Kin(d, s) && c in d.chains
    requires d.events.Keys == d0.events.Keys + s.events.Keys
    requires forall h {:trigger h in d0.events} :: h in d0.events ==> d.events[h] == d0.events[h]
    ensures c in s.chains && c in d0.chains && (d.chains[c] == d0.chains[c] || d.chains[c] == s.chains[c])
  {
    OlderPrefix(d0, d, c);
    assert PrefixRelated(d.chains[c], s.chains[c]) && PrefixRelated(d0.chains[c], s.chains[c]);
    OlderPrefixLength(d, s, c);
    assert LinkOk(d, c, |d.chains[c]| - 1);
    var h := d.chains[c][|d.chains[c]| - 1];
    assert h in d0.events ==> EventChained(d0, h);
    assert h in s.events ==> EventChained(s, h);
  }

  lemma OlderPrefixLength(d: Dag, s: Dag, c: Creator)
    requires Inv(d) && Inv(s) && Kin(d, s) && c in d.chains && s.events.Keys <= d.events.Keys
    ensures c in s.chains && |s.chains[c]| <= |d.chains[c]|
  {
    var last := |s.chains[c]| - 1;
    assert LinkOk(s, c, last);
    assert EventChained(d, s.chains[c][last]);
  }

  lemma OlderPrefix(d0: Dag, d: Dag, c: Creator)
    requires Inv(d0) && Inv(d) && c in d0.chains
    requires forall h {:trigger h in d0.events} :: h in d0.events ==> h in d.events && d.events[h] == d0.events[h]
    ensures c in d.chains && d0.chains[c] <= d.chains[c]
  {
    assert LinkOk(d0, c, 0);
    assert EventChained(d, d0.chains[c][0]);
    assert LinkOk(d0, c, |d0.chains[c]| - 1);
    assert EventChained(d, d0.chains[c][|d0.chains[c]| - 1]);
    forall i | 0 <= i < |d0.chains[c]| ensures i < |d.chains[c]| && d.chains[c][i] == d0.chains[c][i] {
      assert LinkOk(d0, c, i);
      assert EventChained(d, d0.chains[c][i]);
    }
  }

  lemma KinBack(d: Dag, s: Dag)
    requires Kin(d, s)
    ensures Kin(s, d)
  {
    forall c {:trigger s.chains[c]} | c in s.chains ensures PrefixRelated(s.chains[c], d.chains[c]) {
      assert PrefixRelated(d.chains[c], s.chains[c]);
    }
  }

  /** Whoever was akin to both is akin to the receiver. */
  lemma KinToBoth(d0: Dag, d: Dag, s: Dag, t: Dag)
    requires Inv(d0) && Inv(d) && Inv(s) && Kin(d0, s) && Kin(d, s) && Kin(d0, t) && Kin(s, t)
    requires d.events.Keys == d0.events.Keys + s.events.Keys
    requires forall h {:trigger h in d0.events} :: h in d0.events ==> d.events[h] == d0.events[h]
    requires forall h {:trigger h in s.events} :: h in s.events ==> SameDerived(d.events[h], s.events[h])
    ensures Kin(d, t)
  {
    forall c {:trigger d.chains[c]} {:trigger t.chains[c]} | c in d.chains
      ensures PrefixRelated(d.chains[c], t.chains[c])
    {
      MergedChain(d0, d, s, c);
    }
    forall h | h in d.events && h in t.events
      ensures d.events[h].msg == t.events[h].msg && (IsLeaf(d.events[h]) ==> d.events[h].lamport == t.events[h].lamport)
    {
      assert h in d0.events || h in s.events;
    }
  }

  /** Nobody gets ahead of a third party on that party's own chain. */
  lemma StillLeads(d0: Dag, d: Dag, s: Dag, t: Dag, me: Creator)
    requires Inv(d0) && Inv(d) && Inv(s) && Kin(d0, s) && Kin(d, s)
    requires d.events.Keys == d0.events.Keys + s.events.Keys
    requires forall h {:trigger h in d0.events} :: h in d0.events ==> d.events[h] == d0.events[h]
    requires Leads(t, d0, me) && Leads(t, s, me)
    ensures Leads(t, d, me)
  {
    MergedChain(d0, d, s, me);
  }

  /** The exchange leaves the receiver in order with everybody. */
  lemma CaughtPairs(a0: Peer, a: Peer, b: Peer, t: Peer)
    requires PairOk(a0, b) && PairOk(a0, t) && PairOk(t, a0) && (t == b || (PairOk(b, t) && PairOk(t, b)))
    requires a.party == a0.party && Caught(a.party, a0.node, a.node, b.node)
    ensures PairOk(a, t) && PairOk(t, a)
  {
    var d0, d, s, u := a0.node.dag, a.node.dag, b.node.dag, t.node.dag;
    if t != b { KinToBoth(d0, d, s, u); }
    KinBack(d, u);
    assert Leads(u, s, t.party.me);
    StillLeads(d0, d, s, u, t.party.me);
    OlderPrefix(d0, d, a.party.me);
  }

  // ------------------------------------------------------------------------------------------
  // A new event
  // ------------------------------------------------------------------------------------------

  lemma OneLonger(d: Dag, m: Message)
    requires Inv(d) && Honest(d, m) && Insert(d, m).Ok?
    ensures var d' := Insert(d, m).value;
            && m.creator in d.chains && d'.chains.Keys == d.chains.Keys
            && forall c {:trigger d'.chains[c]} :: c in d'.chains ==>
                 d'.chains[c] == if c == m.creator then d.chains[c] + [m.hash] else d.chains[c]
  {
    FreshHash(d, m);
    NewestLink(d, m);
  }

  lemma LongerChains(d: Dag, d': Dag, c: Creator, h: Hash, t: Dag)
    requires Kin(d, t) && Leads(d, t, c) && d'.chains.Keys == d.chains.Keys
    requires forall x {:trigger d'.chains[x]} :: x in d'.chains ==>
               d'.chains[x] == if x == c then d.chains[x] + [h] else d.chains[x]
    ensures Leads(d', t, c)
    ensures forall x {:trigger d'.chains[x]} {:trigger t.chains[x]} :: x in d'.chains ==>
              PrefixRelated(d'.chains[x], t.chains[x])
  {
    forall x {:trigger d'.chains[x]} {:trigger t.chains[x]} | x in d'.chains
      ensures PrefixRelated(d'.chains[x], t.chains[x])
    {
      assert PrefixRelated(d.chains[x], t.chains[x]);
    }
  }

  lemma StillAgree(d: Dag, m: Message, t: Dag)
    requires Agree(d, t) && Insert(d, m).Ok? && m.hash !in d.events && m.hash !in t.events
    ensures Agree(Insert(d, m).value, t)
  {
    OneMoreEvent(d, m);
  }

  /** An event that nobody else has yet changes nothing between its creator and the others. */
  lemma NewEventKin(d: Dag, m: Message, t: Dag)
    requires Inv(d) && Honest(d, m) && Insert(d, m).Ok? && m.hash !in t.events
    requires Kin(d, t) && Leads(d, t, m.creator)
    ensures Kin(Insert(d, m).value, t) && Leads(Insert(d, m).value, t, m.creator)
  {
    var d' := Insert(d, m).value;
    assert m.hash !in d.events by { FreshHash(d, m); }
    StillAgree(d, m, t);
    OneLonger(d, m);
    LongerChains(d, d', m.creator, m.hash, t);
  }

  lemma OwnEventPairs(a: Peer, b: Packet, a': Peer, t: Peer)
    requires PairOk(a, t) && PairOk(t, a) && PeerOk(a') && a'.party == a.party && b.body.creator == a.party.me
    requires Honest(a.node.dag, MessageOf(a.party.crypto, b)) && Insert(a.node.dag, MessageOf(a.party.crypto, b)).Ok?
    requires a'.node.dag == Insert(a.node.dag, MessageOf(a.party.crypto, b)).value
    requires a.party.crypto.hash(b.body) !in t.node.dag.events
    ensures PairOk(a', t) && PairOk(t, a')
  {
    var m := MessageOf(a.party.crypto, b);
    NewEventKin(a.node.dag, m, t.node.dag);
    KinBack(a'.node.dag, t.node.dag);
    OneLonger(a.node.dag, m);
  }

  // ------------------------------------------------------------------------------------------
  // Steps and runs of the whole network
  // ------------------------------------------------------------------------------------------

  /** Node `to` pulls from node `from`, and adds an event of its own if there is a payload. */
  datatype Move = Move(to: nat, from: nat, list: seq<Hash>, payload: Option<Payload>)

  const NO_PAYLOAD := Payload(NilSlice, [], [])

  function Received(a: Peer, b: Peer, list: seq<Hash>): Step {
    TakeAll(a.party, a.node, a.node.heights, WireAll(b.node, list))
  }

  function NewBody(a: Peer, b: Peer, list: seq<Hash>, x: Payload): Body {
    BodyOf(a.party, Received(a, b, list).node,
           PeerHead(a.party, a.node, a.node.heights, b.party.me, WireAll(b.node, list)), x)
  }

  function Pulled(a: Peer, b: Peer, list: seq<Hash>, x: Option<Payload>): Step {
    SyncStep(a.party, a.node, b.party.me, WireAll(b.node, list), x)
  }

  /** The sender lists what is above the receiver's heights; a new body's hash is new to everybody. */
  ghost predicate Possible(net: Network, mv: Move) {
    && mv.to < |net| && mv.from < |net| && mv.to != mv.from
    && IsDiff(net[mv.from].node.dag, net[mv.to].node.heights, mv.list)
    && (mv.payload.Some? ==>
          forall k {:trigger net[k]} :: 0 <= k < |net| ==>
            Fresh(net[mv.to].party, net[k].node.dag, NewBody(net[mv.to], net[mv.from], mv.list, mv.payload.value)))
  }

  function Next(net: Network, mv: Move): Network
    requires mv.to < |net| && mv.from < |net|
  {
    var a, b := net[mv.to], net[mv.from];
    net[mv.to := Peer(a.party, Pulled(a, b, mv.list, mv.payload).node)]
  }

  lemma FreshBoth(w: Party, d0: Dag, s: Dag, d: Dag, b: Body)
    requires Fresh(w, d0, b) && Fresh(w, s, b) && d.events.Keys == d0.events.Keys + s.events.Keys
    ensures Fresh(w, d, b)
  {}

  /** Taking the events in succeeds, and leaves the receiver in order with everybody. */
  lemma ReceivedWorks(a: Peer, b: Peer, list: seq<Hash>)
    requires PeerOk(a) && PairOk(a, b) && IsDiff(b.node.dag, a.node.heights, list)
    ensures var r := Received(a, b, list);
            r.failure.None? && PeerOk(Peer(a.party, r.node)) && Caught(a.party, a.node, r.node, b.node)
  {
    ExchangeDelivers(a.party, a.node, b.party, b.node, list);
    var n := Received(a, b, list).node;
    MergedChain(a.node.dag, n.dag, b.node.dag, a.party.me);
    OlderPrefix(a.node.dag, n.dag, a.party.me);
  }

  ghost predicate OwnReady(a: Peer, other: Hash, x: Payload) {
    PeerOk(a) && other in a.node.dag.events && Fresh(a.party, a.node.dag, BodyOf(a.party, a.node, other, x))
  }

  function OwnPacket(a: Peer, other: Hash, x: Payload): Packet {
    Addressed(a.party, a.node.dag, BodyOf(a.party, a.node, other, x))
  }

  lemma OwnWorks(a: Peer, other: Hash, x: Payload)
    requires OwnReady(a, other, x)
    ensures var r := SelfEvent(a.party, a.node, other, x);
            var m := MessageOf(a.party.crypto, OwnPacket(a, other, x));
            && r.failure.None? && PeerOk(Peer(a.party, r.node))
            && Honest(a.node.dag, m) && Insert(a.node.dag, m) == Ok(r.node.dag)
  {
    OwnEventExact(a.party, a.node, other, x);
    OwnAccepted(a.party, a.node, other, x);
    HeadStored(a.party, a.node, a.party.me);
  }

  /** After its own event a node is in order with everybody who was in order with it. */
  lemma OwnWorksPairs(a: Peer, other: Hash, x: Payload, t: Peer)
    requires OwnReady(a, other, x) && PairOk(a, t) && PairOk(t, a)
    requires a.party.crypto.hash(BodyOf(a.party, a.node, other, x)) !in t.node.dag.events
    ensures var a' := Peer(a.party, SelfEvent(a.party, a.node, other, x).node);
            PairOk(a', t) && PairOk(t, a')
  {
    OwnWorks(a, other, x);
    OwnEventPairs(a, OwnPacket(a, other, x), Peer(a.party, SelfEvent(a.party, a.node, other, x).node), t);
  }

  function OtherHead(a: Peer, b: Peer, list: seq<Hash>): Hash {
    PeerHead(a.party, a.node, a.node.heights, b.party.me, WireAll(b.node, list))
  }

  lemma ReadyAfter(a: Peer, b: Peer, list: seq<Hash>, x: Payload)
    requires PeerOk(a) && PairOk(a, b) && IsDiff(b.node.dag, a.node.heights, list)
    requires Fresh(a.party, a.node.dag, NewBody(a, b, list, x)) && Fresh(a.party, b.node.dag, NewBody(a, b, list, x))
    ensures OwnReady(Peer(a.party, Received(a, b, list).node), OtherHead(a, b, list), x)
  {
    ReceivedWorks(a, b, list);
    PeerHeadStored(a.party, a.node, b.party, b.node, list, b.party.me, |list|);
    assert WireAll(b.node, list)[..|list|] == WireAll(b.node, list);
    FreshBoth(a.party, a.node.dag, b.node.dag, Received(a, b, list).node.dag, NewBody(a, b, list, x));
  }

  lemma ReceivedPairs(a: Peer, b: Peer, list: seq<Hash>, t: Peer)
    requires PeerOk(a) && PairOk(a, b) && IsDiff(b.node.dag, a.node.heights, list)
    requires PairOk(a, t) && PairOk(t, a) && (t == b || (PairOk(b, t) && PairOk(t, b)))
    ensures var a' := Peer(a.party, Received(a, b, list).node);
            PairOk(a', t) && PairOk(t, a')
  {
    ReceivedWorks(a, b, list);
    CaughtPairs(a, Peer(a.party, Received(a, b, list).node), b, t);
  }

  lemma PullParts(a: Peer, b: Peer, list: seq<Hash>, x: Payload)
    requires PeerOk(a) && PairOk(a, b) && IsDiff(b.node.dag, a.node.heights, list)
    ensures Pulled(a, b, list, None) == Received(a, b, list)
    ensures Pulled(a, b, list, Some(x)) == SelfEvent(a.party, Received(a, b, list).node, OtherHead(a, b, list), x)
  {
    ReceivedWorks(a, b, list);
  }

  /** A pull with an event of one's own succeeds, and leaves the receiver with everything the sender had. */
  lemma PullWorks(a: Peer, b: Peer, list: seq<Hash>, x: Payload)
    requires PeerOk(a) && PairOk(a, b) && IsDiff(b.node.dag, a.node.heights, list)
    requires Fresh(a.party, a.node.dag, NewBody(a, b, list, x)) && Fresh(a.party, b.node.dag, NewBody(a, b, list, x))
    ensures var r := Pulled(a, b, list, Some(x));
            r.failure.None? && PeerOk(Peer(a.party, r.node)) && b.node.dag.events.Keys <= r.node.dag.events.Keys
  {
    ReceivedWorks(a, b, list);
    PullParts(a, b, list, x);
    ReadyAfter(a, b, list, x);
    var got := Peer(a.party, Received(a, b, list).node);
    OwnWorks(got, OtherHead(a, b, list), x);
    EventsStay(got.node.dag, MessageOf(a.party.crypto, OwnPacket(got, OtherHead(a, b, list), x)));
  }

  lemma EventsStay(d: Dag, m: Message)
    requires Insert(d, m).Ok?
    ensures d.events.Keys <= Insert(d, m).value.events.Keys
  {}

  lemma PullPairs(a: Peer, b: Peer, list: seq<Hash>, x: Payload, t: Peer)
    requires PeerOk(a) && PairOk(a, b) && IsDiff(b.node.dag, a.node.heights, list)
    requires PairOk(a, t) && PairOk(t, a) && (t == b || (PairOk(b, t) && PairOk(t, b)))
    requires Fresh(a.party, a.node.dag, NewBody(a, b, list, x)) && Fresh(a.party, b.node.dag, NewBody(a, b, list, x))
    requires Fresh(a.party, t.node.dag, NewBody(a, b, list, x))
    ensures var a' := Peer(a.party, Pulled(a, b, list, Some(x)).node);
            PairOk(a', t) && PairOk(t, a')
  {
    ReceivedPairs(a, b, list, t);
    PullParts(a, b, list, x);
    ReadyAfter(a, b, list, x);
    OwnWorksPairs(Peer(a.party, Received(a, b, list).node), OtherHead(a, b, list), x, t);
  }

  /** A pull, with or without an event of one's own, succeeds and brings everything. */
  lemma PullSucceeds(net: Network, mv: Move)
    requires Healthy(net) && Possible(net, mv)
    ensures var r := Pulled(net[mv.to], net[mv.from], mv.list, mv.payload);
            && r.failure.None? && PeerOk(Peer(net[mv.to].party, r.node))
            && net[mv.from].node.dag.events.Keys <= r.node.dag.events.Keys
  {
    var a, b := net[mv.to], net[mv.from];
    assert PeerOk(a) && PairOk(a, b);
    match mv.payload {
      case None => ReceivedWorks(a, b, mv.list); PullParts(a, b, mv.list, NO_PAYLOAD);
      case Some(x) => PullWorks(a, b, mv.list, x);
    }
  }

  /** Every pull in a healthy network succeeds and leaves it healthy. */
  lemma MoveKeeps(net: Network, mv: Move)
    requires Healthy(net) && Possible(net, mv)
    ensures Pulled(net[mv.to], net[mv.from], mv.list, mv.payload).failure.None?
    ensures net[mv.from].node.dag.events.Keys <= Next(net, mv)[mv.to].node.dag.events.Keys
    ensures Healthy(Next(net, mv))
  {
    var net', to := Next(net, mv), mv.to;
    PullSucceeds(net, mv);
    forall i | 0 <= i < |net'| ensures PeerOk(net'[i]) {
      if i != to { assert PeerOk(net[i]); }
    }
    forall i, j | 0 <= i < |net'| && 0 <= j < |net'| && i != j ensures PairOk(net'[i], net'[j]) {
      if i == to {
        PullThird(net, mv, j);
      } else if j == to {
        PullThird(net, mv, i);
      } else {
        assert PairOk(net[i], net[j]);
      }
    }
  }

  lemma PullThird(net: Network, mv: Move, k: nat)
    requires Healthy(net) && Possible(net, mv) && k < |net| && k != mv.to
    ensures PairOk(Next(net, mv)[mv.to], net[k]) && PairOk(net[k], Next(net, mv)[mv.to])
  {
    var a, b := net[mv.to], net[mv.from];
    assert PeerOk(a) && PairOk(a, b) && PairOk(a, net[k]) && PairOk(net[k], a);
    if k != mv.from { assert PairOk(b, net[k]) && PairOk(net[k], b); }
    match mv.payload {
      case None => ReceivedPairs(a, b, mv.list, net[k]); PullParts(a, b, mv.list, NO_PAYLOAD);
      case Some(x) => PullPairs(a, b, mv.list, x, net[k]);
    }
  }

  /** All the moves are possible, one after the other. */
  ghost predicate Moves(net: Network, mvs: seq<Move>)
    decreases |mvs|
  {
    mvs == [] || (Possible(net, mvs[0]) && Moves(Next(net, mvs[0]), mvs[1..]))
  }

  ghost predicate NeverFails(net: Network, mvs: seq<Move>)
    requires Moves(net, mvs)
    decreases |mvs|
  {
    mvs == [] || (Pulled(net[mvs[0].to], net[mvs[0].from], mvs[0].list, mvs[0].payload).failure.None?
                  && NeverFails(Next(net, mvs[0]), mvs[1..]))
  }

  ghost function AfterMoves(net: Network, mvs: seq<Move>): Network
    requires Moves(net, mvs)
    decreases |mvs|
  {
    if mvs == [] then net else AfterMoves(Next(net, mvs[0]), mvs[1..])
  }

  /** The nodes of a network in which nothing has happened yet. */
  ghost predicate AtStart(net: Network, leaves: seq<Leaf>, quorum: nat, k: Crypto) {
    && GenesisOk(leaves, quorum)
    && (forall i {:trigger net[i]} :: 0 <= i < |net| ==> StartsAt(net[i], leaves, quorum, k))
    && (forall i, j :: 0 <= i < j < |net| ==> net[i].party.me != net[j].party.me)
  }

  ghost predicate StartsAt(p: Peer, leaves: seq<Leaf>, quorum: nat, k: Crypto) {
    && p.party.me < |leaves| && p.party.crypto == k && Signs(p.party)
    && p.node.dag == Genesis(leaves, quorum) && p.node.packets == map[] && p.node.head == leaves[p.party.me].hash
    && p.node.heights.Keys == p.node.dag.chains.Keys && forall c :: c in p.node.heights ==> p.node.heights[c] == 0
  }

  lemma StartOk(p: Peer, leaves: seq<Leaf>, quorum: nat, k: Crypto)
    requires GenesisOk(leaves, quorum) && StartsAt(p, leaves, quorum, k)
    ensures PeerOk(p)
  {
    var d := p.node.dag;
    GenesisInv(leaves, quorum);
    GenesisShape(leaves, quorum);
    forall c | c in d.chains ensures |d.chains[c]| == 1 { assert LeafStored(d, leaves, c); }
    forall h | h in d.events ensures IsLeaf(d.events[h]) {
      var c :| IsLeafOf(d, leaves, h, c);
      assert LeafStored(d, leaves, c);
    }
    assert LeafStored(d, leaves, p.party.me);
  }

  lemma StartHealthy(net: Network, leaves: seq<Leaf>, quorum: nat, k: Crypto)
    requires AtStart(net, leaves, quorum, k)
    ensures Healthy(net)
  {
    forall i | 0 <= i < |net| ensures PeerOk(net[i]) { StartOk(net[i], leaves, quorum, k); }
    forall i, j | 0 <= i < |net| && 0 <= j < |net| && i != j ensures PairOk(net[i], net[j]) {
      assert PeerOk(net[i]) && PeerOk(net[j]) && StartsAt(net[i], leaves, quorum, k)
          && StartsAt(net[j], leaves, quorum, k);
      GenesisShape(leaves, quorum);
      assert LeafStored(net[i].node.dag, leaves, net[i].party.me);
    }
  }

  /**
   Whatever the nodes pull from each other and in whatever order, no exchange fails, all nodes stay in order with
   each other, and any two of them derive the same fields for every event they share.
   */
  lemma {:induction false} NetworkRuns(net: Network, mvs: seq<Move>)
    requires Healthy(net) && Moves(net, mvs)
    ensures NeverFails(net, mvs) && Healthy(AfterMoves(net, mvs)) && |AfterMoves(net, mvs)| == |net|
    decreases |mvs|
  {
    if mvs != [] {
      MoveKeeps(net, mvs[0]);
      NetworkRuns(Next(net, mvs[0]), mvs[1..]);
    }
  }

  // ------------------------------------------------------------------------------------------
  // What the events carry
  // ------------------------------------------------------------------------------------------

  ghost predicate SameWhereBoth(a: Packets, b: Packets) {
    forall h {:trigger h in a} {:trigger h in b} :: h in a && h in b ==> a[h] == b[h]
  }

  /** Any two nodes that hold an event hold it with the same contents. */
  ghost predicate Alike(net: Network) {
    forall i, j {:trigger SameWhereBoth(net[i].node.packets, net[j].node.packets)} ::
      0 <= i < |net| && 0 <= j < |net| ==> SameWhereBoth(net[i].node.packets, net[j].node.packets)
  }

  /** After an exchange every message is the receiver's or the sender's. */
  lemma MergedPackets(k: Crypto, d0: Dag, d: Dag, s: Dag, a: Packets, p: Packets, b: Packets, h: Hash)
    requires Filed(k, d0, a) && Filed(k, d, p) && Filed(k, s, b) && h in p
    requires d.events.Keys == d0.events.Keys + s.events.Keys && (h in d0.events ==> d.events[h] == d0.events[h])
    requires (h in s.events ==> d.events[h].msg == s.events[h].msg) && KeptPackets(a, p)
    requires h in b && h !in d0.events ==> p[h] == b[h]
    ensures (h in a && p[h] == a[h]) || (h in b && p[h] == b[h])
  {
    assert h in d.events && !IsLeaf(d.events[h]);
    if h in d0.events { assert h in a; } else { assert h in b; }
  }

  lemma CaughtAlike(a: Peer, b: Peer, n: Node, t: Packets)
    requires PeerOk(a) && PairOk(a, b) && Caught(a.party, a.node, n, b.node)
    requires SameWhereBoth(a.node.packets, t) && SameWhereBoth(b.node.packets, t)
    ensures SameWhereBoth(n.packets, t)
  {
    forall h | h in n.packets && h in t ensures n.packets[h] == t[h] {
      MergedPackets(a.party.crypto, a.node.dag, n.dag, b.node.dag, a.node.packets, n.packets, b.node.packets, h);
    }
  }

  lemma OwnAlike(w: Party, n: Node, n': Node, other: Hash, x: Payload, t: Packets)
    requires OwnEventMade(w, n, n', other, x) && SameWhereBoth(n.packets, t) && n'.head !in t
    ensures SameWhereBoth(n'.packets, t)
  {}

  /**
   A pull with a payload makes an event of the receiver's own that carries it, with the last known event of the sender
   as its other parent; nobody has held an event of that hash before.
   */
  lemma PullMakes(net: Network, mv: Move, x: Payload)
    requires Healthy(net) && Possible(net, mv) && mv.payload == Some(x)
    ensures var a, b := net[mv.to], net[mv.from];
            var got, n' := Received(a, b, mv.list).node, Next(net, mv)[mv.to].node;
            && OwnEventMade(a.party, got, n', LastOf(a.party, got.dag, b.party.me), x)
            && forall k {:trigger net[k]} :: 0 <= k < |net| ==> n'.head !in net[k].node.dag.events
  {
    var a, b := net[mv.to], net[mv.from];
    assert PeerOk(a) && PairOk(a, b);
    var got := Received(a, b, mv.list).node;
    PullWorks(a, b, mv.list, x);
    PullParts(a, b, mv.list, x);
    OtherHeadIsLast(a, b, mv.list);
    OwnEventCarries(a.party, got, OtherHead(a, b, mv.list), x);
    OwnHead(a.party, got, OtherHead(a, b, mv.list), x);
  }

  lemma OtherHeadIsLast(a: Peer, b: Peer, list: seq<Hash>)
    requires PeerOk(a) && PairOk(a, b) && IsDiff(b.node.dag, a.node.heights, list)
    ensures OtherHead(a, b, list) == LastOf(a.party, Received(a, b, list).node.dag, b.party.me)
  {
    assert WireAll(b.node, list)[..|list|] == WireAll(b.node, list);
    PeerHeadIsLast(a.party, a.node, b.party, b.node, list, b.party.me, |list|);
  }

  lemma OwnHead(w: Party, n: Node, other: Hash, x: Payload)
    ensures var r := SelfEvent(w, n, other, x);
            r.failure.None? ==> r.node.head == w.crypto.hash(BodyOf(w, n, other, x))
  {}

  lemma ReceivedKeeps(a: Peer, b: Peer, list: seq<Hash>, t: Packets)
    requires PeerOk(a) && PairOk(a, b) && IsDiff(b.node.dag, a.node.heights, list)
    requires SameWhereBoth(a.node.packets, t) && SameWhereBoth(b.node.packets, t)
    ensures var got := Received(a, b, list).node;
            SameWhereBoth(got.packets, t) && KeptPackets(a.node.packets, got.packets)
  {
    ReceivedWorks(a, b, list);
    CaughtAlike(a, b, Received(a, b, list).node, t);
  }

  /** What the receiver of a pull holds. */
  lemma PullKeeps(net: Network, mv: Move, t: Packets)
    requires Healthy(net) && Possible(net, mv)
    requires SameWhereBoth(net[mv.to].node.packets, t) && SameWhereBoth(net[mv.from].node.packets, t)
    requires mv.payload.Some? ==> Next(net, mv)[mv.to].node.head !in t
    ensures SameWhereBoth(Next(net, mv)[mv.to].node.packets, t)
    ensures KeptPackets(net[mv.to].node.packets, Next(net, mv)[mv.to].node.packets)
  {
    var a, b := net[mv.to], net[mv.from];
    assert PeerOk(a) && PairOk(a, b);
    ReceivedKeeps(a, b, mv.list, t);
    match mv.payload {
      case None => PullParts(a, b, mv.list, NO_PAYLOAD);
      case Some(x) =>
        PullMakes(net, mv, x);
        var got, n' := Received(a, b, mv.list).node, Next(net, mv)[mv.to].node;
        var other := LastOf(a.party, got.dag, b.party.me);
        OwnAlike(a.party, got, n', other, x, t);
        KeptByOwn(a, b, got, n', other, x);
    }
  }

  lemma KeptByOwn(a: Peer, b: Peer, got: Node, n': Node, other: Hash, x: Payload)
    requires NodeOk(a.party, a.node) && KeptPackets(a.node.packets, got.packets)
    requires OwnEventMade(a.party, got, n', other, x) && n'.head !in a.node.dag.events
    ensures KeptPackets(a.node.packets, n'.packets)
  {}

  lemma MoveAlike(net: Network, mv: Move)
    requires Healthy(net) && Alike(net) && Possible(net, mv)
    ensures Alike(Next(net, mv)) && KeptPackets(net[mv.to].node.packets, Next(net, mv)[mv.to].node.packets)
  {
    var net', to := Next(net, mv), mv.to;
    forall k | 0 <= k < |net| && k != to ensures SameWhereBoth(net'[to].node.packets, net[k].node.packets) {
      PullThirdAlike(net, mv, k);
    }
    forall i, j | 0 <= i < |net'| && 0 <= j < |net'|
      ensures SameWhereBoth(net'[i].node.packets, net'[j].node.packets)
    {
      if i != to && j != to {
        assert SameWhereBoth(net[i].node.packets, net[j].node.packets);
      } else if i == to && j != to {
        assert SameWhereBoth(net'[to].node.packets, net[j].node.packets);
      } else if j == to && i != to {
        assert SameWhereBoth(net'[to].node.packets, net[i].node.packets);
      }
    }
    PullThirdAlike(net, mv, mv.from);
  }

  lemma PullThirdAlike(net: Network, mv: Move, k: nat)
    requires Healthy(net) && Alike(net) && Possible(net, mv) && k < |net|
    ensures SameWhereBoth(Next(net, mv)[mv.to].node.packets, net[k].node.packets)
    ensures KeptPackets(net[mv.to].node.packets, Next(net, mv)[mv.to].node.packets)
  {
    assert PeerOk(net[k]);
    assert SameWhereBoth(net[mv.to].node.packets, net[k].node.packets);
    assert SameWhereBoth(net[mv.from].node.packets, net[k].node.packets);
    if mv.payload.Some? { PullMakes(net, mv, mv.payload.value); }
    PullKeeps(net, mv, net[k].node.packets);
  }

  /** Over any run, what a node holds stays as it is, and whoever else holds it holds the same. */
  lemma {:induction false} NetworkAlike(net: Network, mvs: seq<Move>)
    requires Healthy(net) && Alike(net) && Moves(net, mvs)
    ensures Alike(AfterMoves(net, mvs)) && |AfterMoves(net, mvs)| == |net|
    ensures forall i {:trigger net[i]} :: 0 <= i < |net| ==>
              KeptPackets(net[i].node.packets, AfterMoves(net, mvs)[i].node.packets)
    decreases |mvs|
  {
    if mvs != [] {
      var net' := Next(net, mvs[0]);
      MoveKeeps(net, mvs[0]);
      MoveAlike(net, mvs[0]);
      NetworkAlike(net', mvs[1..]);
      forall i {:trigger net[i]} | 0 <= i < |net|
        ensures KeptPackets(net[i].node.packets, AfterMoves(net, mvs)[i].node.packets)
      {
        assert KeptPackets(net[i].node.packets, net'[i].node.packets);
        assert KeptPackets(net'[i].node.packets, AfterMoves(net', mvs[1..])[i].node.packets);
      }
    }
  }

  /**
   What a node puts into its own event arrives unchanged: whatever is pulled afterwards, everybody who holds the event
   holds it with that payload. By `MoveKeeps`, whoever pulls from somebody who holds it comes to hold it.
   */
  lemma PayloadSpreads(net: Network, mv: Move, x: Payload, mvs: seq<Move>, k: nat)
    requires Healthy(net) && Alike(net) && Possible(net, mv) && mv.payload == Some(x)
    requires Moves(Next(net, mv), mvs) && k < |net|
    ensures |AfterMoves(Next(net, mv), mvs)| == |net|
    ensures var h, far := Next(net, mv)[mv.to].node.head, AfterMoves(Next(net, mv), mvs)[k].node;
            h in far.dag.events ==>
              && h in far.packets && Carries(far.packets[h].body, x)
              && far.packets[h].body.creator == net[mv.to].party.me
  {
    var net1 := Next(net, mv);
    PullMakes(net, mv, x);
    MoveKeeps(net, mv);
    MoveAlike(net, mv);
    NetworkRuns(net1, mvs);
    NetworkAlike(net1, mvs);
    var net2, h := AfterMoves(net1, mvs), net1[mv.to].node.head;
    assert KeptPackets(net1[mv.to].node.packets, net2[mv.to].node.packets);
    if h in net2[k].node.dag.events { HeldWithPacket(net2, mv.to, k, h); }
  }

  lemma HeldWithPacket(net: Network, i: nat, k: nat, h: Hash)
    requires Healthy(net) && Alike(net) && i < |net| && k < |net|
    requires h in net[i].node.packets && h in net[k].node.dag.events
    ensures h in net[k].node.packets && net[k].node.packets[h] == net[i].node.packets[h]
  {
    assert PeerOk(net[i]) && PeerOk(net[k]);
    if i != k { assert PairOk(net[i], net[k]); }
    assert SameWhereBoth(net[i].node.packets, net[k].node.packets);
  }

  lemma StartAlike(net: Network, leaves: seq<Leaf>, quorum: nat, k: Crypto)
    requires AtStart(net, leaves, quorum, k)
    ensures Alike(net)
  {
    forall i, j | 0 <= i < |net| && 0 <= j < |net| ensures SameWhereBoth(net[i].node.packets, net[j].node.packets) {
      assert StartsAt(net[i], leaves, quorum, k) && StartsAt(net[j], leaves, quorum, k);
    }
  }

  /**
   From common leaves, whatever the nodes pull from each other, no exchange fails, and any two of them have the same
   derived fields and the same contents for every event they share.
   */
  lemma NetworkSafe(net: Network, leaves: seq<Leaf>, quorum: nat, k: Crypto, mvs: seq<Move>, i: nat, j: nat, h: Hash)
    requires AtStart(net, leaves, quorum, k) && Moves(net, mvs) && i < |net| && j < |net| && i != j
    ensures NeverFails(net, mvs) && |AfterMoves(net, mvs)| == |net|
    ensures var a, b := AfterMoves(net, mvs)[i].node.dag, AfterMoves(net, mvs)[j].node.dag;
            h in a.events && h in b.events ==> SameDerived(a.events[h], b.events[h])
    ensures SameWhereBoth(AfterMoves(net, mvs)[i].node.packets, AfterMoves(net, mvs)[j].node.packets)
  {
    StartHealthy(net, leaves, quorum, k);
    StartAlike(net, leaves, quorum, k);
    NetworkRuns(net, mvs);
    NetworkAlike(net, mvs);
    var net' := AfterMoves(net, mvs);
    assert PairOk(net'[i], net'[j]);
    assert SameWhereBoth(net'[i].node.packets, net'[j].node.packets);
    if h in net'[i].node.dag.events && h in net'[j].node.dag.events {
      SameEvent(net'[i].node.dag, net'[j].node.dag, h);
    }
  }

  // ------------------------------------------------------------------------------------------
  // Two nodes as objects
  // ------------------------------------------------------------------------------------------

  /** One round of gossip: the receiver tells its heights, the sender answers, the receiver takes the answer in. */
  method Pull(receiver: Core, sender: Core) returns (failure: Option<Failure>)
    requires receiver != sender && Partners(receiver.party, receiver.State(), sender.party, sender.State())
    requires Able(receiver.party, receiver.State(), sender.State())
    modifies receiver
    ensures Caught(receiver.party, old(receiver.State()), receiver.State(), sender.State())
    ensures failure.None? && Knows(receiver.dag, sender.dag)
  {
    ghost var n, s := receiver.State(), sender.State();
    NoLowHeight(receiver.party, n);
    var wires, list := sender.EventDiff(receiver.heights);
    ExchangeExact(receiver.party, n, sender.party, s, list);
    ExchangeDelivers(receiver.party, n, sender.party, s, list);
    failure := receiver.Sync(sender.party.me, wires.value, None);
  }

  lemma NoLowHeight(w: Party, n: Node)
    requires NodeOk(w, n)
    ensures forall c :: c in n.heights ==> n.heights[c] >= 0
  {}
}

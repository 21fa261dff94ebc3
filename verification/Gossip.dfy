/**
 Exchanging events between two nodes (src/node/core.go): the sender lists what the receiver does not know, the
 events travel with indexes instead of hashes (src/poset/event.go), and the receiver rebuilds and inserts them.
 */
module Gossip {
  import opened Wrappers
  import opened EventDag
  import opened DagInvariant
  import opened DagOrder
  import opened GossipWire

  // ------------------------------------------------------------------------------------------
  // Two nodes that hold parts of the same chains
  // ------------------------------------------------------------------------------------------

  predicate PrefixRelated(a: seq<Hash>, b: seq<Hash>) {
    a <= b || b <= a
  }

  /** The same participants, no creator with two different chains, and the same message under every shared hash. */
  ghost predicate Kin(d: Dag, s: Dag) {
    && Agree(d, s) && d.chains.Keys == s.chains.Keys
    && forall c {:trigger d.chains[c]} {:trigger s.chains[c]} :: c in d.chains ==>
        PrefixRelated(d.chains[c], s.chains[c])
  }

  /** The other node has none of this node's events that it lacks itself. */
  ghost predicate Leads(d: Dag, s: Dag, me: Creator) {
    me in d.chains && me in s.chains && s.chains[me] <= d.chains[me]
  }

  /**
   The height `own` that a node has for itself serves for this exchange: it is right, or the other node has nothing
   of this node's that it lacks and nothing above that height.
   */
  ghost predicate Covers(d: Dag, s: Dag, me: Creator, own: int) {
    && me in d.chains && me in s.chains
    && (own == |d.chains[me]| - 1 || (s.chains[me] <= d.chains[me] && own >= |s.chains[me]| - 1))
  }

  /** The height serves at least for an event `h` of another creator. */
  ghost predicate Serves(d: Dag, s: Dag, me: Creator, own: int, h: Hash) {
    Covers(d, s, me, own) || (me in d.chains && own < |d.chains[me]| && Lookup(s, h).msg.creator != me)
  }

  /** What the other node has at a height that this one has reached, this one has too. */
  lemma KnownShared(d: Dag, s: Dag, h: Hash)
    requires Inv(d) && Inv(s) && Kin(d, s) && h in s.events
    requires s.events[h].msg.creator in d.chains ==> s.events[h].msg.index < |d.chains[s.events[h].msg.creator]|
    ensures h in d.events
  {
    var m := s.events[h].msg;
    assert EventChained(s, h);
    assert d.chains[m.creator][m.index] == h;
    assert LinkOk(d, m.creator, m.index);
  }

  /** An event of the other node whose parents are here already is accepted. */
  lemma Acceptable(d: Dag, s: Dag, m: Message)
    requires Inv(d) && Inv(s) && Kin(d, s)
    requires m.hash in s.events && s.events[m.hash].msg == m && !IsLeaf(s.events[m.hash]) && m.signed
    requires m.hash !in d.events && m.selfParent in d.events && (m.otherParent == 0 || m.otherParent in d.events)
    ensures Honest(d, m) && Insert(d, m).Ok?
  {
    assert EventClosed(s, m.hash) && EventChained(s, m.hash);
    assert EventChained(d, m.selfParent) && EventClosed(s, m.selfParent);
    var c := m.creator;
    assert PrefixRelated(d.chains[c], s.chains[c]);
    if |d.chains[c]| > m.index { KnownShared(d, s, m.hash); }
    LookupNeverFails(d, m);
  }

  /** The chain with one more event is still a part of the longer one. */
  lemma ChainGrows(a: seq<Hash>, b: seq<Hash>, h: Hash)
    requires PrefixRelated(a, b) && |a| < |b| && b[|a|] == h
    ensures a + [h] <= b
  {}

  /** Inserting it leaves the two nodes akin. */
  lemma StaysKin(d: Dag, s: Dag, m: Message)
    requires Inv(d) && Inv(s) && Kin(d, s) && Honest(d, m) && Insert(d, m).Ok?
    requires m.hash in s.events && s.events[m.hash].msg == m && m.hash !in d.events && !IsLeaf(s.events[m.hash])
    ensures Kin(Insert(d, m).value, s)
  {
    var d', c := Insert(d, m).value, m.creator;
    assert EventChained(s, m.hash);
    ChainGrows(d.chains[c], s.chains[c], m.hash);
    assert d'.chains[c] == d.chains[c] + [m.hash];
    forall x {:trigger d'.chains[x]} {:trigger s.chains[x]} | x in d'.chains
      ensures PrefixRelated(d'.chains[x], s.chains[x])
    {
      if x != c { assert d'.chains[x] == d.chains[x]; }
    }
  }

  lemma OneMoreEvent(d: Dag, m: Message)
    requires Insert(d, m).Ok? && m.hash !in d.events
    ensures var d' := Insert(d, m).value;
            && d'.events.Keys == d.events.Keys + {m.hash} && d'.events[m.hash].msg == m
            && forall h {:trigger d'.events[h]} :: h in d.events ==> d'.events[h] == d.events[h]
  {}

  // ------------------------------------------------------------------------------------------
  // What a node stores
  // ------------------------------------------------------------------------------------------

  type Packets = map<Hash, Packet>

  /** Every event but the leaves has its message, with the right names for its parents. */
  ghost predicate Filed(k: Crypto, d: Dag, packets: Packets) {
    && (forall h :: h in packets <==> h in d.events && !IsLeaf(d.events[h]))
    && forall h {:trigger packets[h]} :: h in packets ==>
         d.events[h].msg == MessageOf(k, packets[h]) && d.events[h].msg.signed && Named(d, packets[h])
  }

  /**
   Another participant's height is the index of its last event here. The node's own height is not tied to its chain:
   it moves before its event is accepted, and does not move when its event comes from elsewhere.
   */
  ghost predicate HeightsOk(d: Dag, me: Creator, heights: map<Creator, int>) {
    && heights.Keys == d.chains.Keys
    && forall c {:trigger heights[c]} :: c in heights ==>
         heights[c] >= 0 && (c != me ==> heights[c] == |d.chains[c]| - 1)
  }

  function HeightIn(known: map<Creator, int>, c: Creator): int {
    if c in known then known[c] else 0
  }

  /** Names stay right when a node learns more. */
  lemma StaysNamed(d: Dag, d': Dag, p: Packet)
    requires Named(d, p) && forall h {:trigger h in d.events} {:trigger h in d'.events} :: h in d.events ==>
               h in d'.events && d'.events[h] == d.events[h]
    ensures Named(d', p)
  {}

  lemma FiledMore(k: Crypto, d: Dag, d': Dag, packets: Packets, p: Packet, m: Message)
    requires Filed(k, d, packets) && Named(d, p) && 0 !in d.events && m == MessageOf(k, p) && m.signed && m.index > 0
    requires m.hash !in d.events && d'.events.Keys == d.events.Keys + {m.hash} && d'.events[m.hash].msg == m
    requires forall h {:trigger d'.events[h]} :: h in d.events ==> d'.events[h] == d.events[h]
    ensures Filed(k, d', packets[m.hash := p])
  {
    var packets' := packets[m.hash := p];
    StaysNamed(d, d', p);
    forall h {:trigger packets'[h]} | h in packets'
      ensures h in d'.events && d'.events[h].msg == MessageOf(k, packets'[h]) && d'.events[h].msg.signed
                && Named(d', packets'[h])
    {
      if h != m.hash {
        assert packets'[h] == packets[h];
        StaysNamed(d, d', packets[h]);
      }
    }
  }

  // ------------------------------------------------------------------------------------------
  // What the receiver does not know
  // ------------------------------------------------------------------------------------------

  /** An event above the height known of its creator. */
  predicate Unknown(d: Dag, known: map<Creator, int>, h: Hash) {
    h in d.events && d.events[h].msg.creator in known && d.events[h].msg.index > known[d.events[h].msg.creator]
  }

  function TopoOf(d: Dag, h: Hash): nat {
    if h in d.events then d.events[h].topo else 0
  }

  ghost predicate Sorted(d: Dag, hs: seq<Hash>) {
    forall i, j :: 0 <= i < j < |hs| ==> TopoOf(d, hs[i]) <= TopoOf(d, hs[j])
  }

  ghost predicate Distinct(hs: seq<Hash>) {
    forall i, j :: 0 <= i < j < |hs| ==> hs[i] != hs[j]
  }

  /** Exactly the unknown events, each once, in the sender's order of insertion. */
  ghost predicate IsDiff(d: Dag, known: map<Creator, int>, hs: seq<Hash>) {
    && Sorted(d, hs) && Distinct(hs)
    && forall h :: h in hs <==> Unknown(d, known, h)
  }

  /** The receiver `d0` has become `d` by taking in the first `i` events of the list. */
  ghost predicate Synced(d0: Dag, d: Dag, s: Dag, hs: seq<Hash>, i: nat) {
    && i <= |hs| && Inv(d) && Kin(d, s)
    && (forall h {:trigger h in d.events} :: h in d.events <==> h in d0.events || h in hs[..i])
    && forall h {:trigger d.events[h]} :: h in d0.events ==> d.events[h] == d0.events[h]
  }

  /** What is not above the receiver's heights is here from the start. */
  lemma AlreadyHere(d: Dag, s: Dag, me: Creator, known: map<Creator, int>, h: Hash)
    requires Inv(d) && Inv(s) && Kin(d, s) && HeightsOk(d, me, known) && h in s.events && !Unknown(s, known, h)
    requires Covers(d, s, me, HeightIn(known, me)) || (me in d.chains && HeightIn(known, me) < |d.chains[me]|)
    ensures h in d.events
  {
    assert EventChained(s, h);
    KnownShared(d, s, h);
  }

  /** Whatever the sender had before the next event, the receiver has by now. */
  lemma EarlierHere(d0: Dag, d: Dag, s: Dag, me: Creator, known: map<Creator, int>, hs: seq<Hash>, i: nat, q: Hash)
    requires Inv(d0) && Inv(s) && Kin(d0, s) && HeightsOk(d0, me, known)
    requires Covers(d0, s, me, HeightIn(known, me)) || (me in d0.chains && HeightIn(known, me) < |d0.chains[me]|)
    requires IsDiff(s, known, hs) && Synced(d0, d, s, hs, i)
    requires i < |hs| && q in s.events && s.events[q].topo < TopoOf(s, hs[i])
    ensures q in d.events
  {
    var c := s.events[q].msg.creator;
    assert EventChained(s, q);
    if s.events[q].msg.index <= known[c] {
      AlreadyHere(d0, s, me, known, q);
    } else {
      assert Unknown(s, known, q);
      var j: nat :| j < |hs| && hs[j] == q;
      OrderOf(s, hs, i, j);
      assert hs[..i][j] == q;
    }
  }

  lemma OrderOf(d: Dag, hs: seq<Hash>, i: nat, j: nat)
    requires Sorted(d, hs) && i < |hs| && j < |hs|
    ensures j < i || TopoOf(d, hs[i]) <= TopoOf(d, hs[j])
  {}

  lemma NotBefore(hs: seq<Hash>, i: nat)
    requires Distinct(hs) && i < |hs|
    ensures hs[i] !in hs[..i]
  {
    forall j | 0 <= j < i ensures hs[..i][j] != hs[i] { assert hs[j] != hs[i]; }
  }

  lemma NotThere(d0: Dag, d: Dag, s: Dag, me: Creator, known: map<Creator, int>, hs: seq<Hash>, i: nat)
    requires Inv(d0) && Inv(s) && HeightsOk(d0, me, known) && Kin(d0, s) && IsDiff(s, known, hs)
    requires Synced(d0, d, s, hs, i) && i < |hs| && Serves(d0, s, me, HeightIn(known, me), hs[i])
    ensures hs[i] !in d.events
  {
    var h := hs[i];
    assert Unknown(s, known, h);
    assert EventChained(s, h);
    assert h in d0.events ==> EventChained(d0, h);
    NotBefore(hs, i);
  }

  lemma SyncedMore(d0: Dag, d: Dag, s: Dag, hs: seq<Hash>, i: nat, m: Message)
    requires Inv(s) && Synced(d0, d, s, hs, i) && i < |hs| && m.hash == hs[i] && Honest(d, m) && Insert(d, m).Ok?
               && m.hash !in d.events
    requires m.hash in s.events && s.events[m.hash].msg == m && !IsLeaf(s.events[m.hash])
    ensures Synced(d0, Insert(d, m).value, s, hs, i + 1)
  {
    assert Kin(Insert(d, m).value, s) by { StaysKin(d, s, m); }
    assert Inv(Insert(d, m).value) by { InsertKeepsInv(d, m); }
    OneMoreEvent(d, m);
    EventsMore(d0.events, d.events, Insert(d, m).value.events, hs, i);
  }

  lemma EventsMore(e0: map<Hash, Event>, e: map<Hash, Event>, e': map<Hash, Event>, hs: seq<Hash>, i: nat)
    requires i < |hs| && (forall h {:trigger h in e} :: h in e <==> h in e0 || h in hs[..i]) && hs[i] !in e
    requires (forall h {:trigger e[h]} :: h in e0 ==> e[h] == e0[h])
    requires e'.Keys == e.Keys + {hs[i]} && forall h {:trigger e'[h]} :: h in e ==> e'[h] == e[h]
    ensures forall h {:trigger h in e'} :: h in e' <==> h in e0 || h in hs[..i + 1]
    ensures forall h {:trigger e'[h]} :: h in e0 ==> e'[h] == e0[h]
  {
    assert hs[..i + 1] == hs[..i] + [hs[i]];
  }

  /** The next event of the list is new to the receiver and is accepted. */
  lemma NextAccepted(d0: Dag, d: Dag, s: Dag, me: Creator, known: map<Creator, int>, hs: seq<Hash>, i: nat, m: Message)
    requires Inv(d0) && Inv(s) && Kin(d0, s) && HeightsOk(d0, me, known)
    requires IsDiff(s, known, hs) && Synced(d0, d, s, hs, i) && i < |hs|
    requires Serves(d0, s, me, HeightIn(known, me), hs[i])
    requires hs[i] in s.events && m == s.events[hs[i]].msg && m.signed && !IsLeaf(s.events[hs[i]])
    ensures m.hash == hs[i] && m.hash !in d.events && m.selfParent in d.events
              && (m.otherParent == 0 || m.otherParent in d.events)
    ensures Honest(d, m) && Insert(d, m).Ok?
  {
    assert EventClosed(s, hs[i]) && Unknown(s, known, hs[i]);
    NotThere(d0, d, s, me, known, hs, i);
    EarlierHere(d0, d, s, me, known, hs, i, m.selfParent);
    if m.otherParent != 0 { EarlierHere(d0, d, s, me, known, hs, i, m.otherParent); }
    Acceptable(d, s, m);
  }

  // ------------------------------------------------------------------------------------------
  // Listing what is unknown
  // ------------------------------------------------------------------------------------------

  /** One step of the stable sort by insertion order. */
  method InsertSorted(d: Dag, hs: seq<Hash>, h: Hash) returns (r: seq<Hash>)
    requires Sorted(d, hs) && Distinct(hs) && h !in hs
    ensures Sorted(d, r) && Distinct(r) && forall x :: x in r <==> x in hs || x == h
  {
    var i := |hs|;
    while i > 0 && TopoOf(d, hs[i - 1]) > TopoOf(d, h)
      invariant 0 <= i <= |hs| && (i < |hs| ==> TopoOf(d, hs[i]) > TopoOf(d, h))
    {
      i := i - 1;
    }
    SpliceSorted(d, hs, h, i);
    SpliceDistinct(hs, h, i);
    SpliceHas(hs, h, i);
    r := Splice(hs, h, i);
  }

  function Splice(hs: seq<Hash>, h: Hash, i: nat): (r: seq<Hash>)
    requires i <= |hs|
    ensures |r| == |hs| + 1
    ensures forall j :: 0 <= j < |r| ==> r[j] == if j < i then hs[j] else if j == i then h else hs[j - 1]
  {
    hs[..i] + [h] + hs[i..]
  }

  lemma SpliceHas(hs: seq<Hash>, h: Hash, i: nat)
    requires i <= |hs|
    ensures forall x :: x in Splice(hs, h, i) <==> x in hs || x == h
  {
    assert hs == hs[..i] + hs[i..];
  }

  lemma SpliceDistinct(hs: seq<Hash>, h: Hash, i: nat)
    requires i <= |hs| && Distinct(hs) && h !in hs
    ensures Distinct(Splice(hs, h, i))
  {}

  lemma SpliceSorted(d: Dag, hs: seq<Hash>, h: Hash, i: nat)
    requires i <= |hs| && Sorted(d, hs)
    requires i > 0 ==> TopoOf(d, hs[i - 1]) <= TopoOf(d, h)
    requires i < |hs| ==> TopoOf(d, hs[i]) > TopoOf(d, h)
    ensures Sorted(d, Splice(hs, h, i))
  {
    var r := Splice(hs, h, i);
    forall j, k | 0 <= j < k < |r| ensures TopoOf(d, r[j]) <= TopoOf(d, r[k]) {
      if j == i { assert k - 1 > i ==> TopoOf(d, hs[i]) <= TopoOf(d, hs[k - 1]); }
      if k == i { assert j < i - 1 ==> TopoOf(d, hs[j]) <= TopoOf(d, hs[i - 1]); }
    }
  }

  /** `sort.Stable` by topological index. */
  method SortByTopo(d: Dag, hs: seq<Hash>) returns (r: seq<Hash>)
    requires Distinct(hs)
    ensures Sorted(d, r) && Distinct(r) && forall h :: h in r <==> h in hs
  {
    r := [];
    for i := 0 to |hs|
      invariant Sorted(d, r) && Distinct(r) && forall h :: h in r <==> h in hs[..i]
    {
      NotBefore(hs, i);
      r := InsertSorted(d, r, hs[i]);
      assert hs[..i + 1] == hs[..i] + [hs[i]];
    }
    assert hs[..|hs|] == hs;
  }

  /** The events collected so far: all unknown ones of creators that are done. */
  ghost predicate Collected(d: Dag, known: map<Creator, int>, left: set<Creator>, hs: seq<Hash>) {
    Distinct(hs) && forall h :: h in hs <==> Unknown(d, known, h) && d.events[h].msg.creator !in left
  }

  /** `ParticipantEvents`: the part of a chain above an index; asking below the leaf is an error. */
  function Above(chain: seq<Hash>, skip: int): Option<seq<Hash>> {
    if skip >= |chain| then Some([]) else if skip < -1 then None else Some(chain[skip + 1..])
  }

  lemma CollectedMore(d: Dag, known: map<Creator, int>, left: set<Creator>, hs: seq<Hash>, c: Creator)
    requires Inv(d) && Collected(d, known, left, hs) && c in left && c in known && c in d.chains
    requires Above(d.chains[c], known[c]).Some?
    ensures Collected(d, known, left - {c}, hs + Above(d.chains[c], known[c]).value)
  {
    var more := Above(d.chains[c], known[c]).value;
    forall i | 0 <= i < |more|
      ensures more[i] in d.events && d.events[more[i]].msg.creator == c
                && d.events[more[i]].msg.index == known[c] + 1 + i
    {
      assert LinkOk(d, c, known[c] + 1 + i);
    }
    forall h | h in d.events && d.events[h].msg.creator == c && d.events[h].msg.index > known[c] ensures h in more {
      assert EventChained(d, h);
      assert more[d.events[h].msg.index - known[c] - 1] == h;
    }
  }

  lemma CollectedSkip(d: Dag, known: map<Creator, int>, left: set<Creator>, hs: seq<Hash>, c: Creator)
    requires Inv(d) && Collected(d, known, left, hs) && c !in d.chains
    ensures Collected(d, known, left - {c}, hs)
  {
    forall h | h in d.events ensures d.events[h].msg.creator != c { assert EventChained(d, h); }
  }

  // ------------------------------------------------------------------------------------------
  // A node and its steps, as values
  // ------------------------------------------------------------------------------------------

  /** What does not change: who the node is, and how it hashes, signs and names what is above the leaves. */
  datatype Party = Party(me: Creator, crypto: Crypto, sign: Body -> nat, rootParent: nat -> Hash)

  datatype Node = Node(dag: Dag, packets: Packets, heights: map<Creator, int>, head: Hash)

  datatype Failure = BadWire(wire: WireError) | Refused(error: Error) | UnknownPeer | NoParents

  /** The node after a step, and what went wrong if something did. */
  datatype Step = Step(node: Node, failure: Option<Failure>)

  /** What goes into a node's own event. */
  datatype Payload = Payload(transactions: Slice, internalTransactions: seq<nat>, signatures: seq<BlockSignature>)

  /** The stored message of an event; leaves carry no signature. */
  function Sent(n: Node, h: Hash): Packet {
    if h in n.packets then n.packets[h] else
    var c := Lookup(n.dag, h).msg.creator;
    Packet(Body(NilSlice, [], 0, 0, c, 0, []), 0, WireInfo(0, 0, 0, IdOf(c)))
  }

  function WireAll(n: Node, hs: seq<Hash>): seq<Wire> {
    seq(|hs|, i requires 0 <= i < |hs| => ToWire(Sent(n, hs[i])))
  }

  /** `InsertEvent`: an event of the node's own becomes its head, any other one moves its creator's height. */
  function AddEvent(w: Party, n: Node, p: Packet): Step {
    match Insert(n.dag, MessageOf(w.crypto, p))
    case Err(e) => Step(n, Some(Refused(e)))
    case Ok(d) =>
      var h := w.crypto.hash(p.body);
      var packets := n.packets[h := p];
      if p.body.creator == w.me then Step(Node(d, packets, n.heights, h), None)
      else Step(Node(d, packets, n.heights[p.body.creator := p.body.index], n.head), None)
  }

  /** One received event; `known` are the heights when the exchange began. */
  function TakeOne(w: Party, n: Node, known: map<Creator, int>, wire: Wire): Step {
    match ReadWire(n.dag, wire, w.rootParent)
    case Err(e) => Step(n, Some(BadWire(e)))
    case Ok(p) => if p.body.index > HeightIn(known, p.body.creator) then AddEvent(w, n, p) else Step(n, None)
  }

  /** The received events one after the other, up to the first that fails. */
  function TakeAll(w: Party, n: Node, known: map<Creator, int>, wires: seq<Wire>): Step {
    if wires == [] then Step(n, None) else
    var before := TakeAll(w, n, known, wires[..|wires| - 1]);
    if before.failure.Some? then before else TakeOne(w, before.node, known, wires[|wires| - 1])
  }

  function LastOf(w: Party, d: Dag, c: Creator): Hash {
    if c in d.chains && d.chains[c] != [] then d.chains[c][|d.chains[c]| - 1] else w.rootParent(IdOf(c))
  }

  function BodyOf(w: Party, n: Node, other: Hash, x: Payload): Body {
    Body(x.transactions, x.internalTransactions, n.head, other, w.me, HeightIn(n.heights, w.me) + 1, x.signatures)
  }

  /** `setWireInfo` and the signature. */
  function Addressed(w: Party, d: Dag, b: Body): Packet {
    var self, other := Lookup(d, b.selfParent), Lookup(d, b.otherParent);
    Packet(b, w.sign(b), WireInfo(self.msg.index, IdOf(other.msg.creator), other.msg.index, IdOf(b.creator)))
  }

  function Taller(w: Party, n: Node): Node {
    n.(heights := n.heights[w.me := HeightIn(n.heights, w.me) + 1])
  }

  /** `AddSelfEventBlock`: the height is taken first, and is not given back when the event fails. */
  function SelfEvent(w: Party, n: Node, other: Hash, x: Payload): Step {
    if n.head in n.dag.events && other in n.dag.events
    then AddEvent(w, Taller(w, n), Addressed(w, n.dag, BodyOf(w, n, other, x)))
    else Step(Taller(w, n), Some(NoParents))
  }

  /** A received event of the peer becomes the other parent to be. */
  function HeadAfter(w: Party, d: Dag, peer: Creator, head: Hash, wire: Wire): Hash {
    match ReadWire(d, wire, w.rootParent)
    case Err(_) => head
    case Ok(p) => if p.body.creator == peer then w.crypto.hash(p.body) else head
  }

  /** The last event of the peer among those received, or the last one of it that was here. */
  function PeerHead(w: Party, n: Node, known: map<Creator, int>, peer: Creator, wires: seq<Wire>): Hash {
    if wires == [] then LastOf(w, n.dag, peer) else
    var rest := wires[..|wires| - 1];
    HeadAfter(w, TakeAll(w, n, known, rest).node.dag, peer, PeerHead(w, n, known, peer, rest), wires[|wires| - 1])
  }

  /** `Sync`: take the events in, then add an event of one's own if there is something to put in it. */
  function SyncStep(w: Party, n: Node, peer: Creator, wires: seq<Wire>, x: Option<Payload>): Step {
    if peer !in n.dag.chains then Step(n, Some(UnknownPeer)) else
    var got := TakeAll(w, n, n.heights, wires);
    if got.failure.Some? || x.None? then got
    else SelfEvent(w, got.node, PeerHead(w, n, n.heights, peer, wires), x.value)
  }

  // ------------------------------------------------------------------------------------------
  // What every node keeps
  // ------------------------------------------------------------------------------------------

  ghost predicate NodeOk(w: Party, n: Node) {
    && Inv(n.dag) && Filed(w.crypto, n.dag, n.packets) && HeightsOk(n.dag, w.me, n.heights)
    && w.me in n.dag.chains && n.head == LastOf(w, n.dag, w.me)
  }

  /** The node's own height is the index of its last event. */
  ghost predicate Current(w: Party, n: Node)
    requires NodeOk(w, n)
  {
    n.heights[w.me] == |n.dag.chains[w.me]| - 1
  }

  /** What is sent for an event, leaves included, names its creator, index and parents as they are stored. */
  lemma SentAsStored(w: Party, n: Node, h: Hash)
    requires NodeOk(w, n) && h in n.dag.events
    ensures var b, m := Sent(n, h).body, n.dag.events[h].msg;
            b.creator == m.creator && b.index == m.index && b.selfParent == m.selfParent
                && b.otherParent == m.otherParent
  {
    assert EventClosed(n.dag, h);
  }

  lemma FiledAfter(w: Party, n: Node, p: Packet)
    requires Inv(n.dag) && Filed(w.crypto, n.dag, n.packets) && Named(n.dag, p) && Honest(n.dag, MessageOf(w.crypto, p))
    requires Insert(n.dag, MessageOf(w.crypto, p)).Ok?
    ensures Filed(w.crypto, Insert(n.dag, MessageOf(w.crypto, p)).value, n.packets[w.crypto.hash(p.body) := p])
  {
    var m := MessageOf(w.crypto, p);
    FreshHash(n.dag, m);
    NewestLink(n.dag, m);
    OneMoreEvent(n.dag, m);
    FiledMore(w.crypto, n.dag, Insert(n.dag, m).value, n.packets, p, m);
  }

  /** The last event of a creator moves only with that creator's events. */
  lemma LastAfter(w: Party, d: Dag, m: Message, c: Creator)
    requires Inv(d) && Honest(d, m) && Insert(d, m).Ok? && c in d.chains
    ensures c in Insert(d, m).value.chains
    ensures LastOf(w, Insert(d, m).value, c) == if c == m.creator then m.hash else LastOf(w, d, c)
  {
    FreshHash(d, m);
    NewestLink(d, m);
  }

  lemma HeightsAfter(d: Dag, me: Creator, m: Message, heights: map<Creator, int>)
    requires Inv(d) && Honest(d, m) && Insert(d, m).Ok? && HeightsOk(d, me, heights)
    ensures HeightsOk(Insert(d, m).value, me, if m.creator == me then heights else heights[m.creator := m.index])
  {
    FreshHash(d, m);
    NewestLink(d, m);
  }

  /** Accepting an honest event with the right names keeps the node in order. */
  lemma AddKeeps(w: Party, n: Node, p: Packet)
    requires NodeOk(w, n) && Named(n.dag, p) && Honest(n.dag, MessageOf(w.crypto, p))
    requires Insert(n.dag, MessageOf(w.crypto, p)).Ok?
    ensures AddEvent(w, n, p).failure.None? && NodeOk(w, AddEvent(w, n, p).node)
  {
    var m := MessageOf(w.crypto, p);
    FiledAfter(w, n, p);
    LastAfter(w, n.dag, m, w.me);
    HeightsAfter(n.dag, w.me, m, n.heights);
    assert Inv(Insert(n.dag, m).value) by { InsertKeepsInv(n.dag, m); }
  }

  // ------------------------------------------------------------------------------------------
  // The exchange
  // ------------------------------------------------------------------------------------------

  /** Two nodes in order that hold parts of the same chains. */
  ghost predicate Partners(w: Party, n: Node, v: Party, s: Node) {
    NodeOk(w, n) && NodeOk(v, s) && w.crypto == v.crypto && Kin(n.dag, s.dag)
  }

  /** The node's own height serves for an exchange with `s`. */
  ghost predicate Able(w: Party, n: Node, s: Node) {
    Covers(n.dag, s.dag, w.me, HeightIn(n.heights, w.me))
  }

  /** The first `i` events of the list have been taken in as they were sent. */
  ghost predicate Delivered(w: Party, n0: Node, n: Node, s: Node, hs: seq<Hash>, i: nat) {
    && NodeOk(w, n) && Synced(n0.dag, n.dag, s.dag, hs, i)
    && HeightIn(n.heights, w.me) == HeightIn(n0.heights, w.me) && SamePackets(n.packets, s.packets, hs[..i])
    && KeptPackets(n0.packets, n.packets)
  }

  /** No stored message is lost or replaced. */
  ghost predicate KeptPackets(a: Packets, b: Packets) {
    forall h {:trigger h in a} :: h in a ==> h in b && b[h] == a[h]
  }

  ghost predicate SamePackets(a: Packets, b: Packets, hs: seq<Hash>) {
    forall h {:trigger h in hs} :: h in hs ==> h in a && h in b && a[h] == b[h]
  }

  /** The sender has a message for everything on the list. */
  lemma Listed(w: Party, n: Node, v: Party, s: Node, hs: seq<Hash>, i: nat)
    requires Partners(w, n, v, s) && IsDiff(s.dag, n.heights, hs) && i < |hs|
    ensures hs[i] in s.dag.events && hs[i] in s.packets
    ensures var m := s.dag.events[hs[i]].msg;
            && m == MessageOf(v.crypto, s.packets[hs[i]]) && m.signed && m.index > 0 && Named(s.dag, s.packets[hs[i]])
            && m.creator in n.heights && m.index > n.heights[m.creator]
  {
    assert Unknown(s.dag, n.heights, hs[i]);
  }

  /** Names that are right at the sender are right at a receiver that has the parents. */
  lemma NamedHere(d: Dag, s: Dag, p: Packet)
    requires Agree(d, s) && Named(s, p) && p.body.selfParent in d.events
    requires p.body.otherParent == 0 || p.body.otherParent in d.events
    ensures Named(d, p)
  {}

  /** A receiver that has the parents rebuilds the message that was sent. */
  lemma ReadBack(d: Dag, s: Dag, p: Packet, rootParent: nat -> Hash)
    requires Inv(d) && Agree(d, s) && Named(s, p) && p.body.selfParent in d.events
    requires p.body.otherParent == 0 || p.body.otherParent in d.events
    ensures Named(d, p) && ReadWire(d, ToWire(p), rootParent) == Ok(p)
  {
    NamedHere(d, s, p);
    WireRoundTrip(d, p, rootParent);
  }

  /** The next event arrives as it was sent, and is accepted. */
  lemma Arrives(w: Party, n0: Node, n: Node, v: Party, s: Node, hs: seq<Hash>, i: nat)
    requires Partners(w, n0, v, s) && IsDiff(s.dag, n0.heights, hs) && i < |hs| && Delivered(w, n0, n, s, hs, i)
    requires Serves(n0.dag, s.dag, w.me, HeightIn(n0.heights, w.me), hs[i])
    ensures hs[i] in s.packets && ReadWire(n.dag, ToWire(s.packets[hs[i]]), w.rootParent) == Ok(s.packets[hs[i]])
    ensures var m := MessageOf(w.crypto, s.packets[hs[i]]);
            && m.hash == hs[i] && m.hash !in n.dag.events && m.hash in s.dag.events && m == s.dag.events[hs[i]].msg
            && Named(n.dag, s.packets[hs[i]]) && Honest(n.dag, m) && Insert(n.dag, m).Ok?
  {
    Listed(w, n0, v, s, hs, i);
    var p := s.packets[hs[i]];
    NextAccepted(n0.dag, n.dag, s.dag, w.me, n0.heights, hs, i, MessageOf(w.crypto, p));
    ReadBack(n.dag, s.dag, p, w.rootParent);
  }

  lemma PacketsMore(a: Packets, b: Packets, hs: seq<Hash>, i: nat)
    requires i < |hs| && hs[i] in b && SamePackets(a, b, hs[..i])
    ensures SamePackets(a[hs[i] := b[hs[i]]], b, hs[..i + 1])
  {
    assert hs[..i + 1] == hs[..i] + [hs[i]];
  }

  lemma KeptMore(a: Packets, b: Packets, h: Hash, p: Packet)
    requires KeptPackets(a, b) && h !in b
    ensures KeptPackets(a, b[h := p])
  {}

  lemma DeliveredMore(w: Party, n0: Node, n: Node, s: Node, hs: seq<Hash>, i: nat, p: Packet)
    requires Inv(s.dag) && Delivered(w, n0, n, s, hs, i) && i < |hs| && hs[i] in s.packets && p == s.packets[hs[i]]
    requires w.crypto.hash(p.body) == hs[i] && hs[i] !in n.packets
    requires NodeOk(w, AddEvent(w, n, p).node) && Insert(n.dag, MessageOf(w.crypto, p)).Ok?
    requires Synced(n0.dag, Insert(n.dag, MessageOf(w.crypto, p)).value, s.dag, hs, i + 1)
    ensures Delivered(w, n0, AddEvent(w, n, p).node, s, hs, i + 1)
  {
    PacketsMore(n.packets, s.packets, hs, i);
    KeptMore(n0.packets, n.packets, hs[i], p);
  }

  /** A message that is read back and is above the known height is inserted. */
  lemma TakenIs(w: Party, n: Node, known: map<Creator, int>, p: Packet)
    requires ReadWire(n.dag, ToWire(p), w.rootParent) == Ok(p) && p.body.index > HeightIn(known, p.body.creator)
    ensures TakeOne(w, n, known, ToWire(p)) == AddEvent(w, n, p)
  {}

  /** The next event is inserted, and then one more has been delivered. */
  lemma AddNext(w: Party, n0: Node, n: Node, v: Party, s: Node, hs: seq<Hash>, i: nat)
    requires Partners(w, n0, v, s) && IsDiff(s.dag, n0.heights, hs) && i < |hs| && Delivered(w, n0, n, s, hs, i)
    requires Serves(n0.dag, s.dag, w.me, HeightIn(n0.heights, w.me), hs[i])
    ensures hs[i] in s.packets
    ensures var r := AddEvent(w, n, s.packets[hs[i]]);
            r.failure.None? && Delivered(w, n0, r.node, s, hs, i + 1)
  {
    Listed(w, n0, v, s, hs, i);
    Arrives(w, n0, n, v, s, hs, i);
    var p := s.packets[hs[i]];
    AddKeeps(w, n, p);
    SyncedMore(n0.dag, n.dag, s.dag, hs, i, MessageOf(w.crypto, p));
    DeliveredMore(w, n0, n, s, hs, i, p);
  }

  lemma TakeNext(w: Party, n0: Node, n: Node, v: Party, s: Node, hs: seq<Hash>, i: nat)
    requires Partners(w, n0, v, s) && IsDiff(s.dag, n0.heights, hs) && i < |hs| && Delivered(w, n0, n, s, hs, i)
    requires Serves(n0.dag, s.dag, w.me, HeightIn(n0.heights, w.me), hs[i])
    ensures var r := TakeOne(w, n, n0.heights, ToWire(Sent(s, hs[i])));
            r.failure.None? && Delivered(w, n0, r.node, s, hs, i + 1)
  {
    Listed(w, n0, v, s, hs, i);
    Arrives(w, n0, n, v, s, hs, i);
    TakenIs(w, n, n0.heights, s.packets[hs[i]]);
    AddNext(w, n0, n, v, s, hs, i);
  }

  lemma TakeOneMore(w: Party, n: Node, known: map<Creator, int>, peer: Creator, wires: seq<Wire>, i: nat)
    requires i < |wires| && TakeAll(w, n, known, wires[..i]).failure.None?
    ensures var n' := TakeAll(w, n, known, wires[..i]).node;
            && TakeAll(w, n, known, wires[..i + 1]) == TakeOne(w, n', known, wires[i])
            && PeerHead(w, n, known, peer, wires[..i + 1]) ==
                 HeadAfter(w, n'.dag, peer, PeerHead(w, n, known, peer, wires[..i]), wires[i])
  {
    assert wires[..i + 1][..i] == wires[..i];
  }

  /** The height serves for the first `i` events of the list. */
  ghost predicate ServesFirst(w: Party, n: Node, s: Node, hs: seq<Hash>, i: nat) {
    i <= |hs| && forall j :: 0 <= j < i ==> Serves(n.dag, s.dag, w.me, HeightIn(n.heights, w.me), hs[j])
  }

  lemma ServesNext(w: Party, n: Node, s: Node, hs: seq<Hash>, i: nat)
    requires ServesFirst(w, n, s, hs, i + 1)
    ensures ServesFirst(w, n, s, hs, i) && Serves(n.dag, s.dag, w.me, HeightIn(n.heights, w.me), hs[i])
  {}

  lemma NoneDelivered(w: Party, n: Node, v: Party, s: Node, hs: seq<Hash>)
    requires Partners(w, n, v, s) && IsDiff(s.dag, n.heights, hs)
    ensures Delivered(w, n, n, s, hs, 0)
  {}

  /** One more of the events is taken in. */
  lemma TakeOneFurther(w: Party, n: Node, v: Party, s: Node, hs: seq<Hash>, i: nat)
    requires Partners(w, n, v, s) && IsDiff(s.dag, n.heights, hs) && i < |hs|
    requires Serves(n.dag, s.dag, w.me, HeightIn(n.heights, w.me), hs[i])
    requires var r := TakeAll(w, n, n.heights, WireAll(s, hs)[..i]);
             r.failure.None? && Delivered(w, n, r.node, s, hs, i)
    ensures var r := TakeAll(w, n, n.heights, WireAll(s, hs)[..i + 1]);
            r.failure.None? && Delivered(w, n, r.node, s, hs, i + 1)
  {
    TakeOneMore(w, n, n.heights, v.me, WireAll(s, hs), i);
    TakeNext(w, n, TakeAll(w, n, n.heights, WireAll(s, hs)[..i]).node, v, s, hs, i);
  }

  /** The first events are all taken in. */
  lemma {:induction false} TakeFirst(w: Party, n: Node, v: Party, s: Node, hs: seq<Hash>, i: nat)
    requires Partners(w, n, v, s) && IsDiff(s.dag, n.heights, hs) && ServesFirst(w, n, s, hs, i)
    ensures var r := TakeAll(w, n, n.heights, WireAll(s, hs)[..i]);
            r.failure.None? && Delivered(w, n, r.node, s, hs, i)
  {
    if i == 0 {
      NoneDelivered(w, n, v, s, hs);
    } else {
      ServesNext(w, n, s, hs, i - 1);
      TakeFirst(w, n, v, s, hs, i - 1);
      TakeOneFurther(w, n, v, s, hs, i - 1);
    }
  }

  /** Together the list and what the receiver had are all that either node has. */
  lemma NothingMissing(w: Party, n0: Node, n: Node, v: Party, s: Node, hs: seq<Hash>)
    requires Partners(w, n0, v, s) && Able(w, n0, s) && IsDiff(s.dag, n0.heights, hs)
               && Delivered(w, n0, n, s, hs, |hs|)
    ensures n.dag.events.Keys == n0.dag.events.Keys + s.dag.events.Keys
  {
    assert hs[..|hs|] == hs;
    forall h | h in s.dag.events ensures h in n.dag.events {
      if !Unknown(s.dag, n0.heights, h) { AlreadyHere(n0.dag, s.dag, w.me, n0.heights, h); }
    }
  }

  /** What the receiver holds after the exchange, `n0` being the receiver and `s` the sender before it. */
  ghost predicate Caught(w: Party, n0: Node, n: Node, s: Node) {
    && NodeOk(w, n) && Kin(n.dag, s.dag) && HeightIn(n.heights, w.me) == HeightIn(n0.heights, w.me)
    && n.dag.events.Keys == n0.dag.events.Keys + s.dag.events.Keys
    && (forall h {:trigger h in n0.dag.events} :: h in n0.dag.events ==> n.dag.events[h] == n0.dag.events[h])
    && (forall h {:trigger h in s.dag.events} :: h in s.dag.events ==> SameDerived(n.dag.events[h], s.dag.events[h]))
    && (forall h {:trigger h in s.packets} :: h in s.packets && h !in n0.dag.events ==>
         h in n.packets && n.packets[h] == s.packets[h])
    && KeptPackets(n0.packets, n.packets)
  }

  /**
   The exchange works: sending what is above the receiver's heights, to the wire and back, fails at no event, and
   leaves the receiver with everything either node had, with the bodies as sent and the same derived fields.
   */
  lemma ExchangeDelivers(w: Party, n: Node, v: Party, s: Node, hs: seq<Hash>)
    requires Partners(w, n, v, s) && Able(w, n, s) && IsDiff(s.dag, n.heights, hs)
    ensures var r := TakeAll(w, n, n.heights, WireAll(s, hs));
            r.failure.None? && Caught(w, n, r.node, s)
  {
    TakeFirst(w, n, v, s, hs, |hs|);
    assert WireAll(s, hs)[..|hs|] == WireAll(s, hs) && hs[..|hs|] == hs;
    var n' := TakeAll(w, n, n.heights, WireAll(s, hs)).node;
    NothingMissing(w, n, n', v, s, hs);
    forall h | h in s.dag.events ensures SameDerived(n'.dag.events[h], s.dag.events[h]) {
      SameEvent(n'.dag, s.dag, h);
    }
    forall h | h in s.packets && h !in n.dag.events ensures h in n'.packets && n'.packets[h] == s.packets[h] {
      assert h in n'.dag.events;
      assert h in hs;
    }
  }

  /** The receiver has every chain as far as the sender had it. */
  ghost predicate Knows(d: Dag, s: Dag) {
    forall c {:trigger s.chains[c]} :: c in s.chains ==> c in d.chains && s.chains[c] <= d.chains[c]
  }

  lemma CaughtKnows(d: Dag, s: Dag)
    requires Inv(d) && Inv(s) && Kin(d, s) && s.events.Keys <= d.events.Keys
    ensures Knows(d, s)
  {
    forall c | c in s.chains ensures c in d.chains && s.chains[c] <= d.chains[c] {
      assert PrefixRelated(d.chains[c], s.chains[c]);
      assert LinkOk(s, c, |s.chains[c]| - 1);
      assert EventChained(d, s.chains[c][|s.chains[c]| - 1]);
    }
  }

  // ------------------------------------------------------------------------------------------
  // When the exchange does not work
  // ------------------------------------------------------------------------------------------

  /** After the first failure nothing more is taken. */
  lemma {:induction false} FirstFailure(w: Party, n: Node, known: map<Creator, int>, wires: seq<Wire>, i: nat)
    requires i <= |wires| && TakeAll(w, n, known, wires[..i]).failure.Some?
    ensures TakeAll(w, n, known, wires) == TakeAll(w, n, known, wires[..i])
  {
    if i == |wires| {
      assert wires[..i] == wires;
    } else {
      assert wires[..|wires| - 1][..i] == wires[..i];
      FirstFailure(w, n, known, wires[..|wires| - 1], i);
    }
  }
  function ChainOf(d: Dag, c: Creator): seq<Hash> {
    if c in d.chains then d.chains[c] else []
  }

  /** With a height that is ahead of its chain, a node takes in none of its own events. */
  lemma {:induction false} OwnChainStays(w: Party, n: Node, known: map<Creator, int>, wires: seq<Wire>)
    requires HeightIn(known, w.me) >= |ChainOf(n.dag, w.me)|
    ensures ChainOf(TakeAll(w, n, known, wires).node.dag, w.me) == ChainOf(n.dag, w.me)
  {
    if wires != [] {
      OwnChainStays(w, n, known, wires[..|wires| - 1]);
      var before := TakeAll(w, n, known, wires[..|wires| - 1]).node;
      var read := ReadWire(before.dag, wires[|wires| - 1], w.rootParent);
      if read.Ok? && read.value.body.index > HeightIn(known, read.value.body.creator) {
        OwnChainStep(before.dag, MessageOf(w.crypto, read.value), w.me, HeightIn(known, w.me));
      }
    }
  }

  lemma OwnChainStep(d: Dag, m: Message, me: Creator, own: int)
    requires own >= |ChainOf(d, me)| && (m.creator == me ==> m.index > own)
    ensures Insert(d, m).Ok? ==> ChainOf(Insert(d, m).value, me) == ChainOf(d, me)
  {}

  /** The height lags: the sender lists the node's own event after it, which is here already. */
  ghost predicate Lags(w: Party, n: Node, s: Node) {
    && w.me in n.dag.chains && w.me in s.dag.chains && w.me in n.heights
    && n.heights[w.me] < |n.dag.chains[w.me]| - 1 && n.heights[w.me] < |s.dag.chains[w.me]| - 1
  }

  lemma {:induction false} FirstOwn(s: Dag, me: Creator, hs: seq<Hash>, j: nat) returns (i: nat)
    requires j < |hs| && Lookup(s, hs[j]).msg.creator == me
    ensures i <= j && Lookup(s, hs[i]).msg.creator == me
    ensures forall k :: 0 <= k < i ==> Lookup(s, hs[k]).msg.creator != me
    decreases j
  {
    if k: nat :| k < j && Lookup(s, hs[k]).msg.creator == me {
      i := FirstOwn(s, me, hs, k);
    } else {
      i := j;
    }
  }

  /** The first event of `me` on the list is the one right above the height. */
  lemma FirstAbove(s: Dag, me: Creator, known: map<Creator, int>, hs: seq<Hash>) returns (i: nat)
    requires Inv(s) && me in s.chains && me in known && 0 <= known[me] < |s.chains[me]| - 1 && IsDiff(s, known, hs)
    ensures i < |hs| && hs[i] == s.chains[me][known[me] + 1]
    ensures forall k :: 0 <= k < i ==> Lookup(s, hs[k]).msg.creator != me
  {
    var own := known[me];
    var e := s.chains[me][own + 1];
    assert LinkOk(s, me, own + 1);
    assert Unknown(s, known, e);
    var j: nat :| j < |hs| && hs[j] == e;
    i := FirstOwn(s, me, hs, j);
    assert Unknown(s, known, hs[i]);
    assert EventChained(s, hs[i]);
    FramesRise(s);
    ChainOrder(s, me, own + 1, s.events[hs[i]].msg.index);
    OrderOf(s, hs, j, i);
  }

  lemma FirstIsNext(w: Party, n: Node, v: Party, s: Node, hs: seq<Hash>) returns (i: nat)
    requires Partners(w, n, v, s) && Lags(w, n, s) && IsDiff(s.dag, n.heights, hs)
    ensures i < |hs| && hs[i] == s.dag.chains[w.me][n.heights[w.me] + 1] && ServesFirst(w, n, s, hs, i)
  {
    i := FirstAbove(s.dag, w.me, n.heights, hs);
  }

  /** The event is refused: its self-parent is not the node's last event. */
  lemma OldEventRefused(d: Dag, m: Message)
    requires Inv(d) && m.signed && m.creator in d.chains && m.selfParent in d.events
    requires d.events[m.selfParent].msg.creator == m.creator
               && d.events[m.selfParent].msg.index < |d.chains[m.creator]| - 1
    ensures Insert(d, m) == Err(SelfParentNotLast)
  {
    assert LinkOk(d, m.creator, |d.chains[m.creator]| - 1);
  }

  /** A node whose own height lags behind both chains fails to take in what it is sent. */
  lemma LaggingFails(w: Party, n: Node, v: Party, s: Node, hs: seq<Hash>)
    requires Partners(w, n, v, s) && Lags(w, n, s) && IsDiff(s.dag, n.heights, hs)
    ensures TakeAll(w, n, n.heights, WireAll(s, hs)).failure == Some(Refused(SelfParentNotLast))
  {
    var i := FirstIsNext(w, n, v, s, hs);
    TakeFirst(w, n, v, s, hs, i);
    LaggingNext(w, n, TakeAll(w, n, n.heights, WireAll(s, hs)[..i]).node, v, s, hs, i);
    TakeOneMore(w, n, n.heights, v.me, WireAll(s, hs), i);
    FirstFailure(w, n, n.heights, WireAll(s, hs), i + 1);
  }

  lemma LaggingNext(w: Party, n0: Node, n: Node, v: Party, s: Node, hs: seq<Hash>, i: nat)
    requires Partners(w, n0, v, s) && Lags(w, n0, s) && IsDiff(s.dag, n0.heights, hs) && i < |hs|
    requires Delivered(w, n0, n, s, hs, i) && hs[i] == s.dag.chains[w.me][n0.heights[w.me] + 1]
    ensures TakeOne(w, n, n0.heights, ToWire(Sent(s, hs[i]))) == Step(n, Some(Refused(SelfParentNotLast)))
  {
    Listed(w, n0, v, s, hs, i);
    var p := s.packets[hs[i]];
    assert LinkOk(s.dag, w.me, n0.heights[w.me] + 1) && EventClosed(s.dag, hs[i]);
    ParentsHere(w, n0, n, v, s, hs, i);
    TakeRefused(w, n, n0.heights, n0.dag, s.dag, p);
  }

  lemma TakeRefused(w: Party, n: Node, known: map<Creator, int>, d0: Dag, s: Dag, p: Packet)
    requires Inv(d0) && Inv(n.dag) && Inv(s) && Kin(n.dag, s) && d0.events.Keys <= n.dag.events.Keys
    requires forall h {:trigger n.dag.events[h]} :: h in d0.events ==> n.dag.events[h] == d0.events[h]
    requires var m := MessageOf(w.crypto, p);
             && m.hash in s.events && s.events[m.hash].msg == m && m.signed && m.index > 0
             && m.selfParent in n.dag.events && (m.otherParent == 0 || m.otherParent in n.dag.events)
             && m.creator in d0.chains && m.index < |d0.chains[m.creator]|
    requires Named(s, p) && p.body.index > HeightIn(known, p.body.creator)
    ensures TakeOne(w, n, known, ToWire(p)) == Step(n, Some(Refused(SelfParentNotLast)))
  {
    ReadBack(n.dag, s, p, w.rootParent);
    LaggingRefused(d0, n.dag, s, MessageOf(w.crypto, p));
  }

  lemma LaggingRefused(d0: Dag, d: Dag, s: Dag, m: Message)
    requires Inv(d0) && Inv(d) && Inv(s) && Kin(d, s) && d0.events.Keys <= d.events.Keys
    requires forall h {:trigger d.events[h]} :: h in d0.events ==> d.events[h] == d0.events[h]
    requires m.hash in s.events && s.events[m.hash].msg == m && m.signed && m.index > 0 && m.selfParent in d.events
    requires m.creator in d0.chains && m.index < |d0.chains[m.creator]|
    ensures Insert(d, m) == Err(SelfParentNotLast)
  {
    assert EventClosed(s, m.hash);
    OlderChain(d0, d, m.creator);
    OldEventRefused(d, m);
  }

  lemma ParentsHere(w: Party, n0: Node, n: Node, v: Party, s: Node, hs: seq<Hash>, i: nat)
    requires Partners(w, n0, v, s) && Lags(w, n0, s) && IsDiff(s.dag, n0.heights, hs) && i < |hs|
    requires Delivered(w, n0, n, s, hs, i) && hs[i] in s.dag.events && s.dag.events[hs[i]].msg.index > 0
    ensures var m := s.dag.events[hs[i]].msg;
            m.selfParent in n.dag.events && (m.otherParent == 0 || m.otherParent in n.dag.events)
  {
    var m := s.dag.events[hs[i]].msg;
    assert EventClosed(s.dag, hs[i]);
    EarlierHere(n0.dag, n.dag, s.dag, w.me, n0.heights, hs, i, m.selfParent);
    if m.otherParent != 0 { EarlierHere(n0.dag, n.dag, s.dag, w.me, n0.heights, hs, i, m.otherParent); }
  }

  /** A chain does not get shorter when events are only added. */
  lemma OlderChain(d0: Dag, d: Dag, c: Creator)
    requires Inv(d0) && Inv(d) && c in d0.chains
    requires d0.events.Keys <= d.events.Keys
    requires forall h {:trigger d.events[h]} :: h in d0.events ==> d.events[h] == d0.events[h]
    ensures c in d.chains && |d0.chains[c]| <= |d.chains[c]|
  {
    assert LinkOk(d0, c, |d0.chains[c]| - 1);
    assert EventChained(d, d0.chains[c][|d0.chains[c]| - 1]);
  }

  /**
   Exactly when the exchange works: nothing fails and the receiver ends up with all that the sender had, if and only
   if the receiver's own height is right, or the sender has nothing of the receiver's that matters for it.
   */
  lemma ExchangeExact(w: Party, n: Node, v: Party, s: Node, hs: seq<Hash>)
    requires Partners(w, n, v, s) && IsDiff(s.dag, n.heights, hs)
    ensures var r := TakeAll(w, n, n.heights, WireAll(s, hs));
            r.failure.None? && Knows(r.node.dag, s.dag) <==> Able(w, n, s)
  {
    var r := TakeAll(w, n, n.heights, WireAll(s, hs));
    if Able(w, n, s) {
      ExchangeDelivers(w, n, v, s, hs);
      CaughtKnows(r.node.dag, s.dag);
    } else if n.heights[w.me] >= |n.dag.chains[w.me]| {
      OwnChainStays(w, n, n.heights, WireAll(s, hs));
      assert PrefixRelated(n.dag.chains[w.me], s.dag.chains[w.me]);
      assert s.dag.chains[w.me] == s.dag.chains[w.me];
    } else {
      assert PrefixRelated(n.dag.chains[w.me], s.dag.chains[w.me]);
      LaggingFails(w, n, v, s, hs);
    }
  }

  // ------------------------------------------------------------------------------------------
  // The node's own events
  // ------------------------------------------------------------------------------------------

  /** The node's signatures verify. */
  ghost predicate Signs(w: Party) {
    forall b: Body {:trigger w.sign(b)} :: b.creator == w.me ==> w.crypto.verify(b, w.sign(b))
  }

  /** The body's hash is new, and its block signatures are the node's own. */
  ghost predicate Fresh(w: Party, d: Dag, b: Body) {
    && w.crypto.hash(b) != 0 && w.crypto.hash(b) !in d.events
    && forall i :: 0 <= i < |b.signatures| ==> b.signatures[i].validator == b.creator
  }

  lemma HeadStored(w: Party, n: Node, c: Creator)
    requires Inv(n.dag) && c in n.dag.chains
    ensures var h := LastOf(w, n.dag, c);
            && n.dag.chains[c] != [] && h == n.dag.chains[c][|n.dag.chains[c]| - 1] && h in n.dag.events
            && n.dag.events[h].msg.creator == c && n.dag.events[h].msg.index == |n.dag.chains[c]| - 1
  {
    assert LinkOk(n.dag, c, |n.dag.chains[c]| - 1);
  }

  /** The store takes the event unless its index is too high; only the next index is an honest one. */
  lemma OwnAccepted(w: Party, n: Node, other: Hash, x: Payload)
    requires NodeOk(w, n) && Signs(w) && other in n.dag.events && Fresh(w, n.dag, BodyOf(w, n, other, x))
    ensures var p := Addressed(w, n.dag, BodyOf(w, n, other, x));
            && Named(n.dag, p)
            && (Insert(n.dag, MessageOf(w.crypto, p)).Ok? <==> n.heights[w.me] < |n.dag.chains[w.me]|)
            && (Current(w, n) <==> Honest(n.dag, MessageOf(w.crypto, p)))
  {
    var p := Addressed(w, n.dag, BodyOf(w, n, other, x));
    HeadStored(w, n, w.me);
    assert EventClosed(n.dag, other);
    assert w.sign(p.body) == p.signature;
    LookupNeverFails(n.dag, MessageOf(w.crypto, p));
  }

  lemma HeightTaken(w: Party, n: Node)
    requires NodeOk(w, n)
    ensures NodeOk(w, Taller(w, n))
  {}

  /**
   A node makes an event of its own, and is in order afterwards, exactly when its height is the index of its last
   event and the other parent is stored. A failure leaves the height one higher than it was.
   */
  lemma OwnEventExact(w: Party, n: Node, other: Hash, x: Payload)
    requires NodeOk(w, n) && Signs(w) && Fresh(w, n.dag, BodyOf(w, n, other, x))
    ensures var r := SelfEvent(w, n, other, x);
            && (r.failure.None? && NodeOk(w, r.node) <==> Current(w, n) && other in n.dag.events)
            && (r.failure.None? && NodeOk(w, r.node) ==> Current(w, r.node))
            && (r.failure.Some? ==> r.node == Taller(w, n) && NodeOk(w, r.node))
            && (r.failure.None? <==> n.heights[w.me] < |n.dag.chains[w.me]| && other in n.dag.events)
  {
    HeadStored(w, n, w.me);
    HeightTaken(w, n);
    if other in n.dag.events {
      OwnAccepted(w, n, other, x);
      if Current(w, n) { OwnGood(w, n, other, x); } else { OwnForks(w, n, other, x); }
    }
  }

  lemma OwnGood(w: Party, n: Node, other: Hash, x: Payload)
    requires NodeOk(w, n) && Signs(w) && Fresh(w, n.dag, BodyOf(w, n, other, x)) && Current(w, n)
               && other in n.dag.events
    ensures var r := SelfEvent(w, n, other, x);
            r.failure.None? && NodeOk(w, r.node) && Current(w, r.node)
  {
    HeadStored(w, n, w.me);
    HeightTaken(w, n);
    OwnAccepted(w, n, other, x);
    var p := Addressed(w, n.dag, BodyOf(w, n, other, x));
    AddKeeps(w, Taller(w, n), p);
    FreshHash(n.dag, MessageOf(w.crypto, p));
  }

  /** An event whose index is taken is accepted, and displaces another one of the node's own. */
  lemma OwnForks(w: Party, n: Node, other: Hash, x: Payload)
    requires NodeOk(w, n) && Signs(w) && Fresh(w, n.dag, BodyOf(w, n, other, x)) && !Current(w, n)
               && other in n.dag.events
    ensures var r := SelfEvent(w, n, other, x);
            r.failure.None? ==> !Chained(r.node.dag)
  {
    OwnAccepted(w, n, other, x);
    var m := MessageOf(w.crypto, Addressed(w, n.dag, BodyOf(w, n, other, x)));
    if Insert(n.dag, m).Ok? { ForkFreeIffNextIndex(n.dag, m); }
  }

  /** The body carries this payload. */
  predicate Carries(b: Body, x: Payload) {
    b.transactions == x.transactions && b.internalTransactions == x.internalTransactions && b.signatures == x.signatures
  }

  /**
   A node's own event carries what it was given: it is the new head, is stored and signed by the node, has the old head
   and `other` as parents and the next index, and no other stored message changes.
   */
  ghost predicate OwnEventMade(w: Party, n: Node, n': Node, other: Hash, x: Payload) {
    && n'.head in n'.packets && n'.head in n'.dag.events
    && n'.packets == n.packets[n'.head := n'.packets[n'.head]]
    && n'.dag.events[n'.head].msg == MessageOf(w.crypto, n'.packets[n'.head])
    && n'.packets[n'.head].signature == w.sign(n'.packets[n'.head].body)
    && var b := n'.packets[n'.head].body;
       && Carries(b, x) && b.selfParent == n.head && b.otherParent == other && b.creator == w.me
       && b.index == HeightIn(n.heights, w.me) + 1 && n'.heights == n.heights[w.me := b.index]
       && w.crypto.hash(b) == n'.head
  }

  lemma OwnEventCarries(w: Party, n: Node, other: Hash, x: Payload)
    ensures var r := SelfEvent(w, n, other, x);
            r.failure.None? ==> OwnEventMade(w, n, r.node, other, x)
  {}

  /** A node whose height is ahead of its chain never makes another event. */
  lemma AheadIsStuck(w: Party, n: Node, other: Hash, x: Payload)
    requires NodeOk(w, n) && Signs(w) && Fresh(w, n.dag, BodyOf(w, n, other, x))
    requires n.heights[w.me] >= |n.dag.chains[w.me]|
    ensures var r := SelfEvent(w, n, other, x);
            r.failure.Some? && NodeOk(w, r.node) && r.node.dag == n.dag && r.node.heights[w.me] > n.heights[w.me]
  {
    OwnEventExact(w, n, other, x);
  }

  // ------------------------------------------------------------------------------------------
  // A whole exchange
  // ------------------------------------------------------------------------------------------

  /** One event further, the other parent to be is still the peer's last event. */
  lemma NextHead(w: Party, n0: Node, n: Node, v: Party, s: Node, hs: seq<Hash>, i: nat, peer: Creator, head: Hash)
    requires Partners(w, n0, v, s) && Able(w, n0, s) && IsDiff(s.dag, n0.heights, hs) && i < |hs|
    requires Delivered(w, n0, n, s, hs, i) && peer in n.dag.chains && head == LastOf(w, n.dag, peer)
    ensures var wire := ToWire(Sent(s, hs[i]));
            var n' := TakeOne(w, n, n0.heights, wire).node;
            peer in n'.dag.chains && HeadAfter(w, n.dag, peer, head, wire) == LastOf(w, n'.dag, peer)
  {
    Listed(w, n0, v, s, hs, i);
    Arrives(w, n0, n, v, s, hs, i);
    var p := s.packets[hs[i]];
    TakenIs(w, n, n0.heights, p);
    LastAfter(w, n.dag, MessageOf(w.crypto, p), peer);
  }

  /** The other parent that `Sync` picks is the last event of the peer that the node holds by then. */
  lemma {:induction false} PeerHeadIsLast(w: Party, n: Node, v: Party, s: Node, hs: seq<Hash>, peer: Creator, i: nat)
    requires Partners(w, n, v, s) && Able(w, n, s) && IsDiff(s.dag, n.heights, hs) && peer in n.dag.chains && i <= |hs|
    ensures var wires := WireAll(s, hs)[..i];
            var d := TakeAll(w, n, n.heights, wires).node.dag;
            peer in d.chains && PeerHead(w, n, n.heights, peer, wires) == LastOf(w, d, peer)
  {
    if i > 0 {
      PeerHeadIsLast(w, n, v, s, hs, peer, i - 1);
      HeadStep(w, n, v, s, hs, peer, i - 1);
    }
  }

  lemma HeadStep(w: Party, n: Node, v: Party, s: Node, hs: seq<Hash>, peer: Creator, i: nat)
    requires Partners(w, n, v, s) && Able(w, n, s) && IsDiff(s.dag, n.heights, hs) && i < |hs|
    requires var r, wires := TakeAll(w, n, n.heights, WireAll(s, hs)[..i]), WireAll(s, hs)[..i];
             peer in r.node.dag.chains && PeerHead(w, n, n.heights, peer, wires) == LastOf(w, r.node.dag, peer)
    ensures var r, wires := TakeAll(w, n, n.heights, WireAll(s, hs)[..i + 1]), WireAll(s, hs)[..i + 1];
            peer in r.node.dag.chains && PeerHead(w, n, n.heights, peer, wires) == LastOf(w, r.node.dag, peer)
  {
    TakeFirst(w, n, v, s, hs, i);
    TakeOneMore(w, n, n.heights, peer, WireAll(s, hs), i);
    var before := WireAll(s, hs)[..i];
    NextHead(w, n, TakeAll(w, n, n.heights, before).node, v, s, hs, i, peer, PeerHead(w, n, n.heights, peer, before));
  }

  /** So it is there. */
  lemma PeerHeadStored(w: Party, n: Node, v: Party, s: Node, hs: seq<Hash>, peer: Creator, i: nat)
    requires Partners(w, n, v, s) && Able(w, n, s) && IsDiff(s.dag, n.heights, hs) && peer in n.dag.chains && i <= |hs|
    ensures var wires := WireAll(s, hs)[..i];
            PeerHead(w, n, n.heights, peer, wires) in TakeAll(w, n, n.heights, wires).node.dag.events
  {
    PeerHeadIsLast(w, n, v, s, hs, peer, i);
    TakeFirst(w, n, v, s, hs, i);
    HeadStored(w, TakeAll(w, n, n.heights, WireAll(s, hs)[..i]).node, peer);
  }

  // ------------------------------------------------------------------------------------------
  // Inputs at which a wrong height shows
  // ------------------------------------------------------------------------------------------

  const TWO_LEAVES := [Leaf(7, 1), Leaf(8, 1)]

  /** The first of two participants, before anything has happened. */
  function StartNode(head: Hash): Node {
    Node(Genesis(TWO_LEAVES, 2), map[], map[0 := 0, 1 := 0], head)
  }

  lemma TwoLeavesDag(leaves: seq<Leaf>)
    requires leaves == TWO_LEAVES
    ensures var d := Genesis(leaves, 2);
            && Inv(d) && d.chains == map[0 := [7], 1 := [8]] && d.events.Keys == {7, 8}
            && d.events[7] == LeafEvent(0, leaves[0]) && d.events[8] == LeafEvent(1, leaves[1])
  {
    GenesisInv(leaves, 2);
    assert leaves[..1] == [leaves[0]] && leaves[..1][..0] == [];
    assert Genesis([], 2) == Dag(2, map[], map[], map[], {}, 0);
    assert Genesis(leaves[..1], 2).chains == map[0 := [7]];
  }

  lemma StartOk(w: Party, n: Node)
    requires w.me < 2 && n.dag == Genesis(TWO_LEAVES, 2) && n.packets == map[] && n.heights == map[0 := 0, 1 := 0]
    requires n.head == if w.me == 0 then 7 else 8
    ensures NodeOk(w, n) && Current(w, n)
  {
    TwoLeavesDag(TWO_LEAVES);
    assert n.dag.chains.Keys == {0, 1};
  }

  /** The second participant's event number 0 once more, with another body. */
  function Replay(): Wire {
    Wire(NilSlice, [], WireInfo(0, 0, -1, 2), 0, [], 0)
  }

  function ReplayBody(): Body {
    Body(NilSlice, [], 8, 0, 1, 0, [])
  }

  /**
   The peer sends an event with an index that is known. It is not inserted, but its hash becomes the other parent of the
   node's own event, which fails. From then on every exchange fails, though there is nothing wrong with it.
   */
  lemma StuckAfterReplay(w: Party, x: Payload)
    requires w.me == 0 && Signs(w) && w.crypto.hash(ReplayBody()) !in {7, 8}
    ensures var n := StartNode(7);
            var first := SyncStep(w, n, 1, [Replay()], Some(x));
            && NodeOk(w, n) && Current(w, n) && first == Step(Taller(w, n), Some(NoParents))
            && SyncStep(w, first.node, 1, [], Some(x)).failure == Some(Refused(IndexRefused))
  {
    var n := StartNode(7);
    StartOk(w, n);
    TwoLeavesDag(TWO_LEAVES);
    ReplayRead(w, n.dag);
    ReplaySkipped(w, n);
    var n' := Taller(w, n);
    assert SyncStep(w, n, 1, [Replay()], Some(x)) == Step(n', Some(NoParents));
    AheadRefused(w, n', x);
  }

  lemma ReplayRead(w: Party, d: Dag)
    requires d.chains == map[0 := [7], 1 := [8]]
    ensures ReadWire(d, Replay(), w.rootParent) == Ok(Packet(ReplayBody(), 0, Replay().info))
  {
    assert FullSignatures([], 1) == [];
  }

  lemma ReplaySkipped(w: Party, n: Node)
    requires n.dag.chains == map[0 := [7], 1 := [8]] && n.heights == map[0 := 0, 1 := 0]
    ensures TakeAll(w, n, n.heights, [Replay()]) == Step(n, None)
    ensures PeerHead(w, n, n.heights, 1, [Replay()]) == w.crypto.hash(ReplayBody())
  {
    ReplayRead(w, n.dag);
    assert [Replay()][..0] == [];
    assert TakeAll(w, n, n.heights, []) == Step(n, None);
  }

  lemma AheadRefused(w: Party, n: Node, x: Payload)
    requires w.me == 0 && Signs(w) && n.dag == Genesis(TWO_LEAVES, 2) && n.head == 7 && n.heights == map[0 := 1, 1 := 0]
    ensures SyncStep(w, n, 1, [], Some(x)).failure == Some(Refused(IndexRefused))
  {
    TwoLeavesDag(TWO_LEAVES);
    assert TakeAll(w, n, n.heights, []) == Step(n, None);
    assert PeerHead(w, n, n.heights, 1, []) == 8;
    var p := Addressed(w, n.dag, BodyOf(w, n, 8, x));
    assert w.sign(p.body) == p.signature;
    LookupNeverFails(n.dag, MessageOf(w.crypto, p));
    assert Insert(n.dag, MessageOf(w.crypto, p)) == Err(IndexRefused);
  }

  /** The first participant's first event, with the second one's leaf as its other parent. */
  function FirstPacket(signature: nat): Packet {
    Packet(Body(NilSlice, [], 7, 8, 0, 1, []), signature, WireInfo(0, 2, 0, 1))
  }

  lemma FirstAccepted(w: Party, n: Node, signature: nat)
    requires w.me < 2 && n == StartNode(if w.me == 0 then 7 else 8)
    requires w.crypto.verify(FirstPacket(signature).body, signature)
    requires w.crypto.hash(FirstPacket(signature).body) !in {0, 7, 8}
    ensures var p := FirstPacket(signature);
            var r := AddEvent(w, n, p);
            && r.failure.None? && NodeOk(w, r.node) && Insert(n.dag, MessageOf(w.crypto, p)) == Ok(r.node.dag)
            && r.node.heights == if w.me == 0 then n.heights else n.heights[0 := 1]
  {
    var p := FirstPacket(signature);
    StartOk(w, n);
    TwoLeavesDag(TWO_LEAVES);
    LookupNeverFails(n.dag, MessageOf(w.crypto, p));
    AddKeeps(w, n, p);
  }

  lemma OnlyFirst(g: Dag, d: Dag, m: Message, known: map<Creator, int>)
    requires Insert(g, m) == Ok(d) && m.hash !in {0, 7, 8} && m.index == 1 && m.creator == 0
    requires g.chains == map[0 := [7], 1 := [8]] && g.events.Keys == {7, 8}
    requires IsLeaf(g.events[7]) && IsLeaf(g.events[8]) && known == map[0 := 0, 1 := 0]
    ensures IsDiff(d, known, [m.hash]) && 0 in d.chains && d.chains[0] == [7, m.hash]
  {
    OneMoreEvent(g, m);
    forall h ensures h in [m.hash] <==> Unknown(d, known, h) {
      assert h in d.events && h != m.hash ==> h in {7, 8} && d.events[h] == g.events[h];
    }
  }

  lemma SameDagPartners(w: Party, n: Node, v: Party, s: Node)
    requires NodeOk(w, n) && NodeOk(v, s) && w.crypto == v.crypto && n.dag == s.dag
    ensures Partners(w, n, v, s)
  {}

  /**
   A node that has got its own first event from the other participant keeps the height 0 for itself. Asked again, the
   other one sends that event again, and the exchange fails.
   */
  lemma OwnEventComesBack(w: Party, v: Party, signature: nat)
    requires w.me == 0 && v.me == 1 && w.crypto == v.crypto
    requires w.crypto.verify(FirstPacket(signature).body, signature)
    requires w.crypto.hash(FirstPacket(signature).body) !in {0, 7, 8}
    ensures var p := FirstPacket(signature);
            var n, s, h := AddEvent(w, StartNode(7), p).node, AddEvent(v, StartNode(8), p).node, w.crypto.hash(p.body);
            && Partners(w, n, v, s) && n.dag == s.dag && IsDiff(s.dag, n.heights, [h])
            && TakeAll(w, n, n.heights, WireAll(s, [h])).failure == Some(Refused(SelfParentNotLast))
  {
    var p := FirstPacket(signature);
    FirstAccepted(w, StartNode(7), signature);
    FirstAccepted(v, StartNode(8), signature);
    var n, s, h := AddEvent(w, StartNode(7), p).node, AddEvent(v, StartNode(8), p).node, w.crypto.hash(p.body);
    TwoLeavesDag(TWO_LEAVES);
    OnlyFirst(Genesis(TWO_LEAVES, 2), n.dag, MessageOf(w.crypto, p), n.heights);
    SameDagPartners(w, n, v, s);
    LaggingFails(w, n, v, s, [h]);
  }

  // ------------------------------------------------------------------------------------------
  // The node as an object
  // ------------------------------------------------------------------------------------------

  class Core {
    const party: Party
    var dag: Dag
    var packets: Packets
    var heights: map<Creator, int>
    var head: Hash

    function State(): Node
      reads this
    {
      Node(dag, packets, heights, head)
    }

    /** `NewCore` and `SetHeadAndHeight`: only the leaves. */
    constructor (party: Party, leaves: seq<Leaf>, quorum: nat)
      requires GenesisOk(leaves, quorum) && party.me < |leaves|
      ensures this.party == party && dag == Genesis(leaves, quorum) && NodeOk(party, State()) && Current(party, State())
    {
      this.party := party;
      dag, packets := Genesis(leaves, quorum), map[];
      heights := map c: Creator | c in Genesis(leaves, quorum).chains :: 0;
      head := leaves[party.me].hash;
      new;
      GenesisInv(leaves, quorum);
      GenesisShape(leaves, quorum);
      forall c | c in dag.chains ensures |dag.chains[c]| == 1 { assert LeafStored(dag, leaves, c); }
      forall h | h in dag.events ensures IsLeaf(dag.events[h]) {
        var c :| IsLeafOf(dag, leaves, h, c);
        assert LeafStored(dag, leaves, c);
      }
      assert LeafStored(dag, leaves, party.me);
    }

    /** The chain suffixes above the given heights, one participant after the other. */
    method Collect(known: map<Creator, int>) returns (r: Option<seq<Hash>>)
      requires Inv(dag)
      ensures r.None? <==> exists c {:trigger c in known} :: c in known && c in dag.chains && known[c] < -1
      ensures r.Some? ==> Collected(dag, known, {}, r.value)
    {
      var unknown: seq<Hash> := [];
      var left := known.Keys;
      while left != {}
        invariant left <= known.Keys && Collected(dag, known, left, unknown)
        invariant forall c {:trigger c in known} :: c in known && c in dag.chains && c !in left ==> known[c] >= -1
      {
        var c :| c in left;
        if c in dag.chains {
          var more := Above(dag.chains[c], known[c]);
          if more.None? {
            return None;
          }
          CollectedMore(dag, known, left, unknown, c);
          unknown := unknown + more.value;
        } else {
          CollectedSkip(dag, known, left, unknown, c);
        }
        left := left - {c};
      }
      r := Some(unknown);
    }

    /**
     `EventDiff` and `ToWire`: exactly what this node has above the given heights, in the order it was inserted
     here, or an error if a height is below that of the leaves.
     */
    method EventDiff(known: map<Creator, int>) returns (r: Option<seq<Wire>>, ghost hs: seq<Hash>)
      requires Inv(dag)
      ensures r.None? <==> exists c {:trigger c in known} :: c in known && c in dag.chains && known[c] < -1
      ensures r.Some? ==> IsDiff(dag, known, hs) && r.value == WireAll(State(), hs)
    {
      hs := [];
      var unknown := Collect(known);
      if unknown.None? {
        return None, hs;
      }
      var sorted := SortByTopo(dag, unknown.value);
      hs := sorted;
      var wires: seq<Wire> := [];
      for i := 0 to |sorted|
        invariant wires == WireAll(State(), sorted)[..i]
      {
        var wire := MakeWire(Sent(State(), sorted[i]));
        wires := wires + [wire];
      }
      r := Some(wires);
    }

    /** `InsertEvent`. */
    method InsertEvent(p: Packet) returns (failure: Option<Failure>)
      modifies this`dag, this`packets, this`heights, this`head
      ensures Step(State(), failure) == AddEvent(party, old(State()), p)
    {
      var inserted := Insert(dag, MessageOf(party.crypto, p));
      if inserted.Err? {
        return Some(Refused(inserted.error));
      }
      dag := inserted.value;
      packets := packets[party.crypto.hash(p.body) := p];
      if p.body.creator == party.me {
        head := party.crypto.hash(p.body);
      } else {
        heights := heights[p.body.creator := p.body.index];
      }
      failure := None;
    }

    /** `AddSelfEventBlock`. */
    method AddSelfEvent(other: Hash, x: Payload) returns (failure: Option<Failure>)
      modifies this`dag, this`packets, this`heights, this`head
      ensures Step(State(), failure) == SelfEvent(party, old(State()), other, x)
      ensures failure.None? ==> OwnEventMade(party, old(State()), State(), other, x)
    {
      OwnEventCarries(party, State(), other, x);
      var b := BodyOf(party, State(), other, x);
      heights := heights[party.me := b.index];
      if head !in dag.events || other !in dag.events {
        return Some(NoParents);
      }
      failure := InsertEvent(Addressed(party, dag, b));
    }

    /** One round of `Sync`'s loop. */
    method TakeWire(known: map<Creator, int>, peer: Creator, otherHead: Hash, wire: Wire)
      returns (failure: Option<Failure>, head': Hash)
      modifies this`dag, this`packets, this`heights, this`head
      ensures Step(State(), failure) == TakeOne(party, old(State()), known, wire)
      ensures head' == HeadAfter(party, old(dag), peer, otherHead, wire)
    {
      failure, head' := None, otherHead;
      var p := ReadWireInfo(dag, wire, party.rootParent);
      if p.Err? {
        failure := Some(BadWire(p.error));
        return;
      }
      if p.value.body.index > HeightIn(known, p.value.body.creator) {
        failure := InsertEvent(p.value);
      }
      if p.value.body.creator == peer {
        head' := party.crypto.hash(p.value.body);
      }
    }

    /** `Sync`. */
    method Sync(peer: Creator, wires: seq<Wire>, x: Option<Payload>) returns (failure: Option<Failure>)
      modifies this`dag, this`packets, this`heights, this`head
      ensures Step(State(), failure) == SyncStep(party, old(State()), peer, wires, x)
    {
      if peer !in dag.chains {
        return Some(UnknownPeer);
      }
      var known, otherHead := heights, LastOf(party, dag, peer);
      ghost var n := State();
      for i := 0 to |wires|
        invariant TakeAll(party, n, known, wires[..i]) == Step(State(), None)
        invariant PeerHead(party, n, known, peer, wires[..i]) == otherHead
      {
        TakeOneMore(party, n, known, peer, wires, i);
        failure, otherHead := TakeWire(known, peer, otherHead, wires[i]);
        if failure.Some? {
          FirstFailure(party, n, known, wires, i + 1);
          return;
        }
      }
      assert wires[..|wires|] == wires;
      failure := None;
      if x.Some? {
        failure := AddSelfEvent(otherHead, x.value);
      }
    }
  }
}

/**
 The event DAG that a node grows by `Poset.InsertEvent`: which events are accepted, and the frame,
 root flag, flag table, root table and Lamport timestamp each accepted event is given from its two
 parents and the per-frame index of roots (src/poset/poset.go).

 Hashes are numbers, 0 being the zero hash; a message carries its own hash. Stores are unbounded maps.
 */
module EventDag {
  import opened Wrappers

  type Hash = nat
  type Creator = nat
  type FlagTable = map<Hash, int>

  /** What travels between nodes. `signed` is the verdict of the signature check. */
  datatype Message = Message(hash: Hash, creator: Creator, index: int,
                             selfParent: Hash, otherParent: Hash,
                             loaded: bool, signed: bool)

  /** A stored event: its message and everything insertion derives for it. */
  datatype Event = Event(msg: Message, frame: int, root: bool,
                         flags: FlagTable, rootTable: FlagTable,
                         lamport: nat, topo: nat)

  datatype Placement = Placement(frame: int, root: bool, flags: FlagTable, rootTable: FlagTable)

  /** `creatorRoots` and `registered` are the two clotho-check indexes of the store. */
  datatype Dag = Dag(quorum: nat,
                     events: map<Hash, Event>,
                     chains: map<Creator, seq<Hash>>,
                     creatorRoots: map<(int, Creator), Hash>,
                     registered: set<(int, Hash)>,
                     next: nat)

  datatype Error = BadSignature | UnknownCreator | SelfParentNotLast | OtherParentUnknown
                 | RootLookupFailed | IndexRefused

  /** What a failed store lookup leaves in the Go variable. */
  const NO_MESSAGE := Message(0, 0, 0, 0, 0, false, false)
  const NO_EVENT := Event(NO_MESSAGE, 0, false, map[], map[], 0, 0)

  function Lookup(d: Dag, h: Hash): Event {
    if h in d.events then d.events[h] else NO_EVENT
  }

  function Max(a: nat, b: nat): nat {
    if a < b then b else a
  }

  /** Entries of a table that carry the given frame. */
  function Carrying(t: FlagTable, frame: int): FlagTable {
    map h | h in t && t[h] == frame :: frame
  }

  /** Entries of either table that carry the given frame. */
  function Merge(src: FlagTable, dst: FlagTable, frame: int): FlagTable {
    Carrying(src, frame) + Carrying(dst, frame)
  }

  /** What placement looks at in a parent. */
  datatype View = View(frame: int, flags: FlagTable)

  function ViewOf(e: Event): View {
    View(e.frame, e.flags)
  }

  /** Parents of one frame: enough roots seen between them make a root of the next frame. */
  function Rise(frame: int, merged: FlagTable, h: Hash, quorum: nat): Placement {
    if |merged| >= quorum
    then Placement(frame + 1, true, map[h := frame + 1], merged)
    else Placement(frame, false, merged, map[])
  }

  /** An other parent of a later frame: the event becomes its creator's root of that frame. */
  function Jump(self: View, other: View, otherRootTable: FlagTable, h: Hash): Placement {
    Placement(other.frame, true, other.flags[h := other.frame], Merge(self.flags, otherRootTable, other.frame - 1))
  }

  /** Frame, root flag and tables of a new event, from its parents. */
  function Place(self: View, other: View, otherRootTable: FlagTable, h: Hash, quorum: nat): Placement {
    if self.frame == other.frame then Rise(self.frame, Merge(self.flags, other.flags, self.frame), h, quorum)
    else if self.frame > other.frame then Placement(self.frame, false, self.flags, map[])
    else Jump(self, other, otherRootTable, h)
  }

  /** The root table consulted when the other parent is in a later frame. */
  function OtherRootTable(d: Dag, self: Event, other: Event): FlagTable {
    var key := (other.frame, other.msg.creator);
    if self.frame < other.frame && key in d.creatorRoots
    then Lookup(d, d.creatorRoots[key]).rootTable
    else map[]
  }

  function Placed(d: Dag, m: Message): Placement {
    var self, other := Lookup(d, m.selfParent), Lookup(d, m.otherParent);
    Place(ViewOf(self), ViewOf(other), OtherRootTable(d, self, other), m.hash, d.quorum)
  }

  function NewEvent(d: Dag, m: Message): Event {
    var p := Placed(d, m);
    Event(m, p.frame, p.root, p.flags, p.rootTable,
          Max(Lookup(d, m.selfParent).lamport, Lookup(d, m.otherParent).lamport) + 1, d.next)
  }

  /** The creator's list after `RollingIndex.Set`: append, overwrite, or refuse. */
  predicate IndexAccepted(chain: seq<Hash>, index: int) {
    0 <= index <= |chain|
  }

  function SetIndex(chain: seq<Hash>, index: int, h: Hash): seq<Hash>
    requires IndexAccepted(chain, index)
  {
    if index == |chain| then chain + [h] else chain[index := h]
  }

  function Store(d: Dag, e: Event): Dag
    requires e.msg.creator in d.chains && IndexAccepted(d.chains[e.msg.creator], e.msg.index)
  {
    var c := e.msg.creator;
    var h := e.msg.hash;
    d.(events := d.events[h := e],
       chains := if h in d.events then d.chains else d.chains[c := SetIndex(d.chains[c], e.msg.index, h)],
       creatorRoots := if e.root then d.creatorRoots[(e.frame, c) := h] else d.creatorRoots,
       registered := if e.root then d.registered + {(e.frame, h)} else d.registered,
       next := d.next + 1)
  }

  /** `InsertEvent` up to and including the registration of a new root. */
  function Insert(d: Dag, m: Message): Result<Dag, Error> {
    if !m.signed then Err(BadSignature)
    else if m.creator !in d.chains then Err(UnknownCreator)
    else
      var chain := d.chains[m.creator];
      if chain == [] || chain[|chain| - 1] != m.selfParent then Err(SelfParentNotLast)
      else if m.otherParent != 0 && m.otherParent !in d.events then Err(OtherParentUnknown)
      else
        var self, other := Lookup(d, m.selfParent), Lookup(d, m.otherParent);
        if self.frame < other.frame && (other.frame, other.msg.creator) !in d.creatorRoots then
          Err(RootLookupFailed)
        else if !IndexAccepted(chain, m.index) then Err(IndexRefused)
        else Ok(Store(d, NewEvent(d, m)))
  }

  // ------------------------------------------------------------------------------------------
  // Genesis and runs
  // ------------------------------------------------------------------------------------------

  /** A participant: its leaf event's hash and the timestamp taken from its public key. */
  datatype Leaf = Leaf(hash: Hash, lamport: nat)

  /** Leaves have distinct non-zero hashes and positive timestamps; a quorum is never zero. */
  ghost predicate GenesisOk(leaves: seq<Leaf>, quorum: nat) {
    && quorum >= 1
    && (forall i :: 0 <= i < |leaves| ==> leaves[i].hash != 0 && leaves[i].lamport > 0)
    && (forall i, j :: 0 <= i < j < |leaves| ==> leaves[i].hash != leaves[j].hash)
  }

  function LeafEvent(c: Creator, leaf: Leaf): Event {
    Event(Message(leaf.hash, c, 0, 0, 0, true, true), 0, true,
          map[leaf.hash := 0], map[leaf.hash := 0], leaf.lamport, c)
  }

  /** Participant `c` is the `c`-th of the sorted participants. */
  function Genesis(leaves: seq<Leaf>, quorum: nat): Dag {
    if leaves == [] then Dag(quorum, map[], map[], map[], {}, 0)
    else
      var c := |leaves| - 1;
      var d := Genesis(leaves[..c], quorum);
      d.(events := d.events[leaves[c].hash := LeafEvent(c, leaves[c])],
         chains := d.chains[c := [leaves[c].hash]],
         next := d.next + 1)
  }

  /** The index continues the creator's chain, and no stored event has this hash with another body. */
  predicate Honest(d: Dag, m: Message) {
    && m.hash != 0
    && (m.creator in d.chains ==> m.index == |d.chains[m.creator]|)
    && (m.hash in d.events ==> d.events[m.hash].msg == m)
  }

  /** Inserting the messages one after the other, all of them accepted and honest. */
  predicate Runs(d: Dag, ms: seq<Message>)
    decreases |ms|
  {
    ms == [] || (Honest(d, ms[0]) && Insert(d, ms[0]).Ok? && Runs(Insert(d, ms[0]).value, ms[1..]))
  }

  function After(d: Dag, ms: seq<Message>): Dag
    requires Runs(d, ms)
    decreases |ms|
  {
    if ms == [] then d else After(Insert(d, ms[0]).value, ms[1..])
  }

  // ------------------------------------------------------------------------------------------
  // Invariant of every reachable DAG
  // ------------------------------------------------------------------------------------------

  predicate IsLeaf(e: Event) { e.msg.index == 0 }

  /** Parents are stored and were stored before. */
  predicate EventClosed(d: Dag, h: Hash)
    requires h in d.events
  {
    var e := d.events[h];
    && e.msg.hash == h && h != 0 && e.topo < d.next
    && if IsLeaf(e) then e.msg.selfParent == 0 && e.msg.otherParent == 0
       else
         && e.msg.index > 0
         && e.msg.selfParent in d.events
         && d.events[e.msg.selfParent].topo < e.topo
         && d.events[e.msg.selfParent].msg.creator == e.msg.creator
         && d.events[e.msg.selfParent].msg.index == e.msg.index - 1
         && (e.msg.otherParent != 0 ==> e.msg.otherParent in d.events && d.events[e.msg.otherParent].topo < e.topo)
  }

  ghost predicate Closed(d: Dag) {
    && 0 !in d.events
    && forall h {:trigger EventClosed(d, h)} :: h in d.events ==> EventClosed(d, h)
  }

  predicate EventChained(d: Dag, h: Hash)
    requires h in d.events
  {
    var m := d.events[h].msg;
    m.creator in d.chains && 0 <= m.index < |d.chains[m.creator]| && d.chains[m.creator][m.index] == h
  }

  predicate LinkOk(d: Dag, c: Creator, i: int)
    requires c in d.chains && 0 <= i < |d.chains[c]|
  {
    var h := d.chains[c][i];
    h in d.events && d.events[h].msg.creator == c && d.events[h].msg.index == i
  }

  /** Each creator's list holds exactly its events, in index order: creators do not fork. */
  ghost predicate Chained(d: Dag) {
    && (forall h {:trigger EventChained(d, h)} :: h in d.events ==> EventChained(d, h))
    && (forall c :: c in d.chains ==> |d.chains[c]| > 0)
    && (forall c, i {:trigger LinkOk(d, c, i)} :: c in d.chains && 0 <= i < |d.chains[c]| ==> LinkOk(d, c, i))
  }

  function PlacementOf(e: Event): Placement {
    Placement(e.frame, e.root, e.flags, e.rootTable)
  }

  predicate LookupFound(d: Dag, m: Message) {
    var self, other := Lookup(d, m.selfParent), Lookup(d, m.otherParent);
    self.frame < other.frame ==> (other.frame, other.msg.creator) in d.creatorRoots
  }

  /** An event's derived fields are what its parents and the root index say, now as at insertion. */
  predicate EventPlaced(d: Dag, h: Hash)
    requires h in d.events
  {
    var e := d.events[h];
    if IsLeaf(e) then PlacementOf(e) == Placement(0, true, map[h := 0], map[h := 0]) && e.lamport > 0
    else
      && LookupFound(d, e.msg)
      && PlacementOf(e) == Placed(d, e.msg)
      && e.lamport == Max(Lookup(d, e.msg.selfParent).lamport, Lookup(d, e.msg.otherParent).lamport) + 1
  }

  ghost predicate AllPlaced(d: Dag) {
    forall h {:trigger EventPlaced(d, h)} :: h in d.events ==> EventPlaced(d, h)
  }

  predicate RootKeyOk(d: Dag, k: (int, Creator))
    requires k in d.creatorRoots
  {
    var h := d.creatorRoots[k];
    && k.0 >= 1 && h in d.events
    && d.events[h].root && d.events[h].frame == k.0 && d.events[h].msg.creator == k.1
  }

  /** The creator's root of this event's frame is registered and not later than the event. */
  predicate EventRooted(d: Dag, h: Hash)
    requires h in d.events
  {
    var e := d.events[h];
    var k := (e.frame, e.msg.creator);
    && e.frame >= 0
    && (e.frame >= 1 ==>
          && k in d.creatorRoots
          && RootKeyOk(d, k)
          && d.events[d.creatorRoots[k]].msg.index <= e.msg.index
          && (e.root ==> d.creatorRoots[k] == h))
  }

  ghost predicate Rooted(d: Dag) {
    && d.quorum >= 1
    && (forall k {:trigger RootKeyOk(d, k)} :: k in d.creatorRoots ==> RootKeyOk(d, k))
    && (forall h {:trigger EventRooted(d, h)} :: h in d.events ==> EventRooted(d, h))
  }

  /** The frame-and-hash index holds the roots of frame one and above. */
  ghost predicate Registered(d: Dag) {
    forall f, h {:trigger (f, h) in d.registered} ::
      (f, h) in d.registered <==> f >= 1 && h in d.events && d.events[h].root && d.events[h].frame == f
  }

  ghost predicate Inv(d: Dag) {
    Closed(d) && Chained(d) && AllPlaced(d) && Rooted(d) && Registered(d)
  }
}

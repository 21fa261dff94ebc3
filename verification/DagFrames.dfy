/**
 What the derived fields of an event say about the DAG: exactly when it is a root and in which frame it lies, what
 a root's table holds, and how far its Lamport time lies above those of its ancestors.
 */
module DagFrames {
  import opened Wrappers
  import opened EventDag
  import opened DagInvariant
  import opened DagReachability

  /** Frames of the two parents; an absent other parent counts as frame zero. */
  function SelfFrame(d: Dag, h: Hash): int
    requires h in d.events
  {
    Lookup(d, d.events[h].msg.selfParent).frame
  }

  function OtherFrame(d: Dag, h: Hash): int
    requires h in d.events
  {
    Lookup(d, d.events[h].msg.otherParent).frame
  }

  /** Roots of frame `f` that lie strictly below `h`. */
  ghost function RootsUnder(d: Dag, h: Hash, f: int): set<Hash>
    requires Closed(d) && h in d.events
  {
    set r | r in Anc(d, h) && r != h && IsRootAt(d, r, f)
  }

  lemma UnderParents(d: Dag, h: Hash, f: int)
    requires Inv(d) && h in d.events && !IsLeaf(d.events[h]) && EventClosed(d, h)
    ensures var m := d.events[h].msg; RootsUnder(d, h, f) == RootsSeen(d, m.selfParent, f) + OtherRoots(d, m, f)
  {
    FramesRise(d);
    RootsStep(d, h, f);
    StrictRoots(d, h, f);
    assert RootsUnder(d, h, f) == RootsSeen(d, h, f) - {h};
  }

  /**
   Enough roots make a root: with both parents in one frame, an event rises to the next frame exactly when at least a
   quorum of that frame's roots lies below it. With parents in different frames it goes to the higher one, as a root
   exactly when that is the other parent's.
   */
  lemma RootIffQuorum(d: Dag, h: Hash)
    requires Inv(d) && h in d.events && !IsLeaf(d.events[h])
    ensures var e, s, o := d.events[h], SelfFrame(d, h), OtherFrame(d, h);
            if s == o then (e.root <==> |RootsUnder(d, h, s)| >= d.quorum) && e.frame == (if e.root then s + 1 else s)
            else (e.root <==> s < o) && e.frame == (if s < o then o else s)
  {
    assert EventClosed(d, h) && EventPlaced(d, h);
    var m, s := d.events[h].msg, SelfFrame(d, h);
    if s == OtherFrame(d, h) {
      var self, other := Lookup(d, m.selfParent), Lookup(d, m.otherParent);
      var merged := Merge(self.flags, other.flags, s);
      assert merged.Keys == RootsUnder(d, h, s) by {
        UnderParents(d, h, s);
        ParentTables(d, h);
        MergeKeys(self.flags, s, other.flags, s);
      }
      assert |merged| == |merged.Keys|;
    }
  }

  /** A root that rises lists all roots of the frame below, and an event that is no root lists nothing. */
  lemma RisingTable(d: Dag, h: Hash)
    requires Inv(d) && h in d.events && !IsLeaf(d.events[h]) && SelfFrame(d, h) >= OtherFrame(d, h)
    ensures var e := d.events[h];
            e.rootTable == if e.root then TableOf(RootsUnder(d, h, e.frame - 1), e.frame - 1) else map[]
  {
    assert EventClosed(d, h) && EventPlaced(d, h);
    var m, s := d.events[h].msg, SelfFrame(d, h);
    if s == OtherFrame(d, h) {
      var self, other := Lookup(d, m.selfParent), Lookup(d, m.otherParent);
      UnderParents(d, h, s);
      ParentTables(d, h);
      UniformTable(self.flags, s);
      UniformTable(other.flags, s);
      MergeTables(self.flags.Keys, other.flags.Keys, s);
    }
  }

  lemma UniformTable(t: FlagTable, f: int)
    requires Uniform(t, f)
    ensures t == TableOf(t.Keys, f)
  {}

  /**
   A root that jumps to its other parent's frame lists what that parent's creator lists with its own root of the frame,
   and the roots its self-parent sees when that is in the frame just below.
   */
  lemma JumpingTable(d: Dag, h: Hash) returns (r: Hash)
    requires Inv(d) && h in d.events && !IsLeaf(d.events[h]) && SelfFrame(d, h) < OtherFrame(d, h)
    ensures var e, o := d.events[h], OtherFrame(d, h);
            && e.msg.otherParent in d.events && r in Anc(d, e.msg.otherParent) && IsRootAt(d, r, o)
            && d.events[r].msg.creator == d.events[e.msg.otherParent].msg.creator
            && e.msg.selfParent in d.events && Uniform(e.rootTable, o - 1)
            && e.rootTable.Keys == If(SelfFrame(d, h) == o - 1, RootsSeen(d, e.msg.selfParent, SelfFrame(d, h)))
                                   + d.events[r].rootTable.Keys
  {
    assert EventClosed(d, h) && EventPlaced(d, h);
    r := JumpRoot(d, h);
    RootTableIsQuorum(d, r);
    SelfTable(d, h);
    JumpedTable(d, h, d.events[r].rootTable);
  }

  lemma SelfTable(d: Dag, h: Hash)
    requires Inv(d) && h in d.events && !IsLeaf(d.events[h]) && EventClosed(d, h)
    ensures var s := d.events[h].msg.selfParent; var f := SelfFrame(d, h);
            d.events[s].flags.Keys == RootsSeen(d, s, f) && Uniform(d.events[s].flags, f)
  {
    ParentTables(d, h);
  }

  // ------------------------------------------------------------------------------------------
  // Lamport time
  // ------------------------------------------------------------------------------------------

  /** A step down to a parent lowers the Lamport time, by exactly one for one of the parents. */
  lemma LamportStep(d: Dag, h: Hash) returns (p: Hash)
    requires Inv(d) && h in d.events && !IsLeaf(d.events[h])
    ensures IsParent(d, h, p) && d.events[h].lamport == d.events[p].lamport + 1
    ensures forall q :: q in d.events && IsParent(d, h, q) ==> d.events[q].lamport < d.events[h].lamport
  {
    assert EventClosed(d, h) && EventPlaced(d, h);
    var m := d.events[h].msg;
    p := if Lookup(d, m.selfParent).lamport < Lookup(d, m.otherParent).lamport then m.otherParent else m.selfParent;
  }

  /** Along any walk down, the Lamport time falls by at least one a step. */
  lemma {:induction false} LamportFalls(d: Dag, p: seq<Hash>)
    requires Inv(d) && IsPath(d, p)
    ensures d.events[p[0]].lamport >= d.events[p[|p| - 1]].lamport + |p| - 1
    decreases |p|
  {
    if |p| > 1 {
      assert IsParent(d, p[0], p[1]);
      assert EventClosed(d, p[0]);
      var q := LamportStep(d, p[0]);
      assert IsPath(d, p[1..]);
      LamportFalls(d, p[1..]);
    }
  }

  ghost predicate LeafPath(d: Dag, p: seq<Hash>) {
    IsPath(d, p) && IsLeaf(d.events[p[|p| - 1]])
  }

  lemma {:induction false} SteepestPath(d: Dag, h: Hash) returns (p: seq<Hash>)
    requires Inv(d) && h in d.events
    ensures LeafPath(d, p) && p[0] == h && d.events[h].lamport == d.events[p[|p| - 1]].lamport + |p| - 1
    decreases d.events[h].topo
  {
    if IsLeaf(d.events[h]) {
      p := [h];
    } else {
      assert EventClosed(d, h);
      var q := LamportStep(d, h);
      var rest := SteepestPath(d, q);
      p := [h] + rest;
    }
  }

  /**
   The Lamport time of an event is the largest, over all walks down to a leaf, of the leaf's time plus the number of
   steps.
   */
  lemma LamportIsLongest(d: Dag, h: Hash)
    requires Inv(d) && h in d.events
    ensures exists p :: LeafPath(d, p) && p[0] == h && d.events[h].lamport == d.events[p[|p| - 1]].lamport + |p| - 1
    ensures forall p :: IsPath(d, p) && p[0] == h ==> d.events[h].lamport >= d.events[p[|p| - 1]].lamport + |p| - 1
  {
    var p := SteepestPath(d, h);
    forall q | IsPath(d, q) && q[0] == h
      ensures d.events[h].lamport >= d.events[q[|q| - 1]].lamport + |q| - 1
    {
      LamportFalls(d, q);
    }
  }

  /** Strict ancestors have smaller Lamport times. */
  lemma LamportAbove(d: Dag, h: Hash, a: Hash)
    requires Inv(d) && h in d.events && a in Anc(d, h) && a != h
    ensures a in d.events && d.events[a].lamport < d.events[h].lamport
  {
    var p := PathTo(d, h, a);
    LamportFalls(d, p);
  }

  // ------------------------------------------------------------------------------------------
  // What is accepted
  // ------------------------------------------------------------------------------------------

  /** The self-parent is the last event of the message's creator. */
  predicate ContinuesChain(d: Dag, m: Message) {
    m.creator in d.chains && m.selfParent in d.events && d.events[m.selfParent].msg.creator == m.creator
    && d.events[m.selfParent].msg.index == |d.chains[m.creator]| - 1
  }

  predicate OtherKnown(d: Dag, m: Message) {
    m.otherParent == 0 || m.otherParent in d.events
  }

  /**
   A message is accepted exactly when it is signed, comes from a participant, continues that one's newest event, names
   no unknown other parent, and leaves no gap in the index.
   */
  lemma AcceptedIff(d: Dag, m: Message)
    requires Inv(d)
    ensures Insert(d, m).Ok? <==>
            m.signed && ContinuesChain(d, m) && OtherKnown(d, m) && 0 <= m.index <= |d.chains[m.creator]|
  {
    LookupNeverFails(d, m);
    if m.creator in d.chains {
      assert LinkOk(d, m.creator, |d.chains[m.creator]| - 1);
      if m.selfParent in d.events { assert EventChained(d, m.selfParent); }
    }
  }

  /** What is refused for several reasons is refused for the first of them. */
  lemma RefusedFor(d: Dag, m: Message)
    requires Inv(d) && Insert(d, m).Err?
    ensures match Insert(d, m).error
            case BadSignature => !m.signed
            case UnknownCreator => m.signed && m.creator !in d.chains
            case SelfParentNotLast => m.signed && m.creator in d.chains && !ContinuesChain(d, m)
            case OtherParentUnknown => m.signed && ContinuesChain(d, m) && !OtherKnown(d, m)
            case RootLookupFailed => false
            case IndexRefused =>
                      m.signed && ContinuesChain(d, m) && OtherKnown(d, m)
                          && !(0 <= m.index <= |d.chains[m.creator]|)
  {
    LookupNeverFails(d, m);
    if m.creator in d.chains {
      assert LinkOk(d, m.creator, |d.chains[m.creator]| - 1);
      if m.selfParent in d.events { assert EventChained(d, m.selfParent); }
    }
  }

  /** An accepted message is stored as it came, behind everything else, and at the end of its creator's chain. */
  lemma AcceptedIsStored(d: Dag, m: Message)
    requires Inv(d) && Honest(d, m) && Insert(d, m).Ok?
    ensures var d' := Insert(d, m).value;
            && m.hash !in d.events && d'.events.Keys == d.events.Keys + {m.hash} && d'.events[m.hash].msg == m
            && (forall h :: h in d.events ==> d'.events[h] == d.events[h] && d.events[h].topo < d'.events[m.hash].topo)
            && m.creator in d.chains && d'.chains == d.chains[m.creator := d.chains[m.creator] + [m.hash]]
  {
    FreshHash(d, m);
    forall h | h in d.events ensures d.events[h].topo < d.next { assert EventClosed(d, h); }
  }
}

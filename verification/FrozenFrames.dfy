/**
 When a frame that was put out can still change. A frame takes no more events exactly when every participant's last
 event lies above it; nodes that put out only such frames put out the same blocks.
 */
module FrozenFrames {
  import opened Wrappers
  import opened EventDag
  import opened DagInvariant
  import opened DagReachability
  import opened DagOrder
  import opened Finality
  import opened TimeVotes
  import opened AtroposOrder
  import opened FinalFrames
  import Gossip

  /** The last event of a participant. */
  function LastOf(d: Dag, c: Creator): Hash
    requires c in d.chains && d.chains[c] != []
  {
    d.chains[c][|d.chains[c]| - 1]
  }

  ghost predicate LastAbove(d: Dag, c: Creator, f: int) {
    c in d.chains && d.chains[c] != [] && Lookup(d, LastOf(d, c)).frame > f
  }

  /** Every participant's last event lies above the frame. */
  ghost predicate PassedBy(d: Dag, f: int) {
    forall c {:trigger c in d.chains} :: c in d.chains ==> LastAbove(d, c, f)
  }

  // ------------------------------------------------------------------------------------------
  // A frame that is passed by stays as it is
  // ------------------------------------------------------------------------------------------

  lemma PassedStays(d: Dag, m: Message, f: int)
    requires Inv(d) && Honest(d, m) && Insert(d, m).Ok? && PassedBy(d, f)
    ensures PassedBy(Insert(d, m).value, f) && LoadedIn(Insert(d, m).value, f) == LoadedIn(d, f)
  {
    var d' := Insert(d, m).value;
    FreshHash(d, m);
    NewestLink(d, m);
    assert Extends(d, d') by { InsertExtends(d, m); }
    var self, other := Lookup(d, m.selfParent), Lookup(d, m.otherParent);
    PlaceRises(ViewOf(self), ViewOf(other), OtherRootTable(d, self, other), m.hash, d.quorum);
    assert LastAbove(d, m.creator, f);
    assert d'.events[m.hash].frame > f;
    JoinsIff(d, m, f);
    forall c {:trigger c in d'.chains} | c in d'.chains ensures LastAbove(d', c, f) {
      assert LastAbove(d, c, f);
      if c != m.creator { assert LinkOk(d, c, |d.chains[c]| - 1); }
    }
  }

  /** Over any run from then on, the frame holds what it held. */
  lemma {:induction false} PassedForGood(d: Dag, ms: seq<Message>, f: int)
    requires Inv(d) && Runs(d, ms) && PassedBy(d, f)
    ensures LoadedIn(After(d, ms), f) == LoadedIn(d, f)
    decreases |ms|
  {
    if ms != [] {
      PassedStays(d, ms[0], f);
      InsertKeepsInv(d, ms[0]);
      PassedForGood(Insert(d, ms[0]).value, ms[1..], f);
    }
  }

  // ------------------------------------------------------------------------------------------
  // A frame that is not can grow
  // ------------------------------------------------------------------------------------------

  lemma {:induction false} FreshName(hs: set<Hash>) returns (h: Hash)
    ensures h > 0 && forall x :: x in hs ==> x < h
    decreases |hs|
  {
    if hs == {} {
      h := 1;
    } else {
      var x :| x in hs;
      var g := FreshName(hs - {x});
      h := if x < g then g else x + 1;
      forall y | y in hs ensures y < h { assert y == x || y in hs - {x}; }
    }
  }

  /** The next event of a participant, with the given other parent. */
  function NextOf(d: Dag, c: Creator, other: Hash, hash: Hash): Message
    requires c in d.chains && d.chains[c] != []
  {
    Message(hash, c, |d.chains[c]|, LastOf(d, c), other, true, true)
  }

  lemma NextAccepted(d: Dag, c: Creator, other: Hash, hash: Hash)
    requires Inv(d) && c in d.chains && d.chains[c] != [] && hash != 0 && hash !in d.events
    requires other == 0 || other in d.events
    ensures Honest(d, NextOf(d, c, other, hash)) && Insert(d, NextOf(d, c, other, hash)).Ok?
  {
    assert LinkOk(d, c, |d.chains[c]| - 1);
    LookupNeverFails(d, NextOf(d, c, other, hash));
  }

  /** A participant whose last event does not lie above the frame can add to it. */
  lemma CanJoin(d: Dag, c: Creator, f: int) returns (m: Message)
    requires Inv(d) && c in d.chains && !LastAbove(d, c, f) && f >= 1 && FrameReached(d, f)
    ensures Honest(d, m) && Insert(d, m).Ok? && m.loaded && NewEvent(d, m).frame == f
  {
    assert LinkOk(d, c, |d.chains[c]| - 1);
    var hash := FreshName(d.events.Keys);
    var top :| top in d.events && d.events[top].frame >= f;
    var other := SomeEventIn(d, top, f);
    if d.events[LastOf(d, c)].frame == f { other := 0; }
    assert Lookup(d, 0) == NO_EVENT by { assert 0 !in d.events; }
    NextAccepted(d, c, other, hash);
    m := NextOf(d, c, other, hash);
  }

  /** Some run changes the frame. */
  ghost predicate CanChange(d: Dag, f: int) {
    exists ms :: Runs(d, ms) && LoadedIn(After(d, ms), f) != LoadedIn(d, f)
  }

  /**
   The exact condition: what a frame puts out is settled for good if and only if every participant's last event lies
   above it.
   */
  lemma SettledIff(d: Dag, f: int)
    requires Inv(d) && f >= 1 && FrameReached(d, f)
    ensures !CanChange(d, f) <==> PassedBy(d, f)
  {
    if PassedBy(d, f) {
      forall ms | Runs(d, ms) ensures LoadedIn(After(d, ms), f) == LoadedIn(d, f) { PassedForGood(d, ms, f); }
    } else {
      var c :| c in d.chains && !LastAbove(d, c, f);
      var m := CanJoin(d, c, f);
      FreshHash(d, m);
      JoinsIff(d, m, f);
      OneStep(d, m);
      assert LoadedIn(After(d, [m]), f) != LoadedIn(d, f);
    }
  }

  lemma OneStep(d: Dag, m: Message)
    requires Honest(d, m) && Insert(d, m).Ok?
    ensures Runs(d, [m]) && After(d, [m]) == Insert(d, m).value
  {
    assert [m][1..] == [];
  }

  // ------------------------------------------------------------------------------------------
  // Two nodes
  // ------------------------------------------------------------------------------------------

  /** An event of a frame that the other node has passed by is there, too. */
  lemma PassedHolds(d1: Dag, d2: Dag, f: int, h: Hash)
    requires Inv(d1) && Inv(d2) && Gossip.Kin(d1, d2) && PassedBy(d2, f) && h in d1.events && d1.events[h].frame == f
    ensures h in d2.events
  {
    assert EventChained(d1, h);
    var c, i := d1.events[h].msg.creator, d1.events[h].msg.index;
    assert Gossip.PrefixRelated(d1.chains[c], d2.chains[c]) && LastAbove(d2, c, f);
    var last := |d2.chains[c]| - 1;
    assert LinkOk(d2, c, last);
    if i <= last {
      assert LinkOk(d2, c, i);
    } else {
      assert LinkOk(d1, c, last);
      assert d1.chains[c][last] == d2.chains[c][last];
      SameEvent(d1, d2, d2.chains[c][last]);
      FramesRise(d1);
      ChainOrder(d1, c, last, i);
    }
  }

  lemma SameLoaded(d1: Dag, d2: Dag, f: int, h: Hash)
    requires Inv(d1) && Inv(d2) && Gossip.Kin(d1, d2) && PassedBy(d2, f) && h in LoadedIn(d1, f)
    ensures h in LoadedIn(d2, f)
  {
    PassedHolds(d1, d2, f, h);
    SameEvent(d1, d2, h);
  }

  lemma KinBack(d1: Dag, d2: Dag)
    requires Gossip.Kin(d1, d2)
    ensures Gossip.Kin(d2, d1)
  {
    forall c {:trigger d2.chains[c]} {:trigger d1.chains[c]} | c in d2.chains
      ensures Gossip.PrefixRelated(d2.chains[c], d1.chains[c])
    {
      assert Gossip.PrefixRelated(d1.chains[c], d2.chains[c]);
    }
  }

  /** Nodes that have finished a frame and seen everybody pass it put out the same block, whatever else they hold. */
  lemma PassedBlocksAgree(d1: Dag, marks1: map<Hash, Marks>, tt1: TimeTable, d2: Dag, marks2: map<Hash, Marks>,
                          tt2: TimeTable, f: int, s1: seq<Entry>, s2: seq<Entry>)
    requires Exact(d1, marks1, tt1) && Exact(d2, marks2, tt2) && Gossip.Kin(d1, d2)
    requires FrameFinal(d1, marks1, f) && FrameFinal(d2, marks2, f) && PassedBy(d1, f) && PassedBy(d2, f)
    requires IsBlock(d1, marks1, f, s1) && IsBlock(d2, marks2, f, s2)
    ensures s1 == s2
  {
    KinBack(d1, d2);
    forall h ensures h in LoadedIn(d1, f) <==> h in LoadedIn(d2, f) {
      if h in LoadedIn(d1, f) { SameLoaded(d1, d2, f, h); }
      if h in LoadedIn(d2, f) { SameLoaded(d2, d1, f, h); }
    }
    BlocksAgree(d1, marks1, tt1, d2, marks2, tt2, f, s1, s2);
  }
}

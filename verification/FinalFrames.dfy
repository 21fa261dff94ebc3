/**
 Putting finished frames out in consensus order: `ProcessDecidedRounds` (src/poset/poset.go) over the two index queries
 of src/poset/badger_store.go. When a frame is finished, how far finality lags behind, and what two nodes put out.
 */
module FinalFrames {
  import opened Wrappers
  import opened EventDag
  import opened DagInvariant
  import opened DagReachability
  import opened DagOrder
  import opened Finality
  import opened TimeVotes
  import opened ClothoCount
  import opened AtroposVote
  import opened ClothoOrder
  import opened AtroposOrder
  import opened Posets

  // ------------------------------------------------------------------------------------------
  // How many frames a vote takes
  // ------------------------------------------------------------------------------------------

  /** What a root lists is one frame below it. */
  lemma ListedFrame(d: Dag, h: Hash, p: Hash)
    requires Inv(d) && h in d.events && !IsLeaf(d.events[h]) && p in d.events[h].rootTable
    ensures p in d.events && d.events[p].frame == d.events[h].frame - 1 == d.events[h].rootTable[p]
  {
    assert EventPlaced(d, h) && EventRooted(d, h) && EventClosed(d, h);
    FramesRise(d);
    assert EventRises(d, h) && EventRooted(d, d.events[h].msg.selfParent);
    RootTableIsQuorum(d, h);
    assert p in RootsSeen(d, h, d.events[h].frame - 1);
  }

  /** A registered entry of a root table is one frame below the root. */
  lemma RegisteredBelow(d: Dag, h: Hash, k: (int, Hash))
    requires Inv(d) && h in d.events && k in d.registered && k.1 in d.events[h].rootTable
    requires d.events[h].rootTable[k.1] == k.0
    ensures k.1 in d.events && d.events[k.1].frame == k.0 == d.events[h].frame - 1
  {
    assert k == (k.0, k.1);
    assert EventPlaced(d, h);
    if !IsLeaf(d.events[h]) { ListedFrame(d, h, k.1); }
  }

  /** A root makes clothos of roots three frames below it. */
  lemma ClothoLag(d: Dag, e: Hash, x: Hash)
    requires Inv(d) && e in d.events && x in d.events && BecomesClotho(d, e, (d.events[x].frame, x))
    ensures d.events[e].frame == d.events[x].frame + 3
  {
    var k := (d.events[x].frame, x);
    var p :| Previous(d, e, p) && |Voters(d, p, k)| >= d.quorum;
    RegisteredBelow(d, e, (d.events[e].rootTable[p], p));
    assert Voters(d, p, k) != {};
    var q :| q in Voters(d, p, k);
    RegisteredBelow(d, p, (d.events[p].rootTable[q], q));
    RegisteredBelow(d, q, k);
  }

  /** Registered entries of a root table are ancestors of the root. */
  lemma ListedBelow(d: Dag, h: Hash, p: Hash)
    requires Inv(d) && h in d.events && p in d.events[h].rootTable && (d.events[h].rootTable[p], p) in d.registered
    ensures p in Anc(d, h) && IsRootAt(d, p, d.events[h].frame - 1)
  {
    RegisteredBelow(d, h, (d.events[h].rootTable[p], p));
    assert EventPlaced(d, h) && EventRooted(d, p);
    if !IsLeaf(d.events[h]) { RootTableIsQuorum(d, h); }
  }

  /**
   Behind every clotho stands a quorum: some root two frames above it, below the root that makes it a clotho, descends
   from a quorum of roots of the frame in between, all of which descend from the clotho.
   */
  lemma ClothoIsSeen(d: Dag, e: Hash, x: Hash) returns (p: Hash, voters: set<Hash>)
    requires Inv(d) && e in d.events && x in d.events && BecomesClotho(d, e, (d.events[x].frame, x))
    ensures p in Anc(d, e) && IsRootAt(d, p, d.events[x].frame + 2) && |voters| >= d.quorum
    ensures forall q {:trigger q in voters} :: q in voters ==>
              IsRootAt(d, q, d.events[x].frame + 1) && q in Anc(d, p) && x in Anc(d, q)
  {
    ClothoLag(d, e, x);
    var k := (d.events[x].frame, x);
    p :| Previous(d, e, p) && |Voters(d, p, k)| >= d.quorum;
    ListedBelow(d, e, p);
    voters := Voters(d, p, k);
    forall q {:trigger q in voters} | q in voters
      ensures IsRootAt(d, q, d.events[x].frame + 1) && q in Anc(d, p) && x in Anc(d, q)
    {
      ListedBelow(d, p, q);
      ListedBelow(d, q, x);
    }
  }

  lemma {:induction false} RecordLag(d: Dag, e: Hash, x: Hash)
    requires Inv(d) && e in d.events && x in d.events && IdealRecord(d, e, x).Some?
    ensures d.events[e].frame >= d.events[x].frame + 3
    decreases d.events[e].topo
  {
    if Opening(d, e, x).Some? {
      ClothoLag(d, e, x);
    } else {
      var p := SomeVote(d, e, x);
      RecordLag(d, p, x);
    }
  }

  /** Somebody has voted, one frame below. */
  lemma SomeVote(d: Dag, e: Hash, x: Hash) returns (p: Hash)
    requires Inv(d) && e in d.events && IdealVotes(d, e, x) != map[]
    ensures p in d.events && d.events[p].topo < d.events[e].topo && IdealRecord(d, p, x).Some?
    ensures d.events[p].frame == d.events[e].frame - 1
  {
    p :| p in IdealVotes(d, e, x);
    assert p in Older(d, e);
    OlderIsTable(d, e);
    ListedFrame(d, e, p);
  }

  /** A root that confirms a clotho is at least five frames above it. */
  lemma DecideLag(d: Dag, e: Hash, x: Hash)
    requires Inv(d) && e in d.events && x in d.events && IdealDecides(d, e, x)
    ensures d.events[e].frame >= d.events[x].frame + 5
  {
    var p := SomeVote(d, e, x);
    RecordLag(d, p, x);
  }

  // ------------------------------------------------------------------------------------------
  // Finished frames
  // ------------------------------------------------------------------------------------------

  /** `CheckFrameFinality`: no event of the frame is without a received frame. */
  ghost predicate FrameFinal(d: Dag, marks: map<Hash, Marks>, f: int) {
    forall h {:trigger h in d.events} :: h in d.events && d.events[h].frame == f ==> Received(marks, h)
  }

  /** A confirmed event that is not a leaf is `h` or descends from it. */
  ghost predicate BelowVoted(d: Dag, marks: map<Hash, Marks>, h: Hash)
    requires Closed(d)
  {
    exists x :: x in d.events && x in marks && marks[x].atropos && !IsLeaf(d.events[x]) && h in Anc(d, x)
  }

  lemma ReceivedIsVoted(d: Dag, marks: map<Hash, Marks>, h: Hash)
    requires Inv(d) && MarksOk(d, marks) && FinalBelow(d, marks) && h in d.events
    ensures Received(marks, h) <==> BelowVoted(d, marks, h)
  {
    if Received(marks, h) {
      var x :| x in d.events && x in marks && marks[x].atropos && h in Anc(d, x)
               && d.events[x].frame == marks[h].frameReceived;
      assert EventPlaced(d, x);
    }
    if BelowVoted(d, marks, h) {
      var x :| x in d.events && x in marks && marks[x].atropos && !IsLeaf(d.events[x]) && h in Anc(d, x);
      assert MarkOk(d, marks, x);
      if h != x { ReceivedIsClosed(d, marks, x, h); }
    }
  }

  /** A frame is finished exactly when each of its events is at or below a confirmed event other than a leaf. */
  lemma FrameFinalIff(d: Dag, marks: map<Hash, Marks>, f: int)
    requires Inv(d) && MarksOk(d, marks) && FinalBelow(d, marks)
    ensures FrameFinal(d, marks, f) <==>
              forall h {:trigger h in d.events} :: h in d.events && d.events[h].frame == f ==> BelowVoted(d, marks, h)
  {
    forall h | h in d.events ensures Received(marks, h) <==> BelowVoted(d, marks, h) { ReceivedIsVoted(d, marks, h); }
  }

  /** Five frames above every event with a received frame there is a root. */
  lemma FinalityLag(d: Dag, marks: map<Hash, Marks>, tt: TimeTable, h: Hash) returns (e: Hash)
    requires Exact(d, marks, tt) && h in d.events && Received(marks, h)
    ensures e in d.events && d.events[e].frame >= d.events[h].frame + 5
  {
    ReceivedIsVoted(d, marks, h);
    var x :| x in d.events && x in marks && marks[x].atropos && !IsLeaf(d.events[x]) && h in Anc(d, x);
    AtroposIff(d, marks, tt, x);
    e :| e in d.events && IdealDecides(d, e, x);
    DecideLag(d, e, x);
    FramesRise(d);
    AncBelow(d, x, h);
  }

  /** No event is in a frame above `top`, and one is in it. */
  ghost predicate IsTop(d: Dag, top: int) {
    && (exists h :: h in d.events && d.events[h].frame == top)
    && forall h {:trigger h in d.events} :: h in d.events ==> d.events[h].frame <= top
  }

  /** No frame is skipped. */
  lemma {:induction false} SomeEventIn(d: Dag, h: Hash, f: int) returns (g: Hash)
    requires Inv(d) && h in d.events && 0 <= f <= d.events[h].frame
    ensures g in d.events && d.events[g].frame == f
    decreases d.events[h].frame
  {
    g := h;
    if d.events[h].frame > f {
      assert EventRooted(d, h);
      var r := d.creatorRoots[(d.events[h].frame, d.events[h].msg.creator)];
      assert RootKeyOk(d, (d.events[h].frame, d.events[h].msg.creator));
      RootTableIsQuorum(d, r);
      var p :| p in d.events[r].rootTable;
      assert p in RootsSeen(d, r, d.events[r].frame - 1);
      g := SomeEventIn(d, p, f);
    }
  }

  /** The five highest frames are never finished, so the loop over finished frames comes to an end. */
  lemma LastFramesOpen(d: Dag, marks: map<Hash, Marks>, tt: TimeTable, top: int, f: int)
    requires Exact(d, marks, tt) && IsTop(d, top) && 0 <= f <= top && top < f + 5
    ensures !FrameFinal(d, marks, f)
  {
    var h :| h in d.events && d.events[h].frame == top;
    var g := SomeEventIn(d, h, f);
    if Received(marks, g) { var e := FinalityLag(d, marks, tt, g); }
  }

  // ------------------------------------------------------------------------------------------
  // Consensus order
  // ------------------------------------------------------------------------------------------

  /** An entry of the index that events are sorted by within a frame. */
  datatype Entry = Entry(lamport: nat, time: nat, hash: Hash)

  function EntryOf(d: Dag, marks: map<Hash, Marks>, h: Hash): Entry
    requires h in d.events && h in marks
  {
    Entry(d.events[h].lamport, marks[h].atroposTimestamp, h)
  }

  predicate Precedes(a: Entry, b: Entry) {
    a.lamport < b.lamport
    || (a.lamport == b.lamport && (a.time < b.time || (a.time == b.time && a.hash < b.hash)))
  }

  /** Sorted by Lamport time, then by final timestamp, then by hash; no entry twice. */
  ghost predicate Ascending(s: seq<Entry>) {
    forall i, j :: 0 <= i < j < |s| ==>
      && s[i].lamport <= s[j].lamport
      && (s[i].lamport == s[j].lamport ==> s[i].time <= s[j].time)
      && (s[i].lamport == s[j].lamport && s[i].time == s[j].time ==> s[i].hash < s[j].hash)
  }

  /** The loaded events of a frame. */
  function LoadedIn(d: Dag, f: int): set<Hash> {
    set h | h in d.events && d.events[h].frame == f && d.events[h].msg.loaded
  }

  ghost predicate EntriesOf(d: Dag, marks: map<Hash, Marks>, hs: set<Hash>, s: seq<Entry>)
    requires hs <= d.events.Keys && hs <= marks.Keys
  {
    forall k {:trigger k in s} :: k in s <==>
      k.hash in hs && k.lamport == d.events[k.hash].lamport && k.time == marks[k.hash].atroposTimestamp
  }

  /** The loaded events of the frame, each once, in order. */
  ghost predicate IsBlock(d: Dag, marks: map<Hash, Marks>, f: int, s: seq<Entry>)
    requires d.events.Keys == marks.Keys
  {
    Ascending(s) && EntriesOf(d, marks, LoadedIn(d, f), s)
  }

  ghost predicate InOrder(s: seq<Entry>) {
    forall i, j :: 0 <= i < j < |s| ==> Precedes(s[i], s[j])
  }

  lemma AscendingIsInOrder(s: seq<Entry>)
    ensures Ascending(s) <==> InOrder(s)
  {
    if Ascending(s) {
      forall i, j | 0 <= i < j < |s| ensures Precedes(s[i], s[j]) {}
    }
    if InOrder(s) {
      forall i, j | 0 <= i < j < |s|
        ensures s[i].lamport <= s[j].lamport && (s[i].lamport == s[j].lamport ==> s[i].time <= s[j].time)
        ensures s[i].lamport == s[j].lamport && s[i].time == s[j].time ==> s[i].hash < s[j].hash
      {
        assert Precedes(s[i], s[j]);
      }
    }
  }

  /** There is one way only to put entries in order. */
  lemma OneOrder(a: seq<Entry>, b: seq<Entry>)
    requires Ascending(a) && Ascending(b) && forall k :: k in a <==> k in b
    ensures a == b
  {
    AscendingIsInOrder(a);
    AscendingIsInOrder(b);
    OneInOrder(a, b);
  }

  lemma {:induction false} OneInOrder(a: seq<Entry>, b: seq<Entry>)
    requires InOrder(a) && InOrder(b) && forall k :: k in a <==> k in b
    ensures a == b
    decreases |a|
  {
    assert b != [] ==> b[0] in a;
    if a != [] {
      var m := |a| - 1;
      assert a[m] in b;
      var n := |b| - 1;
      assert b[n] in a;
      assert a[m] == b[n];
      forall k ensures k in a[..m] <==> k in b[..n] { SameFront(a, b, k); SameFront(b, a, k); }
      OneInOrder(a[..m], b[..n]);
      assert a == a[..m] + [a[m]] && b == b[..n] + [b[n]];
    }
  }

  lemma SameFront(a: seq<Entry>, b: seq<Entry>, k: Entry)
    requires InOrder(a) && |a| > 0 && |b| > 0 && a[|a| - 1] == b[|b| - 1] && (k in a ==> k in b)
    ensures k in a[..|a| - 1] ==> k in b[..|b| - 1]
  {
    if k in a[..|a| - 1] {
      var i :| 0 <= i < |a| - 1 && a[i] == k;
      assert Precedes(a[i], a[|a| - 1]);
      var j :| 0 <= j < |b| && b[j] == k;
      assert j < |b| - 1;
    }
  }

  /** An event that two nodes hold has the same place in the order at both, once it is final. */
  lemma SameEntry(d1: Dag, marks1: map<Hash, Marks>, tt1: TimeTable, d2: Dag, marks2: map<Hash, Marks>, tt2: TimeTable,
                  h: Hash)
    requires Exact(d1, marks1, tt1) && Exact(d2, marks2, tt2) && Agree(d1, d2) && h in d1.events && h in d2.events
    requires Received(marks1, h) && Received(marks2, h)
    ensures EntryOf(d1, marks1, h) == EntryOf(d2, marks2, h)
  {
    SameEvent(d1, d2, h);
    assert MarkOk(d1, marks1, h) && MarkOk(d2, marks2, h);
    SameFinalTime(d1, marks1, d2, marks2, h);
  }

  lemma BlockHolds(d: Dag, marks: map<Hash, Marks>, f: int, s: seq<Entry>, h: Hash)
    requires d.events.Keys == marks.Keys && IsBlock(d, marks, f, s)
    ensures h in LoadedIn(d, f) ==> h in d.events && EntryOf(d, marks, h) in s
    ensures forall k :: k in s ==> k.hash in LoadedIn(d, f)
  {}

  /**
   Two nodes that have finished a frame put out the same block for it, in the same order, exactly when they hold the
   same loaded events of that frame.
   */
  lemma BlocksAgree(d1: Dag, marks1: map<Hash, Marks>, tt1: TimeTable, d2: Dag, marks2: map<Hash, Marks>,
                    tt2: TimeTable, f: int, s1: seq<Entry>, s2: seq<Entry>)
    requires Exact(d1, marks1, tt1) && Exact(d2, marks2, tt2) && Agree(d1, d2)
    requires FrameFinal(d1, marks1, f) && FrameFinal(d2, marks2, f)
    requires IsBlock(d1, marks1, f, s1) && IsBlock(d2, marks2, f, s2)
    ensures s1 == s2 <==> LoadedIn(d1, f) == LoadedIn(d2, f)
  {
    if s1 == s2 {
      forall h ensures h in LoadedIn(d1, f) <==> h in LoadedIn(d2, f) {
        BlockHolds(d1, marks1, f, s1, h);
        BlockHolds(d2, marks2, f, s2, h);
      }
    }
    if LoadedIn(d1, f) == LoadedIn(d2, f) {
      forall h | h in LoadedIn(d1, f) ensures EntryOf(d1, marks1, h) == EntryOf(d2, marks2, h) {
        assert h in d1.events && h in LoadedIn(d2, f);
        SameEntry(d1, marks1, tt1, d2, marks2, tt2, h);
      }
      forall k ensures k in s1 <==> k in s2 {}
      OneOrder(s1, s2);
    }
  }

  /** Nodes with the same events have finished the same frames and put out the same blocks. */
  lemma SameBlocks(d1: Dag, marks1: map<Hash, Marks>, tt1: TimeTable, d2: Dag, marks2: map<Hash, Marks>,
                   tt2: TimeTable, f: int, s1: seq<Entry>, s2: seq<Entry>)
    requires Exact(d1, marks1, tt1) && Exact(d2, marks2, tt2) && Twins(d1, d2)
    requires IsBlock(d1, marks1, f, s1) && IsBlock(d2, marks2, f, s2)
    ensures (FrameFinal(d1, marks1, f) <==> FrameFinal(d2, marks2, f)) && s1 == s2
  {
    forall h {:trigger h in d1.events} | h in d1.events ensures SameHere(d1, marks1, d2, marks2, h) {
      SameRecord(d1, marks1, tt1, d2, marks2, tt2, h);
    }
    SameFinal(d1, marks1, d2, marks2, f);
    SameSorted(d1, marks1, d2, marks2, f, s1, s2);
  }

  /** Two nodes have the same to say of an event. */
  ghost predicate SameHere(d1: Dag, marks1: map<Hash, Marks>, d2: Dag, marks2: map<Hash, Marks>, h: Hash) {
    && h in d1.events && h in d2.events && h in marks1 && h in marks2
    && (Received(marks1, h) <==> Received(marks2, h))
    && d1.events[h].frame == d2.events[h].frame && d1.events[h].msg == d2.events[h].msg
    && EntryOf(d1, marks1, h) == EntryOf(d2, marks2, h)
  }

  lemma SameRecord(d1: Dag, marks1: map<Hash, Marks>, tt1: TimeTable, d2: Dag, marks2: map<Hash, Marks>,
                   tt2: TimeTable, h: Hash)
    requires Exact(d1, marks1, tt1) && Exact(d2, marks2, tt2) && Twins(d1, d2) && h in d1.events
    ensures SameHere(d1, marks1, d2, marks2, h)
  {
    SameReceived(d1, marks1, tt1, d2, marks2, tt2, h);
    TwinsBack(d1, d2);
    SameReceived(d2, marks2, tt2, d1, marks1, tt1, h);
    SameConsensus(d1, marks1, tt1, d2, marks2, tt2, h);
    SameEvent(d1, d2, h);
  }

  lemma SameFinal(d1: Dag, marks1: map<Hash, Marks>, d2: Dag, marks2: map<Hash, Marks>, f: int)
    requires d1.events.Keys == d2.events.Keys
    requires forall h {:trigger h in d1.events} :: h in d1.events ==> SameHere(d1, marks1, d2, marks2, h)
    ensures FrameFinal(d1, marks1, f) <==> FrameFinal(d2, marks2, f)
  {
    assert forall h {:trigger h in d2.events} :: h in d2.events ==> h in d1.events;
  }

  lemma SameSorted(d1: Dag, marks1: map<Hash, Marks>, d2: Dag, marks2: map<Hash, Marks>, f: int, s1: seq<Entry>,
                  s2: seq<Entry>)
    requires d1.events.Keys == marks1.Keys == d2.events.Keys == marks2.Keys
    requires IsBlock(d1, marks1, f, s1) && IsBlock(d2, marks2, f, s2)
    requires forall h {:trigger h in d1.events} :: h in d1.events ==> SameHere(d1, marks1, d2, marks2, h)
    ensures s1 == s2
  {
    forall h ensures h in LoadedIn(d1, f) <==> h in LoadedIn(d2, f) { assert h in d1.events <==> h in d2.events; }
    forall k ensures k in s1 <==> k in s2 { assert k.hash in d1.events <==> k.hash in d2.events; }
    OneOrder(s1, s2);
  }

  lemma SameReceived(d1: Dag, marks1: map<Hash, Marks>, tt1: TimeTable, d2: Dag, marks2: map<Hash, Marks>,
                     tt2: TimeTable, h: Hash)
    requires Exact(d1, marks1, tt1) && Exact(d2, marks2, tt2) && Twins(d1, d2) && h in d1.events
    ensures Received(marks1, h) ==> Received(marks2, h)
  {
    if Received(marks1, h) {
      ReceivedIsVoted(d1, marks1, h);
      var x :| x in d1.events && x in marks1 && marks1[x].atropos && !IsLeaf(d1.events[x]) && h in Anc(d1, x);
      SameAtropos(d1, marks1, tt1, d2, marks2, tt2, x);
      SameAncestors(d1, d2, x);
      assert BelowVoted(d2, marks2, h);
      ReceivedIsVoted(d2, marks2, h);
    }
  }

  // ------------------------------------------------------------------------------------------
  // Events that come late
  // ------------------------------------------------------------------------------------------

  /** Only an event of the frame changes what the frame holds. */
  lemma JoinsIff(d: Dag, m: Message, f: int)
    requires Inv(d) && Honest(d, m) && Insert(d, m).Ok?
    ensures LoadedIn(Insert(d, m).value, f) != LoadedIn(d, f) <==>
            m.loaded && Insert(d, m).value.events[m.hash].frame == f
  {
    FreshHash(d, m);
    var d' := Insert(d, m).value;
    if m.loaded && d'.events[m.hash].frame == f {
      assert m.hash in LoadedIn(d', f) && m.hash !in LoadedIn(d, f);
    } else {
      forall h ensures h in LoadedIn(d', f) <==> h in LoadedIn(d, f) {}
    }
  }

  // ------------------------------------------------------------------------------------------
  // The loop
  // ------------------------------------------------------------------------------------------

  lemma {:induction false} TopOf(d: Dag, hs: set<Hash>) returns (top: int)
    requires hs != {} && hs <= d.events.Keys
    ensures exists h :: h in hs && d.events[h].frame == top
    ensures forall h :: h in hs ==> d.events[h].frame <= top
    decreases |hs|
  {
    var g :| g in hs;
    top := d.events[g].frame;
    if hs != {g} {
      var t := TopOf(d, hs - {g});
      if t > top { top := t; }
    }
  }

  /** `CheckFrameFinality`: look for an event of the frame without a received frame. */
  method CheckFrameFinality(d: Dag, marks: map<Hash, Marks>, frame: int) returns (r: bool)
    requires marks.Keys == d.events.Keys
    ensures r <==> FrameFinal(d, marks, frame)
  {
    r := forall h | h in d.events :: d.events[h].frame == frame ==> marks[h].frameReceived != 0;
  }

  method Least(ks: set<Entry>) returns (x: Entry)
    requires ks != {}
    ensures x in ks && forall k :: k in ks && k != x ==> Precedes(x, k)
  {
    x :| x in ks;
    var todo := ks - {x};
    while todo != {}
      invariant x in ks && x !in todo && todo <= ks
      invariant forall k :: k in ks && k !in todo && k != x ==> Precedes(x, k)
      decreases |todo|
    {
      var k :| k in todo;
      if Precedes(k, x) {
        x := k;
      }
      todo := todo - {k};
    }
  }

  /** The scan of a sorted index. */
  method Scan(ks: set<Entry>) returns (s: seq<Entry>)
    ensures Ascending(s) && forall k :: k in s <==> k in ks
  {
    s := [];
    var todo := ks;
    while todo != {}
      invariant todo <= ks && InOrder(s)
      invariant forall k :: k in s <==> k in ks && k !in todo
      invariant forall a, b {:trigger Precedes(a, b)} :: a in s && b in todo ==> Precedes(a, b)
      decreases |todo|
    {
      var x := Least(todo);
      forall a | a in s ensures Precedes(a, x) {}
      AscendsMore(s, x);
      s, todo := s + [x], todo - {x};
    }
    AscendingIsInOrder(s);
  }

  lemma AscendsMore(s: seq<Entry>, x: Entry)
    requires InOrder(s) && forall a :: a in s ==> Precedes(a, x)
    ensures InOrder(s + [x])
  {}

  /** `ProcessOutFrame`: the loaded events of a frame in consensus order. */
  method ProcessOutFrame(d: Dag, marks: map<Hash, Marks>, frame: int) returns (block: seq<Entry>)
    requires marks.Keys == d.events.Keys
    ensures IsBlock(d, marks, frame, block)
  {
    var loaded := LoadedIn(d, frame);
    var entries := set h | h in loaded :: EntryOf(d, marks, h);
    forall k {:trigger k in entries}
      ensures k in entries <==>
              k.hash in loaded && k.lamport == d.events[k.hash].lamport && k.time == marks[k.hash].atroposTimestamp
    {
      if k.hash in loaded { assert EntryOf(d, marks, k.hash) in entries; }
    }
    block := Scan(entries);
  }

  /** The frame is finished, and this is its block. */
  ghost predicate FinishedAt(d: Dag, marks: map<Hash, Marks>, f: int, block: seq<Entry>)
    requires marks.Keys == d.events.Keys
  {
    FrameFinal(d, marks, f) && IsBlock(d, marks, f, block)
  }

  /** These are the blocks of the frames from `first` on, all of them finished. */
  ghost predicate Finished(d: Dag, marks: map<Hash, Marks>, first: int, blocks: seq<seq<Entry>>)
    requires marks.Keys == d.events.Keys
  {
    forall i {:trigger blocks[i]} :: 0 <= i < |blocks| ==> FinishedAt(d, marks, first + i, blocks[i])
  }

  /** Frames up to `top` can be finished, but not `top` itself. */
  ghost predicate Ends(d: Dag, marks: map<Hash, Marks>, top: int) {
    && (exists h :: h in d.events && d.events[h].frame == top)
    && forall f {:trigger FrameFinal(d, marks, f)} :: 0 <= f <= top && FrameFinal(d, marks, f) ==> f + 5 <= top
  }

  lemma EndsSomewhere(d: Dag, marks: map<Hash, Marks>, tt: TimeTable, first: int) returns (top: int)
    requires Exact(d, marks, tt) && exists h :: h in d.events && d.events[h].frame >= first
    ensures Ends(d, marks, top) && first <= top
  {
    top := TopOf(d, d.events.Keys);
    assert IsTop(d, top);
    forall f {:trigger FrameFinal(d, marks, f)} | 0 <= f <= top && FrameFinal(d, marks, f) ensures f + 5 <= top {
      if top < f + 5 { LastFramesOpen(d, marks, tt, top, f); }
    }
  }

  /** The loop of `ProcessDecidedRounds`, over the tables of the store. */
  method PutOut(d: Dag, marks: map<Hash, Marks>, ghost top: int, first: int)
    returns (blocks: seq<seq<Entry>>, next: int)
    requires marks.Keys == d.events.Keys && Ends(d, marks, top) && 0 <= first <= top
    ensures next == first + |blocks| <= top && Finished(d, marks, first, blocks) && !FrameFinal(d, marks, next)
  {
    blocks, next := [], first;
    var final := CheckFrameFinality(d, marks, next);
    while final
      invariant final <==> FrameFinal(d, marks, next)
      invariant next == first + |blocks| <= top && Finished(d, marks, first, blocks)
      decreases top - next
    {
      var block := ProcessOutFrame(d, marks, next);
      OneMoreBlock(d, marks, first, blocks, block);
      blocks, next := blocks + [block], next + 1;
      final := CheckFrameFinality(d, marks, next);
    }
  }

  lemma OneMoreBlock(d: Dag, marks: map<Hash, Marks>, first: int, blocks: seq<seq<Entry>>, block: seq<Entry>)
    requires marks.Keys == d.events.Keys && Finished(d, marks, first, blocks)
    requires FinishedAt(d, marks, first + |blocks|, block)
    ensures Finished(d, marks, first, blocks + [block])
  {
    var more := blocks + [block];
    forall i {:trigger more[i]} | 0 <= i < |more| ensures FinishedAt(d, marks, first + i, more[i]) {
      if i < |blocks| { assert more[i] == blocks[i]; } else { assert more[i] == block; }
    }
  }

  class Output {
    const poset: Poset
    var nextFinalFrame: int

    /** Some event is as high as the next frame to be put out. */
    ghost predicate Valid()
      reads this, poset
    {
      poset.Valid() && nextFinalFrame >= 0 && FrameReached(poset.AsDag(), nextFinalFrame)
    }

    constructor (poset: Poset)
      requires poset.Valid() && poset.events != map[]
      ensures Valid() && this.poset == poset && nextFinalFrame == 0
    {
      this.poset := poset;
      nextFinalFrame := 0;
      new;
      var h :| h in poset.events;
      assert EventRooted(poset.AsDag(), h);
    }

    /**
     `ProcessDecidedRounds`: put out one finished frame after the other, and stop at the first that is not. It comes to
     an end because the highest frames are never finished.
     */
    method ProcessDecidedRounds() returns (blocks: seq<seq<Entry>>)
      requires Valid()
      modifies this`nextFinalFrame
      ensures Valid() && nextFinalFrame == old(nextFinalFrame) + |blocks|
      ensures poset.marks.Keys == poset.AsDag().events.Keys
      ensures Finished(poset.AsDag(), poset.marks, old(nextFinalFrame), blocks)
      ensures !FrameFinal(poset.AsDag(), poset.marks, nextFinalFrame)
    {
      ghost var top := EndsHere(poset, nextFinalFrame);
      blocks, nextFinalFrame := PutOut(poset.AsDag(), poset.marks, top, nextFinalFrame);
    }
  }

  /** Some event is in this frame or above it. */
  ghost predicate FrameReached(d: Dag, f: int) {
    exists h :: h in d.events && d.events[h].frame >= f
  }

  lemma EndsHere(poset: Poset, first: int) returns (top: int)
    requires poset.Valid() && FrameReached(poset.AsDag(), first)
    ensures poset.marks.Keys == poset.AsDag().events.Keys && Ends(poset.AsDag(), poset.marks, top) && first <= top
    ensures forall f :: f <= top ==> FrameReached(poset.AsDag(), f)
  {
    poset.ValidIsExact();
    top := EndsSomewhere(poset.AsDag(), poset.marks, poset.timeTable, first);
  }
}

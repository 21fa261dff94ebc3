/** Derived fields do not depend on the order in which a node received its events. */
module DagOrder {
  import opened EventDag
  import opened DagInvariant

  /** Two nodes know the same message under a hash, and the same timestamp for a leaf. */
  ghost predicate Agree(d1: Dag, d2: Dag) {
    && d1.quorum == d2.quorum
    && forall h :: h in d1.events && h in d2.events ==>
         && d1.events[h].msg == d2.events[h].msg
         && (IsLeaf(d1.events[h]) ==> d1.events[h].lamport == d2.events[h].lamport)
  }

  /** Same derived fields; only the local insertion index may differ. */
  predicate SameDerived(a: Event, b: Event) {
    a.msg == b.msg && PlacementOf(a) == PlacementOf(b) && a.lamport == b.lamport
  }

  /** Nodes that both hold an event hold the same chain below it. */
  lemma {:induction false} ChainsAgree(d1: Dag, d2: Dag, h: Hash, i: int)
    requires Closed(d1) && Chained(d1) && Closed(d2) && Chained(d2) && Agree(d1, d2)
    requires h in d1.events && h in d2.events && 0 <= i <= d1.events[h].msg.index
    ensures var c := d1.events[h].msg.creator;
            && c in d1.chains && c in d2.chains && i < |d1.chains[c]| && i < |d2.chains[c]|
            && d1.chains[c][i] == d2.chains[c][i]
    decreases d1.events[h].msg.index
  {
    assert EventChained(d1, h) && EventChained(d2, h) && EventClosed(d1, h) && EventClosed(d2, h);
    if i < d1.events[h].msg.index {
      ChainsAgree(d1, d2, d1.events[h].msg.selfParent, i);
    }
  }

  lemma SamePlaced(d1: Dag, d2: Dag, m: Message)
    requires LookupFound(d1, m) && LookupFound(d2, m) && d1.quorum == d2.quorum
    requires PlacementOf(Lookup(d1, m.selfParent)) == PlacementOf(Lookup(d2, m.selfParent))
    requires PlacementOf(Lookup(d1, m.otherParent)) == PlacementOf(Lookup(d2, m.otherParent))
    requires Lookup(d1, m.selfParent).frame < Lookup(d1, m.otherParent).frame ==>
               OtherRootTable(d1, Lookup(d1, m.selfParent), Lookup(d1, m.otherParent)) ==
               OtherRootTable(d2, Lookup(d2, m.selfParent), Lookup(d2, m.otherParent))
    ensures Placed(d1, m) == Placed(d2, m)
  {}

  /** Any two reachable nodes derive the same fields for every event they both hold. */
  lemma {:induction false} SameEvent(d1: Dag, d2: Dag, h: Hash)
    requires Inv(d1) && Inv(d2) && Agree(d1, d2) && h in d1.events && h in d2.events
    ensures SameDerived(d1.events[h], d2.events[h])
    decreases d1.events[h].topo
  {
    assert EventClosed(d1, h) && EventClosed(d2, h) && EventPlaced(d1, h) && EventPlaced(d2, h);
    var m := d1.events[h].msg;
    if !IsLeaf(d1.events[h]) {
      SameEvent(d1, d2, m.selfParent);
      if m.otherParent != 0 { SameEvent(d1, d2, m.otherParent); }
      if Lookup(d1, m.selfParent).frame < Lookup(d1, m.otherParent).frame {
        assert EventRooted(d1, m.selfParent);
        var r := SharedRoot(d1, d2, m.otherParent);
        SameEvent(d1, d2, r);
        assert EventRooted(d2, r);
      }
      SamePlaced(d1, d2, m);
    }
  }

  /** The root the first node consults for `o` is known to the second, and not later than `o`. */
  lemma SharedRoot(d1: Dag, d2: Dag, o: Hash) returns (r: Hash)
    requires Inv(d1) && Inv(d2) && Agree(d1, d2) && o in d1.events && o in d2.events
    requires d1.events[o].frame >= 1
    ensures var k := (d1.events[o].frame, d1.events[o].msg.creator);
            && k in d1.creatorRoots && r == d1.creatorRoots[k]
            && r in d1.events && r in d2.events && d1.events[r].topo <= d1.events[o].topo
            && d1.events[r].root && d1.events[r].frame == k.0 && d1.events[r].msg.creator == k.1
  {
    assert EventRooted(d1, o);
    var c := d1.events[o].msg.creator;
    r := d1.creatorRoots[(d1.events[o].frame, c)];
    assert EventChained(d1, r) && EventChained(d1, o);
    var i := d1.events[r].msg.index;
    ChainsAgree(d1, d2, o, i);
    assert LinkOk(d2, c, i);
    FramesRise(d1);
    ChainOrder(d1, c, i, d1.events[o].msg.index);
  }

  // ------------------------------------------------------------------------------------------
  // Runs of two nodes from the same leaves
  // ------------------------------------------------------------------------------------------

  function Hashes(ms: seq<Message>): set<Hash> {
    set m | m in ms :: m.hash
  }

  /** Between them the runs never show one hash for two messages, nor reuse a leaf's hash. */
  ghost predicate NoCollision(leaves: seq<Leaf>, ms1: seq<Message>, ms2: seq<Message>) {
    && (forall a, b :: a in ms1 + ms2 && b in ms1 + ms2 && a.hash == b.hash ==> a == b)
    && (forall a, i :: a in ms1 + ms2 && 0 <= i < |leaves| ==> a.hash != leaves[i].hash)
  }

  lemma {:induction false} RunEvents(d: Dag, ms: seq<Message>)
    requires Inv(d) && Runs(d, ms)
    ensures forall h :: h in After(d, ms).events ==>
              h in d.events || exists m :: m in ms && m.hash == h && After(d, ms).events[h].msg == m
    ensures forall m :: m in ms ==> m.hash in After(d, ms).events && After(d, ms).events[m.hash].msg == m
    decreases |ms|
  {
    if ms != [] {
      var d1 := Insert(d, ms[0]).value;
      InsertKeepsInv(d, ms[0]);
      FreshHash(d, ms[0]);
      RunInv(d1, ms[1..]);
      RunEvents(d1, ms[1..]);
      forall h | h in After(d, ms).events && h !in d.events
        ensures exists m :: m in ms && m.hash == h && After(d, ms).events[h].msg == m
      {
        if h in d1.events { assert ms[0] in ms && ms[0].hash == h; }
        else {
          var m :| m in ms[1..] && m.hash == h && After(d1, ms[1..]).events[h].msg == m;
          assert m in ms;
        }
      }
      forall m | m in ms
        ensures m.hash in After(d, ms).events && After(d, ms).events[m.hash].msg == m
      {
        if m == ms[0] { assert m.hash in d1.events; } else { assert m in ms[1..]; }
      }
    }
  }

  lemma RunsAgree(leaves: seq<Leaf>, quorum: nat, ms1: seq<Message>, ms2: seq<Message>)
    requires GenesisOk(leaves, quorum) && NoCollision(leaves, ms1, ms2)
    requires Runs(Genesis(leaves, quorum), ms1) && Runs(Genesis(leaves, quorum), ms2)
    ensures var g := Genesis(leaves, quorum);
            Inv(g) && Inv(After(g, ms1)) && Inv(After(g, ms2)) && Agree(After(g, ms1), After(g, ms2))
  {
    var g := Genesis(leaves, quorum);
    GenesisInv(leaves, quorum);
    GenesisShape(leaves, quorum);
    RunInv(g, ms1);
    RunInv(g, ms2);
    RunEvents(g, ms1);
    RunEvents(g, ms2);
    var d1, d2 := After(g, ms1), After(g, ms2);
    forall h | h in d1.events && h in d2.events
      ensures d1.events[h].msg == d2.events[h].msg
      ensures IsLeaf(d1.events[h]) ==> d1.events[h].lamport == d2.events[h].lamport
    {
      if h !in g.events { NotALeaf(d1, g, h, ms1); }
      else {
        var c :| IsLeafOf(g, leaves, h, c);
      }
    }
  }

  lemma NotALeaf(d: Dag, g: Dag, h: Hash, ms: seq<Message>)
    requires Inv(g) && Runs(g, ms) && d == After(g, ms) && h in d.events && h !in g.events
    ensures !IsLeaf(d.events[h])
  {
    RunInv(g, ms);
    assert EventChained(d, h);
    OldHeads(g, ms);
    assert LinkOk(g, d.events[h].msg.creator, 0);
  }

  /** A run appends to the creators' chains and adds no creator. */
  lemma {:induction false} OldHeads(d: Dag, ms: seq<Message>)
    requires Inv(d) && Runs(d, ms)
    ensures After(d, ms).chains.Keys == d.chains.Keys
    ensures forall c :: c in d.chains ==> d.chains[c] <= After(d, ms).chains[c]
    decreases |ms|
  {
    if ms != [] {
      InsertKeepsInv(d, ms[0]);
      FreshHash(d, ms[0]);
      NewestLink(d, ms[0]);
      OldHeads(Insert(d, ms[0]).value, ms[1..]);
    }
  }

  /**
   Order independence: from the same leaves, any two runs give every event they both hold the same
   frame, root flag, flag table, root table and Lamport timestamp.
   */
  lemma OrderIndependence(leaves: seq<Leaf>, quorum: nat, ms1: seq<Message>, ms2: seq<Message>, h: Hash)
    requires GenesisOk(leaves, quorum) && NoCollision(leaves, ms1, ms2)
    requires Runs(Genesis(leaves, quorum), ms1) && Runs(Genesis(leaves, quorum), ms2)
    requires h in After(Genesis(leaves, quorum), ms1).events && h in After(Genesis(leaves, quorum), ms2).events
    ensures SameDerived(After(Genesis(leaves, quorum), ms1).events[h], After(Genesis(leaves, quorum), ms2).events[h])
  {
    RunsAgree(leaves, quorum, ms1, ms2);
    var g := Genesis(leaves, quorum);
    SameEvent(After(g, ms1), After(g, ms2), h);
  }

  // ------------------------------------------------------------------------------------------
  // Any parent-respecting order is accepted
  // ------------------------------------------------------------------------------------------

  /** Every message comes after its parents. */
  ghost predicate ParentsFirst(g: Dag, ms: seq<Message>) {
    forall i :: 0 <= i < |ms| ==>
      && (ms[i].selfParent in g.events || ms[i].selfParent in Hashes(ms[..i]))
      && (ms[i].otherParent == 0 || ms[i].otherParent in g.events || ms[i].otherParent in Hashes(ms[..i]))
  }

  lemma {:induction false} RunsSnoc(d: Dag, ms: seq<Message>, m: Message)
    requires Runs(d, ms) && Honest(After(d, ms), m) && Insert(After(d, ms), m).Ok?
    ensures Runs(d, ms + [m]) && After(d, ms + [m]) == Insert(After(d, ms), m).value
    decreases |ms|
  {
    if ms == [] {
      assert ms + [m] == [m];
    } else {
      assert (ms + [m])[1..] == ms[1..] + [m];
      RunsSnoc(Insert(d, ms[0]).value, ms[1..], m);
    }
  }

  /** A message the full run accepted is accepted by a partial one that has its parents but not it. */
  lemma AcceptedEarlier(part: Dag, full: Dag, m: Message)
    requires Inv(part) && Inv(full) && Agree(part, full)
    requires part.chains.Keys == full.chains.Keys
    requires part.events.Keys <= full.events.Keys
    requires m.hash in full.events && full.events[m.hash].msg == m && !IsLeaf(full.events[m.hash])
    requires m.hash !in part.events && m.selfParent in part.events && m.signed
    requires m.otherParent == 0 || m.otherParent in part.events
    ensures Honest(part, m) && Insert(part, m).Ok?
  {
    assert EventClosed(full, m.hash) && EventChained(full, m.hash);
    assert EventChained(part, m.selfParent) && EventClosed(full, m.selfParent);
    var chain := part.chains[m.creator];
    assert |chain| > m.index ==> LinkOk(part, m.creator, m.index);
    assert |chain| > m.index ==> EventChained(full, chain[m.index]);
    LookupNeverFails(part, m);
  }

  lemma HashesSnoc(ms: seq<Message>, m: Message)
    ensures Hashes(ms + [m]) == Hashes(ms) + {m.hash}
  {
    forall x | x in Hashes(ms) + {m.hash}
      ensures x in Hashes(ms + [m])
    {
      if x == m.hash { assert m in ms + [m]; }
      else { var y :| y in ms && y.hash == x; assert y in ms + [m]; }
    }
  }

  /** A node that holds the leaves and the messages `ms`, all of them known to the full run. */
  ghost predicate Partial(g: Dag, full: Dag, ms: seq<Message>, d: Dag) {
    && Inv(d)
    && d.events.Keys == g.events.Keys + Hashes(ms)
    && d.events.Keys <= full.events.Keys
    && d.chains.Keys == full.chains.Keys
    && Agree(d, full)
  }

  lemma PartialStep(g: Dag, full: Dag, ms: seq<Message>, d: Dag, m: Message)
    requires Inv(full) && Partial(g, full, ms, d)
    requires m.hash in full.events && full.events[m.hash].msg == m && !IsLeaf(full.events[m.hash]) && m.signed
    requires m.hash !in g.events && m.hash !in Hashes(ms)
    requires m.selfParent in g.events || m.selfParent in Hashes(ms)
    requires m.otherParent == 0 || m.otherParent in g.events || m.otherParent in Hashes(ms)
    ensures Honest(d, m) && Insert(d, m).Ok? && Partial(g, full, ms + [m], Insert(d, m).value)
  {
    AcceptedEarlier(d, full, m);
    assert Inv(Insert(d, m).value) by { InsertKeepsInv(d, m); }
    HashesSnoc(ms, m);
    AgreesStill(d, m, full);
  }

  lemma AgreesStill(d: Dag, m: Message, full: Dag)
    requires Chained(d) && Honest(d, m) && Insert(d, m).Ok? && Agree(d, full)
    requires m.hash in full.events && full.events[m.hash].msg == m && !IsLeaf(full.events[m.hash])
    ensures var d' := Insert(d, m).value;
            Agree(d', full) && d'.events.Keys == d.events.Keys + {m.hash} && d'.chains.Keys == d.chains.Keys
  {
    FreshHash(d, m);
  }

  lemma {:induction false} RunSigned(d: Dag, ms: seq<Message>, m: Message)
    requires Inv(d) && Runs(d, ms) && m in ms
    ensures m.signed && m.hash !in d.events
    decreases |ms|
  {
    FreshHash(d, ms[0]);
    if m != ms[0] {
      InsertKeepsInv(d, ms[0]);
      RunSigned(Insert(d, ms[0]).value, ms[1..], m);
    }
  }

  /** In a run no two messages share a hash. */
  lemma {:induction false} RunDistinct(d: Dag, ms: seq<Message>, i: int, j: int)
    requires Inv(d) && Runs(d, ms) && 0 <= i < j < |ms|
    ensures ms[i].hash != ms[j].hash
    decreases |ms|
  {
    InsertKeepsInv(d, ms[0]);
    var d1 := Insert(d, ms[0]).value;
    if i == 0 {
      assert ms[j] == ms[1..][j - 1];
      RunSigned(d1, ms[1..], ms[j]);
    } else {
      RunDistinct(d1, ms[1..], i - 1, j - 1);
    }
  }

  lemma NoRepeat(ms1: seq<Message>, ms2: seq<Message>, i: int)
    requires forall a, b :: 0 <= a < b < |ms1| ==> ms1[a].hash != ms1[b].hash
    requires multiset(ms1) == multiset(ms2) && 0 <= i < |ms2|
    ensures ms2[i] in ms1 && ms2[i].hash !in Hashes(ms2[..i])
  {
    assert ms2[i] in multiset(ms2);
    if ms2[i].hash in Hashes(ms2[..i]) {
      var x :| x in ms2[..i] && x.hash == ms2[i].hash;
      assert x in multiset(ms2);
      assert x in multiset(ms1) && ms2[i] in multiset(ms1);
      assert x == ms2[i];
      assert ms2 == ms2[..i] + [ms2[i]] + ms2[i + 1..];
      assert multiset(ms1)[x] >= 2;
      OnceEach(ms1, x);
    }
  }

  lemma {:induction false} OnceEach(ms: seq<Message>, x: Message)
    requires forall a, b :: 0 <= a < b < |ms| ==> ms[a].hash != ms[b].hash
    ensures multiset(ms)[x] <= 1
  {
    if ms != [] {
      var last := |ms| - 1;
      assert ms == ms[..last] + [ms[last]];
      OnceEach(ms[..last], x);
      if ms[last] == x {
        assert x !in ms[..last];
        assert multiset(ms[..last])[x] == 0;
      }
    }
  }

  lemma PartialBase(g: Dag, ms: seq<Message>)
    requires Inv(g) && Runs(g, ms)
    ensures Partial(g, After(g, ms), [], g)
  {
    RunInv(g, ms);
    OldHeads(g, ms);
    assert Hashes([]) == {};
  }

  lemma {:induction false} ReorderedPrefix(g: Dag, ms1: seq<Message>, ms2: seq<Message>, i: nat)
    requires Inv(g) && Runs(g, ms1) && multiset(ms1) == multiset(ms2) && ParentsFirst(g, ms2) && i <= |ms2|
    ensures Runs(g, ms2[..i]) && Partial(g, After(g, ms1), ms2[..i], After(g, ms2[..i]))
  {
    if i == 0 {
      assert ms2[..0] == [];
      PartialBase(g, ms1);
    } else {
      ReorderedPrefix(g, ms1, ms2, i - 1);
      PrefixMore(ms2, i - 1);
      OneMore(g, ms1, ms2, i - 1, ms2[..i - 1], ms2[..i]);
    }
  }

  lemma PrefixMore(ms: seq<Message>, i: nat)
    requires i < |ms|
    ensures ms[..i + 1] == ms[..i] + [ms[i]]
  {}

  lemma OneMore(g: Dag, ms1: seq<Message>, ms2: seq<Message>, i: nat, pre: seq<Message>, whole: seq<Message>)
    requires Inv(g) && Runs(g, ms1) && multiset(ms1) == multiset(ms2) && ParentsFirst(g, ms2)
    requires i < |ms2| && pre == ms2[..i] && whole == pre + [ms2[i]]
    requires Runs(g, pre) && Partial(g, After(g, ms1), pre, After(g, pre))
    ensures Runs(g, whole) && Partial(g, After(g, ms1), whole, After(g, whole))
  {
    ReorderedNext(g, ms1, ms2, i, After(g, pre));
    RunsSnoc(g, pre, ms2[i]);
  }

  lemma ReorderedNext(g: Dag, ms1: seq<Message>, ms2: seq<Message>, i: nat, d: Dag)
    requires Inv(g) && Runs(g, ms1) && multiset(ms1) == multiset(ms2) && ParentsFirst(g, ms2)
    requires i < |ms2| && Partial(g, After(g, ms1), ms2[..i], d)
    ensures Honest(d, ms2[i]) && Insert(d, ms2[i]).Ok?
    ensures Partial(g, After(g, ms1), ms2[..i] + [ms2[i]], Insert(d, ms2[i]).value)
  {
    RunInv(g, ms1);
    ReorderedMessage(g, ms1, ms2, i);
    PartialStep(g, After(g, ms1), ms2[..i], d, ms2[i]);
  }

  lemma ReorderedMessage(g: Dag, ms1: seq<Message>, ms2: seq<Message>, i: nat)
    requires Inv(g) && Runs(g, ms1) && multiset(ms1) == multiset(ms2) && i < |ms2|
    ensures var m, full := ms2[i], After(g, ms1);
            && m.hash in full.events && full.events[m.hash].msg == m && !IsLeaf(full.events[m.hash])
            && m.signed && m.hash !in g.events && m.hash !in Hashes(ms2[..i])
  {
    var m := ms2[i];
    forall a, b | 0 <= a < b < |ms1| ensures ms1[a].hash != ms1[b].hash { RunDistinct(g, ms1, a, b); }
    NoRepeat(ms1, ms2, i);
    RunEvents(g, ms1);
    RunSigned(g, ms1, m);
    NotALeaf(After(g, ms1), g, m.hash, ms1);
  }

  /**
   Any reordering that keeps parents before children is accepted too, stores the same events, and
   derives the same fields for every one of them.
   */
  lemma ReorderingAccepted(leaves: seq<Leaf>, quorum: nat, ms1: seq<Message>, ms2: seq<Message>)
    requires GenesisOk(leaves, quorum)
    requires Runs(Genesis(leaves, quorum), ms1) && multiset(ms1) == multiset(ms2)
    requires ParentsFirst(Genesis(leaves, quorum), ms2)
    ensures var g := Genesis(leaves, quorum);
            && Runs(g, ms2)
            && After(g, ms2).events.Keys == After(g, ms1).events.Keys
            && forall h :: h in After(g, ms1).events ==> SameDerived(After(g, ms1).events[h], After(g, ms2).events[h])
  {
    var g := Genesis(leaves, quorum);
    GenesisInv(leaves, quorum);
    RunInv(g, ms1);
    var d1 := After(g, ms1);
    ReorderedPrefix(g, ms1, ms2, |ms2|);
    assert ms2[..|ms2|] == ms2;
    var d2 := After(g, ms2);
    SameHashes(g, ms1, ms2);
    forall h | h in d1.events
      ensures h in d2.events && SameDerived(d1.events[h], d2.events[h])
    {
      SameEvent(d2, d1, h);
    }
  }

  lemma SameHashes(g: Dag, ms1: seq<Message>, ms2: seq<Message>)
    requires Inv(g) && Runs(g, ms1) && multiset(ms1) == multiset(ms2)
    ensures After(g, ms1).events.Keys <= g.events.Keys + Hashes(ms2)
  {
    RunEvents(g, ms1);
    forall h | h in After(g, ms1).events && h !in g.events
      ensures h in Hashes(ms2)
    {
      var m :| m in ms1 && m.hash == h;
      assert m in multiset(ms1);
      assert m in ms2;
    }
  }
}

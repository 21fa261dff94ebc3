/**
 Which events are clothos and what final timestamps are given depends on the DAG alone, not on the order in which a
 node received its events.
 */
module ClothoOrder {
  import opened Wrappers
  import opened EventDag
  import opened DagInvariant
  import opened DagReachability
  import opened DagOrder
  import opened Finality
  import opened ClothoCount
  import opened AtroposVote

  /** What a root table lists is stored and older. */
  lemma TableStored(d: Dag, h: Hash, p: Hash)
    requires Inv(d) && h in d.events && p in d.events[h].rootTable
    ensures p in d.events && (p == h ==> IsLeaf(d.events[h]))
  {
    assert EventPlaced(d, h) && EventRooted(d, h) && EventClosed(d, h);
    if !IsLeaf(d.events[h]) {
      assert d.events[h].root;
      FramesRise(d);
      assert EventRises(d, h) && EventRooted(d, d.events[h].msg.selfParent);
      RootTableIsQuorum(d, h);
    }
  }

  lemma SameTable(d1: Dag, d2: Dag, h: Hash)
    requires Inv(d1) && Inv(d2) && Agree(d1, d2) && h in d1.events && h in d2.events
    ensures Lookup(d1, h).rootTable == Lookup(d2, h).rootTable
    ensures forall p :: p in Lookup(d1, h).rootTable ==> p in d1.events && p in d2.events
  {
    SameEvent(d1, d2, h);
    forall p | p in Lookup(d1, h).rootTable ensures p in d1.events && p in d2.events {
      TableStored(d1, h, p);
      TableStored(d2, h, p);
    }
  }

  lemma SameRegistered(d1: Dag, d2: Dag, f: int, p: Hash)
    requires Inv(d1) && Inv(d2) && Agree(d1, d2) && p in d1.events && p in d2.events
    ensures (f, p) in d1.registered <==> (f, p) in d2.registered
  {
    SameEvent(d1, d2, p);
  }

  lemma SameLists(d1: Dag, d2: Dag, q: Hash, k: (int, Hash))
    requires Inv(d1) && Inv(d2) && Agree(d1, d2) && q in d1.events && q in d2.events
    ensures Lists(d1, q, k) <==> Lists(d2, q, k)
  {
    SameTable(d1, d2, q);
    if k.1 in Lookup(d1, q).rootTable {
      SameRegistered(d1, d2, k.0, k.1);
      assert k == (k.0, k.1);
    }
  }

  lemma SameVoters(d1: Dag, d2: Dag, p: Hash, k: (int, Hash))
    requires Inv(d1) && Inv(d2) && Agree(d1, d2) && p in d1.events && p in d2.events
    ensures Voters(d1, p, k) == Voters(d2, p, k)
  {
    SameTable(d1, d2, p);
    var table := Lookup(d1, p).rootTable;
    forall q | q in table
      ensures ((table[q], q) in d1.registered <==> (table[q], q) in d2.registered)
                && (Lists(d1, q, k) <==> Lists(d2, q, k))
    {
      SameRegistered(d1, d2, table[q], q);
      SameLists(d1, d2, q, k);
    }
  }

  /** Whether a root makes another one a clotho is the same at any two nodes that hold it. */
  lemma SameVerdict(d1: Dag, d2: Dag, e: Hash, k: (int, Hash))
    requires Inv(d1) && Inv(d2) && Agree(d1, d2) && e in d1.events && e in d2.events
    ensures BecomesClotho(d1, e, k) <==> BecomesClotho(d2, e, k)
  {
    SameTable(d1, d2, e);
    var table := Lookup(d1, e).rootTable;
    forall p | p in table
      ensures (Previous(d1, e, p) <==> Previous(d2, e, p)) && Voters(d1, p, k) == Voters(d2, p, k)
    {
      SameRegistered(d1, d2, table[p], p);
      SameVoters(d1, d2, p, k);
    }
    if BecomesClotho(d1, e, k) {
      var p :| Previous(d1, e, p) && |Voters(d1, p, k)| >= d1.quorum;
      assert Previous(d2, e, p);
    }
    if BecomesClotho(d2, e, k) {
      var p :| Previous(d2, e, p) && |Voters(d2, p, k)| >= d2.quorum;
      assert Previous(d1, e, p);
    }
  }

  /** Some root of this DAG makes `x` a clotho. */
  ghost predicate MadeClotho(d: Dag, x: Hash)
    requires x in d.events
  {
    exists e :: e in d.events && BecomesClotho(d, e, (d.events[x].frame, x))
  }

  /** The clotho flags are a function of the DAG: leaves, and what some root makes a clotho. */
  ghost predicate ClothosExact(d: Dag, marks: map<Hash, Marks>) {
    forall x {:trigger x in marks} :: x in d.events ==>
      x in marks && (marks[x].clotho <==> IsLeaf(d.events[x]) || MadeClotho(d, x))
  }

  // ------------------------------------------------------------------------------------------
  // One more event
  // ------------------------------------------------------------------------------------------

  /** Nothing lists an event that has only just arrived. */
  lemma NewUnlisted(d: Dag, m: Message, q: Hash, f: int)
    requires Inv(d) && Honest(d, m) && Insert(d, m).Ok? && Inv(Insert(d, m).value) && q in Insert(d, m).value.events
    ensures !Lists(Insert(d, m).value, q, (f, m.hash))
  {
    var d' := Insert(d, m).value;
    FreshHash(d, m);
    NewestLink(d, m);
    if m.hash in Lookup(d', q).rootTable {
      if q == m.hash { TableStored(d', q, m.hash); } else { TableStored(d, q, m.hash); }
    }
  }

  lemma NewNotMade(d: Dag, m: Message)
    requires Inv(d) && Honest(d, m) && Insert(d, m).Ok? && Inv(Insert(d, m).value)
    ensures m.hash in Insert(d, m).value.events && !MadeClotho(Insert(d, m).value, m.hash)
  {
    var d' := Insert(d, m).value;
    var k := (d'.events[m.hash].frame, m.hash);
    forall e | e in d'.events ensures !BecomesClotho(d', e, k) {
      forall p | Previous(d', e, p) ensures |Voters(d', p, k)| < d'.quorum {
        TableStored(d', e, p);
        forall q | q in Lookup(d', p).rootTable ensures !Lists(d', q, k) {
          TableStored(d', p, q);
          NewUnlisted(d, m, q, k.0);
        }
        assert Voters(d', p, k) == {};
      }
    }
  }

  lemma OldVerdict(d: Dag, m: Message, e: Hash, k: (int, Hash))
    requires Inv(d) && Honest(d, m) && Insert(d, m).Ok? && Inv(Insert(d, m).value) && e in d.events
    ensures BecomesClotho(Insert(d, m).value, e, k) <==> BecomesClotho(d, e, k)
  {
    assert Extends(d, Insert(d, m).value) by { InsertExtends(d, m); }
    SameVerdict(d, Insert(d, m).value, e, k);
  }

  lemma MadeMore(d: Dag, d': Dag, h: Hash, x: Hash)
    requires d'.events.Keys == d.events.Keys + {h} && x in d.events && d'.events[x] == d.events[x]
    requires forall e {:trigger e in d.events} :: e in d.events ==>
               (BecomesClotho(d', e, (d.events[x].frame, x)) <==> BecomesClotho(d, e, (d.events[x].frame, x)))
    ensures MadeClotho(d', x) <==> MadeClotho(d, x) || BecomesClotho(d', h, (d.events[x].frame, x))
  {
    var k := (d.events[x].frame, x);
    if MadeClotho(d, x) {
      var e :| e in d.events && BecomesClotho(d, e, k);
      assert e in d'.events && BecomesClotho(d', e, k);
    }
    if BecomesClotho(d', h, k) { assert h in d'.events; }
    if MadeClotho(d', x) {
      var e :| e in d'.events && BecomesClotho(d', e, k);
      assert e in d.events || e == h;
    }
  }

  /** An older event is a clotho now if it was one before, or if the new event makes it one. */
  lemma OldMade(d: Dag, m: Message, x: Hash)
    requires Inv(d) && Honest(d, m) && Insert(d, m).Ok? && Inv(Insert(d, m).value) && x in d.events
    ensures var d' := Insert(d, m).value;
            && x in d'.events && d'.events[x] == d.events[x]
            && (MadeClotho(d', x) <==> MadeClotho(d, x) || BecomesClotho(d', m.hash, (d.events[x].frame, x)))
  {
    var d' := Insert(d, m).value;
    var k := (d.events[x].frame, x);
    forall e | e in d.events ensures BecomesClotho(d', e, k) <==> BecomesClotho(d, e, k) { OldVerdict(d, m, e, k); }
    assert x != m.hash && d'.events.Keys == d.events.Keys + {m.hash} by { FreshHash(d, m); }
    MadeMore(d, d', m.hash, x);
  }

  /** Only roots make clothos. */
  lemma OnlyRoots(d: Dag, e: Hash, k: (int, Hash))
    requires Inv(d) && e in d.events && !d.events[e].root
    ensures !BecomesClotho(d, e, k)
  {
    assert EventPlaced(d, e);
  }

  /** `after` are the marks once the new event has been stored and, if it is a root, has done its counting. */
  lemma ExactAfter(d: Dag, m: Message, before: map<Hash, Marks>, after: map<Hash, Marks>)
    requires Inv(d) && Honest(d, m) && Insert(d, m).Ok? && Inv(Insert(d, m).value)
    requires ClothosExact(d, before) && before.Keys == d.events.Keys
    requires ArrivedMarks(d, m, before, after)
    ensures ClothosExact(Insert(d, m).value, after)
  {
    var d' := Insert(d, m).value;
    NewNotMade(d, m);
    NewestLink(d, m);
    FreshHash(d, m);
    forall x | x in d'.events ensures x in after && (after[x].clotho <==> IsLeaf(d'.events[x]) || MadeClotho(d', x)) {
      var k := (d'.events[x].frame, x);
      if !d'.events[m.hash].root { OnlyRoots(d', m.hash, k); }
      if x == m.hash {
        assert !BecomesClotho(d', m.hash, k);
      } else {
        OldMade(d, m, x);
        assert x in before;
      }
    }
  }

  /** The new event's record is new; a root's arrival raises the flags of the clothos it makes. */
  ghost predicate ArrivedMarks(d: Dag, m: Message, before: map<Hash, Marks>, after: map<Hash, Marks>)
    requires Insert(d, m).Ok?
  {
    var d' := Insert(d, m).value;
    forall x {:trigger x in after} :: x in d'.events ==>
      x in after && (after[x].clotho <==>
        (x != m.hash && x in before && before[x].clotho) || (NewEvent(d, m).root && x in NewClothos(d', m.hash)))
  }

  /** The flags of `s` have been raised, and no others. */
  ghost predicate FlagsRaised(before: map<Hash, Marks>, after: map<Hash, Marks>, s: set<Hash>) {
    && before.Keys == after.Keys
    && forall x {:trigger x in after} :: x in after ==> (after[x].clotho <==> before[x].clotho || x in s)
  }

  /** Marking clothos raises their flags; confirming some afterwards does not change that. */
  lemma RaisedThenConfirmed(before: map<Hash, Marks>, s: set<Hash>, after: map<Hash, Marks>, sure: set<Hash>)
    requires Confirmed(MarkClothos(before, s), after, sure)
    ensures FlagsRaised(before, after, s)
  {
    var marked := MarkClothos(before, s);
    assert marked.Keys == before.Keys;
    forall x | x in after ensures after[x].clotho <==> before[x].clotho || x in s { assert x in marked; }
  }

  lemma ArrivedExact(d: Dag, m: Message, d': Dag, before: map<Hash, Marks>, after: map<Hash, Marks>)
    requires Inv(d) && Honest(d, m) && Insert(d, m) == Ok(d') && Inv(d') && m.hash in d'.events
    requires ClothosExact(d, before) && before.Keys == d.events.Keys
    requires FlagsRaised(before[m.hash := NEW_MARKS], after, if d'.events[m.hash].root then NewClothos(d', m.hash)
               else {})
    ensures ClothosExact(d', after)
  {
    FreshHash(d, m);
    ExactAfter(d, m, before, after);
  }

  lemma LeavesExact(leaves: seq<Leaf>, quorum: nat, marks: map<Hash, Marks>)
    requires GenesisOk(leaves, quorum)
    requires var d := Genesis(leaves, quorum); marks.Keys == d.events.Keys && LeafMarks(d, marks)
    ensures ClothosExact(Genesis(leaves, quorum), marks)
  {
    GenesisShape(leaves, quorum);
    var d := Genesis(leaves, quorum);
    forall x | x in d.events ensures IsLeaf(d.events[x]) && marks[x].clotho { var c :| IsLeafOf(d, leaves, x, c); }
  }

  // ------------------------------------------------------------------------------------------
  // Two nodes
  // ------------------------------------------------------------------------------------------

  /** Nodes with the same events have the same clothos. */
  lemma SameClothos(d1: Dag, marks1: map<Hash, Marks>, d2: Dag, marks2: map<Hash, Marks>, x: Hash)
    requires Inv(d1) && Inv(d2) && Agree(d1, d2) && d1.events.Keys == d2.events.Keys && x in d1.events
    requires ClothosExact(d1, marks1) && ClothosExact(d2, marks2)
    ensures x in marks1 && x in marks2 && marks1[x].clotho == marks2[x].clotho
  {
    assert x in marks1 && x in marks2;
    SameEvent(d1, d2, x);
    var k := (d1.events[x].frame, x);
    forall e | e in d1.events ensures BecomesClotho(d1, e, k) <==> BecomesClotho(d2, e, k) {
      SameVerdict(d1, d2, e, k);
    }
  }

  /** An event that is final at two nodes has the same final timestamp at both. */
  lemma SameFinalTime(d1: Dag, marks1: map<Hash, Marks>, d2: Dag, marks2: map<Hash, Marks>, x: Hash)
    requires Inv(d1) && Inv(d2) && Agree(d1, d2) && MarksOk(d1, marks1) && MarksOk(d2, marks2)
    requires x in d1.events && x in d2.events && Assigned(marks1, x) && Assigned(marks2, x)
    ensures marks1[x].atroposTimestamp == marks2[x].atroposTimestamp
  {
    assert MarkOk(d1, marks1, x) && MarkOk(d2, marks2, x) && EventClosed(d1, x) && EventClosed(d2, x);
    SameEvent(d1, d2, x);
    var o := d1.events[x].msg.otherParent;
    if o in d1.events && o in d2.events { SameEvent(d1, d2, o); }
  }
}

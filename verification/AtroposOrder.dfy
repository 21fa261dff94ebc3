/**
 Which clothos are confirmed depends on the DAG alone. A root's records leave out clothos that this node has confirmed
 before, so they do depend on the order of arrival; but up to its confirmation the records for a clotho are those of a
 vote in which nothing is left out, and that vote is a matter of ancestry.
 */
module AtroposOrder {
  import opened Wrappers
  import opened EventDag
  import opened DagInvariant
  import opened DagReachability
  import opened DagOrder
  import opened Finality
  import opened TimeVotes
  import opened ClothoCount
  import opened AtroposVote
  import opened ClothoOrder

  /** What `e` records for `x` for its own part, before the vote. */
  ghost function Opening(d: Dag, e: Hash, x: Hash): Option<nat> {
    if BecomesClotho(d, e, (Lookup(d, x).frame, x)) then Some(Lookup(d, e).lamport) else None
  }

  /** The time that `e` records for `x` when no clotho is ever left out. */
  ghost function IdealRecord(d: Dag, e: Hash, x: Hash): Option<nat>
    requires e in d.events
    decreases d.events[e].topo, 1
  {
    Chosen(IdealVotes(d, e, x), Fourth(d, e, x), d.quorum, Opening(d, e, x))
  }

  ghost function IdealVotes(d: Dag, e: Hash, x: Hash): map<Hash, nat>
    requires e in d.events
    decreases d.events[e].topo, 0
  {
    map p | p in Older(d, e) && IdealRecord(d, p, x).Some? :: IdealRecord(d, p, x).value
  }

  /** The roots listed by `e` that came before it: all of them, unless it is a leaf. */
  ghost function Older(d: Dag, e: Hash): set<Hash>
    requires e in d.events
  {
    set p | p in d.events[e].rootTable && p in d.events && d.events[p].topo < d.events[e].topo
  }

  /** Root `e` confirms `x` in that vote. */
  ghost predicate IdealDecides(d: Dag, e: Hash, x: Hash)
    requires e in d.events
  {
    !Fourth(d, e, x) && IdealVotes(d, e, x) != map[] && Carried(IdealVotes(d, e, x), d.quorum)
  }

  ghost predicate Decided(d: Dag, x: Hash) {
    exists e :: e in d.events && IdealDecides(d, e, x)
  }

  // ------------------------------------------------------------------------------------------
  // Two nodes hold the same vote
  // ------------------------------------------------------------------------------------------

  lemma {:induction false} SameIdeal(d1: Dag, d2: Dag, e: Hash, x: Hash)
    requires Inv(d1) && Inv(d2) && Agree(d1, d2) && e in d1.events && e in d2.events && x in d1.events && x in d2.events
    ensures IdealRecord(d1, e, x) == IdealRecord(d2, e, x)
    decreases d1.events[e].topo, 1
  {
    SameIdealVotes(d1, d2, e, x);
    SameEvent(d1, d2, e);
    SameEvent(d1, d2, x);
    SameVerdict(d1, d2, e, (d1.events[x].frame, x));
  }

  /** What a root table lists came before, unless it is a leaf's own. */
  lemma TableOlder(d: Dag, h: Hash, p: Hash)
    requires Inv(d) && h in d.events && !IsLeaf(d.events[h]) && p in d.events[h].rootTable
    ensures p in d.events && d.events[p].topo < d.events[h].topo
  {
    TableStored(d, h, p);
    assert EventPlaced(d, h) && EventRooted(d, h) && EventClosed(d, h);
    FramesRise(d);
    assert EventRises(d, h) && EventRooted(d, d.events[h].msg.selfParent);
    RootTableIsQuorum(d, h);
    AncBelow(d, h, p);
  }

  lemma OlderIsTable(d: Dag, e: Hash)
    requires Inv(d) && e in d.events
    ensures Older(d, e) == if IsLeaf(d.events[e]) then {} else d.events[e].rootTable.Keys
  {
    if IsLeaf(d.events[e]) {
      assert EventPlaced(d, e);
    } else {
      forall p | p in d.events[e].rootTable ensures p in Older(d, e) { TableOlder(d, e, p); }
    }
  }

  lemma SameOlder(d1: Dag, d2: Dag, e: Hash)
    requires Inv(d1) && Inv(d2) && Agree(d1, d2) && e in d1.events && e in d2.events
    ensures Older(d1, e) == Older(d2, e)
  {
    SameEvent(d1, d2, e);
    OlderIsTable(d1, e);
    OlderIsTable(d2, e);
  }

  lemma {:induction false} SameIdealVotes(d1: Dag, d2: Dag, e: Hash, x: Hash)
    requires Inv(d1) && Inv(d2) && Agree(d1, d2) && e in d1.events && e in d2.events && x in d1.events && x in d2.events
    ensures IdealVotes(d1, e, x) == IdealVotes(d2, e, x)
    decreases d1.events[e].topo, 0
  {
    SameOlder(d1, d2, e);
    forall p | p in Older(d1, e) ensures IdealRecord(d1, p, x) == IdealRecord(d2, p, x) {
      assert p in Older(d2, e);
      SameIdeal(d1, d2, p, x);
    }
  }

  lemma SameDecides(d1: Dag, d2: Dag, e: Hash, x: Hash)
    requires Inv(d1) && Inv(d2) && Agree(d1, d2) && e in d1.events && e in d2.events && x in d1.events && x in d2.events
    ensures IdealDecides(d1, e, x) <==> IdealDecides(d2, e, x)
  {
    SameIdealVotes(d1, d2, e, x);
    SameEvent(d1, d2, e);
    SameEvent(d1, d2, x);
  }

  // ------------------------------------------------------------------------------------------
  // What every node keeps
  // ------------------------------------------------------------------------------------------

  /** Records are by stored events and for stored events above the leaves' frame. */
  ghost predicate Confined(d: Dag, tt: TimeTable) {
    forall e, x {:trigger Record(tt, e, x)} :: Record(tt, e, x).Some? ==>
      e in d.events && x in d.events && d.events[x].frame >= 1
  }

  /** What is made a clotho lies above the leaves' frame. */
  lemma ClothoFrame(d: Dag, e: Hash, x: Hash)
    requires Inv(d) && x in d.events && BecomesClotho(d, e, (d.events[x].frame, x))
    ensures d.events[x].frame >= 1
  {
    var k := (d.events[x].frame, x);
    var p :| Previous(d, e, p) && |Voters(d, p, k)| >= d.quorum;
    assert Voters(d, p, k) != {};
    var q :| q in Voters(d, p, k);
    assert (k.0, k.1) in d.registered;
  }

  /** What is counted lies above the leaves' frame, when every record is for such an event. */
  ghost predicate CountedAbove(d: Dag, counts: CountMap) {
    forall x {:trigger x in counts} :: x in counts && x in d.events ==> d.events[x].frame >= 1
  }

  ghost predicate RecordsAbove(d: Dag, tt: TimeTable) {
    forall e, x {:trigger Record(tt, e, x)} :: Record(tt, e, x).Some? && x in d.events ==> d.events[x].frame >= 1
  }

  lemma CountsAbove(d: Dag, tt: TimeTable, e: Hash, counts: CountMap)
    requires RecordsAbove(d, tt) && CountsVotes(d, tt, e, counts)
    ensures CountedAbove(d, counts)
  {
    forall x {:trigger x in counts} | x in counts && x in d.events ensures d.events[x].frame >= 1 {
      var t :| t in counts[x];
      assert TimeCount(counts, x, t) == |Recorders(tt, Table(d, e), x, t)|;
      assert Recorders(tt, Table(d, e), x, t) != {};
      var p :| p in Recorders(tt, Table(d, e), x, t);
      assert Record(tt, p, x).Some?;
    }
  }

  /** The times recorded for new clothos are such. */
  lemma OpeningsAbove(d: Dag, tt: TimeTable, e: Hash, t: nat)
    requires Inv(d) && RecordsAbove(d, tt)
    ensures RecordsAbove(d, RecordTimes(tt, e, NewClothos(d, e), t))
  {
    var tt' := RecordTimes(tt, e, NewClothos(d, e), t);
    forall p, x {:trigger Record(tt', p, x)} | Record(tt', p, x).Some? && x in d.events ensures d.events[x].frame >= 1 {
      if x in NewClothos(d, e) { ClothoFrame(d, e, x); } else { assert Record(tt, p, x) == Record(tt', p, x); }
    }
  }

  lemma StoredAbove(d: Dag, m: Message, tt: TimeTable)
    requires Inv(d) && Honest(d, m) && Insert(d, m).Ok? && Confined(d, tt)
    ensures RecordsAbove(Insert(d, m).value, tt)
  {
    FreshHash(d, m);
  }

  /** Nobody has decided `x`, and everybody's record for it is that of the full vote. */
  ghost predicate Tracked(d: Dag, tt: TimeTable, x: Hash) {
    forall e {:trigger Record(tt, e, x)} :: e in d.events ==>
      Record(tt, e, x) == IdealRecord(d, e, x) && !IdealDecides(d, e, x)
  }

  ghost predicate Judged(d: Dag, marks: map<Hash, Marks>, tt: TimeTable, x: Hash)
    requires x in d.events && x in marks
  {
    if marks[x].atropos then IsLeaf(d.events[x]) || Decided(d, x) else Tracked(d, tt, x)
  }

  /** The confirmed clothos are the leaves and those that the full vote decides. */
  ghost predicate AtroposExact(d: Dag, marks: map<Hash, Marks>, tt: TimeTable) {
    && Confined(d, tt)
    && forall x {:trigger x in marks} :: x in d.events ==> x in marks && Judged(d, marks, tt, x)
  }

  lemma AtroposIff(d: Dag, marks: map<Hash, Marks>, tt: TimeTable, x: Hash)
    requires AtroposExact(d, marks, tt) && x in d.events && !IsLeaf(d.events[x])
    ensures x in marks && (marks[x].atropos <==> Decided(d, x))
  {
    assert x in marks;
    assert Judged(d, marks, tt, x);
    if !marks[x].atropos { TrackedIsOpen(d, tt, x); }
  }

  lemma TrackedIsOpen(d: Dag, tt: TimeTable, x: Hash)
    requires Tracked(d, tt, x)
    ensures !Decided(d, x)
  {
    forall e | e in d.events ensures !IdealDecides(d, e, x) { assert Record(tt, e, x) == IdealRecord(d, e, x); }
  }

  // ------------------------------------------------------------------------------------------
  // One more event
  // ------------------------------------------------------------------------------------------

  /** What `e` has recorded when its selection begins. */
  ghost function Base(d: Dag, tt: TimeTable, e: Hash, x: Hash): Option<nat> {
    if x in NewClothos(d, e) then Some(Lookup(d, e).lamport) else Record(tt, e, x)
  }

  /** The effect of a root's arrival on records and confirmations. */
  ghost predicate Arrival(d: Dag, e: Hash, marks: map<Hash, Marks>, tt: TimeTable, marks': map<Hash, Marks>,
          tt': TimeTable) {
    && marks'.Keys == marks.Keys
    && (forall p, x {:trigger Record(tt', p, x)} :: p != e ==> Record(tt', p, x) == Record(tt, p, x))
    && (forall x {:trigger Record(tt', e, x)} ::
          Record(tt', e, x) == Afterwards(d, marks, e, x, Votes(tt, Table(d, e), x), Base(d, tt, e, x)))
    && (forall x {:trigger x in marks'} :: x in marks' ==>
          (marks'[x].atropos <==> marks[x].atropos || x in NewAtropos(d, marks, tt, e)))
  }

  /** The effect of the arrival of an event that is not a root. */
  ghost predicate Quiet(marks: map<Hash, Marks>, tt: TimeTable, marks': map<Hash, Marks>, tt': TimeTable) {
    && tt' == tt && marks'.Keys == marks.Keys
    && forall x {:trigger x in marks'} :: x in marks' ==> marks'[x].atropos == marks[x].atropos
  }

  ghost predicate Came(d: Dag, e: Hash, marks: map<Hash, Marks>, tt: TimeTable, marks': map<Hash, Marks>,
          tt': TimeTable) {
    if Lookup(d, e).root then Arrival(d, e, marks, tt, marks', tt') else Quiet(marks, tt, marks', tt')
  }

  lemma OthersKeep(d: Dag, h: Hash, marks: map<Hash, Marks>, tt: TimeTable, marks': map<Hash, Marks>, tt': TimeTable,
                   e: Hash, x: Hash)
    requires Came(d, h, marks, tt, marks', tt') && e != h
    ensures Record(tt', e, x) == Record(tt, e, x)
  {}

  /** Nobody votes on an event that has only just arrived. */
  lemma {:induction false} NewIdeal(d: Dag, m: Message, e: Hash)
    requires Inv(d) && Honest(d, m) && Insert(d, m).Ok? && Inv(Insert(d, m).value) && e in Insert(d, m).value.events
    ensures var d' := Insert(d, m).value; IdealVotes(d', e, m.hash) == map[] && IdealRecord(d', e, m.hash) == None
    decreases Insert(d, m).value.events[e].topo
  {
    var d' := Insert(d, m).value;
    forall p | p in Older(d', e) ensures IdealRecord(d', p, m.hash) == None { NewIdeal(d, m, p); }
    assert IdealVotes(d', e, m.hash) == map[];
    NewNotMade(d, m);
    assert !BecomesClotho(d', e, (d'.events[m.hash].frame, m.hash));
  }

  /** What is known of an older event does not change. */
  lemma OldIdeal(d: Dag, m: Message, e: Hash, x: Hash)
    requires Inv(d) && Honest(d, m) && Insert(d, m).Ok? && Inv(Insert(d, m).value) && e in d.events && x in d.events
    ensures var d' := Insert(d, m).value;
            && e in d'.events && x in d'.events && d'.events[x] == d.events[x]
            && IdealRecord(d', e, x) == IdealRecord(d, e, x) && (IdealDecides(d', e, x) <==> IdealDecides(d, e, x))
  {
    var d' := Insert(d, m).value;
    assert Extends(d, d') by { InsertExtends(d, m); }
    SameIdeal(d, d', e, x);
    SameDecides(d, d', e, x);
  }

  /** For a clotho that is still open, the votes a new root counts are those of the full vote. */
  lemma VotesAreIdeal(d: Dag, m: Message, tt: TimeTable, x: Hash)
    requires Inv(d) && Honest(d, m) && Insert(d, m).Ok? && Inv(Insert(d, m).value) && x in d.events && Tracked(d, tt, x)
    ensures var d' := Insert(d, m).value;
            m.hash in d'.events && Votes(tt, Table(d', m.hash), x) == IdealVotes(d', m.hash, x)
  {
    var d', h := Insert(d, m).value, m.hash;
    FreshHash(d, m);
    NewestLink(d, m);
    OlderIsTable(d', h);
    forall p | p in Table(d', h) ensures p in d.events && Record(tt, p, x) == IdealRecord(d', p, x) {
      TableOlder(d', h, p);
      OldIdeal(d, m, p, x);
      assert Record(tt, p, x) == IdealRecord(d, p, x);
    }
  }

  lemma AgreedIsCarried(tt: TimeTable, table: set<Hash>, x: Hash, quorum: nat)
    requires quorum >= 1
    ensures Agreed(tt, table, x, quorum) <==> Votes(tt, table, x) != map[] && Carried(Votes(tt, table, x), quorum)
  {
    var votes := Votes(tt, table, x);
    forall t ensures Recorders(tt, table, x, t) == Voting(votes, t) { RecordersVote(tt, table, x, t); }
    if Agreed(tt, table, x, quorum) {
      var t :| |Recorders(tt, table, x, t)| >= quorum;
      assert |Voting(votes, t)| >= quorum;
      var p :| p in Voting(votes, t);
      assert p in votes;
    }
    if Carried(votes, quorum) {
      var t :| |Voting(votes, t)| >= quorum;
      assert |Recorders(tt, table, x, t)| >= quorum;
    }
  }

  /** The setting of the next lemmas: a node before and after the arrival of `m`. */
  ghost predicate Step(d: Dag, m: Message, marks: map<Hash, Marks>, tt: TimeTable, marks': map<Hash, Marks>,
          tt': TimeTable) {
    && Inv(d) && Honest(d, m) && Insert(d, m).Ok? && Inv(Insert(d, m).value)
    && AtroposExact(d, marks, tt) && marks.Keys == d.events.Keys
    && Came(Insert(d, m).value, m.hash, marks[m.hash := NEW_MARKS], tt, marks', tt')
  }

  lemma NoRecordYet(d: Dag, m: Message, tt: TimeTable, x: Hash)
    requires Chained(d) && Honest(d, m) && Insert(d, m).Ok? && Confined(d, tt)
    ensures Record(tt, m.hash, x) == None && Record(tt, x, m.hash) == None
  {
    FreshHash(d, m);
  }

  lemma NobodyVotes(d: Dag, m: Message, tt: TimeTable, table: set<Hash>)
    requires Chained(d) && Honest(d, m) && Insert(d, m).Ok? && Confined(d, tt)
    ensures Votes(tt, table, m.hash) == map[]
  {
    forall p | p in table ensures m.hash !in Times(tt, p) { NoRecordYet(d, m, tt, p); }
  }

  /** The new event itself is not confirmed, and nobody has a record for it. */
  lemma NewJudged(d: Dag, m: Message, marks: map<Hash, Marks>, tt: TimeTable, marks': map<Hash, Marks>, tt': TimeTable)
    requires Step(d, m, marks, tt, marks', tt')
    ensures m.hash in marks' && m.hash in Insert(d, m).value.events && Judged(Insert(d, m).value, marks', tt', m.hash)
  {
    var d', h := Insert(d, m).value, m.hash;
    NobodyVotes(d, m, tt, Table(d', h));
    assert h in marks';
    AgreedIsCarried(tt, Table(d', h), h, d'.quorum);
    NewNotMade(d, m);
    forall e | e in d'.events ensures Record(tt', e, h) == IdealRecord(d', e, h) && !IdealDecides(d', e, h) {
      NewIdeal(d, m, e);
      NoRecordYet(d, m, tt, e);
      if e != h { OthersKeep(d', h, marks[h := NEW_MARKS], tt, marks', tt', e, h); }
    }
  }

  /** A confirmed clotho stays confirmed, for the same reason. */
  lemma OldConfirmed(d: Dag, m: Message, marks: map<Hash, Marks>, tt: TimeTable, marks': map<Hash, Marks>,
          tt': TimeTable,
                     x: Hash)
    requires Step(d, m, marks, tt, marks', tt') && x in d.events && marks[x].atropos
    ensures x in marks' && x in Insert(d, m).value.events && Judged(Insert(d, m).value, marks', tt', x)
  {
    FreshHash(d, m);
    assert x in marks && Judged(d, marks, tt, x);
    assert x in marks';
    DecidedStays(d, m, x);
  }

  lemma DecidedStays(d: Dag, m: Message, x: Hash)
    requires Inv(d) && Honest(d, m) && Insert(d, m).Ok? && Inv(Insert(d, m).value) && x in d.events
    ensures x in Insert(d, m).value.events && Insert(d, m).value.events[x] == d.events[x]
    ensures Decided(d, x) ==> Decided(Insert(d, m).value, x)
  {
    OldIdeal(d, m, x, x);
    if Decided(d, x) {
      var e :| e in d.events && IdealDecides(d, e, x);
      OldIdeal(d, m, e, x);
    }
  }

  lemma BaseIsOpening(d: Dag, tt: TimeTable, h: Hash, x: Hash)
    requires x in d.events && Record(tt, h, x) == None
    ensures Base(d, tt, h, x) == Opening(d, h, x)
  {}

  /** A new root decides an open clotho as the full vote does. */
  lemma RootDecides(d: Dag, h: Hash, marks: map<Hash, Marks>, tt: TimeTable, x: Hash)
    requires d.quorum >= 1 && h in d.events && x in d.events && x in marks && !marks[x].atropos
    requires Votes(tt, Table(d, h), x) == IdealVotes(d, h, x)
    ensures x in NewAtropos(d, marks, tt, h) <==> IdealDecides(d, h, x)
  {
    AgreedIsCarried(tt, Table(d, h), x, d.quorum);
  }

  lemma RootAfterwards(d: Dag, h: Hash, marks: map<Hash, Marks>, x: Hash)
    requires h in d.events && x in d.events && x in marks && !marks[x].atropos
    ensures Afterwards(d, marks, h, x, IdealVotes(d, h, x), Opening(d, h, x)) == IdealRecord(d, h, x)
  {}

  /** The new root's own record for an open clotho, and its decision. */
  lemma RootRecord(d: Dag, h: Hash, marks: map<Hash, Marks>, tt: TimeTable, marks': map<Hash, Marks>, tt': TimeTable,
          x: Hash)
    requires Arrival(d, h, marks, tt, marks', tt') && d.quorum >= 1 && h in d.events
    requires x in d.events && x in marks && !marks[x].atropos
    requires Votes(tt, Table(d, h), x) == IdealVotes(d, h, x) && Record(tt, h, x) == None
    ensures x in marks' && Record(tt', h, x) == IdealRecord(d, h, x) && (marks'[x].atropos <==> IdealDecides(d, h, x))
  {
    BaseIsOpening(d, tt, h, x);
    RootAfterwards(d, h, marks, x);
    RootDecides(d, h, marks, tt, x);
    assert x in marks';
  }

  lemma QuietRecord(d: Dag, h: Hash, x: Hash)
    requires Inv(d) && h in d.events && !d.events[h].root
    ensures IdealRecord(d, h, x) == None && !IdealDecides(d, h, x)
  {
    OnlyRoots(d, h, (Lookup(d, x).frame, x));
    assert EventPlaced(d, h);
    assert Older(d, h) == {};
    assert IdealVotes(d, h, x) == map[];
  }

  lemma NewRecord(d: Dag, m: Message, marks: map<Hash, Marks>, tt: TimeTable, marks': map<Hash, Marks>, tt': TimeTable,
                  x: Hash)
    requires Step(d, m, marks, tt, marks', tt') && x in d.events && !marks[x].atropos
    ensures var d' := Insert(d, m).value;
            && x in marks' && x in d'.events && m.hash in d'.events
                && Record(tt', m.hash, x) == IdealRecord(d', m.hash, x)
            && (marks'[x].atropos <==> IdealDecides(d', m.hash, x))
  {
    var d', h := Insert(d, m).value, m.hash;
    FreshHash(d, m);
    assert x in marks && Judged(d, marks, tt, x);
    assert x in marks';
    NoRecordYet(d, m, tt, x);
    if d'.events[h].root {
      VotesAreIdeal(d, m, tt, x);
      RootRecord(d', h, marks[h := NEW_MARKS], tt, marks', tt', x);
    } else {
      QuietRecord(d', h, x);
    }
  }

  /** A clotho that was open is decided by the new event, or stays open. */
  lemma OpenJudged(d: Dag, m: Message, marks: map<Hash, Marks>, tt: TimeTable, marks': map<Hash, Marks>, tt': TimeTable,
                   x: Hash)
    requires Step(d, m, marks, tt, marks', tt') && x in d.events && !marks[x].atropos
    ensures x in marks' && x in Insert(d, m).value.events && Judged(Insert(d, m).value, marks', tt', x)
  {
    var d', h := Insert(d, m).value, m.hash;
    NewRecord(d, m, marks, tt, marks', tt', x);
    if !marks'[x].atropos {
      assert x in marks && Tracked(d, tt, x);
      forall e | e in d'.events ensures Record(tt', e, x) == IdealRecord(d', e, x) && !IdealDecides(d', e, x) {
        if e != h {
          OthersKeep(d', h, marks[h := NEW_MARKS], tt, marks', tt', e, x);
          OldIdeal(d, m, e, x);
          assert Record(tt, e, x) == IdealRecord(d, e, x);
        }
      }
    }
  }

  lemma StillConfined(d: Dag, m: Message, marks: map<Hash, Marks>, tt: TimeTable, marks': map<Hash, Marks>,
          tt': TimeTable)
    requires Step(d, m, marks, tt, marks', tt')
    ensures Confined(Insert(d, m).value, tt')
  {
    var d', h := Insert(d, m).value, m.hash;
    FreshHash(d, m);
    forall e, x {:trigger Record(tt', e, x)} | Record(tt', e, x).Some?
      ensures e in d'.events && x in d'.events && d'.events[x].frame >= 1
    {
      if e != h {
        OthersKeep(d', h, marks[h := NEW_MARKS], tt, marks', tt', e, x);
      } else {
        NewConfined(d, m, marks, tt, marks', tt', x);
      }
    }
  }

  /** What the new event records is for a stored event above the leaves' frame. */
  lemma NewConfined(d: Dag, m: Message, marks: map<Hash, Marks>, tt: TimeTable, marks': map<Hash, Marks>,
                    tt': TimeTable, x: Hash)
    requires Step(d, m, marks, tt, marks', tt') && Record(tt', m.hash, x).Some?
    ensures var d' := Insert(d, m).value; m.hash in d'.events && x in d'.events && d'.events[x].frame >= 1
  {
    var d', h := Insert(d, m).value, m.hash;
    NoRecordYet(d, m, tt, x);
    assert Extends(d, d') by { InsertExtends(d, m); }
    assert Arrival(d', h, marks[h := NEW_MARKS], tt, marks', tt');
    if x in NewClothos(d', h) {
      ClothoFrame(d', h, x);
    } else {
      var votes := Votes(tt, Table(d', h), x);
      assert Base(d', tt, h, x) == None;
      assert Record(tt', h, x) == Afterwards(d', marks[h := NEW_MARKS], h, x, votes, None);
      assert votes != map[];
      var p :| p in votes;
      assert Record(tt, p, x).Some?;
    }
  }

  /** The arrival of an event keeps confirmations a matter of the DAG. */
  lemma ArrivalExact(d: Dag, m: Message, marks: map<Hash, Marks>, tt: TimeTable, marks': map<Hash, Marks>,
          tt': TimeTable)
    requires Step(d, m, marks, tt, marks', tt')
    ensures AtroposExact(Insert(d, m).value, marks', tt')
  {
    var d' := Insert(d, m).value;
    StillConfined(d, m, marks, tt, marks', tt');
    forall x {:trigger x in marks'} | x in d'.events ensures x in marks' && Judged(d', marks', tt', x) {
      if x == m.hash {
        NewJudged(d, m, marks, tt, marks', tt');
      } else if marks[x].atropos {
        OldConfirmed(d, m, marks, tt, marks', tt', x);
      } else {
        OpenJudged(d, m, marks, tt, marks', tt', x);
      }
    }
  }

  /** The count of clothos and the selection, one after the other, are the arrival of a root. */
  lemma BothSteps(d: Dag, e: Hash, marks0: map<Hash, Marks>, tt0: TimeTable, marks1: map<Hash, Marks>, tt1: TimeTable,
                  marks2: map<Hash, Marks>, tt2: TimeTable)
    requires e !in Table(d, e) && marks1 == MarkClothos(marks0, NewClothos(d, e))
    requires tt1 == RecordTimes(tt0, e, NewClothos(d, e), Lookup(d, e).lamport)
    requires Confirmed(marks1, marks2, NewAtropos(d, marks1, tt1, e)) && SelectionRecorded(d, marks1, e, tt1, tt2)
    ensures AllKept(marks0, marks2) && FlagsRaised(marks0, marks2, NewClothos(d, e))
    ensures Arrival(d, e, marks0, tt0, marks2, tt2)
  {
    MarkedKept(marks0, NewClothos(d, e));
    ConfirmedKept(marks1, marks2, NewAtropos(d, marks1, tt1, e));
    KeptThrough(marks0, marks1, marks2);
    RaisedThenConfirmed(marks0, NewClothos(d, e), marks2, NewAtropos(d, marks1, tt1, e));
    OpeningRecorded(d, e, tt0, tt1);
    ArrivalRecords(d, e, marks0, tt0, marks1, tt1, tt2);
    ArrivalConfirms(d, e, marks0, tt0, marks1, tt1, marks2);
  }

  lemma OpeningRecorded(d: Dag, e: Hash, tt0: TimeTable, tt1: TimeTable)
    requires tt1 == RecordTimes(tt0, e, NewClothos(d, e), Lookup(d, e).lamport)
    ensures forall x {:trigger Record(tt1, e, x)} :: Record(tt1, e, x) == Base(d, tt0, e, x)
    ensures forall p, x {:trigger Record(tt1, p, x)} :: p != e ==> Record(tt1, p, x) == Record(tt0, p, x)
  {}

  lemma SameVotes(tt0: TimeTable, tt1: TimeTable, table: set<Hash>, e: Hash, x: Hash)
    requires e !in table && forall p, y {:trigger Record(tt1, p, y)} :: p != e ==>
               Record(tt1, p, y) == Record(tt0, p, y)
    ensures Votes(tt1, table, x) == Votes(tt0, table, x)
  {
    forall p | p in table ensures Record(tt1, p, x) == Record(tt0, p, x) {}
  }

  lemma ArrivalRecords(d: Dag, e: Hash, marks0: map<Hash, Marks>, tt0: TimeTable, marks1: map<Hash, Marks>,
          tt1: TimeTable,
                       tt2: TimeTable)
    requires e !in Table(d, e) && marks1 == MarkClothos(marks0, NewClothos(d, e))
               && SelectionRecorded(d, marks1, e, tt1, tt2)
    requires forall x {:trigger Record(tt1, e, x)} :: Record(tt1, e, x) == Base(d, tt0, e, x)
    requires forall p, x {:trigger Record(tt1, p, x)} :: p != e ==> Record(tt1, p, x) == Record(tt0, p, x)
    ensures forall p, x {:trigger Record(tt2, p, x)} :: p != e ==> Record(tt2, p, x) == Record(tt0, p, x)
    ensures forall x {:trigger Record(tt2, e, x)} ::
              Record(tt2, e, x) == Afterwards(d, marks0, e, x, Votes(tt0, Table(d, e), x), Base(d, tt0, e, x))
  {
    forall x {:trigger Record(tt2, e, x)}
      ensures Record(tt2, e, x) == Afterwards(d, marks0, e, x, Votes(tt0, Table(d, e), x), Base(d, tt0, e, x))
    {
      SameVotes(tt0, tt1, Table(d, e), e, x);
      assert Record(tt1, e, x) == Base(d, tt0, e, x);
    }
    forall p, x {:trigger Record(tt2, p, x)} | p != e ensures Record(tt2, p, x) == Record(tt0, p, x) {
      assert Record(tt1, p, x) == Record(tt0, p, x);
    }
  }

  lemma ArrivalConfirms(d: Dag, e: Hash, marks0: map<Hash, Marks>, tt0: TimeTable, marks1: map<Hash, Marks>,
                        tt1: TimeTable, marks2: map<Hash, Marks>)
    requires e !in Table(d, e) && marks1 == MarkClothos(marks0, NewClothos(d, e))
    requires forall p, x {:trigger Record(tt1, p, x)} :: p != e ==> Record(tt1, p, x) == Record(tt0, p, x)
    requires Confirmed(marks1, marks2, NewAtropos(d, marks1, tt1, e))
    ensures marks2.Keys == marks0.Keys
    ensures forall x {:trigger x in marks2} :: x in marks2 ==>
              (marks2[x].atropos <==> marks0[x].atropos || x in NewAtropos(d, marks0, tt0, e))
  {
    assert marks1.Keys == marks0.Keys;
    forall x {:trigger x in marks2} | x in marks2
      ensures marks2[x].atropos <==> marks0[x].atropos || x in NewAtropos(d, marks0, tt0, e)
    {
      SameAgreement(tt0, tt1, Table(d, e), e, x, d.quorum);
      assert marks1[x].atropos == marks0[x].atropos;
    }
  }

  lemma SameAgreement(tt0: TimeTable, tt1: TimeTable, table: set<Hash>, e: Hash, x: Hash, quorum: nat)
    requires e !in table && forall p, y {:trigger Record(tt1, p, y)} :: p != e ==>
               Record(tt1, p, y) == Record(tt0, p, y)
    ensures Agreed(tt1, table, x, quorum) <==> Agreed(tt0, table, x, quorum)
  {
    SameVotes(tt0, tt1, table, e, x);
    forall t ensures Recorders(tt1, table, x, t) == Recorders(tt0, table, x, t) {
      RecordersVote(tt0, table, x, t);
      RecordersVote(tt1, table, x, t);
    }
  }

  /** Marking clothos does not touch what is final. */
  lemma ClothosBelow(d: Dag, marks: map<Hash, Marks>, s: set<Hash>)
    requires Closed(d) && FinalBelow(d, marks)
    ensures FinalBelow(d, MarkClothos(marks, s))
  {
    assert MarkClothos(marks, s).Keys == marks.Keys;
    StillBelow(d, marks, MarkClothos(marks, s));
  }

  /** A new event does not list itself. */
  lemma NotListed(d: Dag, m: Message)
    requires Inv(d) && Honest(d, m) && Insert(d, m).Ok? && Inv(Insert(d, m).value)
    ensures m.hash !in Table(Insert(d, m).value, m.hash)
  {
    var d' := Insert(d, m).value;
    NewestLink(d, m);
    if m.hash in Table(d', m.hash) { TableStored(d', m.hash, m.hash); }
  }

  /** With nothing but leaves, nothing is recorded and everything is confirmed. */
  lemma StartExact(leaves: seq<Leaf>, quorum: nat, marks: map<Hash, Marks>)
    requires GenesisOk(leaves, quorum)
    requires var d := Genesis(leaves, quorum); marks.Keys == d.events.Keys && LeafMarks(d, marks)
    ensures Closed(Genesis(leaves, quorum)) && FinalBelow(Genesis(leaves, quorum), marks)
    ensures AtroposExact(Genesis(leaves, quorum), marks, map[])
  {
    GenesisInv(leaves, quorum);
    GenesisShape(leaves, quorum);
    var d := Genesis(leaves, quorum);
    forall h | h in d.events ensures marks[h].atropos && IsLeaf(d.events[h]) { var c :| IsLeafOf(d, leaves, h, c); }
    LeavesBelow(d, marks);
  }

  /** What storing a new event keeps. */
  lemma StoreSettles(d: Dag, m: Message, d': Dag, marks: map<Hash, Marks>, consensus: seq<Hash>)
    requires Inv(d) && Honest(d, m) && Insert(d, m) == Ok(d')
    requires MarksOk(d, marks) && ListOk(d, marks, {}, consensus) && FinalBelow(d, marks)
    ensures var marks' := marks[m.hash := NEW_MARKS];
            && Inv(d') && MarksOk(d', marks') && ListOk(d', marks', {}, consensus) && FinalBelow(d', marks')
            && m.hash !in Table(d', m.hash) && AllKept(marks, marks')
            && |Waiting(d', marks', {})| == |Waiting(d, marks, {})| + (if m.loaded then 1 else 0)
  {
    FreshHash(d, m);
    StoreFresh(d, m, marks, consensus);
    assert Inv(d') by { InsertKeepsInv(d, m); }
    StoreBelow(d, m, marks);
    NotListed(d, m);
  }

  /** What the arrival of a stored event keeps, all together. */
  lemma ArrivalKeeps(d: Dag, m: Message, d': Dag, marks: map<Hash, Marks>, tt: TimeTable, marks': map<Hash, Marks>,
                     tt': TimeTable)
    requires Inv(d) && Honest(d, m) && Insert(d, m) == Ok(d') && Inv(d') && m.hash in d'.events
    requires marks.Keys == d.events.Keys && ClothosExact(d, marks) && AtroposExact(d, marks, tt)
    requires var stored := marks[m.hash := NEW_MARKS];
             && FlagsRaised(stored, marks', if d'.events[m.hash].root then NewClothos(d', m.hash) else {})
             && Came(d', m.hash, stored, tt, marks', tt') && AllKept(marks, stored) && AllKept(stored, marks')
    ensures AllKept(marks, marks') && ClothosExact(d', marks') && AtroposExact(d', marks', tt')
  {
    KeptThrough(marks, marks[m.hash := NEW_MARKS], marks');
    ArrivedExact(d, m, d', marks, marks');
    ArrivalExact(d, m, marks, tt, marks', tt');
  }

  /** Writing a confirmed clotho back, all together. */
  lemma ConfirmSettles(d: Dag, old_: map<Hash, Marks>, marks: map<Hash, Marks>, early: set<Hash>, consensus: seq<Hash>,
                       x: Hash, m: Marks)
    requires Inv(d) && MarksOk(d, marks) && ListOk(d, marks, early, consensus) && x in d.events && !IsLeaf(d.events[x])
    requires ParentsAssigned(d, marks, x) && OnlyWithin(d, old_, marks, Anc(d, x) - {x}, d.events[x].frame)
    requires FinalBelow(d, old_) && m.frameReceived == d.events[x].frame != 0
    requires m.atropos && m.clotho == old_[x].clotho && m.atroposTimestamp == FinalTime(d, x)
    requires early == if Assigned(old_, x) then {} else {x}
    requires Assigned(old_, x) ==> old_[x].atroposTimestamp == FinalTime(d, x)
    ensures MarksOk(d, marks[x := m]) && ListOk(d, marks[x := m], {}, consensus) && FinalBelow(d, marks[x := m])
    ensures Waiting(d, marks[x := m], {}) == Waiting(d, marks, early)
    ensures Confirmed(old_, marks[x := m], {x}) && ReceivedAtUnder(d, old_, marks[x := m], x)
  {
    WalkReceives(d, old_, marks, x, d.events[x].frame);
    ConfirmWrite(d, old_, marks, early, consensus, x, m);
    WithinTwice(d, old_, marks, marks, Anc(d, x) - {x}, {}, Anc(d, x), d.events[x].frame);
    ConfirmedBelow(d, old_, marks, x, m);
  }

  // ------------------------------------------------------------------------------------------
  // Two nodes
  // ------------------------------------------------------------------------------------------

  /** The state of consensus is the one that the DAG determines. */
  ghost predicate Exact(d: Dag, marks: map<Hash, Marks>, tt: TimeTable) {
    Inv(d) && MarksOk(d, marks) && FinalBelow(d, marks) && ClothosExact(d, marks) && AtroposExact(d, marks, tt)
  }

  ghost predicate Twins(d1: Dag, d2: Dag) {
    Agree(d1, d2) && d1.events.Keys == d2.events.Keys
  }

  /** Nodes with the same events have confirmed the same clothos. */
  lemma SameAtropos(d1: Dag, marks1: map<Hash, Marks>, tt1: TimeTable, d2: Dag, marks2: map<Hash, Marks>,
          tt2: TimeTable,
                    x: Hash)
    requires Exact(d1, marks1, tt1) && Exact(d2, marks2, tt2) && Twins(d1, d2) && x in d1.events
    ensures x in marks1 && x in marks2 && marks1[x].atropos == marks2[x].atropos
  {
    if IsLeaf(d1.events[x]) {
      assert MarkOk(d1, marks1, x) && MarkOk(d2, marks2, x);
    } else {
      AtroposIff(d1, marks1, tt1, x);
      AtroposIff(d2, marks2, tt2, x);
      forall e | e in d1.events ensures IdealDecides(d1, e, x) <==> IdealDecides(d2, e, x) {
        SameDecides(d1, d2, e, x);
      }
    }
  }

  lemma {:induction false} SameAncestors(d1: Dag, d2: Dag, h: Hash)
    requires Closed(d1) && Closed(d2) && Agree(d1, d2) && h in d1.events && h in d2.events
    ensures Anc(d1, h) == Anc(d2, h)
    decreases d1.events[h].topo
  {
    assert EventClosed(d1, h) && EventClosed(d2, h);
    var m := d1.events[h].msg;
    if !IsLeaf(d1.events[h]) {
      SameAncestors(d1, d2, m.selfParent);
      if m.otherParent != 0 { SameAncestors(d1, d2, m.otherParent); }
    }
  }

  lemma FinalHereThere(d1: Dag, marks1: map<Hash, Marks>, tt1: TimeTable, d2: Dag, marks2: map<Hash, Marks>,
                       tt2: TimeTable, h: Hash)
    requires Exact(d1, marks1, tt1) && Exact(d2, marks2, tt2) && Twins(d1, d2) && h in d1.events && Assigned(marks1, h)
    ensures Assigned(marks2, h)
  {
    FinalIff(d1, marks1, h);
    var x :| x in d1.events && x in marks1 && marks1[x].atropos && h in Anc(d1, x);
    SameAtropos(d1, marks1, tt1, d2, marks2, tt2, x);
    SameAncestors(d1, d2, x);
    assert BelowAtropos(d2, marks2, h);
    FinalIff(d2, marks2, h);
  }

  lemma TwinsBack(d1: Dag, d2: Dag)
    requires Twins(d1, d2)
    ensures Twins(d2, d1)
  {}

  /** Nodes with the same events agree on clothos, on confirmed clothos, on what is final, and on every timestamp. */
  lemma SameConsensus(d1: Dag, marks1: map<Hash, Marks>, tt1: TimeTable, d2: Dag, marks2: map<Hash, Marks>,
                      tt2: TimeTable, x: Hash)
    requires Exact(d1, marks1, tt1) && Exact(d2, marks2, tt2) && Twins(d1, d2) && x in d1.events
    ensures x in marks1 && x in marks2
    ensures marks1[x].clotho == marks2[x].clotho && marks1[x].atropos == marks2[x].atropos
    ensures marks1[x].atroposTimestamp == marks2[x].atroposTimestamp
  {
    SameClothos(d1, marks1, d2, marks2, x);
    SameAtropos(d1, marks1, tt1, d2, marks2, tt2, x);
    TwinsBack(d1, d2);
    if Assigned(marks1, x) {
      FinalHereThere(d1, marks1, tt1, d2, marks2, tt2, x);
      SameFinalTime(d1, marks1, d2, marks2, x);
    } else if Assigned(marks2, x) {
      FinalHereThere(d2, marks2, tt2, d1, marks1, tt1, x);
    }
  }

  /**
   Order independence of consensus: nodes that inserted the same messages in any two parent-respecting orders agree on
   every flag and every timestamp.
   */
  lemma ReorderedConsensus(leaves: seq<Leaf>, quorum: nat, ms1: seq<Message>, ms2: seq<Message>,
                           marks1: map<Hash, Marks>, tt1: TimeTable, marks2: map<Hash, Marks>, tt2: TimeTable)
    requires GenesisOk(leaves, quorum) && multiset(ms1) == multiset(ms2)
    requires Runs(Genesis(leaves, quorum), ms1) && ParentsFirst(Genesis(leaves, quorum), ms2)
    ensures Runs(Genesis(leaves, quorum), ms2)
    ensures var d1, d2 := After(Genesis(leaves, quorum), ms1), After(Genesis(leaves, quorum), ms2);
            Exact(d1, marks1, tt1) && Exact(d2, marks2, tt2) ==>
              forall x {:trigger x in d1.events} :: x in d1.events ==>
                && x in marks1 && x in marks2
                && marks1[x].clotho == marks2[x].clotho && marks1[x].atropos == marks2[x].atropos
                && marks1[x].atroposTimestamp == marks2[x].atroposTimestamp
  {
    var g := Genesis(leaves, quorum);
    GenesisInv(leaves, quorum);
    ReorderingAccepted(leaves, quorum, ms1, ms2);
    RunInv(g, ms1);
    RunInv(g, ms2);
    var d1, d2 := After(g, ms1), After(g, ms2);
    assert Twins(d1, d2);
    if Exact(d1, marks1, tt1) && Exact(d2, marks2, tt2) {
      forall x {:trigger x in d1.events} | x in d1.events
        ensures x in marks1 && x in marks2 && marks1[x].clotho == marks2[x].clotho
        ensures marks1[x].atropos == marks2[x].atropos && marks1[x].atroposTimestamp == marks2[x].atroposTimestamp
      {
        SameConsensus(d1, marks1, tt1, d2, marks2, tt2, x);
      }
    }
  }
}

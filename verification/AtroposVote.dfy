/** Which clothos the arrival of a root confirms. */
module AtroposVote {
  import opened Wrappers
  import opened EventDag
  import opened DagReachability
  import opened Finality
  import opened ClothoCount
  import opened TimeVotes

  /** The frames are a multiple of four apart. */
  predicate Fourth(d: Dag, e: Hash, x: Hash) {
    (Lookup(d, e).frame - Lookup(d, x).frame) % 4 == 0
  }

  /** The clotho is not confirmed yet, this is not a fourth frame, and a quorum agrees on its time. */
  ghost predicate Decides(d: Dag, marks: map<Hash, Marks>, e: Hash, x: Hash, c: map<nat, nat>) {
    && x in d.events && x in marks && !marks[x].atropos
    && !Fourth(d, e, x)
    && exists t :: t in c && c[t] >= d.quorum
  }

  /** `s` are confirmed and nothing else is; final timestamps stay, no flag is withdrawn. */
  ghost predicate Confirmed(old_: map<Hash, Marks>, new_: map<Hash, Marks>, s: set<Hash>) {
    && old_.Keys == new_.Keys
    && forall x {:trigger new_[x]} :: x in old_ ==>
         && (new_[x].atropos <==> old_[x].atropos || x in s)
         && new_[x].clotho == old_[x].clotho
         && (old_[x].atroposTimestamp != 0 ==> new_[x].atroposTimestamp == old_[x].atroposTimestamp)
  }

  /** The clothos confirmed when root `e` arrives. */
  ghost function NewAtropos(d: Dag, marks: map<Hash, Marks>, tt: TimeTable, e: Hash): set<Hash> {
    set x | x in d.events && x in marks && !marks[x].atropos
            && !Fourth(d, e, x)
            && Agreed(tt, Lookup(d, e).rootTable.Keys, x, d.quorum)
  }

  ghost predicate Selected(d: Dag, marks: map<Hash, Marks>, e: Hash, counts: CountMap, todo: set<Hash>,
          sure: set<Hash>) {
    forall x {:trigger x in sure} :: x in sure <==> x in counts && x !in todo && Decides(d, marks, e, x, counts[x])
  }

  lemma SelectStep(d: Dag, marks0: map<Hash, Marks>, before: map<Hash, Marks>, after: map<Hash, Marks>, e: Hash,
                   counts: CountMap, todo: set<Hash>, sure: set<Hash>, x: Hash)
    requires x in todo && x in counts && Selected(d, marks0, e, counts, todo, sure)
    requires Confirmed(marks0, before, sure)
    requires Confirmed(before, after, if Decides(d, before, e, x, counts[x]) then {x} else {})
    ensures var more := if Decides(d, before, e, x, counts[x]) then {x} else {};
            Selected(d, marks0, e, counts, todo - {x}, sure + more) && Confirmed(marks0, after, sure + more)
  {
    assert x !in sure;
    assert x in before ==> before[x].atropos == marks0[x].atropos;
  }

  lemma SelectedAll(d: Dag, marks: map<Hash, Marks>, tt: TimeTable, e: Hash, counts: CountMap, sure: set<Hash>)
    requires d.quorum >= 1
    requires forall x, t {:trigger TimeCount(counts, x, t)} ::
               TimeCount(counts, x, t) == |Recorders(tt, Lookup(d, e).rootTable.Keys, x, t)|
    requires forall x {:trigger x in sure} :: x in sure <==> x in counts && Decides(d, marks, e, x, counts[x])
    ensures sure == NewAtropos(d, marks, tt, e)
  {
    var table := Lookup(d, e).rootTable.Keys;
    forall x
      ensures Agreed(tt, table, x, d.quorum) <==> x in counts && exists t :: t in counts[x] && counts[x][t] >= d.quorum
    {
      CountsDecide(d, tt, table, counts, x);
    }
    forall x ensures x in sure <==> x in NewAtropos(d, marks, tt, e) {
      assert Agreed(tt, table, x, d.quorum) <==> x in counts && exists t :: t in counts[x] && counts[x][t] >= d.quorum;
    }
  }

  lemma CountsDecide(d: Dag, tt: TimeTable, table: set<Hash>, counts: CountMap, x: Hash)
    requires d.quorum >= 1
    requires forall x, t {:trigger TimeCount(counts, x, t)} :: TimeCount(counts, x, t) == |Recorders(tt, table, x, t)|
    ensures Agreed(tt, table, x, d.quorum) <==> x in counts && exists t :: t in counts[x] && counts[x][t] >= d.quorum
  {
    if Agreed(tt, table, x, d.quorum) {
      var t :| |Recorders(tt, table, x, t)| >= d.quorum;
      assert TimeCount(counts, x, t) >= d.quorum;
    }
    if x in counts && exists t :: t in counts[x] && counts[x][t] >= d.quorum {
      var t :| t in counts[x] && counts[x][t] >= d.quorum;
      assert TimeCount(counts, x, t) >= d.quorum;
    }
  }

  /** What root `e` has recorded for `x` after its selection, given the votes and what it had recorded before. */
  ghost function Afterwards(d: Dag, marks: map<Hash, Marks>, e: Hash, x: Hash, votes: map<Hash, nat>, base: Option<nat>)
    : Option<nat>
  {
    if x in d.events && x in marks && !marks[x].atropos then Chosen(votes, Fourth(d, e, x), d.quorum, base) else base
  }

  ghost function Table(d: Dag, e: Hash): set<Hash> {
    Lookup(d, e).rootTable.Keys
  }

  /** `e`'s record for `x` is `r`, and all other records are as they were. */
  ghost predicate NotedAs(tt: TimeTable, tt': TimeTable, e: Hash, x: Hash, r: Option<nat>) {
    && Record(tt', e, x) == r
    && forall p, y {:trigger Record(tt', p, y)} :: p != e || y != x ==> Record(tt', p, y) == Record(tt, p, y)
  }

  /** The counts are those of the votes of the roots that `e` lists. */
  ghost predicate CountsVotes(d: Dag, tt: TimeTable, e: Hash, counts: CountMap) {
    forall x, t {:trigger TimeCount(counts, x, t)} :: TimeCount(counts, x, t) == |Recorders(tt, Table(d, e), x, t)|
  }

  /** What `e` has recorded once the clothos still to do are left out. */
  ghost predicate RecordedSoFar(d: Dag, marks: map<Hash, Marks>, e: Hash, tt: TimeTable, tt': TimeTable,
          counts: CountMap,
                                todo: set<Hash>) {
    && (forall p, y {:trigger Record(tt', p, y)} :: p != e ==> Record(tt', p, y) == Record(tt, p, y))
    && forall y {:trigger Record(tt', e, y)} ::
         Record(tt', e, y) == if y in counts && y !in todo
                              then Afterwards(d, marks, e, y, Votes(tt, Table(d, e), y), Record(tt, e, y))
                              else Record(tt, e, y)
  }

  /** What `e` has recorded after its whole selection. */
  ghost predicate SelectionRecorded(d: Dag, marks: map<Hash, Marks>, e: Hash, tt: TimeTable, tt': TimeTable) {
    && (forall p, y {:trigger Record(tt', p, y)} :: p != e ==> Record(tt', p, y) == Record(tt, p, y))
    && forall y {:trigger Record(tt', e, y)} ::
         Record(tt', e, y) == Afterwards(d, marks, e, y, Votes(tt, Table(d, e), y), Record(tt, e, y))
  }

  /** The frames are not a multiple of four apart, and a quorum of the roots that `e` lists agree on a time for `x`. */
  ghost predicate AgreedAt(d: Dag, tt: TimeTable, e: Hash, x: Hash) {
    && (Lookup(d, e).frame - Lookup(d, x).frame) % 4 != 0
    && exists t :: |Recorders(tt, Lookup(d, e).rootTable.Keys, x, t)| >= d.quorum
  }

  /** Exactly those are confirmed that were before, or that are agreed on. */
  ghost predicate ConfirmsAgreed(d: Dag, old_: map<Hash, Marks>, new_: map<Hash, Marks>, tt: TimeTable, e: Hash) {
    && old_.Keys == new_.Keys
    && forall x {:trigger new_[x]} :: x in old_ && x in d.events ==>
         (new_[x].atropos <==> old_[x].atropos || AgreedAt(d, tt, e, x))
  }

  /**
   What root `e` records for a clotho that is not confirmed: a multiple of four frames up the earliest time among the
   votes; otherwise the most frequent one, and of several the earliest, unless a quorum agrees and nothing is recorded.
   */
  ghost predicate RecordsChoice(d: Dag, marks: map<Hash, Marks>, e: Hash, tt: TimeTable, tt': TimeTable, y: Hash) {
    var votes := Votes(tt, Lookup(d, e).rootTable.Keys, y);
    if y !in d.events || y !in marks || marks[y].atropos || votes == map[] then Record(tt', e, y) == Record(tt, e, y)
    else if (Lookup(d, e).frame - d.events[y].frame) % 4 == 0
      then Record(tt', e, y).Some? && Earliest(votes, Record(tt', e, y).value)
    else if exists t :: |Voting(votes, t)| >= d.quorum then Record(tt', e, y) == Record(tt, e, y)
    else Record(tt', e, y).Some? && Leading(votes, Record(tt', e, y).value)
  }

  lemma SelectionSpelledOut(d: Dag, old_: map<Hash, Marks>, new_: map<Hash, Marks>, e: Hash, tt: TimeTable,
                            tt': TimeTable)
    requires Confirmed(old_, new_, NewAtropos(d, old_, tt, e)) && SelectionRecorded(d, old_, e, tt, tt')
    ensures ConfirmsAgreed(d, old_, new_, tt, e)
    ensures forall y :: RecordsChoice(d, old_, e, tt, tt', y)
  {
    forall x {:trigger new_[x]} | x in old_ && x in d.events
      ensures new_[x].atropos <==> old_[x].atropos || AgreedAt(d, tt, e, x)
    {
      assert x in NewAtropos(d, old_, tt, e) <==> !old_[x].atropos && AgreedAt(d, tt, e, x);
    }
    forall y ensures RecordsChoice(d, old_, e, tt, tt', y) {
      assert Record(tt', e, y) == Afterwards(d, old_, e, y, Votes(tt, Table(d, e), y), Record(tt, e, y));
      ChoiceSpelledOut(Votes(tt, Table(d, e), y), Fourth(d, e, y), d.quorum, Record(tt, e, y));
    }
  }

  /** What is recorded, case by case. */
  lemma ChoiceSpelledOut(votes: map<Hash, nat>, fourth: bool, quorum: nat, base: Option<nat>)
    ensures var r := Chosen(votes, fourth, quorum, base);
            if votes == map[] then r == base
            else if fourth then r.Some? && Earliest(votes, r.value)
            else if exists t :: |Voting(votes, t)| >= quorum then r == base
            else r.Some? && Leading(votes, r.value)
  {}

  lemma TalliesOf(d: Dag, tt: TimeTable, e: Hash, counts: CountMap, x: Hash)
    requires CountsVotes(d, tt, e, counts) && x in counts
    ensures Tallies(counts[x], Votes(tt, Table(d, e), x))
  {
    var votes := Votes(tt, Table(d, e), x);
    forall t {:trigger Voting(votes, t)}
      ensures (if t in counts[x] then counts[x][t] else 0) == |Voting(votes, t)|
    {
      RecordersVote(tt, Table(d, e), x, t);
      assert TimeCount(counts, x, t) == |Recorders(tt, Table(d, e), x, t)|;
    }
  }

  /** A clotho that is not counted has no votes. */
  lemma NotCounted(d: Dag, tt: TimeTable, e: Hash, counts: CountMap, x: Hash)
    requires CountsVotes(d, tt, e, counts) && x !in counts
    ensures Votes(tt, Table(d, e), x) == map[]
  {
    var votes := Votes(tt, Table(d, e), x);
    forall t ensures Voting(votes, t) == {} {
      RecordersVote(tt, Table(d, e), x, t);
      assert TimeCount(counts, x, t) == |Recorders(tt, Table(d, e), x, t)|;
    }
    assert forall p :: p in votes ==> p in Voting(votes, votes[p]);
  }

  lemma NotedAdd(tt: TimeTable, e: Hash, x: Hash, t: nat)
    ensures NotedAs(tt, tt[e := Times(tt, e)[x := t]], e, x, Some(t))
  {}

  lemma RecordStep(d: Dag, marks0: map<Hash, Marks>, before: map<Hash, Marks>, e: Hash, tt0: TimeTable, tt: TimeTable,
                   tt': TimeTable, counts: CountMap, todo: set<Hash>, sure: set<Hash>, x: Hash)
    requires x in todo && x in counts && Selected(d, marks0, e, counts, todo, sure) && Confirmed(marks0, before, sure)
    requires RecordedSoFar(d, marks0, e, tt0, tt, counts, todo)
    requires NotedAs(tt, tt', e, x, Afterwards(d, before, e, x, Votes(tt0, Table(d, e), x), Record(tt, e, x)))
    ensures RecordedSoFar(d, marks0, e, tt0, tt', counts, todo - {x})
  {
    assert x !in sure;
    assert x in before ==> before[x].atropos == marks0[x].atropos;
    assert Record(tt, e, x) == Record(tt0, e, x);
    forall y {:trigger Record(tt', e, y)} | y != x ensures Record(tt', e, y) == Record(tt, e, y) {}
    forall p, y {:trigger Record(tt', p, y)} | p != e ensures Record(tt', p, y) == Record(tt0, p, y) {
      assert Record(tt', p, y) == Record(tt, p, y);
    }
  }

  lemma AllRecorded(d: Dag, marks: map<Hash, Marks>, e: Hash, tt: TimeTable, tt': TimeTable, counts: CountMap)
    requires RecordedSoFar(d, marks, e, tt, tt', counts, {}) && CountsVotes(d, tt, e, counts)
    ensures SelectionRecorded(d, marks, e, tt, tt')
  {
    forall y {:trigger Record(tt', e, y)}
      ensures Record(tt', e, y) == Afterwards(d, marks, e, y, Votes(tt, Table(d, e), y), Record(tt, e, y))
    {
      if y !in counts { NotCounted(d, tt, e, counts, y); }
    }
  }

  /** A final timestamp stays as it is and flags are not withdrawn. */
  predicate Kept(a: Marks, b: Marks) {
    && (a.atroposTimestamp != 0 ==> b.atroposTimestamp == a.atroposTimestamp)
    && (a.clotho ==> b.clotho) && (a.atropos ==> b.atropos)
  }

  ghost predicate AllKept(a: map<Hash, Marks>, b: map<Hash, Marks>) {
    forall h {:trigger h in a} :: h in a ==> h in b && Kept(a[h], b[h])
  }

  lemma KeptThrough(a: map<Hash, Marks>, b: map<Hash, Marks>, c: map<Hash, Marks>)
    requires AllKept(a, b) && AllKept(b, c)
    ensures AllKept(a, c)
  {
    forall h | h in a ensures h in c && Kept(a[h], c[h]) { assert h in b && Kept(a[h], b[h]); }
  }

  lemma ConfirmedKept(a: map<Hash, Marks>, b: map<Hash, Marks>, s: set<Hash>)
    requires Confirmed(a, b, s)
    ensures AllKept(a, b)
  {
    forall h | h in a ensures h in b && Kept(a[h], b[h]) { assert h in b; }
  }

  lemma MarkedKept(a: map<Hash, Marks>, s: set<Hash>)
    ensures AllKept(a, MarkClothos(a, s))
  {}

  /** Writing a confirmed clotho back after the walk over its ancestors. */
  lemma ConfirmWrite(d: Dag, old_: map<Hash, Marks>, marks: map<Hash, Marks>, early: set<Hash>, consensus: seq<Hash>,
                     x: Hash, m: Marks)
    requires Inv(d) && MarksOk(d, marks) && ListOk(d, marks, early, consensus) && x in d.events && !IsLeaf(d.events[x])
    requires ParentsAssigned(d, marks, x) && OnlyWithin(d, old_, marks, Anc(d, x) - {x}, d.events[x].frame)
    requires m.atropos && m.clotho == old_[x].clotho && m.atroposTimestamp == FinalTime(d, x)
    requires m.frameReceived == d.events[x].frame != 0
    requires early == if Assigned(old_, x) then {} else {x}
    requires Assigned(old_, x) ==> old_[x].atroposTimestamp == FinalTime(d, x)
    ensures MarksOk(d, marks[x := m]) && ListOk(d, marks[x := m], {}, consensus)
    ensures Waiting(d, marks[x := m], {}) == Waiting(d, marks, early)
    ensures Confirmed(old_, marks[x := m], {x})
  {
    FinalTimePositive(d, x);
    AssignOne(d, marks, x, m);
    if early == {} {
      RewriteOne(d, marks, {}, consensus, x, m);
    } else {
      assert {} + {x} == early;
      SettleOne(d, marks, {}, consensus, x, m);
    }
  }
}

/** The times that roots record for clothos, and how a vote over them is decided. */
module TimeVotes {
  import opened Wrappers
  import opened EventDag

  type TimeTable = map<Hash, map<Hash, nat>>

  /** `GetTimeTable`: a root without a table has recorded nothing. */
  function Times(tt: TimeTable, h: Hash): map<Hash, nat> {
    if h in tt then tt[h] else map[]
  }

  /** For each clotho, how many previous roots recorded each time. */
  type CountMap = m: map<Hash, map<nat, nat>> | forall x :: x in m ==> Counts(m[x]) witness map[]

  predicate Counts(c: map<nat, nat>) {
    c != map[] && forall t :: t in c ==> c[t] > 0
  }

  function TimeCount(m: CountMap, x: Hash, t: nat): nat {
    if x in m && t in m[x] then m[x][t] else 0
  }

  /** Previous roots among `ps` that recorded time `t` for `x`. */
  ghost function Recorders(tt: TimeTable, ps: set<Hash>, x: Hash, t: nat): set<Hash> {
    set p | p in ps && x in Times(tt, p) && Times(tt, p)[x] == t
  }

  lemma OneMoreRecorder(tt: TimeTable, ps: set<Hash>, p: Hash, x: Hash, t: nat)
    requires p !in ps
    ensures |Recorders(tt, ps + {p}, x, t)| ==
            |Recorders(tt, ps, x, t)| + (if x in Times(tt, p) && Times(tt, p)[x] == t then 1 else 0)
  {
    var more := if x in Times(tt, p) && Times(tt, p)[x] == t then {p} else {};
    assert Recorders(tt, ps + {p}, x, t) == Recorders(tt, ps, x, t) + more;
  }

  lemma NoRecorders(tt: TimeTable, x: Hash, t: nat)
    ensures |Recorders(tt, {}, x, t)| == 0
  {
    assert Recorders(tt, {}, x, t) == {};
  }

  /** `Inc`. */
  method Inc(m: CountMap, x: Hash, t: nat) returns (r: CountMap)
    ensures forall y, u {:trigger TimeCount(r, y, u)} ::
              TimeCount(r, y, u) == TimeCount(m, y, u) + (if y == x && u == t then 1 else 0)
  {
    var c: map<nat, nat>;
    if x in m {
      if t in m[x] {
        c := m[x][t := 1 + m[x][t]];
      } else {
        c := m[x][t := 1];
      }
    } else {
      c := map[t := 1];
    }
    assert t in c;
    r := m[x := c];
  }

  /** `r` is `m` plus one for each recorded time that is no longer to do. */
  ghost predicate AddedSoFar(times: map<Hash, nat>, m: CountMap, r: CountMap, todo: set<Hash>) {
    forall x, t {:trigger TimeCount(r, x, t)} ::
      TimeCount(r, x, t) == TimeCount(m, x, t) + (if x in times && x !in todo && times[x] == t then 1 else 0)
  }

  lemma TimesStep(times: map<Hash, nat>, m: CountMap, before: CountMap, r: CountMap, todo: set<Hash>, y: Hash)
    requires y in todo && y in times && AddedSoFar(times, m, before, todo)
    requires forall x, t {:trigger TimeCount(r, x, t)} ::
               TimeCount(r, x, t) == TimeCount(before, x, t) + (if x == y && t == times[y] then 1 else 0)
    ensures AddedSoFar(times, m, r, todo - {y})
  {}

  /** Add what one previous root recorded. */
  method AddTimes(times: map<Hash, nat>, m: CountMap) returns (r: CountMap)
    ensures forall x, t {:trigger TimeCount(r, x, t)} ::
              TimeCount(r, x, t) == TimeCount(m, x, t) + (if x in times && times[x] == t then 1 else 0)
  {
    r := m;
    var todo := times.Keys;
    while todo != {}
      invariant todo <= times.Keys && AddedSoFar(times, m, r, todo)
      decreases |todo|
    {
      var y :| y in todo;
      ghost var before := r;
      r := Inc(r, y, times[y]);
      TimesStep(times, m, before, r, todo, y);
      todo := todo - {y};
    }
  }

  /** Every time recorded by a member of `table` is counted. */
  method CountTimes(tt: TimeTable, table: set<Hash>) returns (m: CountMap)
    ensures forall x, t {:trigger TimeCount(m, x, t)} :: TimeCount(m, x, t) == |Recorders(tt, table, x, t)|
  {
    m := map[];
    var todo := table;
    ghost var done: set<Hash> := {};
    forall x, t ensures |Recorders(tt, {}, x, t)| == 0 { NoRecorders(tt, x, t); }
    while todo != {}
      invariant todo !! done && todo + done == table
      invariant forall x, t {:trigger TimeCount(m, x, t)} :: TimeCount(m, x, t) == |Recorders(tt, done, x, t)|
      decreases |todo|
    {
      var p :| p in todo;
      ghost var before := m;
      m := AddTimes(Times(tt, p), m);
      forall x, t ensures TimeCount(m, x, t) == |Recorders(tt, done + {p}, x, t)| {
        assert TimeCount(before, x, t) == |Recorders(tt, done, x, t)|;
        OneMoreRecorder(tt, done, p, x, t);
      }
      todo, done := todo - {p}, done + {p};
    }
    assert done == table;
  }

  ghost predicate IsEarliest(c: map<nat, nat>, t: nat) {
    t in c && forall u :: u in c ==> t <= u
  }

  /** The most frequent time, and of equally frequent ones the earliest. */
  ghost predicate IsMajority(c: map<nat, nat>, n: nat, t: nat) {
    t in c && c[t] == n && forall u :: u in c ==> c[u] <= n && (c[u] == n ==> t <= u)
  }

  /** The loop used every fourth frame; the order of the map does not matter. */
  method EarliestTime(c: map<nat, nat>) returns (t: nat)
    requires Counts(c)
    ensures IsEarliest(c, t)
  {
    var maxVal := 0;
    t := 0;
    var todo := c.Keys;
    while todo != {}
      invariant todo <= c.Keys
      invariant maxVal == 0 <==> todo == c.Keys
      invariant maxVal != 0 ==> t in c && forall u :: u in c && u !in todo ==> t <= u
      decreases |todo|
    {
      var u :| u in todo;
      if maxVal == 0 {
        maxVal := c[u];
        t := u;
      } else if u < t {
        t := u;
      }
      todo := todo - {u};
    }
  }

  /** The loop used in the other frames; the order of the map does not matter. */
  method MajorityTime(c: map<nat, nat>) returns (n: nat, t: nat)
    requires Counts(c)
    ensures IsMajority(c, n, t)
  {
    n, t := 0, 0;
    var todo := c.Keys;
    while todo != {}
      invariant todo <= c.Keys
      invariant n == 0 <==> todo == c.Keys
      invariant n != 0 ==> t in c && c[t] == n && forall u :: u in c && u !in todo ==>
                  c[u] <= n && (c[u] == n ==> t <= u)
      decreases |todo|
    {
      var u :| u in todo;
      if n == 0 || c[u] > n {
        n, t := c[u], u;
      } else if c[u] == n && u < t {
        t := u;
      }
      todo := todo - {u};
    }
  }

  /** A quorum of the previous roots agreed on one time for `x`. */
  ghost predicate Agreed(tt: TimeTable, table: set<Hash>, x: Hash, quorum: nat) {
    exists t :: |Recorders(tt, table, x, t)| >= quorum
  }

  // ------------------------------------------------------------------------------------------
  // The vote on one clotho
  // ------------------------------------------------------------------------------------------

  /** The time that `e` has recorded for `x`. */
  ghost function Record(tt: TimeTable, e: Hash, x: Hash): Option<nat> {
    if x in Times(tt, e) then Some(Times(tt, e)[x]) else None
  }

  /** What the roots of `table` have recorded for `x`. */
  ghost function Votes(tt: TimeTable, table: set<Hash>, x: Hash): map<Hash, nat> {
    map p | p in table && x in Times(tt, p) :: Times(tt, p)[x]
  }

  ghost function Voting(votes: map<Hash, nat>, t: nat): set<Hash> {
    set p | p in votes && votes[p] == t
  }

  lemma RecordersVote(tt: TimeTable, table: set<Hash>, x: Hash, t: nat)
    ensures Recorders(tt, table, x, t) == Voting(Votes(tt, table, x), t)
  {}

  ghost predicate Earliest(votes: map<Hash, nat>, t: nat) {
    Voting(votes, t) != {} && forall p :: p in votes ==> t <= votes[p]
  }

  /** Time `t` has more votes than `u`, or as many and is not later. */
  ghost predicate Leads(votes: map<Hash, nat>, t: nat, u: nat) {
    |Voting(votes, u)| < |Voting(votes, t)| || (|Voting(votes, u)| == |Voting(votes, t)| && t <= u)
  }

  /** The time with the most votes, and of several the earliest. */
  ghost predicate Leading(votes: map<Hash, nat>, t: nat) {
    Voting(votes, t) != {} && forall u :: Leads(votes, t, u)
  }

  /** A quorum has voted for one time. */
  ghost predicate Carried(votes: map<Hash, nat>, quorum: nat) {
    exists t :: |Voting(votes, t)| >= quorum
  }

  lemma {:induction false} EarliestAmong(votes: map<Hash, nat>, ps: set<Hash>) returns (t: nat)
    requires ps != {} && ps <= votes.Keys
    ensures Voting(votes, t) != {} && forall p :: p in ps ==> t <= votes[p]
    decreases |ps|
  {
    var q :| q in ps;
    t := votes[q];
    assert q in Voting(votes, t);
    if ps != {q} {
      var u := EarliestAmong(votes, ps - {q});
      if u < t { t := u; }
    }
  }

  lemma EarliestExists(votes: map<Hash, nat>)
    requires votes != map[]
    ensures exists t :: Earliest(votes, t)
  {
    var t := EarliestAmong(votes, votes.Keys);
    assert Earliest(votes, t);
  }

  lemma {:induction false} LeadingAmong(votes: map<Hash, nat>, ps: set<Hash>) returns (t: nat)
    requires ps != {} && ps <= votes.Keys
    ensures Voting(votes, t) != {} && forall p :: p in ps ==> Leads(votes, t, votes[p])
    decreases |ps|
  {
    var q :| q in ps;
    t := votes[q];
    assert q in Voting(votes, t);
    if ps != {q} {
      var u := LeadingAmong(votes, ps - {q});
      if Leads(votes, u, t) { t := u; }
    }
  }

  lemma LeadingExists(votes: map<Hash, nat>)
    requires votes != map[]
    ensures exists t :: Leading(votes, t)
  {
    var t := LeadingAmong(votes, votes.Keys);
    forall u ensures Leads(votes, t, u) {
      if Voting(votes, u) != {} {
        var p :| p in Voting(votes, u);
        assert votes[p] == u;
      }
    }
    assert Leading(votes, t);
  }

  ghost function EarliestOf(votes: map<Hash, nat>): (t: nat)
    requires votes != map[]
    ensures Earliest(votes, t)
  {
    EarliestExists(votes);
    var t :| Earliest(votes, t);
    t
  }

  ghost function LeadingOf(votes: map<Hash, nat>): (t: nat)
    requires votes != map[]
    ensures Leading(votes, t)
  {
    LeadingExists(votes);
    var t :| Leading(votes, t);
    t
  }

  /** What a root records for a clotho that is not confirmed: nothing new when it confirms it. */
  ghost function Chosen(votes: map<Hash, nat>, fourth: bool, quorum: nat, base: Option<nat>): Option<nat> {
    if votes == map[] then base
    else if fourth then Some(EarliestOf(votes))
    else if Carried(votes, quorum) then base
    else Some(LeadingOf(votes))
  }

  /** `c` counts these votes. */
  ghost predicate Tallies(c: map<nat, nat>, votes: map<Hash, nat>) {
    forall t {:trigger Voting(votes, t)} :: (if t in c then c[t] else 0) == |Voting(votes, t)|
  }

  lemma EarliestIs(c: map<nat, nat>, votes: map<Hash, nat>, t: nat)
    requires Counts(c) && Tallies(c, votes) && IsEarliest(c, t)
    ensures votes != map[] && t == EarliestOf(votes)
  {
    assert |Voting(votes, t)| > 0;
    var p :| p in Voting(votes, t);
    assert p in votes;
    var u := EarliestOf(votes);
    assert |Voting(votes, u)| > 0;
    assert u in c;
  }

  lemma LeadingIs(c: map<nat, nat>, votes: map<Hash, nat>, n: nat, t: nat, quorum: nat)
    requires Counts(c) && Tallies(c, votes) && IsMajority(c, n, t) && quorum >= 1
    ensures votes != map[] && t == LeadingOf(votes) && (n >= quorum <==> Carried(votes, quorum))
  {
    assert |Voting(votes, t)| == n > 0;
    var p :| p in Voting(votes, t);
    assert p in votes;
    var u := LeadingOf(votes);
    assert |Voting(votes, u)| > 0 && Leads(votes, u, t);
    assert u in c;
    if Carried(votes, quorum) {
      var v :| |Voting(votes, v)| >= quorum;
      assert v in c;
    }
  }
}

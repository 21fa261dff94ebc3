/** Clotho counting: what makes a registered root a clotho when a new root arrives. */
module ClothoCount {
  import opened EventDag
  import opened Finality
  import opened TimeVotes

  /** `q`'s root table lists the registered root `k`. */
  predicate Lists(d: Dag, q: Hash, k: (int, Hash)) {
    k in d.registered && k.1 in Lookup(d, q).rootTable && Lookup(d, q).rootTable[k.1] == k.0
  }

  /** Registered roots in `p`'s root table, among `qs`, that list `k`. */
  ghost function VotersAmong(d: Dag, p: Hash, qs: set<Hash>, k: (int, Hash)): set<Hash> {
    set q | q in qs && q in Lookup(d, p).rootTable && (Lookup(d, p).rootTable[q], q) in d.registered && Lists(d, q, k)
  }

  ghost function Voters(d: Dag, p: Hash, k: (int, Hash)): set<Hash> {
    VotersAmong(d, p, Lookup(d, p).rootTable.Keys, k)
  }

  /** `p` is a registered root listed in the new root's root table. */
  predicate Previous(d: Dag, e: Hash, p: Hash) {
    p in Lookup(d, e).rootTable && (Lookup(d, e).rootTable[p], p) in d.registered
  }

  /** Some registered root in the new root's table sees a quorum of registered roots that list `k`. */
  ghost predicate BecomesClotho(d: Dag, e: Hash, k: (int, Hash)) {
    exists p :: Previous(d, e, p) && |Voters(d, p, k)| >= d.quorum
  }

  type Tally = t: map<(int, Hash), nat> | forall k :: k in t ==> t[k] > 0 witness map[]

  function Count(t: Tally, k: (int, Hash)): nat {
    if k in t then t[k] else 0
  }

  /** `sum` is `tally` plus one for each registered root that `q` lists and that is no longer to do. */
  ghost predicate VotedSoFar(d: Dag, q: Hash, tally: Tally, sum: Tally, todo: set<Hash>) {
    forall k {:trigger Count(sum, k)} ::
      Count(sum, k) == Count(tally, k) + (if Lists(d, q, k) && k.1 !in todo then 1 else 0)
  }

  lemma OneVote(d: Dag, q: Hash, tally: Tally, before: Tally, sum: Tally, todo: set<Hash>, x: Hash)
    requires x in todo && x in Lookup(d, q).rootTable && VotedSoFar(d, q, tally, before, todo)
    requires var key := (Lookup(d, q).rootTable[x], x);
             forall k {:trigger Count(sum, k)} ::
               Count(sum, k) == Count(before, k) + (if k == key && key in d.registered then 1 else 0)
    ensures VotedSoFar(d, q, tally, sum, todo - {x})
  {
    var key := (Lookup(d, q).rootTable[x], x);
    forall k {:trigger Count(sum, k)}
      ensures Count(sum, k) == Count(tally, k) + (if Lists(d, q, k) && k.1 !in todo - {x} then 1 else 0)
    {
      assert Count(before, k) == Count(tally, k) + (if Lists(d, q, k) && k.1 !in todo then 1 else 0);
      assert k.1 == x ==> (Lists(d, q, k) <==> k == key && key in d.registered);
    }
  }

  method AddOne(tally: Tally, key: (int, Hash)) returns (sum: Tally)
    ensures forall k {:trigger Count(sum, k)} :: Count(sum, k) == Count(tally, k) + (if k == key then 1 else 0)
  {
    sum := tally[key := Count(tally, key) + 1];
  }

  /** `best` is, entry by entry, the largest count over the previous roots `ps`. */
  ghost predicate Best(d: Dag, e: Hash, ps: set<Hash>, best: Tally) {
    forall k {:trigger Count(best, k)} ::
      && (forall p :: p in ps && Previous(d, e, p) ==> |Voters(d, p, k)| <= Count(best, k))
      && (Count(best, k) > 0 ==> exists p :: p in ps && Previous(d, e, p) && |Voters(d, p, k)| == Count(best, k))
  }

  lemma BestDecides(d: Dag, e: Hash, best: Tally, k: (int, Hash))
    requires d.quorum >= 1 && Best(d, e, Lookup(d, e).rootTable.Keys, best)
    ensures BecomesClotho(d, e, k) <==> Count(best, k) >= d.quorum
  {}

  /** Every counted key is a registered root under its own frame. */
  lemma ListedAreRoots(d: Dag, e: Hash, best: Tally)
    requires Inv(d) && Best(d, e, Lookup(d, e).rootTable.Keys, best)
    ensures forall k :: k in best ==> k in d.registered && k.1 in d.events && d.events[k.1].frame == k.0
  {
    forall k | k in best
      ensures k in d.registered && k.1 in d.events && d.events[k.1].frame == k.0
    {
      assert Count(best, k) > 0;
      var p :| Previous(d, e, p) && |Voters(d, p, k)| == Count(best, k);
      assert Voters(d, p, k) != {};
      var q :| q in Voters(d, p, k);
      assert (k.0, k.1) in d.registered;
    }
  }

  /** Events counted often enough whose entry is no longer to do. */
  ghost function Reached(d: Dag, best: Tally, todo: set<(int, Hash)>): set<Hash> {
    set x | x in d.events && Enough(d, best, todo, (d.events[x].frame, x))
  }

  predicate Enough(d: Dag, best: Tally, todo: set<(int, Hash)>, k: (int, Hash)) {
    k in best && best[k] >= d.quorum && k !in todo
  }

  lemma ReachedStep(d: Dag, best: Tally, todo: set<(int, Hash)>, k: (int, Hash))
    requires k in todo && k in best && k.1 in d.events && d.events[k.1].frame == k.0
    ensures Reached(d, best, todo - {k}) == Reached(d, best, todo) + (if best[k] >= d.quorum then {k.1} else {})
  {
    forall x | x in d.events
      ensures Enough(d, best, todo - {k}, (d.events[x].frame, x)) <==>
              Enough(d, best, todo, (d.events[x].frame, x)) || (x == k.1 && best[k] >= d.quorum)
    {
      if x == k.1 { assert (d.events[x].frame, x) == k; }
    }
  }

  /** The roots that the arrival of root `e` makes clothos. */
  ghost function NewClothos(d: Dag, e: Hash): set<Hash> {
    set x | x in d.events && BecomesClotho(d, e, (d.events[x].frame, x))
  }

  lemma AllReached(d: Dag, e: Hash, best: Tally)
    requires d.quorum >= 1 && Best(d, e, Lookup(d, e).rootTable.Keys, best)
    ensures Reached(d, best, {}) == NewClothos(d, e)
  {
    forall x | x in d.events
      ensures Enough(d, best, {}, (d.events[x].frame, x)) <==> BecomesClotho(d, e, (d.events[x].frame, x))
    {
      BestDecides(d, e, best, (d.events[x].frame, x));
    }
  }

  /** `h`'s root table has `x` under the frame in which `x` is registered as a root. */
  predicate ListsRoot(d: Dag, h: Hash, x: Hash) {
    x in Lookup(d, h).rootTable && (Lookup(d, h).rootTable[x], x) in d.registered
  }

  /** The roots that `p` lists and that list `x` under its own frame. */
  ghost function Supporters(d: Dag, p: Hash, x: Hash): set<Hash> {
    set q | q in Lookup(d, p).rootTable && ListsRoot(d, p, q) && ListsRoot(d, q, x)
            && Lookup(d, q).rootTable[x] == Lookup(d, x).frame
  }

  /** Exactly those are clothos that were before, or that a root listed by `e` sees a quorum of roots list. */
  ghost predicate MarksSupported(d: Dag, old_: map<Hash, Marks>, new_: map<Hash, Marks>, e: Hash) {
    && old_.Keys == new_.Keys
    && forall x {:trigger new_[x]} :: x in old_ && x in d.events ==>
         (new_[x].clotho <==> old_[x].clotho || exists p :: ListsRoot(d, e, p) && |Supporters(d, p, x)| >= d.quorum)
  }

  lemma ClothosSpelledOut(d: Dag, marks: map<Hash, Marks>, e: Hash)
    ensures MarksSupported(d, marks, MarkClothos(marks, NewClothos(d, e)), e)
  {
    var new_ := MarkClothos(marks, NewClothos(d, e));
    forall x {:trigger new_[x]} | x in marks && x in d.events
      ensures new_[x].clotho <==> marks[x].clotho || exists p :: ListsRoot(d, e, p) && |Supporters(d, p, x)| >= d.quorum
    {
      var k := (d.events[x].frame, x);
      forall p ensures Voters(d, p, k) == Supporters(d, p, x) { VotersSupport(d, p, x); }
      if p :| ListsRoot(d, e, p) && |Supporters(d, p, x)| >= d.quorum { assert Previous(d, e, p); }
      if p :| Previous(d, e, p) && |Voters(d, p, k)| >= d.quorum { assert ListsRoot(d, e, p); }
    }
  }

  lemma VotersSupport(d: Dag, p: Hash, x: Hash)
    requires x in d.events
    ensures Voters(d, p, (d.events[x].frame, x)) == Supporters(d, p, x)
  {
    var k := (d.events[x].frame, x);
    forall q ensures q in Voters(d, p, k) <==> q in Supporters(d, p, x) {}
  }

  ghost function MarkClothos(marks: map<Hash, Marks>, s: set<Hash>): map<Hash, Marks> {
    map x | x in marks :: if x in s then marks[x].(clotho := true) else marks[x]
  }

  /** `e` records time `t` for all of `s`. */
  ghost function RecordTimes(tt: TimeTable, e: Hash, s: set<Hash>, t: nat): TimeTable {
    if s == {} then tt else tt[e := Times(tt, e) + (map x | x in s :: t)]
  }

  lemma NothingMarked(d: Dag, marks: map<Hash, Marks>, best: Tally)
    ensures Reached(d, best, best.Keys) == {}
    ensures MarkClothos(marks, {}) == marks
  {}

  /** Clotho marks do not touch finality. */
  lemma ClothosKeep(d: Dag, marks: map<Hash, Marks>, s: set<Hash>, consensus: seq<Hash>)
    requires MarksOk(d, marks) && ListOk(d, marks, {}, consensus)
    ensures MarksOk(d, MarkClothos(marks, s)) && ListOk(d, MarkClothos(marks, s), {}, consensus)
    ensures Waiting(d, MarkClothos(marks, s), {}) == Waiting(d, marks, {})
  {
    var marks' := MarkClothos(marks, s);
    assert marks'.Keys == marks.Keys;
    forall x ensures Assigned(marks', x) == Assigned(marks, x) && Received(marks', x) == Received(marks, x) {}
    forall x | x in d.events ensures MarkOk(d, marks', x) { assert MarkOk(d, marks, x); }
    forall x ensures Counted(d, marks', {}, x) <==> Counted(d, marks, {}, x) {}
  }

  lemma MarkOneMore(marks: map<Hash, Marks>, tt: TimeTable, e: Hash, s: set<Hash>, x: Hash, t: nat)
    requires x in marks
    ensures var m := MarkClothos(marks, s);
            MarkClothos(marks, s + {x}) == m[x := m[x].(clotho := true)]
                && (m[x].clotho ==> m == m[x := m[x].(clotho := true)])
    ensures var r := RecordTimes(tt, e, s, t);
            RecordTimes(tt, e, s + {x}, t) == r[e := Times(r, e)[x := t]]
  {
    var r := RecordTimes(tt, e, s, t);
    assert Times(tt, e) + (map y | y in s + {x} :: t) == Times(r, e)[x := t];
  }

  lemma OneMoreVoter(d: Dag, p: Hash, qs: set<Hash>, q: Hash, k: (int, Hash))
    requires q !in qs && q in Lookup(d, p).rootTable
    ensures |VotersAmong(d, p, qs + {q}, k)| == |VotersAmong(d, p, qs, k)|
              + (if (Lookup(d, p).rootTable[q], q) in d.registered && Lists(d, q, k) then 1 else 0)
  {
    if (Lookup(d, p).rootTable[q], q) in d.registered && Lists(d, q, k) {
      assert VotersAmong(d, p, qs + {q}, k) == VotersAmong(d, p, qs, k) + {q};
    } else {
      assert VotersAmong(d, p, qs + {q}, k) == VotersAmong(d, p, qs, k);
    }
  }

  lemma BestSkip(d: Dag, e: Hash, ps: set<Hash>, p: Hash, best: Tally)
    requires Best(d, e, ps, best) && !Previous(d, e, p)
    ensures Best(d, e, ps + {p}, best)
  {
    forall k | Count(best, k) > 0
      ensures exists x :: x in ps + {p} && Previous(d, e, x) && |Voters(d, x, k)| == Count(best, k)
    {
      var x :| x in ps && Previous(d, e, x) && |Voters(d, x, k)| == Count(best, k);
      assert x in ps + {p};
    }
  }

  lemma BestStep(d: Dag, e: Hash, ps: set<Hash>, p: Hash, best: Tally, votes: Tally, best': Tally)
    requires Best(d, e, ps, best) && Previous(d, e, p)
    requires forall k {:trigger Count(votes, k)} :: Count(votes, k) == |Voters(d, p, k)|
    requires forall k {:trigger Count(best', k)} ::
               Count(best', k) == if Count(votes, k) > Count(best, k) then Count(votes, k) else Count(best, k)
    ensures Best(d, e, ps + {p}, best')
  {
    forall k
      ensures forall x :: x in ps + {p} && Previous(d, e, x) ==> |Voters(d, x, k)| <= Count(best', k)
      ensures Count(best', k) > 0 ==>
                exists x :: x in ps + {p} && Previous(d, e, x) && |Voters(d, x, k)| == Count(best', k)
    {
      if Count(votes, k) > Count(best, k) {
        assert p in ps + {p} && |Voters(d, p, k)| == Count(best', k);
      } else if Count(best, k) > 0 {
        var x :| x in ps && Previous(d, e, x) && |Voters(d, x, k)| == Count(best, k);
        assert x in ps + {p};
      }
    }
  }
}

/**
 The node's consensus state and the methods that change it: `InsertEvent`, the clotho count, the vote on
 clotho times and the walk that gives final timestamps to a confirmed clotho's ancestors
 (src/poset/poset.go, src/poset/event.go).

 An event record is kept in two maps: `events` holds what insertion fixes, `marks` what finality adds
 later. Loops over Go maps take their keys in any order.
 */
module Posets {
  import opened Wrappers
  import opened EventDag
  import opened DagInvariant
  import opened DagReachability
  import opened Finality
  import opened ClothoCount
  import opened TimeVotes
  import opened AtroposVote
  import opened ClothoOrder
  import opened AtroposOrder

  class Poset {
    const quorum: nat
    var events: map<Hash, Event>
    var marks: map<Hash, Marks>
    var chains: map<Creator, seq<Hash>>
    var creatorRoots: map<(int, Creator), Hash>
    var registered: set<(int, Hash)>
    var next: nat
    var timeTable: TimeTable
    var consensus: seq<Hash>
    var pendingLoaded: int

    function AsDag(): Dag
      reads this`events, this`chains, this`creatorRoots, this`registered, this`next
    {
      Dag(quorum, events, chains, creatorRoots, registered, next)
    }

    /** Everything but the number of loaded events that wait for a final timestamp. */
    ghost predicate ValidFor(early: set<Hash>)
      reads this`events, this`chains, this`creatorRoots, this`registered, this`next, this`marks, this`consensus
    {
      Inv(AsDag()) && MarksOk(AsDag(), marks) && ListOk(AsDag(), marks, early, consensus)
    }

    /** Between two walks: what is final is below a confirmed event. */
    ghost predicate Settled()
      reads this`events, this`chains, this`creatorRoots, this`registered, this`next, this`marks, this`consensus
    {
      ValidFor({}) && FinalBelow(AsDag(), marks)
    }

    /** Clothos and confirmed clothos are those that the DAG makes so. */
    ghost predicate Sound()
      reads this`events, this`chains, this`creatorRoots, this`registered, this`next, this`marks, this`consensus,
          this`timeTable
    {
      Settled() && ClothosExact(AsDag(), marks) && AtroposExact(AsDag(), marks, timeTable)
    }

    ghost predicate Valid()
      reads this
    {
      Sound() && pendingLoaded == |Waiting(AsDag(), marks, {})|
    }

    /** What a valid state says of consensus. */
    lemma ValidIsExact()
      requires Valid()
      ensures Exact(AsDag(), marks, timeTable)
    {}

    /** `NewCore`: one leaf event for each participant, final from the start. */
    constructor (leaves: seq<Leaf>, quorum_: nat)
      requires GenesisOk(leaves, quorum_)
      ensures AsDag() == Genesis(leaves, quorum_) && Valid() && consensus == [] && timeTable == map[]
    {
      quorum := quorum_;
      events, marks, chains, creatorRoots, registered, next := map[], map[], map[], map[], {}, 0;
      timeTable, consensus, pendingLoaded := map[], [], 0;
      new;
      for c := 0 to |leaves|
        invariant AsDag() == Genesis(leaves[..c], quorum_)
        invariant marks.Keys == events.Keys && LeafMarks(AsDag(), marks)
        invariant timeTable == map[] && consensus == [] && pendingLoaded == 0
      {
        assert leaves[..c + 1][..c] == leaves[..c];
        var h := leaves[c].hash;
        events := events[h := LeafEvent(c, leaves[c])];
        chains := chains[c := [h]];
        marks := marks[h := Marks(true, true, leaves[c].lamport, 0)];
        next := next + 1;
      }
      assert leaves[..|leaves|] == leaves;
      GenesisInv(leaves, quorum_);
      LeavesAreFinal(leaves, quorum_, marks);
      LeavesExact(leaves, quorum_, marks);
      StartExact(leaves, quorum_, marks);
    }

    /** `accountEvent`: list the event, and no longer wait for it if it is loaded. */
    method AccountEvent(h: Hash, ghost early: set<Hash>)
      requires ValidFor(early) && h in events && !IsLeaf(events[h]) && !Assigned(marks, h) && h !in early
      modifies this`consensus, this`pendingLoaded
      ensures ValidFor(early + {h}) && consensus == old(consensus) + [h]
      ensures pendingLoaded - |Waiting(AsDag(), marks, early + {h})| ==
                old(pendingLoaded - |Waiting(AsDag(), marks, early)|)
    {
      ListOne(AsDag(), marks, early, consensus, h);
      if events[h].msg.loaded {
        pendingLoaded := pendingLoaded - 1;
      }
      consensus := consensus + [h];
    }

    /**
     `AssignAtroposTime2`: give every strict ancestor of `h` its final timestamp and, where it has none, the received
     frame, and return `h`'s own timestamp. Each is listed once; nothing else is touched.
     */
    method AssignAtroposTime(h: Hash, frame: int, ghost early: set<Hash>) returns (t: nat)
      requires ValidFor(early) && h in events && frame != 0
      requires forall x :: x in early ==> x in events && events[x].topo >= events[h].topo
      modifies this`marks, this`consensus, this`pendingLoaded
      ensures ValidFor(early) && ParentsAssigned(AsDag(), marks, h) && t == FinalTime(AsDag(), h)
      ensures var o := events[h].msg.otherParent; t == if o in events then events[o].lamport else events[h].lamport
      ensures OnlyWithin(AsDag(), old(marks), marks, Anc(AsDag(), h) - {h}, frame)
      ensures ReceivedUnder(AsDag(), old(marks), marks, h, frame)
      ensures old(consensus) <= consensus
      ensures pendingLoaded - |Waiting(AsDag(), marks, early)| == old(pendingLoaded - |Waiting(AsDag(), marks, early)|)
      decreases events[h].topo, 0
    {
      assert EventClosed(AsDag(), h);
      var m := events[h].msg;
      ghost var below := Anc(AsDag(), h) - {h};
      if m.selfParent in events {
        ParentsBelow(AsDag(), h, m.selfParent);
        VisitParent(m.selfParent, frame, early);
      }
      ghost var between := marks;
      if m.otherParent in events {
        ParentsBelow(AsDag(), h, m.otherParent);
        VisitParent(m.otherParent, frame, early);
        t := events[m.otherParent].lamport;
      } else {
        t := events[h].lamport;
      }
      WithinTwice(AsDag(), old(marks), between, marks, below, below, below, frame);
      WalkReceives(AsDag(), old(marks), marks, h, frame);
    }

    /** The half of the walk that handles one parent. */
    method VisitParent(p: Hash, frame: int, ghost early: set<Hash>)
      requires ValidFor(early) && p in events && frame != 0
      requires forall x :: x in early ==> x in events && events[x].topo > events[p].topo
      modifies this`marks, this`consensus, this`pendingLoaded
      ensures ValidFor(early) && Assigned(marks, p) && Received(marks, p)
      ensures OnlyWithin(AsDag(), old(marks), marks, Anc(AsDag(), p), frame)
      ensures old(consensus) <= consensus
      ensures pendingLoaded - |Waiting(AsDag(), marks, early)| == old(pendingLoaded - |Waiting(AsDag(), marks, early)|)
      decreases events[p].topo, 1
    {
      var follow, m := false, marks[p];
      ghost var d := AsDag();
      if m.frameReceived == 0 {
        m := m.(frameReceived := frame);
        follow := true;
      }
      if m.atroposTimestamp == 0 {
        assert MarkOk(d, marks, p);
        var t := AssignAtroposTime(p, frame, early);
        m := m.(atroposTimestamp := t);
        follow := true;
        AccountEvent(p, early);
        FinalTimePositive(d, p);
        AssignOne(d, marks, p, m);
        SettleOne(d, marks, early, consensus, p, m);
      } else {
        assert MarkOk(d, marks, p);
        TouchOne(d, marks, p, m, early, consensus);
      }
      WriteBack(d, old(marks), marks, Anc(d, p), p, m, frame);
      if follow {
        marks := marks[p := m];
      }
    }

    // ----------------------------------------------------------------------------------------
    // Clotho counting
    // ----------------------------------------------------------------------------------------

    /** One vote for every registered root that `q` lists. */
    method AddVotes(q: Hash, tally: Tally) returns (sum: Tally)
      ensures forall k {:trigger Count(sum, k)} ::
                Count(sum, k) == Count(tally, k) + (if Lists(AsDag(), q, k) then 1 else 0)
    {
      sum := tally;
      ghost var d := AsDag();
      var table := Lookup(AsDag(), q).rootTable;
      var todo := table.Keys;
      assert forall k :: Lists(d, q, k) ==> k.1 in todo;
      while todo != {}
        invariant todo <= table.Keys && VotedSoFar(d, q, tally, sum, todo)
        decreases |todo|
      {
        var x :| x in todo;
        ghost var before := sum;
        if (table[x], x) in registered {
          sum := AddOne(sum, (table[x], x));
        }
        OneVote(d, q, tally, before, sum, todo, x);
        todo := todo - {x};
      }
    }

    method CountVotes(p: Hash) returns (tally: Tally)
      ensures forall k {:trigger Count(tally, k)} :: Count(tally, k) == |Voters(AsDag(), p, k)|
    {
      tally := map[];
      ghost var d := AsDag();
      var table := Lookup(AsDag(), p).rootTable;
      var todo := table.Keys;
      assert table.Keys - todo == {};
      forall k ensures |VotersAmong(d, p, {}, k)| == 0 { assert VotersAmong(d, p, {}, k) == {}; }
      while todo != {}
        invariant todo <= table.Keys
        invariant forall k {:trigger Count(tally, k)} :: Count(tally, k) == |VotersAmong(d, p, table.Keys - todo, k)|
        decreases |todo|
      {
        var q :| q in todo;
        ghost var before, done := tally, table.Keys - todo;
        assert table.Keys - (todo - {q}) == done + {q};
        forall k
          ensures |VotersAmong(d, p, done + {q}, k)| == Count(before, k)
                    + (if (table[q], q) in registered && Lists(d, q, k) then 1 else 0)
        {
          OneMoreVoter(d, p, done, q, k);
        }
        if (table[q], q) in registered {
          tally := AddVotes(q, tally);
        }
        todo := todo - {q};
      }
      assert table.Keys - {} == table.Keys;
    }

    /** `updateCcList` over a whole count: keep the larger value of each entry. */
    method KeepLarger(best: Tally, votes: Tally) returns (r: Tally)
      ensures forall k {:trigger Count(r, k)} ::
                Count(r, k) == if Count(votes, k) > Count(best, k) then Count(votes, k) else Count(best, k)
    {
      r := best;
      var todo := votes.Keys;
      while todo != {}
        invariant todo <= votes.Keys
        invariant forall k {:trigger Count(r, k)} ::
                    Count(r, k) == if k !in todo && Count(votes, k) > Count(best, k) then Count(votes, k)
                        else Count(best, k)
        decreases |todo|
      {
        var k :| k in todo;
        ghost var before := r;
        if Count(r, k) < votes[k] {
          r := r[k := votes[k]];
        }
        forall x | x != k ensures Count(r, x) == Count(before, x) {}
        todo := todo - {k};
      }
    }

    method BestCounts(e: Hash) returns (best: Tally)
      ensures Best(AsDag(), e, Lookup(AsDag(), e).rootTable.Keys, best)
    {
      best := map[];
      ghost var d := AsDag();
      var table := Lookup(AsDag(), e).rootTable;
      var todo := table.Keys;
      ghost var done: set<Hash> := {};
      while todo != {}
        invariant todo !! done && todo + done == table.Keys
        invariant Best(d, e, done, best)
        decreases |todo|
      {
        var p :| p in todo;
        if (table[p], p) in registered {
          var votes := CountVotes(p);
          var best' := KeepLarger(best, votes);
          BestStep(d, e, done, p, best, votes, best');
          best := best';
        } else {
          BestSkip(d, e, done, p, best);
        }
        todo, done := todo - {p}, done + {p};
      }
      assert done == table.Keys;
    }

    /** `AddTimeTable`. */
    method AddTime(to: Hash, from: Hash, t: nat)
      modifies this`timeTable
      ensures timeTable == old(timeTable)[to := Times(old(timeTable), to)[from := t]]
    {
      timeTable := timeTable[to := Times(timeTable, to)[from := t]];
    }

    /**
     `ClothoChecking`: mark as clotho exactly the registered roots with a quorum of support behind one
     previous root, and record the new root's time for each of them. No mark is withdrawn.
     */
    method ClothoChecking(e: Hash)
      requires Inv(AsDag()) && marks.Keys == events.Keys && e in events
      modifies this`marks, this`timeTable
      ensures marks == MarkClothos(old(marks), NewClothos(AsDag(), e))
      ensures MarksSupported(AsDag(), old(marks), marks, e)
      ensures timeTable == RecordTimes(old(timeTable), e, NewClothos(AsDag(), e), events[e].lamport)
    {
      var best := BestCounts(e);
      ListedAreRoots(AsDag(), e, best);
      MarkBest(e, best);
      AllReached(AsDag(), e, best);
      ClothosSpelledOut(AsDag(), old(marks), e);
    }

    method MarkOne(e: Hash, x: Hash, ghost marks0: map<Hash, Marks>, ghost tt0: TimeTable, ghost s: set<Hash>)
      requires e in events && x in marks && x in marks0
      requires marks == MarkClothos(marks0, s) && timeTable == RecordTimes(tt0, e, s, events[e].lamport)
      modifies this`marks, this`timeTable
      ensures marks == MarkClothos(marks0, s + {x}) && timeTable == RecordTimes(tt0, e, s + {x}, events[e].lamport)
    {
      MarkOneMore(marks0, tt0, e, s, x, events[e].lamport);
      if !marks[x].clotho {
        marks := marks[x := marks[x].(clotho := true)];
      }
      AddTime(e, x, events[e].lamport);
    }

    /** Its last loop: mark and record every entry that reached the quorum. */
    method MarkBest(e: Hash, best: Tally)
      requires e in events
      requires forall k :: k in best ==> k.1 in events && k.1 in marks && events[k.1].frame == k.0
      modifies this`marks, this`timeTable
      ensures marks == MarkClothos(old(marks), Reached(AsDag(), best, {}))
      ensures timeTable == RecordTimes(old(timeTable), e, Reached(AsDag(), best, {}), events[e].lamport)
    {
      ghost var d, marks0, tt0 := AsDag(), marks, timeTable;
      var todo := best.Keys;
      NothingMarked(d, marks, best);
      while todo != {}
        invariant todo <= best.Keys && marks.Keys == marks0.Keys
        invariant marks == MarkClothos(marks0, Reached(d, best, todo))
        invariant timeTable == RecordTimes(tt0, e, Reached(d, best, todo), events[e].lamport)
        decreases |todo|
      {
        var k :| k in todo;
        ReachedStep(d, best, todo, k);
        if best[k] >= quorum {
          MarkOne(e, k.1, marks0, tt0, Reached(d, best, todo));
        }
        todo := todo - {k};
      }
    }

    // ----------------------------------------------------------------------------------------
    // Time selection
    // ----------------------------------------------------------------------------------------

    /** Confirm a clotho: list it if it is not yet final, finalise its ancestors, then set its time. */
    method ConfirmAtropos(x: Hash)
      requires Settled() && x in events && !marks[x].atropos && events[x].frame >= 1
      modifies this`marks, this`consensus, this`pendingLoaded
      ensures Settled() && old(consensus) <= consensus
      ensures Confirmed(old(marks), marks, {x}) && ReceivedAtUnder(AsDag(), old(marks), marks, x)
      ensures pendingLoaded - |Waiting(AsDag(), marks, {})| == old(pendingLoaded - |Waiting(AsDag(), marks, {})|)
    {
      ghost var early: set<Hash> := {};
      if marks[x].atroposTimestamp == 0 {
        assert MarkOk(AsDag(), marks, x);
        AccountEvent(x, {});
        early := {x};
        assert {} + {x} == early;
      }
      FinishAtropos(x, early);
    }

    /** The walk below a clotho to be confirmed, which is listed by now, and its own record. */
    method FinishAtropos(x: Hash, ghost early: set<Hash>)
      requires ValidFor(early) && FinalBelow(AsDag(), marks) && x in events && !marks[x].atropos && events[x].frame >= 1
      requires early == if Assigned(marks, x) then {} else {x}
      modifies this`marks, this`consensus, this`pendingLoaded
      ensures Settled() && old(consensus) <= consensus
      ensures Confirmed(old(marks), marks, {x}) && ReceivedAtUnder(AsDag(), old(marks), marks, x)
      ensures pendingLoaded - |Waiting(AsDag(), marks, {})| == old(pendingLoaded - |Waiting(AsDag(), marks, early)|)
    {
      ghost var d, before := AsDag(), marks;
      assert MarkOk(d, marks, x);
      var m := marks[x].(atropos := true, frameReceived := events[x].frame);
      var t := AssignAtroposTime(x, events[x].frame, early);
      m := m.(atroposTimestamp := t);
      ConfirmSettles(d, before, marks, early, consensus, x, m);
      marks := marks[x := m];
    }

    /** One clotho of the selection loop; `votes` are what `c` counts. */
    method SelectOne(e: Hash, x: Hash, c: map<nat, nat>, ghost votes: map<Hash, nat>)
      requires Settled() && e in events && Counts(c) && Tallies(c, votes) && (x in events ==> events[x].frame >= 1)
      modifies this`marks, this`consensus, this`pendingLoaded, this`timeTable
      ensures Settled() && old(consensus) <= consensus
      ensures Confirmed(old(marks), marks, if Decides(AsDag(), old(marks), e, x, c) then {x} else {})
      ensures NotedAs(old(timeTable), timeTable, e, x,
                      Afterwards(AsDag(), old(marks), e, x, votes, Record(old(timeTable), e, x)))
      ensures pendingLoaded - |Waiting(AsDag(), marks, {})| == old(pendingLoaded - |Waiting(AsDag(), marks, {})|)
    {
      if x !in events || marks[x].atropos {
        return;
      }
      if Fourth(AsDag(), e, x) {
        var t := EarliestTime(c);
        EarliestIs(c, votes, t);
        NotedAdd(timeTable, e, x, t);
        AddTime(e, x, t);
      } else {
        var n, t := MajorityTime(c);
        LeadingIs(c, votes, n, t, quorum);
        if n >= quorum {
          ConfirmAtropos(x);
        } else {
          NotedAdd(timeTable, e, x, t);
          AddTime(e, x, t);
        }
      }
    }

    /**
     `AtroposTimeSelection`: confirm exactly the clothos on whose time a quorum of the previous roots agree,
     except in every fourth frame; record a time for the others.
     */
    method AtroposTimeSelection(e: Hash)
      requires Settled() && e in events && RecordsAbove(AsDag(), timeTable)
      modifies this`marks, this`consensus, this`pendingLoaded, this`timeTable
      ensures Settled() && old(consensus) <= consensus
      ensures Confirmed(old(marks), marks, NewAtropos(AsDag(), old(marks), old(timeTable), e))
      ensures SelectionRecorded(AsDag(), old(marks), e, old(timeTable), timeTable)
      ensures ConfirmsAgreed(AsDag(), old(marks), marks, old(timeTable), e)
      ensures forall y :: RecordsChoice(AsDag(), old(marks), e, old(timeTable), timeTable, y)
      ensures pendingLoaded - |Waiting(AsDag(), marks, {})| == old(pendingLoaded - |Waiting(AsDag(), marks, {})|)
    {
      ghost var d, marks0, tt0 := AsDag(), marks, timeTable;
      var counts := CountTimes(timeTable, events[e].rootTable.Keys);
      CountsAbove(d, tt0, e, counts);
      ghost var sure := SelectAll(e, counts);
      SelectedAll(d, marks0, tt0, e, counts, sure);
      AllRecorded(d, marks0, e, tt0, timeTable, counts);
      SelectionSpelledOut(d, marks0, marks, e, tt0, timeTable);
    }

    method SelectNext(e: Hash, x: Hash, counts: CountMap, ghost marks0: map<Hash, Marks>, ghost tt0: TimeTable,
                      ghost todo: set<Hash>, ghost sure: set<Hash>) returns (ghost sure': set<Hash>)
      requires Settled() && e in events && x in todo && x in counts && CountsVotes(AsDag(), tt0, e, counts)
      requires x in events ==> events[x].frame >= 1
      requires Confirmed(marks0, marks, sure) && Selected(AsDag(), marks0, e, counts, todo, sure)
      requires RecordedSoFar(AsDag(), marks0, e, tt0, timeTable, counts, todo)
      modifies this`marks, this`consensus, this`pendingLoaded, this`timeTable
      ensures Settled() && old(consensus) <= consensus
      ensures Confirmed(marks0, marks, sure') && Selected(AsDag(), marks0, e, counts, todo - {x}, sure')
      ensures RecordedSoFar(AsDag(), marks0, e, tt0, timeTable, counts, todo - {x})
      ensures pendingLoaded - |Waiting(AsDag(), marks, {})| == old(pendingLoaded - |Waiting(AsDag(), marks, {})|)
    {
      ghost var before, tt1, votes := marks, timeTable, Votes(tt0, Table(AsDag(), e), x);
      TalliesOf(AsDag(), tt0, e, counts, x);
      SelectOne(e, x, counts[x], votes);
      SelectStep(AsDag(), marks0, before, marks, e, counts, todo, sure, x);
      RecordStep(AsDag(), marks0, before, e, tt0, tt1, timeTable, counts, todo, sure, x);
      sure' := sure + (if Decides(AsDag(), before, e, x, counts[x]) then {x} else {});
    }

    method SelectAll(e: Hash, counts: CountMap) returns (ghost sure: set<Hash>)
      requires Settled() && e in events && CountsVotes(AsDag(), timeTable, e, counts) && CountedAbove(AsDag(), counts)
      modifies this`marks, this`consensus, this`pendingLoaded, this`timeTable
      ensures Settled() && old(consensus) <= consensus
      ensures Confirmed(old(marks), marks, sure)
      ensures forall x {:trigger x in sure} :: x in sure <==>
                x in counts && Decides(AsDag(), old(marks), e, x, counts[x])
      ensures RecordedSoFar(AsDag(), old(marks), e, old(timeTable), timeTable, counts, {})
      ensures pendingLoaded - |Waiting(AsDag(), marks, {})| == old(pendingLoaded - |Waiting(AsDag(), marks, {})|)
    {
      ghost var marks0, tt0 := marks, timeTable;
      var todo := counts.Keys;
      sure := {};
      while todo != {}
        invariant todo <= counts.Keys
        invariant Settled() && old(consensus) <= consensus
        invariant Confirmed(marks0, marks, sure)
        invariant Selected(AsDag(), marks0, e, counts, todo, sure)
        invariant RecordedSoFar(AsDag(), marks0, e, tt0, timeTable, counts, todo)
        invariant pendingLoaded - |Waiting(AsDag(), marks, {})| == old(pendingLoaded - |Waiting(AsDag(), marks, {})|)
        decreases |todo|
      {
        var x :| x in todo;
        sure := SelectNext(e, x, counts, marks0, tt0, todo, sure);
        todo := todo - {x};
      }
    }

    // ----------------------------------------------------------------------------------------
    // Insertion
    // ----------------------------------------------------------------------------------------

    /** Entries of one table that carry the frame, added to what is there already. */
    static method AddEntries(src: FlagTable, frame: int, start: FlagTable) returns (res: FlagTable)
      ensures res == Carrying(src, frame) + start
    {
      res := start;
      var todo := src.Keys;
      while todo != {}
        invariant todo <= src.Keys
        invariant forall h {:trigger h in res} :: h in res <==>
                    h in start || (h in src && h !in todo && src[h] == frame)
        invariant forall h {:trigger res[h]} :: h in res ==> res[h] == if h in start then start[h] else frame
        decreases |todo|
      {
        var h :| h in todo;
        if h !in res && src[h] == frame {
          res := res[h := src[h]];
        }
        todo := todo - {h};
      }
    }

    static method MergeFlagTable(src: FlagTable, dst: FlagTable, frame: int) returns (res: FlagTable)
      ensures res == Merge(src, dst, frame)
    {
      res := AddEntries(src, frame, map[]);
      res := AddEntries(dst, frame, res);
    }

    /** The branch for an other parent of a later frame. */
    method PlaceAhead(self: Event, other: Event, h: Hash) returns (r: Result<Placement, Error>)
      ensures var key := (other.frame, other.msg.creator);
              r == if key in creatorRoots
                   then Ok(Jump(ViewOf(self), ViewOf(other), Lookup(AsDag(), creatorRoots[key]).rootTable, h))
                   else Err(RootLookupFailed)
    {
      var key := (other.frame, other.msg.creator);
      if key !in creatorRoots {
        return Err(RootLookupFailed);
      }
      var otherRoot := Lookup(AsDag(), creatorRoots[key]);
      var rootTable := MergeFlagTable(self.flags, otherRoot.rootTable, other.frame - 1);
      r := Ok(Placement(other.frame, true, other.flags[h := other.frame], rootTable));
    }

    /** The three branches that place a new event. */
    method PlaceNew(m: Message) returns (r: Result<Placement, Error>)
      ensures r == if LookupFound(AsDag(), m) then Ok(Placed(AsDag(), m)) else Err(RootLookupFailed)
    {
      var self, other := Lookup(AsDag(), m.selfParent), Lookup(AsDag(), m.otherParent);
      if self.frame == other.frame {
        var merged := MergeFlagTable(self.flags, other.flags, self.frame);
        r := Ok(Rise(self.frame, merged, m.hash, quorum));
      } else if self.frame > other.frame {
        r := Ok(Placement(self.frame, false, self.flags, map[]));
      } else {
        r := PlaceAhead(self, other, m.hash);
      }
    }

    /** The checks and the placement; the event is not stored yet. */
    method Check(m: Message) returns (r: Result<Placement, Error>)
      ensures match Insert(AsDag(), m)
              case Ok(_) => r == Ok(Placed(AsDag(), m))
              case Err(e) => r == Err(e)
    {
      if !m.signed {
        return Err(BadSignature);
      }
      if m.creator !in chains {
        return Err(UnknownCreator);
      }
      var chain := chains[m.creator];
      if chain == [] || chain[|chain| - 1] != m.selfParent {
        return Err(SelfParentNotLast);
      }
      if m.otherParent != 0 && m.otherParent !in events {
        return Err(OtherParentUnknown);
      }
      r := PlaceNew(m);
      if r.Ok? && !IndexAccepted(chain, m.index) {
        r := Err(IndexRefused);
      }
    }

    /** `SetEvent` and, for a root, `AddClothoCheck`. */
    method SetEvent(e: Event)
      requires e.msg.hash !in events
      requires e.msg.creator in chains && IndexAccepted(chains[e.msg.creator], e.msg.index)
      modifies this`events, this`marks, this`chains, this`creatorRoots, this`registered, this`next
      ensures AsDag() == Store(old(AsDag()), e)
      ensures marks == old(marks)[e.msg.hash := NEW_MARKS]
    {
      var c, h := e.msg.creator, e.msg.hash;
      chains := chains[c := SetIndex(chains[c], e.msg.index, h)];
      events := events[h := e];
      marks := marks[h := NEW_MARKS];
      next := next + 1;
      if e.root {
        creatorRoots := creatorRoots[(e.frame, c) := h];
        registered := registered + {(e.frame, h)};
      }
    }

    method StoreEvent(m: Message, p: Placement)
      requires Settled() && Honest(AsDag(), m) && Insert(AsDag(), m).Ok? && p == Placed(AsDag(), m)
      modifies this`events, this`marks, this`chains, this`creatorRoots, this`registered, this`next
      ensures AsDag() == Insert(old(AsDag()), m).value
      ensures marks == old(marks)[m.hash := NEW_MARKS]
      ensures Settled() && m.hash in events && m.hash !in Table(AsDag(), m.hash) && AllKept(old(marks), marks)
      ensures |Waiting(AsDag(), marks, {})| == old(|Waiting(AsDag(), marks, {})|) + (if m.loaded then 1 else 0)
    {
      ghost var d, before := AsDag(), marks;
      FreshHash(d, m);
      var lamport := Max(Lookup(AsDag(), m.selfParent).lamport, Lookup(AsDag(), m.otherParent).lamport) + 1;
      var e := Event(m, p.frame, p.root, p.flags, p.rootTable, lamport, next);
      assert e == NewEvent(AsDag(), m);
      SetEvent(e);
      StoreSettles(d, m, AsDag(), before, consensus);
    }

    /** What a newly stored root sets off. */
    method RootArrived(e: Hash)
      requires Settled() && e in events && e !in Table(AsDag(), e) && RecordsAbove(AsDag(), timeTable)
      modifies this`marks, this`consensus, this`pendingLoaded, this`timeTable
      ensures Settled() && old(consensus) <= consensus && AllKept(old(marks), marks)
      ensures FlagsRaised(old(marks), marks, NewClothos(AsDag(), e))
      ensures Arrival(AsDag(), e, old(marks), old(timeTable), marks, timeTable)
      ensures pendingLoaded - |Waiting(AsDag(), marks, {})| == old(pendingLoaded - |Waiting(AsDag(), marks, {})|)
    {
      ghost var marks0, tt0 := marks, timeTable;
      ClothoChecking(e);
      ClothosKeep(AsDag(), marks0, NewClothos(AsDag(), e), consensus);
      ClothosBelow(AsDag(), marks0, NewClothos(AsDag(), e));
      OpeningsAbove(AsDag(), tt0, e, events[e].lamport);
      ghost var marks1, tt1 := marks, timeTable;
      AtroposTimeSelection(e);
      BothSteps(AsDag(), e, marks0, tt0, marks1, tt1, marks, timeTable);
    }

    /** Whatever is set off by the arrival of a stored event. */
    method Arrived(e: Hash)
      requires Settled() && e in events && e !in Table(AsDag(), e) && RecordsAbove(AsDag(), timeTable)
      modifies this`marks, this`consensus, this`pendingLoaded, this`timeTable
      ensures Settled() && old(consensus) <= consensus && AllKept(old(marks), marks)
      ensures FlagsRaised(old(marks), marks, if events[e].root then NewClothos(AsDag(), e) else {})
      ensures Came(AsDag(), e, old(marks), old(timeTable), marks, timeTable)
      ensures pendingLoaded - |Waiting(AsDag(), marks, {})| == old(pendingLoaded - |Waiting(AsDag(), marks, {})|)
    {
      if events[e].root {
        RootArrived(e);
      }
    }

    /** Store an accepted event and let it have its effects. */
    method Absorb(m: Message, p: Placement)
      requires Sound() && Honest(AsDag(), m) && Insert(AsDag(), m).Ok? && p == Placed(AsDag(), m)
      modifies this
      ensures Sound() && AsDag() == Insert(old(AsDag()), m).value
      ensures old(consensus) <= consensus && AllKept(old(marks), marks)
      ensures pendingLoaded - |Waiting(AsDag(), marks, {})| ==
                old(pendingLoaded - |Waiting(AsDag(), marks, {})|) - (if m.loaded then 1 else 0)
    {
      ghost var d, before, tt := AsDag(), marks, timeTable;
      StoredAbove(d, m, tt);
      StoreEvent(m, p);
      Arrived(m.hash);
      ArrivalKeeps(d, m, AsDag(), before, tt, marks, timeTable);
    }

    /** A loaded event is waited for from now on. */
    method CountLoaded(loaded: bool)
      requires Sound() && pendingLoaded + (if loaded then 1 else 0) == |Waiting(AsDag(), marks, {})|
      modifies this`pendingLoaded
      ensures Valid()
    {
      if loaded {
        pendingLoaded := pendingLoaded + 1;
      }
    }

    /** The second half of `InsertEvent`: everything after the checks; `d'` is the DAG with the event. */
    method Accept(m: Message, p: Placement, ghost d': Dag)
      requires Valid() && Honest(AsDag(), m) && Insert(AsDag(), m) == Ok(d') && p == Placed(AsDag(), m)
      modifies this
      ensures Valid() && AsDag() == d' && old(consensus) <= consensus && AllKept(old(marks), marks)
    {
      Absorb(m, p);
      CountLoaded(m.loaded);
    }

    /**
     `InsertEvent`: refuse the message, or store it with the derived fields `Insert` describes, then let a new
     root mark clothos and confirm some. Final timestamps stay, marks are never withdrawn, the consensus list
     only grows, and the number of pending loaded events stays exact.
     */
    method InsertEvent(m: Message) returns (r: Result<Hash, Error>)
      requires Valid() && Honest(AsDag(), m)
      modifies this
      ensures Valid()
      ensures match Insert(old(AsDag()), m)
              case Ok(d) => r == Ok(m.hash) && AsDag() == d
              case Err(e) =>
                        r == Err(e) && AsDag() == old(AsDag()) && marks == old(marks) && consensus == old(consensus)
      ensures old(consensus) <= consensus && AllKept(old(marks), marks)
    {
      var p := Check(m);
      if p.Err? {
        return Err(p.error);
      }
      Accept(m, p.value, Insert(AsDag(), m).value);
      r := Ok(m.hash);
    }
  }
}

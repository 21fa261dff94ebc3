/**
 The download scheduler of src/trie/sync.go as an object. Requests refer to their parents by hash, which is
 what they are filed under.
 */
module TrieSync {
  import opened Wrappers
  import opened TrieKeys
  import opened SyncState

  const NO_PARENT: Hash := 0

  datatype Error = NotRequested | AlreadyProcessed | BadNode

  datatype Delivery = Delivery(hash: Hash, data: Bytes)

  ghost function Rest(ps: seq<Hash>, i: nat): multiset<Hash>
    requires i <= |ps|
  {
    multiset(ps[i..])
  }

  lemma RestStep(ps: seq<Hash>, i: nat, owed: multiset<Hash>)
    requires i < |ps|
    ensures owed + Rest(ps, i) - multiset{ps[i]} == owed + Rest(ps, i + 1) && ps[i] in owed + Rest(ps, i)
  {
    assert ps[i..] == [ps[i]] + ps[i + 1..];
  }

  /** Pending requests stay pending with the same data, unless they are completed. */
  ghost predicate Advanced(s: State, t: State) {
    && (forall h :: Known(s, h) ==> Known(t, h))
    && (forall h {:trigger s.m[h]} :: h in s.m && s.m[h].data.Some? ==>
        Known(t, h) || (h in t.m && t.m[h].data == s.m[h].data))
    && s.db == t.db && s.roots == t.roots
  }

  /** Nothing was completed, and no request has changed but for its parents and its count. */
  ghost predicate Steady(s: State, t: State) {
    && Onward(s, t) && s.db == t.db && s.batch == t.batch && s.order == t.order
    && (forall h {:trigger h in s.m} {:trigger h in t.m} :: h in s.m ==>
        h in t.m && t.m[h].data == s.m[h].data && t.m[h].kind == s.m[h].kind && t.m[h].deps >= s.m[h].deps)
  }

  lemma SteadyTwice(s: State, t: State, u: State)
    requires Steady(s, t) && Steady(t, u)
    ensures Steady(s, u)
  {}

  /** Everything that child `x` of `r` needs is known, awaited by `r`, or among `more`. */
  ghost predicate Covered(s: State, x: Child, kind: Kind, r: Hash, more: seq<Ticket>) {
    forall h :: h in NeededBy(x, kind) ==>
        Known(s, h) || Awaited(s.m, h, r) || exists k :: 0 <= k < |more| && more[k].hash == h
  }

  lemma CoveredStays(s: State, t: State, x: Child, kind: Kind, r: Hash, more: seq<Ticket>, more': seq<Ticket>)
    requires Covered(s, x, kind, r, more) && Onward(s, t) && more <= more'
    ensures Covered(t, x, kind, r, more')
  {
    forall h | h in NeededBy(x, kind)
      ensures Known(t, h) || Awaited(t.m, h, r) || exists k :: 0 <= k < |more'| && more'[k].hash == h
    {
      assert Known(s, h) || Awaited(s.m, h, r) || exists k :: 0 <= k < |more| && more[k].hash == h;
      if k :| 0 <= k < |more| && more[k].hash == h { assert more'[k].hash == h; }
    }
  }

  lemma CoveredAttended(c: Content, s: State, r: Hash, more: seq<Ticket>)
    requires c.kindOf(r) != Raw && forall i :: 0 <= i < |Children(c, r)| ==>
               Covered(s, Children(c, r)[i], c.kindOf(r), r, more)
    requires forall k :: 0 <= k < |more| ==> Awaited(s.m, more[k].hash, r)
    ensures Attended(c, s, r)
  {
    forall h | h in Needs(c, r) ensures Known(s, h) || Awaited(s.m, h, r) {
      var i :| 0 <= i < |Children(c, r)| && h in NeededBy(Children(c, r)[i], c.kindOf(r));
      assert Covered(s, Children(c, r)[i], c.kindOf(r), r, more);
    }
  }

  lemma ArrivedAdvanced(s: State, r: Hash, b: Bytes, t: State)
    requires r in s.m && s.m[r].data.None? && Advanced(Arrived(s, r, b), t)
    ensures Advanced(s, t) && Received(t, r)
  {
    var u := Arrived(s, r, b);
    assert u.m[r].data.Some?;
    forall h {:trigger s.m[h]} | h in s.m && s.m[h].data.Some?
      ensures Known(t, h) || (h in t.m && t.m[h].data == s.m[h].data)
    {
      assert u.m[h] == s.m[h];
    }
    forall h | Known(s, h) ensures Known(t, h) { assert Known(u, h); }
  }

  lemma SteadyAdvanced(s: State, t: State)
    requires Steady(s, t) && s.roots == t.roots
    ensures Advanced(s, t)
  {}

  lemma AdvancedTwice(s: State, t: State, u: State)
    requires Advanced(s, t) && Advanced(t, u)
    ensures Advanced(s, u)
  {
    forall h {:trigger s.m[h]} | h in s.m && s.m[h].data.Some?
      ensures Known(u, h) || (h in u.m && u.m[h].data == s.m[h].data)
    {
      if !Known(t, h) { assert t.m[h].data == s.m[h].data; }
    }
  }

  lemma KindsOf(c: Content, r: Hash, cs: seq<Child>)
    requires Consistent(c) && c.kindOf(r) != Raw && c.decode(c.preimage(r)) == Some(cs)
    ensures cs == Children(c, r) && forall i :: 0 <= i < |cs| ==> ChildKinds(c, cs[i], c.kindOf(r))
  {
    forall i | 0 <= i < |cs| ensures ChildKinds(c, cs[i], c.kindOf(r)) { assert cs[i] == Children(c, r)[i]; }
  }

  /** Where an entry stands: complete, or its data has arrived. */
  predicate Received(s: State, h: Hash) {
    Known(s, h) || (h in s.m && s.m[h].data.Some?)
  }

  /** The answer to a delivery in state `s`. */
  function Refusal(c: Content, s: State, item: Delivery): Option<Error> {
    if item.hash !in s.m then Some(NotRequested)
    else if s.m[item.hash].data.Some? then Some(AlreadyProcessed)
    else if s.m[item.hash].kind != Raw && c.decode(item.data).None? then Some(BadNode)
    else None
  }

  /** `k` is a ticket of the greatest depth. */
  predicate Deepest(q: seq<Ticket>, k: nat) {
    k < |q| && forall j :: 0 <= j < |q| ==> q[j].depth <= q[k].depth
  }

  /** The first element of the priority queue. */
  method FindDeepest(q: seq<Ticket>) returns (k: nat)
    requires q != []
    ensures Deepest(q, k)
  {
    k := 0;
    for i := 1 to |q|
      invariant k < i && forall j :: 0 <= j < i ==> q[j].depth <= q[k].depth
    {
      if q[i].depth > q[k].depth {
        k := i;
      }
    }
  }

  function Hashes(ts: seq<Ticket>): seq<Hash> {
    seq(|ts|, i requires 0 <= i < |ts| => ts[i].hash)
  }

  /** A ticket for a referenced child of a node at depth `base`: it lies deeper by the nibbles on the way. */
  ghost predicate ChildTicket(cs: seq<Child>, base: int, t: Ticket) {
    exists i :: 0 <= i < |cs| && cs[i] == Ref(t.hash, t.depth - base)
  }

  /** A ticket that a reported leaf asks for, at the depth it asks for. */
  ghost predicate ReportedTicket(es: seq<Entry>, t: Ticket) {
    exists j :: 0 <= j < |es| && es[j].hash == t.hash && es[j].depth == t.depth
  }

  ghost predicate LeafTicket(cs: seq<Child>, t: Ticket) {
    exists i :: 0 <= i < |cs| && cs[i].Leaf? && ReportedTicket(cs[i].entries, t)
  }

  /** A ticket that a delivery gives rise to. */
  ghost predicate IssuedFor(c: Content, m: Requests, item: Delivery, t: Ticket) {
    item.hash in m && match c.decode(item.data)
                      case None => false
                      case Some(cs) => ChildTicket(cs, m[item.hash].depth, t) || LeafTicket(cs, t)
  }

  class Sync {
    const content: Content
    var requests: Requests
    var batch: map<Hash, Bytes>
    var order: seq<Hash>
    var db: map<Hash, Bytes>
    var queue: seq<Ticket>
    ghost var asked: set<Hash>
    ghost var roots: set<Hash>

    ghost function Now(): State
      reads this
    {
      State(requests, batch, order, db, queue, asked, roots)
    }

    ghost predicate ValidIn(busy: set<Hash>, owed: multiset<Hash>)
      reads this
    {
      Inv(content, Now(), busy, owed)
    }

    ghost predicate Valid()
      reads this
    {
      ValidIn({}, multiset{}) && Consistent(content)
    }

    /** `NewSync` over a database that is closed under children. */
    constructor (c: Content, root: Hash, kind: Kind, stored: map<Hash, Bytes>)
      requires Consistent(c) && DbClosed(c, stored) && kind != Raw && c.kindOf(root) == kind
      ensures Valid() && content == c && db == stored
      ensures root == EMPTY_ROOT || root in roots
    {
      content := c;
      requests, batch, order, db, queue, asked, roots := map[], map[], [], stored, [], {}, {};
      new;
      EmptyValid();
      AddSubTrie(root, kind, 0, NO_PARENT, {});
    }

    lemma EmptyValid()
      requires Now() == State(map[], map[], [], db, [], {}, {}) && DbClosed(content, db)
      ensures ValidIn({}, multiset{})
    {
      forall x ensures Holds(x, content, Now(), {}, multiset{}) {}
    }

    /** `schedule`. */
    method Schedule(h: Hash, r: Request, ghost busy: set<Hash>, ghost owed: multiset<Hash>)
      requires ValidIn(busy, owed) && !Known(Now(), h) && multiset(r.parents) <= owed
      requires r.kind == content.kindOf(h) && r.data == None && r.deps == 0
      modifies this`requests, this`queue
      ensures ValidIn(busy, owed - multiset(r.parents)) && Steady(old(Now()), Now())
      ensures h in requests && forall p :: p in r.parents ==> Awaited(requests, h, p)
      ensures queue == old(queue) + if h in old(requests) then [] else [Ticket(h, r.depth)]
      ensures h !in old(requests) ==> requests == old(requests)[h := r]
    {
      if h in requests {
        MergeKeeps(content, Now(), busy, owed, h, r.parents);
        requests := requests[h := MoreParents(requests, h, r.parents)];
      } else {
        ScheduleKeeps(content, Now(), busy, owed, h, r);
        queue := queue + [Ticket(h, r.depth)];
        requests := requests[h := r];
      }
    }

    /** A parent that may be given to `AddSubTrie` and `AddRawEntry`: a node whose leaves are being reported. */
    predicate Reporting(parent: Hash)
      reads this
    {
      parent in requests && requests[parent].data.Some? && requests[parent].kind != Raw
    }

    /** The common end of `AddSubTrie` and `AddRawEntry`, for an entry that is not known yet. */
    method Enter(h: Hash, kind: Kind, depth: int, parent: Hash, ghost busy: set<Hash>)
      requires ValidIn(busy, multiset{}) && !Known(Now(), h) && kind == content.kindOf(h)
      requires parent != NO_PARENT ==> Reporting(parent)
      modifies this`requests, this`queue
      ensures ValidIn(busy, multiset{}) && Steady(old(Now()), Now())
      ensures h in requests && (parent != NO_PARENT ==> Awaited(requests, h, parent))
      ensures queue == old(queue) + if h in old(requests) then [] else [Ticket(h, depth)]
    {
      var ps: seq<Hash> := [];
      ghost var owed: multiset<Hash> := multiset{};
      if parent != NO_PARENT {
        ExpectKeeps(content, Now(), busy, multiset{}, parent, 1);
        requests := requests[parent := Counted(requests, parent, 1)];
        ps, owed := [parent], multiset{} + multiset{}[parent := 1];
      }
      Schedule(h, Request(kind, None, ps, depth, 0), busy, owed);
      assert owed - multiset(ps) == multiset{};
    }

    /** `AddSubTrie`. */
    method AddSubTrie(root: Hash, kind: Kind, depth: int, parent: Hash, ghost busy: set<Hash>)
      requires ValidIn(busy, multiset{}) && kind != Raw && kind == content.kindOf(root)
      requires parent != NO_PARENT ==> Reporting(parent)
      modifies this`requests, this`queue, this`roots
      ensures ValidIn(busy, multiset{}) && Steady(old(Now()), Now())
      ensures root != EMPTY_ROOT && parent != NO_PARENT ==> Known(Now(), root) || Awaited(requests, root, parent)
      ensures roots == old(roots) + if root != EMPTY_ROOT && parent == NO_PARENT then {root} else {}
      ensures queue == old(queue) || queue == old(queue) + [Ticket(root, depth)]
    {
      if root == EMPTY_ROOT {
        return;
      }
      if root !in batch && !(root in db && content.decode(db[root]).Some?) {
        NotKnown(root, busy);
        Enter(root, kind, depth, parent, busy);
      }
      if parent == NO_PARENT {
        AskFor(root, busy);
      }
    }

    /** `AddRawEntry`. */
    method AddRawEntry(hash: Hash, depth: int, parent: Hash, ghost busy: set<Hash>)
      requires ValidIn(busy, multiset{}) && content.kindOf(hash) == Raw
      requires parent != NO_PARENT ==> Reporting(parent)
      modifies this`requests, this`queue, this`roots
      ensures ValidIn(busy, multiset{}) && Steady(old(Now()), Now())
      ensures hash != EMPTY_STATE && parent != NO_PARENT ==> Known(Now(), hash) || Awaited(requests, hash, parent)
      ensures roots == old(roots) + if hash != EMPTY_STATE && parent == NO_PARENT then {hash} else {}
      ensures queue == old(queue) || queue == old(queue) + [Ticket(hash, depth)]
    {
      if hash == EMPTY_STATE {
        return;
      }
      if hash !in batch && hash !in db {
        Enter(hash, Raw, depth, parent, busy);
      }
      if parent == NO_PARENT {
        AskFor(hash, busy);
      }
    }

    lemma NotKnown(root: Hash, busy: set<Hash>)
      requires ValidIn(busy, multiset{}) && content.kindOf(root) != Raw
      requires root !in batch && !(root in db && content.decode(db[root]).Some?)
      ensures !Known(Now(), root)
    {
      assert Holds(Closed, content, Now(), busy, multiset{});
    }

    ghost method AskFor(h: Hash, busy: set<Hash>)
      requires ValidIn(busy, multiset{}) && (h in requests || Known(Now(), h))
      modifies this`roots
      ensures ValidIn(busy, multiset{}) && roots == old(roots) + {h}
    {
      ghost var s := Now();
      roots := roots + {h};
      forall x ensures Holds(x, content, Now(), busy, multiset{}) {
        assert Holds(x, content, s, busy, multiset{});
        if x == Waiting {
          forall p {:trigger requests[p]} | p in requests && p !in busy && requests[p].data.Some?
            ensures Attended(content, Now(), p)
          {
            assert s.m[p] == requests[p];
            AttendedStays(content, s, Now(), p);
          }
        }
      }
    }

    /** The leaf callback: enter everything that a leaf of `r` asks for. */
    method Report(es: seq<Entry>, r: Hash)
      requires ValidIn({r}, multiset{}) && r != NO_PARENT && Reporting(r)
      requires forall i :: 0 <= i < |es| ==> content.kindOf(es[i].hash) == es[i].kind
      modifies this`requests, this`queue, this`roots
      ensures ValidIn({r}, multiset{}) && Steady(old(Now()), Now()) && roots == old(roots)
      ensures Covered(Now(), Leaf(es), Watched, r, [])
      ensures forall t {:trigger t in queue} :: t in queue ==> t in old(queue) || ReportedTicket(es, t)
    {
      for i := 0 to |es|
        invariant ValidIn({r}, multiset{}) && Steady(old(Now()), Now()) && roots == old(roots)
        invariant forall t {:trigger t in queue} :: t in queue ==> t in old(queue) || ReportedTicket(es, t)
        invariant forall j {:trigger es[j]} :: 0 <= j < i && Wanted(es[j]) ==>
                    Known(Now(), es[j].hash) || Awaited(requests, es[j].hash, r)
      {
        if es[i].kind == Raw {
          AddRawEntry(es[i].hash, es[i].depth, r, {r});
        } else {
          AddSubTrie(es[i].hash, es[i].kind, es[i].depth, r, {r});
        }
      }
    }

    /** `children`: report the leaves of `r` and list the referenced nodes that are not known. */
    method Gather(r: Hash, cs: seq<Child>) returns (more: seq<Ticket>)
      requires ValidIn({r}, multiset{}) && r != NO_PARENT && Reporting(r)
      requires forall i :: 0 <= i < |cs| ==> ChildKinds(content, cs[i], requests[r].kind)
      modifies this`requests, this`queue, this`roots
      ensures ValidIn({r}, multiset{}) && Steady(old(Now()), Now()) && roots == old(roots)
      ensures forall i :: 0 <= i < |cs| ==> Covered(Now(), cs[i], old(requests)[r].kind, r, more)
      ensures forall k :: 0 <= k < |more| ==>
                !Known(Now(), more[k].hash) && content.kindOf(more[k].hash) == old(requests)[r].kind
      ensures forall k :: 0 <= k < |more| ==> ChildTicket(cs, old(requests)[r].depth, more[k])
      ensures forall t {:trigger t in queue} :: t in queue ==> t in old(queue) || LeafTicket(cs, t)
    {
      var kind, base := requests[r].kind, requests[r].depth;
      more := [];
      for i := 0 to |cs|
        invariant ValidIn({r}, multiset{}) && Steady(old(Now()), Now()) && roots == old(roots)
        invariant forall j {:trigger cs[j]} :: 0 <= j < i ==> Covered(Now(), cs[j], kind, r, more)
        invariant forall k :: 0 <= k < |more| ==> !Known(Now(), more[k].hash) && content.kindOf(more[k].hash) == kind
        invariant forall k :: 0 <= k < |more| ==> ChildTicket(cs, base, more[k])
        invariant forall t {:trigger t in queue} :: t in queue ==> t in old(queue) || LeafTicket(cs, t)
      {
        ghost var s, before := Now(), more;
        match cs[i] {
          case Leaf(es) =>
            if kind == Watched {
              Report(es, r);
              SteadyTwice(old(Now()), s, Now());
              CoveredStays(Now(), Now(), cs[i], kind, r, [], more);
            }
          case Ref(h, depth) =>
            if h !in batch && h !in db {
              more := more + [Ticket(h, base + depth)];
              assert cs[i] == Ref(h, more[|before|].depth - base);
              assert more[|before|].hash == h;
            }
          case Inline =>
        }
        forall j {:trigger cs[j]} | 0 <= j < i ensures Covered(Now(), cs[j], kind, r, more) {
          CoveredStays(s, Now(), cs[j], kind, r, before, more);
        }
      }
    }

    /** Schedule the listed children of `r`, each with `r` as its parent. */
    method ScheduleAll(r: Hash, kind: Kind, more: seq<Ticket>)
      requires ValidIn({r}, multiset{}[r := |more|])
      requires forall k :: 0 <= k < |more| ==> !Known(Now(), more[k].hash) && content.kindOf(more[k].hash) == kind
      modifies this`requests, this`queue
      ensures ValidIn({r}, multiset{}) && Steady(old(Now()), Now())
      ensures forall k :: 0 <= k < |more| ==> Awaited(requests, more[k].hash, r)
      ensures forall t {:trigger t in queue} :: t in queue ==> t in old(queue) || t in more
    {
      for i := 0 to |more|
        invariant ValidIn({r}, multiset{}[r := |more| - i]) && Steady(old(Now()), Now())
        invariant forall t {:trigger t in queue} :: t in queue ==> t in old(queue) || t in more
        invariant forall k :: 0 <= k < i ==> Awaited(requests, more[k].hash, r)
      {
        ghost var s, owed := Now(), multiset{}[r := |more| - i];
        Schedule(more[i].hash, Request(kind, None, [r], more[i].depth, 0), {r}, owed);
        assert owed - multiset([r]) == multiset{}[r := |more| - (i + 1)];
        SteadyTwice(old(Now()), s, Now());
      }
      assert multiset{}[r := 0] == multiset{};
    }

    /** `commit`: a request that waits for nothing goes to the batch, and so do parents that then wait for nothing. */
    method CommitRequest(r: Hash, ghost owed: multiset<Hash>)
      requires ValidIn({r}, owed) && Attended(content, Now(), r)
      requires r in requests && requests[r].data.Some? && requests[r].deps == 0
      modifies this`requests, this`batch, this`order
      ensures ValidIn({}, owed) && Advanced(old(Now()), Now()) && Known(Now(), r)
      ensures |requests| < |old(requests)| && |order| > |old(order)|
      decreases |requests|
    {
      ghost var n := |requests|;
      var req := requests[r];
      CompleteKeeps(content, Now(), owed, r);
      batch := batch[r := req.data.value];
      order := order + [r];
      requests := requests - {r};
      assert requests.Keys == old(requests).Keys - {r};
      var ps := req.parents;
      assert owed + multiset(ps) == owed + Rest(ps, 0) by { assert ps[0..] == ps; }
      for i := 0 to |ps|
        invariant ValidIn({}, owed + Rest(ps, i)) && Advanced(old(Now()), Now()) && Known(Now(), r)
        invariant |requests| < n && |order| > |old(order)|
      {
        TellParent(ps[i], owed + Rest(ps, i), n);
        RestStep(ps, i, owed);
      }
      assert owed + Rest(ps, |ps|) == owed;
    }

    /** One round of the loop of `commit` over the parents. */
    method TellParent(p: Hash, ghost owed: multiset<Hash>, ghost n: nat)
      requires ValidIn({}, owed) && p in owed && |requests| < n
      modifies this`requests, this`batch, this`order
      ensures ValidIn({}, owed - multiset{p}) && Advanced(old(Now()), Now())
      ensures |requests| <= |old(requests)| && |order| >= |old(order)|
      decreases n, 0
    {
      ReleaseKeeps(content, Now(), owed, p);
      requests := requests[p := Counted(requests, p, -1)];
      assert requests.Keys == old(requests).Keys;
      if requests[p].deps == 0 {
        CommitRequest(p, owed - multiset{p});
      } else {
        SettleKeeps(content, Now(), p, owed - multiset{p});
      }
    }

    /** A raw entry is never a parent. */
    lemma RawStandsAlone(r: Hash, busy: set<Hash>)
      requires ValidIn(busy, multiset{}) && r in requests && requests[r].kind == Raw
      ensures requests[r].deps == 0
    {
      assert Holds(Counts, content, Now(), busy, multiset{}) && Holds(Parents, content, Now(), busy, multiset{});
      assert Waits(requests) + multiset{} == Waits(requests);
    }

    /** One round of `Process`. */
    method ProcessOne(item: Delivery) returns (committed: bool, err: Option<Error>)
      requires Valid() && item.hash != NO_PARENT && item.data == content.preimage(item.hash)
      modifies this`requests, this`batch, this`order, this`queue, this`roots
      ensures Valid() && err == Refusal(content, old(Now()), item)
      ensures err.Some? ==> !committed && unchanged(this)
      ensures err.None? ==> Advanced(old(Now()), Now()) && Received(Now(), item.hash)
      ensures forall t {:trigger t in queue} :: t in queue ==>
                t in old(queue) || IssuedFor(content, old(requests), item, t)
      ensures if committed then |order| > |old(order)| else order == old(order)
    {
      var r := item.hash;
      if r !in requests {
        return false, Some(NotRequested);
      }
      if requests[r].data.Some? {
        return false, Some(AlreadyProcessed);
      }
      assert Holds(Contents, content, Now(), {}, multiset{});
      if requests[r].kind == Raw {
        ArriveKeeps(content, Now(), r, item.data);
        requests := requests[r := requests[r].(data := Some(item.data))];
        RawStandsAlone(r, {r});
        CommitRequest(r, multiset{});
        ArrivedAdvanced(old(Now()), r, item.data, Now());
        return true, None;
      }
      var cs := content.decode(item.data);
      if cs.None? {
        return false, Some(BadNode);
      }
      committed := Expand(r, item.data, cs.value);
      err := None;
    }

    /** The rest of a round for a trie node that decodes. */
    method Expand(r: Hash, data: Bytes, cs: seq<Child>) returns (committed: bool)
      requires Valid() && r != NO_PARENT && r in requests && requests[r].data.None? && requests[r].kind != Raw
      requires requests[r].kind == content.kindOf(r) && data == content.preimage(r) && content.decode(data) == Some(cs)
      modifies this`requests, this`batch, this`order, this`queue, this`roots
      ensures Valid() && Advanced(old(Now()), Now()) && Received(Now(), r)
      ensures if committed then |order| > |old(order)| else order == old(order)
      ensures forall t {:trigger t in queue} :: t in queue ==>
                t in old(queue) || ChildTicket(cs, old(requests)[r].depth, t) || LeafTicket(cs, t)
    {
      ArriveKeeps(content, Now(), r, data);
      requests := requests[r := requests[r].(data := Some(data))];
      ghost var s := Now();
      KindsOf(content, r, cs);
      var more := Gather(r, cs);
      ghost var t := Now();
      SteadyAdvanced(s, t);
      assert requests[r].deps >= 0 by { assert Holds(Counts, content, Now(), {r}, multiset{}); }
      if |more| == 0 && requests[r].deps == 0 {
        CoveredAttended(content, Now(), r, more);
        CommitRequest(r, multiset{});
        AdvancedTwice(s, t, Now());
        ArrivedAdvanced(old(Now()), r, data, Now());
        return true;
      }
      Await(r, more);
      forall i | 0 <= i < |cs| ensures Covered(Now(), cs[i], content.kindOf(r), r, more) {
        CoveredStays(t, Now(), cs[i], content.kindOf(r), r, more, more);
      }
      CoveredAttended(content, Now(), r, more);
      SettleKeeps(content, Now(), r, multiset{});
      SteadyTwice(s, t, Now());
      SteadyAdvanced(s, Now());
      ArrivedAdvanced(old(Now()), r, data, Now());
      return false;
    }

    /** Count the children that `r` is to wait for, and schedule them. */
    method Await(r: Hash, more: seq<Ticket>)
      requires ValidIn({r}, multiset{}) && Reporting(r)
      requires forall k :: 0 <= k < |more| ==>
                 !Known(Now(), more[k].hash) && content.kindOf(more[k].hash) == requests[r].kind
      modifies this`requests, this`queue
      ensures ValidIn({r}, multiset{}) && Steady(old(Now()), Now()) && r in requests
                && requests[r].deps >= old(requests)[r].deps + |more|
      ensures forall k :: 0 <= k < |more| ==> Awaited(requests, more[k].hash, r)
      ensures forall t {:trigger t in queue} :: t in queue ==> t in old(queue) || t in more
    {
      ghost var s := Now();
      ExpectKeeps(content, Now(), {r}, multiset{}, r, |more|);
      requests := requests[r := Counted(requests, r, |more|)];
      assert multiset{} + multiset{}[r := |more|] == multiset{}[r := |more|];
      ghost var t := Now();
      ScheduleAll(r, requests[r].kind, more);
      SteadyTwice(s, t, Now());
    }

    /** `Process`: take deliveries in turn until one is refused. */
    method Process(results: seq<Delivery>) returns (committed: bool, index: nat, err: Option<Error>)
      requires Valid() && forall i :: 0 <= i < |results| ==>
                 results[i].hash != NO_PARENT && results[i].data == content.preimage(results[i].hash)
      modifies this`requests, this`batch, this`order, this`queue, this`roots
      ensures Valid() && Advanced(old(Now()), Now())
      ensures err.Some? ==> index < |results| && err == Refusal(content, Now(), results[index])
      ensures forall i :: 0 <= i < (if err.Some? then index else |results|) ==> Received(Now(), results[i].hash)
      ensures if committed then |order| > |old(order)| else order == old(order)
    {
      committed := false;
      for i := 0 to |results|
        invariant Valid() && Advanced(old(Now()), Now())
        invariant forall j :: 0 <= j < i ==> Received(Now(), results[j].hash)
        invariant if committed then |order| > |old(order)| else order == old(order)
      {
        ghost var s := Now();
        var done, e := ProcessOne(results[i]);
        if e.Some? {
          return committed, i, e;
        }
        committed := committed || done;
      }
      return committed, 0, None;
    }

    /** `Missing`: hand out the deepest scheduled hashes, all of them when `max` is 0. */
    method Missing(max: int) returns (hashes: seq<Hash>, ghost taken: seq<Ticket>)
      requires Valid()
      modifies this`queue, this`asked
      ensures Valid() && hashes == Hashes(taken) && multiset(taken) + multiset(queue) == multiset(old(queue))
      ensures forall i, j :: 0 <= i < j < |taken| ==> taken[i].depth >= taken[j].depth
      ensures forall i, u :: 0 <= i < |taken| && u in queue ==> taken[i].depth >= u.depth
      ensures queue == [] || (max != 0 && |hashes| >= max)
      ensures max > 0 ==> |hashes| <= max
    {
      hashes, taken := [], [];
      while queue != [] && (max == 0 || |hashes| < max)
        invariant Valid() && hashes == Hashes(taken) && multiset(taken) + multiset(queue) == multiset(old(queue))
        invariant forall i, j :: 0 <= i < j < |taken| ==> taken[i].depth >= taken[j].depth
        invariant forall i, u :: 0 <= i < |taken| && u in queue ==> taken[i].depth >= u.depth
        invariant max > 0 ==> |hashes| <= max
        decreases |queue|
      {
        var t := Pop();
        hashes, taken := hashes + [t.hash], taken + [t];
      }
    }

    /** Take one hash of the greatest depth from the queue. */
    method Pop() returns (t: Ticket)
      requires Valid() && queue != []
      modifies this`queue, this`asked
      ensures Valid() && multiset(queue) + multiset{t} == multiset(old(queue)) && |queue| < |old(queue)|
                && t in old(queue)
      ensures forall u :: u in old(queue) ==> u.depth <= t.depth
      ensures forall u :: u in queue ==> u in old(queue)
    {
      var k := FindDeepest(queue);
      t := queue[k];
      HandOutKeeps(content, Now(), k);
      assert queue == queue[..k] + [t] + queue[k + 1..];
      queue := queue[..k] + queue[k + 1..];
      asked := asked + {t.hash};
    }

    /**
     `Commit`: write the batch in the order of completion. When a write fails the batch is kept. Whatever has
     been written, the database is closed under children.
     */
    method Commit() returns (written: nat, ok: bool)
      requires Valid()
      modifies this`db, this`batch, this`order
      ensures Valid() && forall h :: Known(Now(), h) <==> Known(old(Now()), h)
      ensures written <= |old(order)| && forall h :: h in db <==> h in old(db) || h in old(order)[..written]
      ensures ok ==> written == |old(order)| && batch == map[] && order == []
      ensures !ok ==> unchanged(this`batch, this`order)
    {
      ghost var s := Now();
      WriteKeeps(content, s, 0);
      for i := 0 to |order|
        invariant unchanged(this`batch, this`order) && db == SyncState.Written(s, i)
      {
        ok := *;
        if !ok {
          WriteKeeps(content, s, i);
          return i, false;
        }
        db := db[order[i] := batch[order[i]]];
      }
      written, ok := |order|, true;
      WriteKeeps(content, s, written);
      assert s.order[..written] == s.order;
      DropKeeps(content, Now());
      batch, order := map[], [];
    }
  }
}

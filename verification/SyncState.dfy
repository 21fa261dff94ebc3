/**
 The download scheduler of src/trie/sync.go as values: what is pending, what is complete, and the invariant
 that every step of the scheduler keeps.
 */
module SyncState {
  import opened Wrappers
  import opened TrieKeys

  type Hash = nat

  /** The root of the empty trie and the hash of empty code; neither is ever fetched. */
  const EMPTY_ROOT: Hash := 1
  const EMPTY_STATE: Hash := 2

  /** How an entry is treated: as plain bytes, as a trie node, or as a trie node whose leaves are reported. */
  datatype Kind = Raw | Plain | Watched

  /** What reporting a leaf asks for: another trie, or a raw entry. */
  datatype Entry = Entry(hash: Hash, kind: Kind, depth: int)

  /**
   A child of a trie node: a reference by hash with the number of key nibbles on the way, a value, or a node small
   enough to be inside its parent.
   */
  datatype Child = Ref(hash: Hash, depth: int) | Leaf(entries: seq<Entry>) | Inline

  /** What the hashes stand for: the preimage of each, how it is decoded, and what kind of entry it is. */
  datatype Content = Content(decode: Bytes -> Option<seq<Child>>, preimage: Hash -> Bytes, kindOf: Hash -> Kind)

  function Children(c: Content, h: Hash): seq<Child> {
    match c.decode(c.preimage(h))
    case None => []
    case Some(cs) => cs
  }

  predicate Wanted(e: Entry) {
    e.hash != if e.kind == Raw then EMPTY_STATE else EMPTY_ROOT
  }

  /** The hashes that child `x` of an entry of the given kind needs. */
  function NeededBy(x: Child, kind: Kind): set<Hash> {
    match x
    case Ref(h, _) => {h}
    case Leaf(es) => if kind == Watched then set i | 0 <= i < |es| && Wanted(es[i]) :: es[i].hash else {}
    case Inline => {}
  }

  /** The hashes without which the entry under `h` is not complete. */
  function Needs(c: Content, h: Hash): set<Hash> {
    if c.kindOf(h) == Raw then {}
    else set i, x | 0 <= i < |Children(c, h)| && x in NeededBy(Children(c, h)[i], c.kindOf(h)) :: x
  }

  /** A child's references are of the kind that the scheduler takes them for. */
  ghost predicate ChildKinds(c: Content, x: Child, kind: Kind) {
    match x
    case Ref(h, _) => c.kindOf(h) == kind
    case Leaf(es) => kind == Watched ==> forall i :: 0 <= i < |es| ==> c.kindOf(es[i].hash) == es[i].kind
    case Inline => true
  }

  ghost predicate Consistent(c: Content) {
    forall h, i {:trigger Children(c, h)[i]} :: c.kindOf(h) != Raw && 0 <= i < |Children(c, h)| ==>
      ChildKinds(c, Children(c, h)[i], c.kindOf(h))
  }

  datatype Request = Request(kind: Kind, data: Option<Bytes>, parents: seq<Hash>, depth: int, deps: int)

  type Requests = map<Hash, Request>

  /** All parent links of pending requests, with repetition. */
  ghost function Waits(m: Requests): multiset<Hash> {
    if m == map[] then multiset{}
    else
      var q :| q in m;
      multiset(m[q].parents) + Waits(m - {q})
  }

  lemma {:induction false} WaitsSplit(m: Requests, q: Hash)
    requires q in m
    ensures Waits(m) == multiset(m[q].parents) + Waits(m - {q})
    decreases m
  {
    var p :| p in m && Waits(m) == multiset(m[p].parents) + Waits(m - {p});
    if p != q {
      WaitsSplit(m - {p}, q);
      WaitsSplit(m - {q}, p);
      assert (m - {p}) - {q} == (m - {q}) - {p};
    }
  }

  lemma WaitsAdd(m: Requests, q: Hash, r: Request)
    requires q !in m
    ensures Waits(m[q := r]) == Waits(m) + multiset(r.parents)
  {
    WaitsSplit(m[q := r], q);
    assert m[q := r] - {q} == m;
  }

  /** More parents for a pending request. */
  lemma WaitsMore(m: Requests, q: Hash, r: Request, ps: seq<Hash>)
    requires q in m && r.parents == m[q].parents + ps
    ensures Waits(m[q := r]) == Waits(m) + multiset(ps)
  {
    WaitsSplit(m, q);
    WaitsSplit(m[q := r], q);
    assert m[q := r] - {q} == m - {q};
  }

  lemma WaitsSame(m: Requests, q: Hash, r: Request)
    requires q in m && r.parents == m[q].parents
    ensures Waits(m[q := r]) == Waits(m)
  {
    WaitsMore(m, q, r, []);
  }

  lemma {:induction false} WaitsIn(m: Requests, q: Hash, p: Hash)
    requires q in m && p in m[q].parents
    ensures p in Waits(m)
  {
    WaitsSplit(m, q);
  }

  // ------------------------------------------------------------------------------------------
  // The invariant
  // ------------------------------------------------------------------------------------------

  datatype Ticket = Ticket(hash: Hash, depth: int)

  /** `asked` are the hashes handed out for retrieval, `roots` those that the user has asked for. */
  datatype State = State(m: Requests, batch: map<Hash, Bytes>, order: seq<Hash>, db: map<Hash, Bytes>,
                         queue: seq<Ticket>, asked: set<Hash>, roots: set<Hash>)

  predicate Known(s: State, h: Hash) {
    h in s.batch || h in s.db
  }

  /** `x` is pending and its completion will be reported to `r`. */
  predicate Awaited(m: Requests, x: Hash, r: Hash) {
    x in m && r in m[x].parents
  }

  /** The bytes under `h` are the right ones, and those of a trie node decode. */
  predicate Genuine(c: Content, h: Hash, b: Bytes) {
    b == c.preimage(h) && (c.kindOf(h) == Raw || c.decode(b).Some?)
  }

  datatype Clause = Counts | Parents | Fresh | Contents | Waiting | Ordered | Closed | Tickets | Roots | Live

  ghost predicate Holds(x: Clause, c: Content, s: State, busy: set<Hash>, owed: multiset<Hash>) {
    match x
    case Counts => AllCounted(s.m, owed)
    case Parents => AllParents(s.m, owed)
    case Fresh => forall r :: r in s.m ==> !Known(s, r)
    case Contents => forall r {:trigger s.m[r]} :: r in s.m ==> RequestOk(c, r, s.m[r])
    case Waiting => forall r {:trigger s.m[r]} :: r in s.m && r !in busy && s.m[r].data.Some? ==> Attended(c, s, r)
    case Ordered => InOrder(c, s) && forall h {:trigger s.batch[h]} :: h in s.batch ==> Genuine(c, h, s.batch[h])
    case Closed => DbClosed(c, s.db)
    case Tickets => forall r {:trigger s.m[r]} :: r in s.m && s.m[r].data.None? ==> Ticketed(s, r)
    case Roots => forall r :: r in s.roots ==> r in s.m || Known(s, r)
    case Live => forall r {:trigger s.m[r]} :: r in s.m && r !in busy && s.m[r].data.Some? ==> s.m[r].deps != 0
  }

  /** Every request counts how often it is a parent. */
  ghost predicate AllCounted(m: Requests, owed: multiset<Hash>) {
    forall r {:trigger m[r]} :: r in m ==> m[r].deps == (Waits(m) + owed)[r]
  }

  /** Parents are pending trie nodes whose data has arrived. */
  ghost predicate AllParents(m: Requests, owed: multiset<Hash>) {
    forall p :: p in Waits(m) + owed ==> p in m && m[p].data.Some? && m[p].kind != Raw
  }

  ghost predicate RequestOk(c: Content, h: Hash, r: Request) {
    r.kind == c.kindOf(h) && (r.data.Some? ==> Genuine(c, h, r.data.value))
  }

  /** All that `r` needs is complete or awaited by `r`. */
  ghost predicate Attended(c: Content, s: State, r: Hash) {
    forall x :: x in Needs(c, r) ==> Known(s, x) || Awaited(s.m, x, r)
  }

  /** A node is in the batch only after all that it needs. */
  ghost predicate InOrder(c: Content, s: State) {
    && (forall h :: h in s.batch <==> h in s.order)
    && forall i, x {:trigger x in Needs(c, s.order[i])} :: 0 <= i < |s.order| && x in Needs(c, s.order[i]) ==>
        x in s.db || x in s.order[..i]
  }

  ghost predicate DbClosed(c: Content, db: map<Hash, Bytes>) {
    && (forall h {:trigger db[h]} :: h in db ==> Genuine(c, h, db[h]))
    && (forall h, x {:trigger x in Needs(c, h)} :: h in db && x in Needs(c, h) ==> x in db)
  }

  predicate Ticketed(s: State, r: Hash) {
    r in s.asked || exists i :: 0 <= i < |s.queue| && s.queue[i].hash == r
  }

  /**
   What holds between any two steps. `busy` are requests being looked at, which may wait for nothing or not yet
   for everything. `owed` are parent links that are counted but not recorded: those of children about to be
   scheduled, and those of a request that has just been completed.
   */
  ghost predicate Inv(c: Content, s: State, busy: set<Hash>, owed: multiset<Hash>) {
    forall x :: Holds(x, c, s, busy, owed)
  }

  // ------------------------------------------------------------------------------------------
  // How each kind of step keeps it
  // ------------------------------------------------------------------------------------------

  /** A request that waits for nothing goes to the batch; its parents are still to be told. */
  function Completed(s: State, r: Hash): State
    requires r in s.m && s.m[r].data.Some?
  {
    s.(m := s.m - {r}, batch := s.batch[r := s.m[r].data.value], order := s.order + [r])
  }

  lemma CompleteOrder(c: Content, s: State, r: Hash)
    requires InOrder(c, s) && r in s.m && s.m[r].data.Some? && forall x :: x in Needs(c, r) ==> Known(s, x)
    ensures InOrder(c, Completed(s, r))
  {
    var t := Completed(s, r);
    forall i, x {:trigger x in Needs(c, t.order[i])} | 0 <= i < |t.order| && x in Needs(c, t.order[i])
      ensures x in t.db || x in t.order[..i]
    {
      if i < |s.order| {
        assert t.order[i] == s.order[i] && t.order[..i] == s.order[..i];
      } else {
        assert t.order[..i] == s.order;
        assert Known(s, x);
      }
    }
  }

  lemma CompleteWaiting(c: Content, s: State, r: Hash, q: Hash)
    requires r in s.m && s.m[r].data.Some? && q in s.m && q != r && Attended(c, s, q)
    ensures Attended(c, Completed(s, r), q)
  {
    var t := Completed(s, r);
    forall x | x in Needs(c, q) ensures Known(t, x) || Awaited(t.m, x, q) {
      assert Known(s, x) || Awaited(s.m, x, q);
    }
  }

  lemma CompleteCounts(m: Requests, owed: multiset<Hash>, r: Hash)
    requires AllCounted(m, owed) && AllParents(m, owed) && r in m && m[r].deps == 0
    ensures AllCounted(m - {r}, owed + multiset(m[r].parents)) && AllParents(m - {r}, owed + multiset(m[r].parents))
  {
    WaitsSplit(m, r);
    assert Waits(m - {r}) + (owed + multiset(m[r].parents)) == Waits(m) + owed;
    assert r !in Waits(m) + owed;
  }

  lemma CompleteKeeps(c: Content, s: State, owed: multiset<Hash>, r: Hash)
    requires Inv(c, s, {r}, owed) && r in s.m && s.m[r].data.Some? && s.m[r].deps == 0 && Attended(c, s, r)
    ensures Inv(c, Completed(s, r), {}, owed + multiset(s.m[r].parents))
  {
    var t, owed' := Completed(s, r), owed + multiset(s.m[r].parents);
    forall y ensures Holds(y, c, t, {}, owed') {
      assert Holds(y, c, s, {r}, owed);
      match y
      case Counts =>
        assert Holds(Parents, c, s, {r}, owed);
        CompleteCounts(s.m, owed, r);
      case Parents =>
        assert Holds(Counts, c, s, {r}, owed);
        CompleteCounts(s.m, owed, r);
      case Fresh =>
      case Contents =>
      case Waiting =>
        forall q {:trigger t.m[q]} | q in t.m && t.m[q].data.Some? ensures Attended(c, t, q) {
          assert s.m[q] == t.m[q];
          CompleteWaiting(c, s, r, q);
        }
      case Ordered =>
        assert Holds(Contents, c, s, {r}, owed);
        NothingMissing(c, s, owed, r);
        CompleteOrder(c, s, r);
      case Closed =>
      case Tickets =>
        forall q {:trigger t.m[q]} | q in t.m && t.m[q].data.None? ensures Ticketed(t, q) { assert s.m[q] == t.m[q]; }
      case Roots =>
      case Live =>
        forall q {:trigger t.m[q]} | q in t.m && t.m[q].data.Some? ensures t.m[q].deps != 0 { assert s.m[q] == t.m[q]; }
    }
  }

  /** When a request waits for nothing, all that it needs is complete. */
  lemma NothingMissing(c: Content, s: State, owed: multiset<Hash>, r: Hash)
    requires Inv(c, s, {r}, owed) && r in s.m && s.m[r].deps == 0 && Attended(c, s, r)
    ensures forall x :: x in Needs(c, r) ==> Known(s, x)
  {
    assert Holds(Counts, c, s, {r}, owed);
    forall x | x in Needs(c, r) ensures Known(s, x) {
      if Awaited(s.m, x, r) { WaitsIn(s.m, x, r); }
    }
  }

  /** Nothing complete or awaited is lost. */
  ghost predicate Onward(s: State, t: State) {
    && (forall h :: Known(s, h) ==> Known(t, h))
    && (forall x, r {:trigger Awaited(t.m, x, r)} {:trigger Awaited(s.m, x, r)} :: Awaited(s.m, x, r) ==>
        Awaited(t.m, x, r))
  }

  lemma AttendedStays(c: Content, s: State, t: State, r: Hash)
    requires Attended(c, s, r) && Onward(s, t)
    ensures Attended(c, t, r)
  {
    forall x | x in Needs(c, r) ensures Known(t, x) || Awaited(t.m, x, r) { assert Known(s, x) || Awaited(s.m, x, r); }
  }

  /** One request is replaced; its hash, kind and data stay, and it keeps its parents. */
  ghost predicate Touched(m: Requests, r: Hash, q: Request) {
    r in m && q.kind == m[r].kind && q.data == m[r].data && m[r].parents <= q.parents
  }

  lemma TouchKeeps(c: Content, s: State, busy: set<Hash>, owed: multiset<Hash>, r: Hash, q: Request,
          owed': multiset<Hash>, busy': set<Hash>)
    requires Inv(c, s, busy, owed) && Touched(s.m, r, q) && busy <= busy' && (r in busy' || q.deps >= s.m[r].deps)
    requires AllCounted(s.m[r := q], owed') && AllParents(s.m[r := q], owed')
    ensures Inv(c, s.(m := s.m[r := q]), busy', owed') && Onward(s, s.(m := s.m[r := q]))
  {
    var t := s.(m := s.m[r := q]);
    assert Onward(s, t);
    assert Holds(Counts, c, s, busy, owed);
    forall y ensures Holds(y, c, t, busy', owed') {
      assert Holds(y, c, s, busy, owed);
      match y
      case Live =>
        forall p {:trigger t.m[p]} | p in t.m && p !in busy' && t.m[p].data.Some? ensures t.m[p].deps != 0 {
          assert s.m[p].deps > 0;
        }
      case Waiting =>
        forall p {:trigger t.m[p]} | p in t.m && p !in busy' && t.m[p].data.Some? ensures Attended(c, t, p) {
          assert s.m[p].data.Some?;
          AttendedStays(c, s, t, p);
        }
      case Tickets =>
        forall p {:trigger t.m[p]} | p in t.m && t.m[p].data.None? ensures Ticketed(t, p) { assert s.m[p].data.None?; }
      case _ =>
    }
  }

  function Counted(m: Requests, r: Hash, n: int): Request
    requires r in m
  {
    m[r].(deps := m[r].deps + n)
  }

  lemma CountOne(m: Requests, owed: multiset<Hash>, p: Hash, n: int, owed': multiset<Hash>)
    requires AllCounted(m, owed) && AllParents(m, owed) && p in m
    requires owed'[p] == owed[p] + n && forall q :: q != p ==> owed'[q] == owed[q]
    requires n > 0 ==> m[p].data.Some? && m[p].kind != Raw
    ensures AllCounted(m[p := Counted(m, p, n)], owed') && AllParents(m[p := Counted(m, p, n)], owed')
  {
    var m' := m[p := Counted(m, p, n)];
    WaitsSame(m, p, Counted(m, p, n));
    forall q | q in Waits(m') + owed' ensures q in m' && m'[q].data.Some? && m'[q].kind != Raw {
      assert q != p ==> q in Waits(m) + owed;
      assert q == p && n <= 0 ==> q in Waits(m) + owed;
    }
  }

  /** A parent is told that one of its children is complete. */
  lemma ReleaseKeeps(c: Content, s: State, owed: multiset<Hash>, p: Hash)
    requires Inv(c, s, {}, owed) && p in owed
    ensures p in s.m && s.m[p].data.Some?
    ensures Inv(c, s.(m := s.m[p := Counted(s.m, p, -1)]), {p}, owed - multiset{p})
    ensures Attended(c, s.(m := s.m[p := Counted(s.m, p, -1)]), p)
  {
    assert Holds(Counts, c, s, {}, owed) && Holds(Parents, c, s, {}, owed) && Holds(Waiting, c, s, {}, owed);
    assert p in Waits(s.m) + owed;
    CountOne(s.m, owed, p, -1, owed - multiset{p});
    TouchKeeps(c, s, {}, owed, p, Counted(s.m, p, -1), owed - multiset{p}, {p});
    AttendedStays(c, s, s.(m := s.m[p := Counted(s.m, p, -1)]), p);
  }

  /** A request is about to become the parent of `n` others. */
  lemma ExpectKeeps(c: Content, s: State, busy: set<Hash>, owed: multiset<Hash>, r: Hash, n: nat)
    requires Inv(c, s, busy, owed) && r in s.m && s.m[r].data.Some? && s.m[r].kind != Raw
    ensures Inv(c, s.(m := s.m[r := Counted(s.m, r, n)]), busy, owed + multiset{}[r := n])
    ensures Onward(s, s.(m := s.m[r := Counted(s.m, r, n)]))
  {
    assert Holds(Counts, c, s, busy, owed) && Holds(Parents, c, s, busy, owed);
    CountOne(s.m, owed, r, n, owed + multiset{}[r := n]);
    TouchKeeps(c, s, busy, owed, r, Counted(s.m, r, n), owed + multiset{}[r := n], busy);
  }

  function MoreParents(m: Requests, h: Hash, ps: seq<Hash>): Request
    requires h in m
  {
    m[h].(parents := m[h].parents + ps)
  }

  lemma MergeCounts(m: Requests, owed: multiset<Hash>, h: Hash, ps: seq<Hash>)
    requires AllCounted(m, owed) && AllParents(m, owed) && h in m && multiset(ps) <= owed
    ensures AllCounted(m[h := MoreParents(m, h, ps)], owed - multiset(ps))
              && AllParents(m[h := MoreParents(m, h, ps)], owed - multiset(ps))
  {
    var m' := m[h := MoreParents(m, h, ps)];
    WaitsMore(m, h, MoreParents(m, h, ps), ps);
    assert Waits(m') + (owed - multiset(ps)) == Waits(m) + owed;
  }

  /** `schedule` of something that is pending already. */
  lemma MergeKeeps(c: Content, s: State, busy: set<Hash>, owed: multiset<Hash>, h: Hash, ps: seq<Hash>)
    requires Inv(c, s, busy, owed) && h in s.m && multiset(ps) <= owed
    ensures Inv(c, s.(m := s.m[h := MoreParents(s.m, h, ps)]), busy, owed - multiset(ps))
    ensures Onward(s, s.(m := s.m[h := MoreParents(s.m, h, ps)]))
  {
    assert Holds(Counts, c, s, busy, owed) && Holds(Parents, c, s, busy, owed);
    MergeCounts(s.m, owed, h, ps);
    TouchKeeps(c, s, busy, owed, h, MoreParents(s.m, h, ps), owed - multiset(ps), busy);
  }

  function Scheduled(s: State, h: Hash, r: Request): State {
    s.(m := s.m[h := r], queue := s.queue + [Ticket(h, r.depth)])
  }

  lemma ScheduleCounts(m: Requests, owed: multiset<Hash>, h: Hash, r: Request)
    requires AllCounted(m, owed) && AllParents(m, owed) && h !in m && multiset(r.parents) <= owed && r.deps == 0
    ensures AllCounted(m[h := r], owed - multiset(r.parents)) && AllParents(m[h := r], owed - multiset(r.parents))
  {
    WaitsAdd(m, h, r);
    assert Waits(m[h := r]) + (owed - multiset(r.parents)) == Waits(m) + owed;
    assert h !in Waits(m) + owed;
  }

  lemma ScheduleOnward(s: State, h: Hash, r: Request)
    requires h !in s.m
    ensures Onward(s, Scheduled(s, h, r))
  {}

  /** `schedule` of something new. */
  lemma ScheduleKeeps(c: Content, s: State, busy: set<Hash>, owed: multiset<Hash>, h: Hash, r: Request)
    requires Inv(c, s, busy, owed) && h !in s.m && !Known(s, h) && multiset(r.parents) <= owed
    requires r.kind == c.kindOf(h) && r.data == None && r.deps == 0
    ensures Inv(c, Scheduled(s, h, r), busy, owed - multiset(r.parents)) && Onward(s, Scheduled(s, h, r))
  {
    var t, owed' := Scheduled(s, h, r), owed - multiset(r.parents);
    ScheduleOnward(s, h, r);
    forall y ensures Holds(y, c, t, busy, owed') {
      assert Holds(y, c, s, busy, owed);
      match y
      case Counts =>
        assert Holds(Parents, c, s, busy, owed);
        ScheduleCounts(s.m, owed, h, r);
      case Parents =>
        assert Holds(Counts, c, s, busy, owed);
        ScheduleCounts(s.m, owed, h, r);
      case Waiting =>
        forall p {:trigger t.m[p]} | p in t.m && p !in busy && t.m[p].data.Some? ensures Attended(c, t, p) {
          assert s.m[p] == t.m[p];
          AttendedStays(c, s, t, p);
        }
      case Tickets => ScheduleTickets(s, h, r);
      case Ordered => assert InOrder(c, t);
      case Live =>
      case Contents =>
      case _ =>
    }
  }

  lemma ScheduleTickets(s: State, h: Hash, r: Request)
    requires forall p {:trigger s.m[p]} :: p in s.m && s.m[p].data.None? ==> Ticketed(s, p)
    ensures var t := Scheduled(s, h, r); forall p {:trigger t.m[p]} :: p in t.m && t.m[p].data.None? ==> Ticketed(t, p)
  {
    var t := Scheduled(s, h, r);
    forall p {:trigger t.m[p]} | p in t.m && t.m[p].data.None? ensures Ticketed(t, p) {
      if p == h { assert t.queue[|s.queue|].hash == h; } else { TicketStays(s, t, p); }
    }
  }

  lemma TicketStays(s: State, t: State, p: Hash)
    requires p in s.m && (s.m[p].data.None? ==> Ticketed(s, p)) && s.m[p].data.None? && s.asked == t.asked
               && s.queue <= t.queue
    ensures Ticketed(t, p)
  {
    if p !in s.asked {
      var i :| 0 <= i < |s.queue| && s.queue[i].hash == p;
      assert t.queue[i] == s.queue[i];
    }
  }

  function Arrived(s: State, r: Hash, b: Bytes): State
    requires r in s.m
  {
    s.(m := s.m[r := s.m[r].(data := Some(b))])
  }

  lemma ArriveCounts(m: Requests, r: Hash, b: Bytes)
    requires AllCounted(m, multiset{}) && AllParents(m, multiset{}) && r in m
    ensures AllCounted(m[r := m[r].(data := Some(b))], multiset{})
              && AllParents(m[r := m[r].(data := Some(b))], multiset{})
  {
    WaitsSame(m, r, m[r].(data := Some(b)));
  }

  lemma ArriveOnward(s: State, r: Hash, b: Bytes)
    requires r in s.m
    ensures Onward(s, Arrived(s, r, b))
  {}

  /** Data arrives; its children are to be looked at. */
  lemma ArriveKeeps(c: Content, s: State, r: Hash, b: Bytes)
    requires Inv(c, s, {}, multiset{}) && r in s.m && s.m[r].data.None? && Genuine(c, r, b)
    ensures Inv(c, Arrived(s, r, b), {r}, multiset{})
  {
    var t := Arrived(s, r, b);
    forall y ensures Holds(y, c, t, {r}, multiset{}) {
      assert Holds(y, c, s, {}, multiset{});
      match y
      case Counts =>
        assert Holds(Parents, c, s, {}, multiset{});
        ArriveCounts(s.m, r, b);
      case Parents =>
        assert Holds(Counts, c, s, {}, multiset{});
        ArriveCounts(s.m, r, b);
      case Waiting =>
        ArriveOnward(s, r, b);
        forall p {:trigger t.m[p]} | p in t.m && p !in {r} && t.m[p].data.Some? ensures Attended(c, t, p) {
          assert s.m[p] == t.m[p];
          AttendedStays(c, s, t, p);
        }
      case Tickets =>
        forall p {:trigger t.m[p]} | p in t.m && t.m[p].data.None? ensures Ticketed(t, p) { assert s.m[p] == t.m[p]; }
      case _ =>
    }
  }

  /** All children of a request have been looked at. */
  lemma SettleKeeps(c: Content, s: State, r: Hash, owed: multiset<Hash>)
    requires Inv(c, s, {r}, owed) && Attended(c, s, r) && (r in s.m ==> s.m[r].deps != 0)
    ensures Inv(c, s, {}, owed)
  {
    forall y ensures Holds(y, c, s, {}, owed) { assert Holds(y, c, s, {r}, owed); }
  }

  /** A hash is handed out for retrieval. */
  lemma HandOutKeeps(c: Content, s: State, k: nat)
    requires Inv(c, s, {}, multiset{}) && k < |s.queue|
    ensures Inv(c, s.(queue := s.queue[..k] + s.queue[k + 1..], asked := s.asked + {s.queue[k].hash}), {}, multiset{})
  {
    var t := s.(queue := s.queue[..k] + s.queue[k + 1..], asked := s.asked + {s.queue[k].hash});
    forall y ensures Holds(y, c, t, {}, multiset{}) {
      assert Holds(y, c, s, {}, multiset{});
      match y
      case Waiting =>
        forall p {:trigger t.m[p]} | p in t.m && t.m[p].data.Some? ensures Attended(c, t, p) {
          AttendedStays(c, s, t, p);
        }
      case Tickets =>
        forall p {:trigger t.m[p]} | p in t.m && t.m[p].data.None? ensures Ticketed(t, p) {
          assert Ticketed(s, p);
          if p !in t.asked {
            var i :| 0 <= i < |s.queue| && s.queue[i].hash == p;
            assert t.queue[if i < k then i else i - 1] == s.queue[i];
          }
        }
      case _ =>
    }
  }

  /** The first `n` nodes of the batch are written. */
  function Written(s: State, n: nat): map<Hash, Bytes>
    requires n <= |s.order| && forall h :: h in s.order ==> h in s.batch
  {
    if n == 0 then s.db else Written(s, n - 1)[s.order[n - 1] := s.batch[s.order[n - 1]]]
  }

  /** Every prefix of the writes leaves the database closed. */
  lemma {:induction false} WritesClosed(c: Content, s: State, n: nat)
    requires InOrder(c, s) && DbClosed(c, s.db) && n <= |s.order|
    requires forall h {:trigger s.batch[h]} :: h in s.batch ==> Genuine(c, h, s.batch[h])
    ensures DbClosed(c, Written(s, n))
    ensures forall h :: h in Written(s, n) <==> h in s.db || h in s.order[..n]
  {
    if n > 0 {
      WritesClosed(c, s, n - 1);
      var h := s.order[n - 1];
      assert s.order[..n] == s.order[..n - 1] + [h];
      forall x | x in Needs(c, h) ensures x in Written(s, n) {
        assert x in s.db || x in s.order[..n - 1];
      }
    }
  }

  /** Writing a prefix of the batch keeps the invariant, and so does dropping the batch once it is all written. */
  lemma WriteKeeps(c: Content, s: State, n: nat)
    requires Inv(c, s, {}, multiset{}) && n <= |s.order|
    ensures forall h :: h in s.order ==> h in s.batch
    ensures Inv(c, s.(db := Written(s, n)), {}, multiset{})
    ensures forall h :: h in Written(s, n) <==> h in s.db || h in s.order[..n]
    ensures forall h :: Known(s.(db := Written(s, n)), h) <==> Known(s, h)
  {
    assert Holds(Ordered, c, s, {}, multiset{}) && Holds(Closed, c, s, {}, multiset{});
    WritesClosed(c, s, n);
    var t := s.(db := Written(s, n));
    assert forall h :: Known(s, h) <==> Known(t, h);
    forall y ensures Holds(y, c, t, {}, multiset{}) {
      assert Holds(y, c, s, {}, multiset{});
      match y
      case Waiting =>
        forall p {:trigger t.m[p]} | p in t.m && t.m[p].data.Some? ensures Attended(c, t, p) {
          AttendedStays(c, s, t, p);
        }
      case _ =>
    }
  }

  lemma DropKeeps(c: Content, s: State)
    requires Inv(c, s, {}, multiset{}) && forall h :: h in s.order ==> h in s.db
    ensures Inv(c, s.(batch := map[], order := []), {}, multiset{})
    ensures forall h :: Known(s.(batch := map[], order := []), h) <==> Known(s, h)
  {
    var t := s.(batch := map[], order := []);
    assert Holds(Ordered, c, s, {}, multiset{});
    assert forall h :: Known(s, h) <==> Known(t, h);
    forall y ensures Holds(y, c, t, {}, multiset{}) {
      assert Holds(y, c, s, {}, multiset{});
      match y
      case Waiting =>
        forall p {:trigger t.m[p]} | p in t.m && t.m[p].data.Some? ensures Attended(c, t, p) {
          AttendedStays(c, s, t, p);
        }
      case _ =>
    }
  }

  // ------------------------------------------------------------------------------------------
  // What the invariant means
  // ------------------------------------------------------------------------------------------

  /** Each step of `way` leads from an entry to one that it needs. */
  ghost predicate Below(c: Content, way: seq<Hash>) {
    way != [] && forall i {:trigger way[i]} :: 0 < i < |way| ==> way[i] in Needs(c, way[i - 1])
  }

  /** What is known is known all the way down. */
  lemma {:induction false} KnownBelow(c: Content, s: State, way: seq<Hash>, n: nat)
    requires Inv(c, s, {}, multiset{}) && Below(c, way) && n < |way| && Known(s, way[0])
    ensures Known(s, way[n])
  {
    if n > 0 {
      KnownBelow(c, s, way, n - 1);
      var h, x := way[n - 1], way[n];
      assert x in Needs(c, h);
      assert Holds(Ordered, c, s, {}, multiset{}) && Holds(Closed, c, s, {}, multiset{});
      if h in s.batch {
        var i :| 0 <= i < |s.order| && s.order[i] == h;
        assert x in Needs(c, s.order[i]);
      }
    }
  }

  /** With nothing pending, everything below what the user has asked for is present. */
  lemma NothingPendingIsComplete(c: Content, s: State, root: Hash, way: seq<Hash>)
    requires Inv(c, s, {}, multiset{}) && s.m == map[] && root in s.roots && Below(c, way) && way[0] == root
    ensures Known(s, way[|way| - 1])
  {
    assert Holds(Roots, c, s, {}, multiset{});
    KnownBelow(c, s, way, |way| - 1);
  }

  /** A pending request counts exactly how often it is a parent among the pending requests. */
  lemma DepsAreLinks(c: Content, s: State, r: Hash)
    requires Inv(c, s, {}, multiset{}) && r in s.m
    ensures s.m[r].deps == Waits(s.m)[r]
  {
    assert Holds(Counts, c, s, {}, multiset{});
  }
}

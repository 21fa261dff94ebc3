/**
 The write cache of trie nodes in src/trie/database.go: reference counts, the flush-list threaded through the
 map of cached nodes, and the disk behind it. Hash 0 is the zero hash, under which the cache keeps its
 meta-root: a node that only counts references to roots.
 */
module NodeGraph {
  import opened TrieKeys

  type Hash = nat

  const META: Hash := 0

  /** What a cached node is: its encoding, the hashes in it, and the references added from outside. */
  datatype Body = Body(blob: Bytes, children: seq<Hash>, external: map<Hash, nat>)

  datatype Node = Node(body: Body, parents: nat, prev: Hash, next: Hash) {
    /** The byte size, kept in 16 bits. */
    function Size(): nat {
      |body.blob| % 0x1_0000
    }
  }

  type Nodes = map<Hash, Node>

  /** How often a node refers to `c`. */
  function Refs(b: Body, c: Hash): nat {
    multiset(b.children)[c] + if c in b.external then b.external[c] else 0
  }

  /** What `descendents` lists: every external reference once, and the hashes inside with repetition. */
  ghost function Owed(b: Body): multiset<Hash> {
    multiset(b.external.Keys) + multiset(b.children)
  }

  ghost predicate Refers(b: Body, c: Hash) {
    c in b.children || c in b.external
  }

  // ------------------------------------------------------------------------------------------
  // Sums over a list of nodes
  // ------------------------------------------------------------------------------------------

  ghost function SumTo(f: Hash -> nat, s: seq<Hash>, n: nat): nat
    requires n <= |s|
  {
    if n == 0 then 0 else SumTo(f, s, n - 1) + f(s[n - 1])
  }

  ghost function Sum(f: Hash -> nat, s: seq<Hash>): nat {
    SumTo(f, s, |s|)
  }

  lemma {:induction false} SumToSame(f: Hash -> nat, s: seq<Hash>, g: Hash -> nat, t: seq<Hash>, n: nat)
    requires n <= |s| && n <= |t| && forall i :: 0 <= i < n ==> f(s[i]) == g(t[i])
    ensures SumTo(f, s, n) == SumTo(g, t, n)
  {
    if n > 0 { SumToSame(f, s, g, t, n - 1); }
  }

  lemma SumSame(f: Hash -> nat, g: Hash -> nat, s: seq<Hash>)
    requires forall h :: h in s ==> f(h) == g(h)
    ensures Sum(f, s) == Sum(g, s)
  {
    SumToSame(f, s, g, s, |s|);
  }

  lemma SumSnoc(f: Hash -> nat, a: seq<Hash>, x: Hash)
    ensures Sum(f, a + [x]) == Sum(f, a) + f(x)
  {
    SumToSame(f, a + [x], f, a, |a|);
  }

  function Without(s: seq<Hash>, k: nat): seq<Hash>
    requires k < |s|
  {
    s[..k] + s[k + 1..]
  }

  lemma {:induction false} SumToWithout(f: Hash -> nat, s: seq<Hash>, k: nat, n: nat)
    requires k <= n < |s|
    ensures SumTo(f, s, n + 1) == SumTo(f, Without(s, k), n) + f(s[k])
  {
    var t := Without(s, k);
    if n == k {
      SumToSame(f, s, f, t, k);
    } else {
      SumToWithout(f, s, k, n - 1);
      assert t[n - 1] == s[n];
    }
  }

  lemma SumWithout(f: Hash -> nat, s: seq<Hash>, k: nat)
    requires k < |s|
    ensures Sum(f, s) == Sum(f, Without(s, k)) + f(s[k])
  {
    SumToWithout(f, s, k, |s| - 1);
  }

  lemma SumPart(f: Hash -> nat, s: seq<Hash>, h: Hash)
    requires h in s
    ensures f(h) <= Sum(f, s)
  {
    var k :| 0 <= k < |s| && s[k] == h;
    SumWithout(f, s, k);
  }

  ghost function SizeIn(d: Nodes): Hash -> nat {
    h => if h in d then 32 + d[h].Size() else 0
  }

  ghost function RefsIn(d: Nodes, c: Hash): Hash -> nat {
    h => if h in d then Refs(d[h].body, c) else 0
  }

  // ------------------------------------------------------------------------------------------
  // The parts of the invariant
  // ------------------------------------------------------------------------------------------

  /**
   The flush-list is the linked list from `oldest`; the first node's `prev` and, when it is empty, `newest` may be
   stale.
   */
  ghost predicate Linked(d: Nodes, s: seq<Hash>, oldest: Hash, newest: Hash) {
    && oldest == (if s == [] then META else s[0])
    && (s != [] ==> newest == s[|s| - 1])
    && (forall h :: h in s ==> h in d && h != META)
    && (forall i {:trigger d[s[i]]} :: 0 <= i < |s| ==> d[s[i]].next == if i + 1 < |s| then s[i + 1] else META)
    && (forall i {:trigger d[s[i]]} :: 1 <= i < |s| ==> d[s[i]].prev == s[i - 1])
  }

  /** Every cached node is the meta-root, in the flush-list, or on the path of nodes being removed. */
  ghost predicate Listed(d: Nodes, s: seq<Hash>, path: seq<Hash>) {
    && META in d
    && (forall h :: h in path ==> h in d && h != META && h !in s)
    && (forall h {:trigger h in d} :: h in d ==> h == META || h in s || h in path)
  }

  /** The list is in insertion order. */
  ghost predicate Ordered(s: seq<Hash>, stamp: map<Hash, nat>, clock: nat) {
    && (forall h :: h in s ==> h in stamp && stamp[h] < clock)
    && (forall i, j {:trigger stamp[s[i]], stamp[s[j]]} :: 0 <= i < j < |s| ==> stamp[s[i]] < stamp[s[j]])
  }

  /** A reference from the list leads to the disk or to an older node of the list. */
  ghost predicate Grounded(b: Body, p: Hash, s: seq<Hash>, stamp: map<Hash, nat>, disk: set<Hash>) {
    forall c {:trigger Refers(b, c)} :: Refers(b, c) ==>
      c in disk || (c in s && (p != META ==> p in stamp && c in stamp && stamp[c] < stamp[p]))
  }

  ghost predicate AllGrounded(d: Nodes, s: seq<Hash>, stamp: map<Hash, nat>, disk: set<Hash>) {
    forall p {:trigger d[p]} :: p in d && (p in s || p == META) ==> Grounded(d[p].body, p, s, stamp, disk)
  }

  /** The reference count of `c` is the number of references to it, from the list, the meta-root and `owed`. */
  ghost predicate Counted(d: Nodes, s: seq<Hash>, owed: multiset<Hash>, c: Hash)
  {
    c in d && META in d && d[c].parents == Refs(d[META].body, c) + Sum(RefsIn(d, c), s) + owed[c]
  }

  ghost predicate AllCounted(d: Nodes, s: seq<Hash>, owed: multiset<Hash>, disk: set<Hash>) {
    forall c :: c in s && c !in disk ==> Counted(d, s, owed, c)
  }

  /** Hash references cannot form a cycle. */
  ghost predicate Ranked(b: Body, p: Hash, rank: Hash -> nat) {
    && (forall c {:trigger Refers(b, c)} :: Refers(b, c) ==> c != META && (p != META ==> rank(c) < rank(p)))
    && (forall c :: c in b.external ==> b.external[c] > 0 && (p != META ==> b.external[c] == 1))
  }

  ghost predicate AllRanked(d: Nodes, rank: Hash -> nat) {
    forall p {:trigger d[p]} :: p in d ==> Ranked(d[p].body, p, rank)
  }

  ghost predicate DiskClosed(refs: map<Hash, set<Hash>>) {
    forall h, c :: h in refs && c in refs[h] ==> c in refs
  }

  /** Two states of the cache hold the same nodes, up to links and counts. */
  ghost predicate SameBodies(d: Nodes, e: Nodes) {
    d.Keys == e.Keys && forall h {:trigger d[h]} {:trigger e[h]} :: h in d ==> d[h].body == e[h].body
  }

  /** Unlinking changes no body and no count. */
  ghost predicate SameUpToLinks(d: Nodes, e: Nodes) {
    SameBodies(d, e) && forall h {:trigger d[h]} {:trigger e[h]} :: h in d ==> d[h].parents == e[h].parents
  }

  lemma SumsSame(d: Nodes, e: Nodes, s: seq<Hash>)
    requires SameBodies(d, e)
    ensures Sum(SizeIn(d), s) == Sum(SizeIn(e), s)
    ensures forall c :: Sum(RefsIn(d, c), s) == Sum(RefsIn(e, c), s)
  {
    SumSame(SizeIn(d), SizeIn(e), s);
    forall c ensures Sum(RefsIn(d, c), s) == Sum(RefsIn(e, c), s) { SumSame(RefsIn(d, c), RefsIn(e, c), s); }
  }

  lemma OwedIsRefs(b: Body, p: Hash, rank: Hash -> nat, c: Hash)
    requires Ranked(b, p, rank) && p != META
    ensures Owed(b)[c] == Refs(b, c) && (c in Owed(b) <==> Refers(b, c))
  {}

  // ------------------------------------------------------------------------------------------
  // Taking a node out of the list
  // ------------------------------------------------------------------------------------------

  function SetNext(d: Nodes, h: Hash, next: Hash): (e: Nodes)
    requires h in d
    ensures SameUpToLinks(d, e)
  {
    d[h := d[h].(next := next)]
  }

  function SetPrev(d: Nodes, h: Hash, prev: Hash): (e: Nodes)
    requires h in d
    ensures SameUpToLinks(d, e)
  {
    d[h := d[h].(prev := prev)]
  }

  /** Nodes `p` and `n` become neighbours. */
  function Joined(d: Nodes, p: Hash, n: Hash): (e: Nodes)
    requires p in d && n in d
    ensures SameUpToLinks(d, e)
    ensures forall h {:trigger e[h]} :: h in d ==>
              e[h].next == (if h == p then n else d[h].next) && e[h].prev == if h == n then p else d[h].prev
  {
    SetPrev(SetNext(d, p, n), n, p)
  }

  lemma Apart(s: seq<Hash>, stamp: map<Hash, nat>, clock: nat, i: nat, j: nat)
    requires Ordered(s, stamp, clock) && i < |s| && j < |s| && i != j
    ensures s[i] != s[j]
  {
    assert stamp[s[i]] != stamp[s[j]];
  }

  lemma WithoutHas(s: seq<Hash>, k: nat, stamp: map<Hash, nat>, clock: nat)
    requires k < |s| && Ordered(s, stamp, clock)
    ensures forall h :: h in Without(s, k) <==> h in s && h != s[k]
  {
    var t := Without(s, k);
    forall i: nat | i < |t| ensures t[i] in s && t[i] != s[k] {
      var j := if i < k then i else i + 1;
      assert t[i] == s[j];
      Apart(s, stamp, clock, j, k);
    }
    forall h | h in s && h != s[k] ensures h in t {
      var i :| 0 <= i < |s| && s[i] == h;
      assert t[if i < k then i else i - 1] == h;
    }
  }

  lemma WithoutOrdered(s: seq<Hash>, k: nat, stamp: map<Hash, nat>, clock: nat)
    requires k < |s| && Ordered(s, stamp, clock)
    ensures Ordered(Without(s, k), stamp, clock)
  {
    var t := Without(s, k);
    WithoutHas(s, k, stamp, clock);
    forall i, j | 0 <= i < j < |t| ensures stamp[t[i]] < stamp[t[j]] {
      var i', j' := if i < k then i else i + 1, if j < k then j else j + 1;
      assert t[i] == s[i'] && t[j] == s[j'];
      assert stamp[s[i']] < stamp[s[j']];
    }
  }

  lemma UnlinkFirst(d: Nodes, s: seq<Hash>, oldest: Hash, newest: Hash, stamp: map<Hash, nat>, clock: nat)
    requires Linked(d, s, oldest, newest) && Ordered(s, stamp, clock) && s != [] && META in d
    ensures d[s[0]].next in d
    ensures Linked(SetPrev(d, d[s[0]].next, META), Without(s, 0), d[s[0]].next, newest)
  {
    var e, t := SetPrev(d, d[s[0]].next, META), Without(s, 0);
    WithoutHas(s, 0, stamp, clock);
    forall i | 0 <= i < |t| ensures e[t[i]].next == if i + 1 < |t| then t[i + 1] else META {
      assert t[i] == s[i + 1] && d[s[i + 1]].next == if i + 2 < |s| then s[i + 2] else META;
    }
    forall i: nat | 1 <= i < |t| ensures e[t[i]].prev == t[i - 1] {
      Apart(s, stamp, clock, i + 1, 1);
      assert t[i] == s[i + 1] && d[s[i + 1]].prev == s[i];
    }
  }

  lemma LastNext(d: Nodes, e: Nodes, s: seq<Hash>, oldest: Hash, newest: Hash, stamp: map<Hash, nat>, clock: nat)
    requires Linked(d, s, oldest, newest) && Ordered(s, stamp, clock) && |s| > 1 && e == SetNext(d, s[|s| - 2], META)
    ensures var t := Without(s, |s| - 1);
            forall i: nat {:trigger e[t[i]]} | i < |t| ::
                t[i] in e && e[t[i]].next == if i + 1 < |t| then t[i + 1] else META
  {
    var n: nat := |s| - 1;
    var t := Without(s, n);
    forall i: nat {:trigger e[t[i]]} | i < |t|
      ensures t[i] in e && e[t[i]].next == if i + 1 < |t| then t[i + 1] else META
    {
      assert t[i] == s[i] && d[s[i]].next == s[i + 1];
      if i != n - 1 { Apart(s, stamp, clock, i, n - 1); }
    }
  }

  lemma LastPrev(d: Nodes, e: Nodes, s: seq<Hash>, oldest: Hash, newest: Hash)
    requires Linked(d, s, oldest, newest) && |s| > 1 && e == SetNext(d, s[|s| - 2], META)
    ensures var t := Without(s, |s| - 1);
            forall i: nat {:trigger e[t[i]]} | 1 <= i < |t| :: t[i] in e && e[t[i]].prev == t[i - 1]
  {
    var t := Without(s, |s| - 1);
    forall i: nat {:trigger e[t[i]]} | 1 <= i < |t| ensures t[i] in e && e[t[i]].prev == t[i - 1] {
      assert t[i] == s[i] && d[s[i]].prev == s[i - 1];
    }
  }

  lemma UnlinkLast(d: Nodes, s: seq<Hash>, oldest: Hash, newest: Hash, stamp: map<Hash, nat>, clock: nat)
    requires Linked(d, s, oldest, newest) && Ordered(s, stamp, clock) && |s| > 1
    ensures d[newest].prev in d
    ensures Linked(SetNext(d, d[newest].prev, META), Without(s, |s| - 1), oldest, d[newest].prev)
  {
    var n: nat := |s| - 1;
    assert d[s[n]].prev == s[n - 1];
    var e := SetNext(d, s[n - 1], META);
    WithoutHas(s, n, stamp, clock);
    LastNext(d, e, s, oldest, newest, stamp, clock);
    LastPrev(d, e, s, oldest, newest);
  }

  lemma MiddleNext(d: Nodes, e: Nodes, s: seq<Hash>, oldest: Hash, newest: Hash, stamp: map<Hash, nat>, clock: nat,
          k: nat)
    requires Linked(d, s, oldest, newest) && Ordered(s, stamp, clock) && 0 < k < |s| - 1
    requires forall h :: h in s ==> h in e && e[h].next == if h == s[k - 1] then s[k + 1] else d[h].next
    ensures var t := Without(s, k);
            forall i: nat {:trigger e[t[i]]} | i < |t| ::
                t[i] in e && e[t[i]].next == if i + 1 < |t| then t[i + 1] else META
  {
    var t := Without(s, k);
    forall i: nat {:trigger e[t[i]]} | i < |t|
      ensures t[i] in e && e[t[i]].next == if i + 1 < |t| then t[i + 1] else META
    {
      var j := if i < k then i else i + 1;
      assert t[i] == s[j] && d[s[j]].next == if j + 1 < |s| then s[j + 1] else META;
      if j != k - 1 { Apart(s, stamp, clock, j, k - 1); }
    }
  }

  lemma MiddlePrev(d: Nodes, e: Nodes, s: seq<Hash>, oldest: Hash, newest: Hash, stamp: map<Hash, nat>, clock: nat,
          k: nat)
    requires Linked(d, s, oldest, newest) && Ordered(s, stamp, clock) && 0 < k < |s| - 1
    requires forall h :: h in s ==> h in e && e[h].prev == if h == s[k + 1] then s[k - 1] else d[h].prev
    ensures var t := Without(s, k);
            forall i: nat {:trigger e[t[i]]} | 1 <= i < |t| :: t[i] in e && e[t[i]].prev == t[i - 1]
  {
    var t := Without(s, k);
    forall i: nat {:trigger e[t[i]]} | 1 <= i < |t| ensures t[i] in e && e[t[i]].prev == t[i - 1] {
      var j := if i < k then i else i + 1;
      assert t[i] == s[j] && d[s[j]].prev == s[j - 1];
      if j != k + 1 { Apart(s, stamp, clock, j, k + 1); }
    }
  }

  lemma UnlinkMiddle(d: Nodes, s: seq<Hash>, oldest: Hash, newest: Hash, stamp: map<Hash, nat>, clock: nat, k: nat)
    requires Linked(d, s, oldest, newest) && Ordered(s, stamp, clock) && 0 < k < |s| - 1
    ensures d[s[k]].prev in d && d[s[k]].next in d
    ensures Linked(Joined(d, d[s[k]].prev, d[s[k]].next), Without(s, k), oldest, newest)
  {
    assert d[s[k]].prev == s[k - 1] && d[s[k]].next == s[k + 1];
    var e := Joined(d, s[k - 1], s[k + 1]);
    WithoutHas(s, k, stamp, clock);
    MiddleNext(d, e, s, oldest, newest, stamp, clock, k);
    MiddlePrev(d, e, s, oldest, newest, stamp, clock, k);
  }

  // ------------------------------------------------------------------------------------------
  // The invariant, and how each kind of step keeps it
  // ------------------------------------------------------------------------------------------

  /** The cache with its history: when nodes were inserted, and what the nodes on disk refer to. */
  datatype Cache = Cache(d: Nodes, oldest: Hash, newest: Hash, size: int, flush: seq<Hash>,
                         stamp: map<Hash, nat>, clock: nat, wraps: nat, refs: map<Hash, set<Hash>>)

  /** The clauses of the invariant. */
  datatype Clause = Links | Listing | Order | Grounds | Counts | Ranks | Disk | Sizes

  ghost predicate Holds(x: Clause, v: Cache, path: seq<Hash>, owed: multiset<Hash>, rank: Hash -> nat) {
    match x
    case Links => Linked(v.d, v.flush, v.oldest, v.newest)
    case Listing => Listed(v.d, v.flush, path)
    case Order => Ordered(v.flush, v.stamp, v.clock)
    case Grounds => AllGrounded(v.d, v.flush, v.stamp, v.refs.Keys)
    case Counts => AllCounted(v.d, v.flush, owed, v.refs.Keys)
    case Ranks => AllRanked(v.d, rank)
    case Disk => DiskClosed(v.refs)
    case Sizes => Sized(v, path)
  }

  /**
   What holds between any two steps. `path` are the nodes being removed: out of the list, not yet out of the
   map. `owed` are the references of theirs that are still counted.
   */
  ghost predicate Inv(v: Cache, path: seq<Hash>, owed: multiset<Hash>, rank: Hash -> nat) {
    forall x :: Holds(x, v, path, owed, rank)
  }

  /** Where nodes are. */
  lemma Whereabouts(v: Cache, path: seq<Hash>, owed: multiset<Hash>, rank: Hash -> nat)
    requires Inv(v, path, owed, rank)
    ensures META in v.d && META !in v.flush && META !in path
    ensures forall h :: h in v.flush ==> h in v.d && h !in path
    ensures forall h {:trigger h in path} :: h in path ==> h in v.d
    ensures forall h {:trigger h in v.d} :: h in v.d ==> h == META || h in v.flush || h in path
    ensures v.oldest == (if v.flush == [] then META else v.flush[0])
    ensures v.flush != [] ==> v.oldest in v.flush && v.newest in v.flush
  {
    assert Holds(Links, v, path, owed, rank) && Holds(Listing, v, path, owed, rank);
  }

  /** The running size is exact but for one wrap-around of 16 bits for every oversized blob inserted. */
  ghost predicate Sized(v: Cache, path: seq<Hash>) {
    v.size == Sum(SizeIn(v.d), v.flush) + Sum(SizeIn(v.d), path) - 0x1_0000 * v.wraps
  }

  /** A node that nothing in the cache refers to, unless it is on disk. */
  ghost predicate Free(v: Cache, h: Hash) {
    h in v.refs || forall p {:trigger v.d[p]} :: p in v.d && (p in v.flush || p == META) ==> !Refers(v.d[p].body, h)
  }

  lemma CountZero(v: Cache, path: seq<Hash>, owed: multiset<Hash>, rank: Hash -> nat, h: Hash)
    requires Inv(v, path, owed, rank) && h in v.flush && h in v.d && (h in v.refs || v.d[h].parents == 0)
    ensures Free(v, h)
  {
    if h !in v.refs {
      assert Holds(Counts, v, path, owed, rank) && Holds(Ranks, v, path, owed, rank);
      assert Counted(v.d, v.flush, owed, h);
      NoneRefers(v, h, rank);
    }
  }

  lemma NoneRefers(v: Cache, h: Hash, rank: Hash -> nat)
    requires META in v.d && Refs(v.d[META].body, h) + Sum(RefsIn(v.d, h), v.flush) == 0 && AllRanked(v.d, rank)
    ensures Free(v, h)
  {
    forall p {:trigger v.d[p]} | p in v.d && (p in v.flush || p == META) ensures !Refers(v.d[p].body, h) {
      if p != META { SumPart(RefsIn(v.d, h), v.flush, p); }
      assert Ranked(v.d[p].body, p, rank);
    }
  }

  lemma UnlinkGrounded(v: Cache, e: Nodes, k: nat)
    requires k < |v.flush| && Ordered(v.flush, v.stamp, v.clock) && Free(v, v.flush[k])
    requires SameUpToLinks(v.d, e) && AllGrounded(v.d, v.flush, v.stamp, v.refs.Keys)
    ensures AllGrounded(e, Without(v.flush, k), v.stamp, v.refs.Keys)
  {
    var t := Without(v.flush, k);
    WithoutHas(v.flush, k, v.stamp, v.clock);
    forall p {:trigger e[p]} | p in e && (p in t || p == META) ensures Grounded(e[p].body, p, t, v.stamp, v.refs.Keys) {
      assert Grounded(v.d[p].body, p, v.flush, v.stamp, v.refs.Keys);
    }
  }

  lemma UnlinkCounted(v: Cache, e: Nodes, k: nat, owed: multiset<Hash>, rank: Hash -> nat)
    requires k < |v.flush| && Ordered(v.flush, v.stamp, v.clock) && v.flush[k] in v.d && v.flush[k] != META
    requires SameUpToLinks(v.d, e) && AllRanked(v.d, rank) && AllCounted(v.d, v.flush, owed, v.refs.Keys)
    ensures AllCounted(e, Without(v.flush, k), owed + Owed(v.d[v.flush[k]].body), v.refs.Keys)
  {
    var h, t := v.flush[k], Without(v.flush, k);
    WithoutHas(v.flush, k, v.stamp, v.clock);
    SumsSame(v.d, e, t);
    forall c | c in t && c !in v.refs.Keys ensures Counted(e, t, owed + Owed(v.d[h].body), c) {
      assert Counted(v.d, v.flush, owed, c);
      SumWithout(RefsIn(v.d, c), v.flush, k);
      OwedIsRefs(v.d[h].body, h, rank, c);
    }
  }

  lemma UnlinkSized(v: Cache, e: Nodes, k: nat, path: seq<Hash>)
    requires k < |v.flush| && SameUpToLinks(v.d, e) && Sized(v, path)
    ensures v.size == Sum(SizeIn(e), Without(v.flush, k)) + Sum(SizeIn(e), path + [v.flush[k]]) - 0x1_0000 * v.wraps
  {
    var t := Without(v.flush, k);
    SumsSame(v.d, e, t);
    SumsSame(v.d, e, path + [v.flush[k]]);
    SumWithout(SizeIn(v.d), v.flush, k);
    SumSnoc(SizeIn(v.d), path, v.flush[k]);
  }

  /** A node that nothing refers to leaves the list; its own references become owed. */
  lemma UnlinkKeeps(v: Cache, e: Nodes, oldest: Hash, newest: Hash, k: nat, path: seq<Hash>, owed: multiset<Hash>,
          rank: Hash -> nat)
    requires Inv(v, path, owed, rank) && k < |v.flush| && v.flush[k] in v.d && Free(v, v.flush[k])
               && SameUpToLinks(v.d, e)
    requires Linked(e, Without(v.flush, k), oldest, newest)
    ensures Inv(v.(d := e, oldest := oldest, newest := newest, flush := Without(v.flush, k)),
                path + [v.flush[k]], owed + Owed(v.d[v.flush[k]].body), rank)
  {
    var w, h := v.(d := e, oldest := oldest, newest := newest, flush := Without(v.flush, k)), v.flush[k];
    Whereabouts(v, path, owed, rank);
    assert Holds(Order, v, path, owed, rank);
    forall x ensures Holds(x, w, path + [h], owed + Owed(v.d[h].body), rank) {
      assert Holds(x, v, path, owed, rank);
      match x
      case Links =>
      case Listing => UnlinkListed(v, e, k, path);
      case Order => WithoutOrdered(v.flush, k, v.stamp, v.clock);
      case Grounds => UnlinkGrounded(v, e, k);
      case Counts =>
        assert Holds(Ranks, v, path, owed, rank);
        UnlinkCounted(v, e, k, owed, rank);
      case Ranks => RanksKeep(v.d, e, rank);
      case Disk =>
      case Sizes => UnlinkSized(v, e, k, path);
    }
  }

  lemma UnlinkListed(v: Cache, e: Nodes, k: nat, path: seq<Hash>)
    requires Listed(v.d, v.flush, path) && Ordered(v.flush, v.stamp, v.clock) && k < |v.flush|
    requires v.flush[k] in v.d && v.flush[k] != META && e.Keys == v.d.Keys
    ensures Listed(e, Without(v.flush, k), path + [v.flush[k]])
  {
    WithoutHas(v.flush, k, v.stamp, v.clock);
    assert v.flush[k] in v.flush;
    forall h {:trigger h in e} | h in e ensures h == META || h in Without(v.flush, k) || h in path + [v.flush[k]] {
      assert h in v.d;
    }
  }

  lemma RanksKeep(d: Nodes, e: Nodes, rank: Hash -> nat)
    requires AllRanked(d, rank) && e.Keys <= d.Keys && forall h {:trigger e[h]} :: h in e ==> e[h].body == d[h].body
    ensures AllRanked(e, rank)
  {
    forall p {:trigger e[p]} | p in e ensures Ranked(e[p].body, p, rank) { assert Ranked(d[p].body, p, rank); }
  }

  /** Nodes that are not in the list play no part in it. */
  lemma ListKeeps(d: Nodes, e: Nodes, s: seq<Hash>, oldest: Hash, newest: Hash)
    requires Linked(d, s, oldest, newest) && forall h :: h in s ==>
               h in e && d[h].next == e[h].next && d[h].prev == e[h].prev
    ensures Linked(e, s, oldest, newest)
  {
    forall i {:trigger e[s[i]]} | 0 <= i < |s| ensures e[s[i]].next == d[s[i]].next && e[s[i]].prev == d[s[i]].prev {
      assert s[i] in s;
    }
  }

  lemma ListedKeeps(d: Nodes, e: Nodes, s: seq<Hash>, path: seq<Hash>)
    requires Listed(d, s, path) && d.Keys == e.Keys
    ensures Listed(e, s, path)
  {
    forall h {:trigger h in e} | h in e ensures h == META || h in s || h in path { assert h in d; }
  }

  lemma CountsKeep(d: Nodes, e: Nodes, s: seq<Hash>, owed: multiset<Hash>, disk: set<Hash>)
    requires AllCounted(d, s, owed, disk) && META in d && forall h :: h in s || h == META ==>
               h in d && h in e && d[h] == e[h]
    ensures AllCounted(e, s, owed, disk)
  {
    forall c | c in s && c !in disk ensures Counted(e, s, owed, c) {
      assert Counted(d, s, owed, c);
      SumSame(RefsIn(d, c), RefsIn(e, c), s);
    }
  }

  lemma GroundedKeeps(d: Nodes, e: Nodes, s: seq<Hash>, stamp: map<Hash, nat>, disk: set<Hash>)
    requires AllGrounded(d, s, stamp, disk) && META in d && forall h :: h in s || h == META ==>
               h in d && h in e && d[h].body == e[h].body
    ensures AllGrounded(e, s, stamp, disk)
  {
    forall p {:trigger e[p]} | p in e && (p in s || p == META) ensures Grounded(e[p].body, p, s, stamp, disk) {
      assert Grounded(d[p].body, p, s, stamp, disk);
    }
  }

  lemma DeleteListed(d: Nodes, s: seq<Hash>, path: seq<Hash>, h: Hash)
    requires Listed(d, s, path + [h]) && h !in path && h != META
    ensures Listed(d - {h}, s, path) && h !in s
  {
    var whole := path + [h];
    assert whole[|path|] == h;
    forall x | x in path ensures x in whole {
      var i :| 0 <= i < |path| && path[i] == x;
      assert whole[i] == x;
    }
  }

  lemma DeleteSized(v: Cache, e: Nodes, path: seq<Hash>, h: Hash)
    requires Sized(v, path + [h]) && h !in path && h !in v.flush && h in v.d && e == v.d - {h}
    ensures v.size - (32 + v.d[h].Size()) == Sum(SizeIn(e), v.flush) + Sum(SizeIn(e), path) - 0x1_0000 * v.wraps
  {
    SumSnoc(SizeIn(v.d), path, h);
    SumSame(SizeIn(v.d), SizeIn(e), path);
    SumSame(SizeIn(v.d), SizeIn(e), v.flush);
  }

  /** The node at the end of the path is deleted. */
  lemma DeleteKeeps(v: Cache, path: seq<Hash>, h: Hash, owed: multiset<Hash>, rank: Hash -> nat)
    requires Inv(v, path + [h], owed, rank) && h !in path && h in v.d && h != META
    ensures Inv(v.(d := v.d - {h}, size := v.size - (32 + v.d[h].Size())), path, owed, rank)
  {
    var w := v.(d := v.d - {h}, size := v.size - (32 + v.d[h].Size()));
    Whereabouts(v, path + [h], owed, rank);
    assert (path + [h])[|path|] == h;
    forall x ensures Holds(x, w, path, owed, rank) {
      assert Holds(x, v, path + [h], owed, rank);
      match x
      case Links => ListKeeps(v.d, w.d, v.flush, v.oldest, v.newest);
      case Listing => DeleteListed(v.d, v.flush, path, h);
      case Order =>
      case Grounds => GroundedKeeps(v.d, w.d, v.flush, v.stamp, v.refs.Keys);
      case Counts => CountsKeep(v.d, w.d, v.flush, owed, v.refs.Keys);
      case Ranks => RanksKeep(v.d, w.d, rank);
      case Disk =>
      case Sizes => DeleteSized(v, w.d, path, h);
    }
  }

  /** One owed reference to `c` is given up. */
  lemma ReleaseCounted(v: Cache, e: Nodes, c: Hash, owed: multiset<Hash>)
    requires AllCounted(v.d, v.flush, owed, v.refs.Keys) && c in v.d && META in v.d && c != META
               && (c in owed || c in v.refs)
    requires forall h :: h in v.flush ==> h in v.d
    requires e == Released(v.d, c)
    ensures AllCounted(e, v.flush, owed - multiset{c}, v.refs.Keys)
  {
    SumsSame(v.d, e, v.flush);
    forall x | x in v.flush && x !in v.refs.Keys ensures Counted(e, v.flush, owed - multiset{c}, x) {
      assert Counted(v.d, v.flush, owed, x);
    }
  }

  function Released(d: Nodes, c: Hash): Nodes
    requires c in d
  {
    d[c := d[c].(parents := if d[c].parents > 0 then d[c].parents - 1 else 0)]
  }

  lemma ReleaseKeeps(v: Cache, c: Hash, path: seq<Hash>, owed: multiset<Hash>, rank: Hash -> nat)
    requires Inv(v, path, owed, rank) && c in v.flush && c in v.d && (c in owed || c in v.refs)
    ensures Inv(v.(d := Released(v.d, c)), path, owed - multiset{c}, rank)
  {
    var w := v.(d := Released(v.d, c));
    Whereabouts(v, path, owed, rank);
    forall x ensures Holds(x, w, path, owed - multiset{c}, rank) {
      assert Holds(x, v, path, owed, rank);
      match x
      case Links => ListKeeps(v.d, w.d, v.flush, v.oldest, v.newest);
      case Listing => ListedKeeps(v.d, w.d, v.flush, path);
      case Order =>
      case Grounds => GroundedKeeps(v.d, w.d, v.flush, v.stamp, v.refs.Keys);
      case Counts => ReleaseCounted(v, w.d, c, owed);
      case Ranks => RanksKeep(v.d, w.d, rank);
      case Disk =>
      case Sizes => SizesKeep(v, w, path);
    }
  }

  lemma SizesKeep(v: Cache, w: Cache, path: seq<Hash>)
    requires Sized(v, path) && w == v.(d := w.d) && w.d.Keys == v.d.Keys
    requires forall h {:trigger w.d[h]} :: h in w.d ==> w.d[h].Size() == v.d[h].Size()
    ensures Sized(w, path)
  {
    SumSame(SizeIn(v.d), SizeIn(w.d), v.flush);
    SumSame(SizeIn(v.d), SizeIn(w.d), path);
  }

  /** A reference to something that is not cached may be forgotten. */
  lemma ForgetKeeps(v: Cache, c: Hash, path: seq<Hash>, owed: multiset<Hash>, rank: Hash -> nat)
    requires Inv(v, path, owed, rank) && c !in v.flush
    ensures Inv(v, path, owed - multiset{c}, rank)
  {
    forall x ensures Holds(x, v, path, owed - multiset{c}, rank) {
      assert Holds(x, v, path, owed, rank);
      if x == Counts {
        forall y | y in v.flush && y !in v.refs.Keys ensures Counted(v.d, v.flush, owed - multiset{c}, y) {
          assert Counted(v.d, v.flush, owed, y);
        }
      }
    }
  }

  /** The external references of a node after one to `c` is taken back. */
  function LessOne(external: map<Hash, nat>, c: Hash): map<Hash, nat> {
    if c in external && external[c] > 0 then
      if external[c] == 1 then external - {c} else external[c := external[c] - 1]
    else external
  }

  function DropIn(d: Nodes, p: Hash, c: Hash): Nodes
    requires p in d
  {
    d[p := d[p].(body := d[p].body.(external := LessOne(d[p].body.external, c)))]
  }

  lemma DropRanked(b: Body, p: Hash, c: Hash, rank: Hash -> nat)
    requires Ranked(b, p, rank)
    ensures Ranked(b.(external := LessOne(b.external, c)), p, rank)
  {
    var b' := b.(external := LessOne(b.external, c));
    forall x {:trigger Refers(b', x)} | Refers(b', x) ensures Refers(b, x) {}
  }

  /** A node on the path loses an external reference. */
  lemma DropOnPath(v: Cache, p: Hash, c: Hash, path: seq<Hash>, owed: multiset<Hash>, rank: Hash -> nat)
    requires Inv(v, path, owed, rank) && p in path && p in v.d
    ensures Inv(v.(d := DropIn(v.d, p, c)), path, owed, rank)
  {
    var w := v.(d := DropIn(v.d, p, c));
    Whereabouts(v, path, owed, rank);
    forall x ensures Holds(x, w, path, owed, rank) {
      assert Holds(x, v, path, owed, rank);
      match x
      case Links => ListKeeps(v.d, w.d, v.flush, v.oldest, v.newest);
      case Listing => ListedKeeps(v.d, w.d, v.flush, path);
      case Order =>
      case Grounds => GroundedKeeps(v.d, w.d, v.flush, v.stamp, v.refs.Keys);
      case Counts => CountsKeep(v.d, w.d, v.flush, owed, v.refs.Keys);
      case Ranks => DropAllRanked(v.d, p, c, rank);
      case Disk =>
      case Sizes => SizesKeep(v, w, path);
    }
  }

  lemma DropAllRanked(d: Nodes, p: Hash, c: Hash, rank: Hash -> nat)
    requires AllRanked(d, rank) && p in d
    ensures AllRanked(DropIn(d, p, c), rank)
  {
    var e := DropIn(d, p, c);
    DropRanked(d[p].body, p, c, rank);
    forall q {:trigger e[q]} | q in e ensures Ranked(e[q].body, q, rank) { assert Ranked(d[q].body, q, rank); }
  }

  lemma MetaCounted(v: Cache, e: Nodes, c: Hash, rank: Hash -> nat)
    requires AllCounted(v.d, v.flush, multiset{}, v.refs.Keys) && META in v.d && Ranked(v.d[META].body, META, rank)
    requires META !in v.flush && e == DropIn(v.d, META, c)
    ensures AllCounted(e, v.flush, if c in v.d[META].body.external then multiset{c} else multiset{}, v.refs.Keys)
  {
    var owed := if c in v.d[META].body.external then multiset{c} else multiset{};
    forall x | x in v.flush && x !in v.refs.Keys ensures Counted(e, v.flush, owed, x) {
      assert Counted(v.d, v.flush, multiset{}, x);
      SumSame(RefsIn(v.d, x), RefsIn(e, x), v.flush);
    }
  }

  lemma MetaGrounded(v: Cache, e: Nodes, c: Hash)
    requires AllGrounded(v.d, v.flush, v.stamp, v.refs.Keys) && META in v.d && e == DropIn(v.d, META, c)
    ensures AllGrounded(e, v.flush, v.stamp, v.refs.Keys)
  {
    var b, b' := v.d[META].body, e[META].body;
    assert Grounded(b, META, v.flush, v.stamp, v.refs.Keys);
    forall x {:trigger Refers(b', x)} | Refers(b', x) ensures Refers(b, x) {}
    forall p {:trigger e[p]} | p in e && p in v.flush && p != META
      ensures Grounded(e[p].body, p, v.flush, v.stamp, v.refs.Keys)
    {
      assert Grounded(v.d[p].body, p, v.flush, v.stamp, v.refs.Keys);
    }
  }

  /** The meta-root gives up a reference, which is owed from then on. */
  lemma DropFromMeta(v: Cache, c: Hash, rank: Hash -> nat)
    requires Inv(v, [], multiset{}, rank) && META in v.d
    ensures Inv(v.(d := DropIn(v.d, META, c)), [], if c in v.d[META].body.external then multiset{c}
              else multiset{}, rank)
  {
    var w, owed := v.(d := DropIn(v.d, META, c)), if c in v.d[META].body.external then multiset{c} else multiset{};
    Whereabouts(v, [], multiset{}, rank);
    forall x ensures Holds(x, w, [], owed, rank) {
      assert Holds(x, v, [], multiset{}, rank);
      match x
      case Links => ListKeeps(v.d, w.d, v.flush, v.oldest, v.newest);
      case Listing => ListedKeeps(v.d, w.d, v.flush, []);
      case Order =>
      case Grounds => MetaGrounded(v, w.d, c);
      case Counts =>
        assert Holds(Ranks, v, [], multiset{}, rank);
        assert Ranked(v.d[META].body, META, rank);
        MetaCounted(v, w.d, c, rank);
      case Ranks => DropAllRanked(v.d, META, c, rank);
      case Disk =>
      case Sizes => SizesKeep(v, w, []);
    }
  }

  // ------------------------------------------------------------------------------------------
  // A new node
  // ------------------------------------------------------------------------------------------

  /** `e` is `d` with the counts of `cs` raised. */
  ghost predicate Credited(d: Nodes, e: Nodes, cs: multiset<Hash>) {
    && d.Keys == e.Keys
    && forall h {:trigger e[h]} :: h in d ==> e[h] == d[h].(parents := d[h].parents + cs[h])
  }

  /** What `insert` adds to the running size: the sum is taken in 16 bits. */
  function Charge(b: Body): nat {
    (32 + |b.blob| % 0x1_0000) % 0x1_0000
  }

  /** Whether that sum wraps around. */
  function Wraps(b: Body): nat {
    if |b.blob| % 0x1_0000 >= 65504 then 1 else 0
  }

  /** `w` is `v` with node `h` at the end of the list. */
  ghost predicate Appended(v: Cache, w: Cache, h: Hash, b: Body) {
    && w.d.Keys == v.d.Keys + {h} && w.d[h] == Node(b, 0, v.newest, META)
    && (forall x {:trigger w.d[x]} :: x in v.d ==>
          w.d[x] == Node(v.d[x].body, v.d[x].parents + multiset(b.children)[x], v.d[x].prev,
                         if v.flush != [] && x == v.newest then h else v.d[x].next))
    && w.flush == v.flush + [h] && w.newest == h && w.oldest == (if v.flush == [] then h else v.oldest)
    && w.stamp == v.stamp[h := v.clock] && w.clock == v.clock + 1 && w.refs == v.refs
    && w.size == v.size + Charge(b) && w.wraps == v.wraps + Wraps(b)
  }

  lemma AppendLinked(v: Cache, w: Cache, h: Hash, b: Body)
    requires Linked(v.d, v.flush, v.oldest, v.newest) && Ordered(v.flush, v.stamp, v.clock) && Appended(v, w, h, b)
    requires h !in v.d && h != META
    ensures Linked(w.d, w.flush, w.oldest, w.newest)
  {
    var s, n: nat := w.flush, |v.flush|;
    assert forall x :: x in v.flush ==> x != h;
    forall i: nat {:trigger w.d[s[i]]} | i < n
      ensures s[i] == v.flush[i] && w.d[s[i]].next == s[i + 1] && (i > 0 ==> w.d[s[i]].prev == s[i - 1])
    {
      assert v.flush[i] in v.flush;
      assert v.d[v.flush[i]].next == if i + 1 < n then v.flush[i + 1] else META;
      if i != n - 1 { Apart(v.flush, v.stamp, v.clock, i, n - 1); }
    }
  }

  lemma AppendOrdered(v: Cache, w: Cache, h: Hash, b: Body)
    requires Ordered(v.flush, v.stamp, v.clock) && Appended(v, w, h, b) && h !in v.flush
    ensures Ordered(w.flush, w.stamp, w.clock)
  {
    var s, n: nat := w.flush, |v.flush|;
    forall i, j | 0 <= i < j < |s| ensures w.stamp[s[i]] < w.stamp[s[j]] {
      assert v.flush[i] in v.flush;
      if j < n { assert v.flush[j] in v.flush && v.stamp[v.flush[i]] < v.stamp[v.flush[j]]; }
    }
  }

  lemma SumZero(f: Hash -> nat, s: seq<Hash>)
    requires forall h :: h in s ==> f(h) == 0
    ensures Sum(f, s) == 0
  {
    SumToZero(f, s, |s|);
  }

  lemma {:induction false} SumToZero(f: Hash -> nat, s: seq<Hash>, n: nat)
    requires n <= |s| && forall h :: h in s ==> f(h) == 0
    ensures SumTo(f, s, n) == 0
  {
    if n > 0 { SumToZero(f, s, n - 1); }
  }

  /** Nothing refers to a node that is neither cached nor on disk. */
  lemma Unreferenced(v: Cache, h: Hash)
    requires AllGrounded(v.d, v.flush, v.stamp, v.refs.Keys) && META in v.d && h !in v.flush && h !in v.refs
    ensures Refs(v.d[META].body, h) == 0 && Sum(RefsIn(v.d, h), v.flush) == 0
  {
    assert Grounded(v.d[META].body, META, v.flush, v.stamp, v.refs.Keys);
    assert !Refers(v.d[META].body, h);
    forall p | p in v.flush ensures RefsIn(v.d, h)(p) == 0 {
      if p in v.d {
        assert Grounded(v.d[p].body, p, v.flush, v.stamp, v.refs.Keys);
        assert !Refers(v.d[p].body, h);
      }
    }
    SumZero(RefsIn(v.d, h), v.flush);
  }

  lemma AppendCounted(v: Cache, w: Cache, h: Hash, b: Body, rank: Hash -> nat)
    requires AllCounted(v.d, v.flush, multiset{}, v.refs.Keys) && AllGrounded(v.d, v.flush, v.stamp, v.refs.Keys)
    requires META in v.d && h !in v.d && h !in v.flush && h != META && Appended(v, w, h, b)
    requires Ranked(b, h, rank) && b.external == map[]
    ensures AllCounted(w.d, w.flush, multiset{}, w.refs.Keys)
  {
    forall c | c in w.flush && c !in w.refs.Keys ensures Counted(w.d, w.flush, multiset{}, c) {
      SumSnoc(RefsIn(w.d, c), v.flush, h);
      SumSame(RefsIn(v.d, c), RefsIn(w.d, c), v.flush);
      assert !Refers(b, META);
      if c == h {
        assert !Refers(b, h);
        Unreferenced(v, h);
      } else {
        assert Counted(v.d, v.flush, multiset{}, c);
      }
    }
  }

  lemma AppendGrounded(v: Cache, w: Cache, h: Hash, b: Body)
    requires AllGrounded(v.d, v.flush, v.stamp, v.refs.Keys) && Ordered(v.flush, v.stamp, v.clock)
    requires h !in v.d && (forall x :: x in v.flush ==> x in v.d) && h != META && Appended(v, w, h, b)
    requires forall c :: Refers(b, c) ==> c in v.flush || c in v.refs
    ensures AllGrounded(w.d, w.flush, w.stamp, w.refs.Keys)
  {
    forall p {:trigger w.d[p]} | p in w.d && (p in w.flush || p == META)
      ensures Grounded(w.d[p].body, p, w.flush, w.stamp, w.refs.Keys)
    {
      if p != h {
        assert Grounded(v.d[p].body, p, v.flush, v.stamp, v.refs.Keys);
      }
    }
  }

  lemma WrapOnce(n: nat)
    requires n < 0x1_0000
    ensures (32 + n) % 0x1_0000 == 32 + n - if n >= 65504 then 0x1_0000 else 0
  {}

  lemma AppendSized(v: Cache, w: Cache, h: Hash, b: Body)
    requires Sized(v, []) && h !in v.d && (forall x :: x in v.flush ==> x in v.d) && Appended(v, w, h, b)
    ensures Sized(w, [])
  {
    WrapOnce(w.d[h].Size());
    SumSnoc(SizeIn(w.d), v.flush, h);
    SumSame(SizeIn(v.d), SizeIn(w.d), v.flush);
  }

  lemma AppendListed(v: Cache, w: Cache, h: Hash, b: Body)
    requires Listed(v.d, v.flush, []) && Appended(v, w, h, b)
    ensures Listed(w.d, w.flush, [])
  {
    assert h in w.flush;
  }

  lemma AppendRanked(v: Cache, w: Cache, h: Hash, b: Body, rank: Hash -> nat)
    requires AllRanked(v.d, rank) && Ranked(b, h, rank) && Appended(v, w, h, b)
    ensures AllRanked(w.d, rank)
  {
    forall p {:trigger w.d[p]} | p in w.d ensures Ranked(w.d[p].body, p, rank) {
      if p != h { assert Ranked(v.d[p].body, p, rank); }
    }
  }

  lemma AppendKeeps(v: Cache, w: Cache, h: Hash, b: Body, rank: Hash -> nat)
    requires Inv(v, [], multiset{}, rank) && h !in v.d && h != META && Appended(v, w, h, b)
    requires b.external == map[] && forall c :: c in b.children ==>
               c != META && rank(c) < rank(h) && (c in v.d || c in v.refs)
    ensures Inv(w, [], multiset{}, rank)
  {
    Whereabouts(v, [], multiset{}, rank);
    ChildrenKnown(v, h, b, rank);
    forall x ensures Holds(x, w, [], multiset{}, rank) {
      assert Holds(x, v, [], multiset{}, rank);
      match x
      case Links =>
        assert Holds(Order, v, [], multiset{}, rank);
        AppendLinked(v, w, h, b);
      case Listing => AppendListed(v, w, h, b);
      case Order => AppendOrdered(v, w, h, b);
      case Grounds =>
        assert Holds(Order, v, [], multiset{}, rank);
        AppendGrounded(v, w, h, b);
      case Counts =>
        assert Holds(Grounds, v, [], multiset{}, rank);
        AppendCounted(v, w, h, b, rank);
      case Ranks => AppendRanked(v, w, h, b, rank);
      case Disk =>
      case Sizes => AppendSized(v, w, h, b);
    }
  }

  // ------------------------------------------------------------------------------------------
  // A new external reference
  // ------------------------------------------------------------------------------------------

  /** `body` with one more external reference to `c`. */
  function MoreOne(b: Body, c: Hash): Body {
    b.(external := b.external[c := if c in b.external then b.external[c] + 1 else 1])
  }

  function Referenced(d: Nodes, c: Hash, p: Hash): (r: Nodes)
    requires c in d && p in d && c != p
    ensures r.Keys == d.Keys
    ensures forall h {:trigger r[h]} :: h in d ==>
              r[h].next == d[h].next && r[h].prev == d[h].prev && r[h].Size() == d[h].Size()
  {
    var e := d[c := d[c].(parents := d[c].parents + 1)];
    e[p := e[p].(body := MoreOne(e[p].body, c))]
  }

  lemma ReferSum(d: Nodes, e: Nodes, s: seq<Hash>, k: nat, c: Hash, stamp: map<Hash, nat>, clock: nat)
    requires k < |s| && Ordered(s, stamp, clock) && c in d && s[k] in d && c != s[k] && e == Referenced(d, c, s[k])
    ensures Sum(RefsIn(e, c), s) == Sum(RefsIn(d, c), s) + 1
  {
    WithoutHas(s, k, stamp, clock);
    SumWithout(RefsIn(d, c), s, k);
    SumWithout(RefsIn(e, c), s, k);
    SumSame(RefsIn(d, c), RefsIn(e, c), Without(s, k));
  }

  lemma ReferOther(d: Nodes, e: Nodes, s: seq<Hash>, c: Hash, p: Hash, x: Hash)
    requires c in d && p in d && c != p && e == Referenced(d, c, p) && (x != c || p !in s)
    ensures Sum(RefsIn(e, x), s) == Sum(RefsIn(d, x), s)
  {
    SumSame(RefsIn(d, x), RefsIn(e, x), s);
  }

  lemma ReferCount(v: Cache, e: Nodes, c: Hash, p: Hash, x: Hash)
    requires Counted(v.d, v.flush, multiset{}, x) && Ordered(v.flush, v.stamp, v.clock)
    requires META in v.d && c in v.d && c != META && p in v.d && c != p && (p in v.flush || p == META)
               && META !in v.flush
    requires x in v.flush && e == Referenced(v.d, c, p)
    ensures Counted(e, v.flush, multiset{}, x)
  {
    if p == META || x != c {
      ReferOther(v.d, e, v.flush, c, p, x);
    } else {
      var k: nat :| k < |v.flush| && v.flush[k] == p;
      ReferSum(v.d, e, v.flush, k, c, v.stamp, v.clock);
    }
  }

  lemma ReferCounted(v: Cache, e: Nodes, c: Hash, p: Hash)
    requires AllCounted(v.d, v.flush, multiset{}, v.refs.Keys) && Ordered(v.flush, v.stamp, v.clock)
    requires META in v.d && c in v.d && c != META && p in v.d && c != p && (p in v.flush || p == META)
               && META !in v.flush
    requires e == Referenced(v.d, c, p)
    ensures AllCounted(e, v.flush, multiset{}, v.refs.Keys)
  {
    forall x | x in v.flush && x !in v.refs.Keys ensures Counted(e, v.flush, multiset{}, x) {
      assert Counted(v.d, v.flush, multiset{}, x);
      ReferCount(v, e, c, p, x);
    }
  }

  lemma ReferGrounded(v: Cache, e: Nodes, c: Hash, p: Hash)
    requires AllGrounded(v.d, v.flush, v.stamp, v.refs.Keys) && c in v.d && p in v.d && c != p
    requires c in v.refs || (c in v.flush && (p != META ==> c in v.stamp && p in v.stamp && v.stamp[c] < v.stamp[p]))
    requires e == Referenced(v.d, c, p)
    ensures AllGrounded(e, v.flush, v.stamp, v.refs.Keys)
  {
    forall q {:trigger e[q]} | q in e && (q in v.flush || q == META)
      ensures Grounded(e[q].body, q, v.flush, v.stamp, v.refs.Keys)
    {
      var b, b' := v.d[q].body, e[q].body;
      assert Grounded(b, q, v.flush, v.stamp, v.refs.Keys);
      forall x {:trigger Refers(b', x)} | Refers(b', x) ensures Refers(b, x) || (q == p && x == c) {}
    }
  }

  lemma ReferRanked(d: Nodes, e: Nodes, c: Hash, p: Hash, rank: Hash -> nat)
    requires AllRanked(d, rank) && c in d && p in d && c != p && c != META
    requires p != META ==> rank(c) < rank(p) && c !in d[p].body.external
    requires e == Referenced(d, c, p)
    ensures AllRanked(e, rank)
  {
    forall q {:trigger e[q]} | q in e ensures Ranked(e[q].body, q, rank) {
      var b, b' := d[q].body, e[q].body;
      assert Ranked(b, q, rank);
      forall x {:trigger Refers(b', x)} | Refers(b', x) ensures Refers(b, x) || (q == p && x == c) {}
    }
  }

  /** `Reference` to a cached node that is older than its new parent. */
  lemma ReferKeeps(v: Cache, c: Hash, p: Hash, rank: Hash -> nat)
    requires Inv(v, [], multiset{}, rank) && c in v.d && c != META && p in v.d && c != p
    requires p != META ==> rank(c) < rank(p) && c !in v.d[p].body.external
    requires c in v.refs || (c in v.flush && (p != META ==> c in v.stamp && p in v.stamp && v.stamp[c] < v.stamp[p]))
    ensures Inv(v.(d := Referenced(v.d, c, p)), [], multiset{}, rank)
  {
    var w := v.(d := Referenced(v.d, c, p));
    Whereabouts(v, [], multiset{}, rank);
    forall x ensures Holds(x, w, [], multiset{}, rank) {
      assert Holds(x, v, [], multiset{}, rank);
      match x
      case Links => ListKeeps(v.d, w.d, v.flush, v.oldest, v.newest);
      case Listing => ListedKeeps(v.d, w.d, v.flush, []);
      case Order =>
      case Grounds => ReferGrounded(v, w.d, c, p);
      case Counts =>
        assert Holds(Order, v, [], multiset{}, rank);
        ReferCounted(v, w.d, c, p);
      case Ranks => ReferRanked(v.d, w.d, c, p, rank);
      case Disk =>
      case Sizes => SizesKeep(v, w, []);
    }
  }

  // ------------------------------------------------------------------------------------------
  // Writing to disk
  // ------------------------------------------------------------------------------------------

  ghost function RefSet(b: Body): (r: set<Hash>)
    ensures forall c :: c in r <==> Refers(b, c)
  {
    (set c | c in b.children) + b.external.Keys
  }

  lemma WriteGrounded(v: Cache, h: Hash)
    requires AllGrounded(v.d, v.flush, v.stamp, v.refs.Keys)
    ensures AllGrounded(v.d, v.flush, v.stamp, v.refs.Keys + {h})
  {
    forall p {:trigger v.d[p]} | p in v.d && (p in v.flush || p == META)
      ensures Grounded(v.d[p].body, p, v.flush, v.stamp, v.refs.Keys + {h})
    {
      assert Grounded(v.d[p].body, p, v.flush, v.stamp, v.refs.Keys);
    }
  }

  /** A node whose references are all on disk is written. */
  lemma WriteKeeps(v: Cache, h: Hash, path: seq<Hash>, owed: multiset<Hash>, rank: Hash -> nat)
    requires Inv(v, path, owed, rank) && h in v.d && RefSet(v.d[h].body) <= v.refs.Keys
    ensures Inv(v.(refs := v.refs[h := RefSet(v.d[h].body)]), path, owed, rank)
  {
    var w := v.(refs := v.refs[h := RefSet(v.d[h].body)]);
    forall x ensures Holds(x, w, path, owed, rank) {
      assert Holds(x, v, path, owed, rank);
      match x
      case Grounds =>
        WriteGrounded(v, h);
        assert w.refs.Keys == v.refs.Keys + {h};
      case Counts =>
        forall c | c in w.flush && c !in w.refs.Keys ensures Counted(w.d, w.flush, owed, c) {
          assert Counted(v.d, v.flush, owed, c);
        }
      case _ =>
    }
  }

  /** In the list, everything a node refers to is on disk once all older nodes are. */
  lemma OlderFirst(v: Cache, k: nat, rank: Hash -> nat)
    requires Inv(v, [], multiset{}, rank) && k < |v.flush| && v.flush[k] in v.d && forall i :: 0 <= i < k ==>
               v.flush[i] in v.refs
    ensures RefSet(v.d[v.flush[k]].body) <= v.refs.Keys
  {
    Whereabouts(v, [], multiset{}, rank);
    assert Holds(Order, v, [], multiset{}, rank) && Holds(Grounds, v, [], multiset{}, rank);
    var p := v.flush[k];
    assert p in v.flush;
    assert Grounded(v.d[p].body, p, v.flush, v.stamp, v.refs.Keys);
    forall c | Refers(v.d[p].body, c) ensures c in v.refs {
      if c in v.flush { NotYounger(v, c, k); }
    }
  }

  lemma NotYounger(v: Cache, c: Hash, k: nat)
    requires Ordered(v.flush, v.stamp, v.clock) && k < |v.flush| && c in v.flush && forall i :: 0 <= i < k ==>
               v.flush[i] in v.refs
    ensures c in v.refs || v.stamp[v.flush[k]] <= v.stamp[c]
  {
    var i: nat :| i < |v.flush| && v.flush[i] == c;
    if i > k { assert v.stamp[v.flush[k]] < v.stamp[v.flush[i]]; }
  }

  /** References to nodes on disk need not be counted. */
  lemma OnDiskUncounted(v: Cache, path: seq<Hash>, owed: multiset<Hash>, b: Body, rank: Hash -> nat)
    requires Inv(v, path, owed + Owed(b), rank) && RefSet(b) <= v.refs.Keys
    ensures Inv(v, path, owed, rank)
  {
    forall x ensures Holds(x, v, path, owed, rank) {
      assert Holds(x, v, path, owed + Owed(b), rank);
      if x == Counts {
        forall c | c in v.flush && c !in v.refs.Keys ensures Counted(v.d, v.flush, owed, c) {
          assert Counted(v.d, v.flush, owed + Owed(b), c);
          assert !Refers(b, c);
        }
      }
    }
  }

  function Popped(v: Cache): Cache
    requires v.flush != [] && v.oldest in v.d
  {
    v.(oldest := v.d[v.oldest].next, flush := v.flush[1..])
  }

  lemma PopKeeps(v: Cache, rank: Hash -> nat)
    requires Inv(v, [], multiset{}, rank) && v.flush != [] && v.oldest in v.d && v.oldest in v.refs
    ensures Inv(Popped(v), [v.oldest], multiset{} + Owed(v.d[v.oldest].body), rank)
  {
    var h := v.oldest;
    Whereabouts(v, [], multiset{}, rank);
    assert Without(v.flush, 0) == v.flush[1..];
    assert Holds(Links, v, [], multiset{}, rank) && Holds(Order, v, [], multiset{}, rank);
    FirstUnlinked(v.d, v.flush, v.oldest, v.newest, v.stamp, v.clock);
    UnlinkKeeps(v, v.d, v.d[h].next, v.newest, 0, [], multiset{}, rank);
    assert [] + [v.flush[0]] == [h];
  }

  /** The oldest node, once written, is dropped from the cache. */
  lemma DropOldest(v: Cache, rank: Hash -> nat)
    requires Inv(v, [], multiset{}, rank) && v.flush != [] && v.oldest in v.d && v.oldest in v.refs
    requires RefSet(v.d[v.oldest].body) <= v.refs.Keys
    ensures Inv(Popped(v).(d := v.d - {v.oldest}, size := v.size - (32 + v.d[v.oldest].Size())), [], multiset{}, rank)
  {
    var h, b := v.oldest, v.d[v.oldest].body;
    Whereabouts(v, [], multiset{}, rank);
    PopKeeps(v, rank);
    assert [] + [h] == [h];
    DeleteKeeps(Popped(v), [], h, multiset{} + Owed(b), rank);
    OnDiskUncounted(Popped(v).(d := v.d - {h}, size := v.size - (32 + v.d[h].Size())), [], multiset{}, b, rank);
  }

  lemma FirstUnlinked(d: Nodes, s: seq<Hash>, oldest: Hash, newest: Hash, stamp: map<Hash, nat>, clock: nat)
    requires Linked(d, s, oldest, newest) && Ordered(s, stamp, clock) && s != []
    ensures Linked(d, Without(s, 0), d[s[0]].next, newest)
  {
    var t := Without(s, 0);
    WithoutHas(s, 0, stamp, clock);
    forall i | 0 <= i < |t|
      ensures d[t[i]].next == (if i + 1 < |t| then t[i + 1] else META) && (i > 0 ==> d[t[i]].prev == t[i - 1])
    {
      assert t[i] == s[i + 1] && d[s[i + 1]].next == if i + 2 < |s| then s[i + 2] else META;
    }
  }

  /** The cache after `insert`: `e` is the map with the counts raised. */
  function Inserted(v: Cache, e: Nodes, h: Hash, b: Body): Cache
    requires v.oldest != META ==> v.newest in e
  {
    var n := Node(b, 0, v.newest, META);
    var d := e[h := n];
    v.(d := if v.oldest == META then d else d[v.newest := d[v.newest].(next := h)],
       oldest := if v.oldest == META then h else v.oldest, newest := h, flush := v.flush + [h],
       size := v.size + Charge(b),
       stamp := v.stamp[h := v.clock], clock := v.clock + 1,
       wraps := v.wraps + Wraps(b))
  }

  /** `e` is `d` with one more node; no other node's body is different. */
  ghost predicate Added(d: Nodes, e: Nodes, h: Hash, b: Body) {
    && e.Keys == d.Keys + {h} && e[h].body == b
    && forall x {:trigger e[x]} :: x in d ==> e[x].body == d[x].body
  }

  lemma InsertedAdded(v: Cache, e: Nodes, h: Hash, b: Body)
    requires Credited(v.d, e, Owed(b)) && h !in v.d && (v.oldest != META ==> v.newest in e)
    ensures Added(v.d, Inserted(v, e, h, b).d, h, b)
  {}

  lemma InsertedAppended(v: Cache, e: Nodes, h: Hash, b: Body)
    requires Credited(v.d, e, Owed(b)) && h !in v.d && b.external == map[]
    requires (v.oldest == META <==> v.flush == []) && (v.flush != [] ==> v.newest in v.d)
    ensures v.oldest != META ==> v.newest in e
    ensures Appended(v, Inserted(v, e, h, b), h, b)
  {}

  lemma ChildrenKnown(v: Cache, h: Hash, b: Body, rank: Hash -> nat)
    requires b.external == map[] && Inv(v, [], multiset{}, rank)
    requires forall c :: c in b.children ==> c != META && rank(c) < rank(h) && (c in v.d || c in v.refs)
    ensures Ranked(b, h, rank) && forall c :: Refers(b, c) ==> c in v.flush || c in v.refs
  {
    Whereabouts(v, [], multiset{}, rank);
  }

  lemma InsertKeeps(v: Cache, e: Nodes, h: Hash, b: Body, rank: Hash -> nat)
    requires Inv(v, [], multiset{}, rank) && Credited(v.d, e, Owed(b)) && h !in v.d
    requires b.external == map[] && forall c :: c in b.children ==>
               c != META && rank(c) < rank(h) && (c in v.d || c in v.refs)
    ensures v.oldest != META ==> v.newest in e
    ensures Inv(Inserted(v, e, h, b), [], multiset{}, rank)
  {
    Whereabouts(v, [], multiset{}, rank);
    InsertedAppended(v, e, h, b);
    var w := Inserted(v, e, h, b);
    AppendKeeps(v, w, h, b, rank);
  }

  /**
   Nodes have only left the cache. Those that stay are as they were, and none has lost its last reference, but for some.
   */
  ghost predicate Shrunk(d: Nodes, e: Nodes, but: set<Hash>) {
    && e.Keys <= d.Keys
    && forall x {:trigger e[x]} :: x in e && x !in but ==>
        e[x].body == d[x].body && (e[x].parents == 0 ==> d[x].parents == 0)
  }

  /** A node refers only to lower-ranked nodes. */
  lemma OwedRanked(v: Cache, path: seq<Hash>, owed: multiset<Hash>, rank: Hash -> nat, h: Hash, cs: seq<Hash>)
    requires Inv(v, path, owed, rank) && h in v.d && h != META && multiset(cs) == Owed(v.d[h].body)
    ensures forall c :: c in cs ==> c != META && rank(c) < rank(h) && Refers(v.d[h].body, c)
  {
    assert Holds(Ranks, v, path, owed, rank);
    assert Ranked(v.d[h].body, h, rank);
    forall c | c in cs ensures Refers(v.d[h].body, c) {
      assert c in multiset(cs);
      OwedIsRefs(v.d[h].body, h, rank, c);
    }
  }

  /** The `prev` of the oldest node is not part of the list. */
  lemma FirstPrevKeeps(v: Cache, rank: Hash -> nat)
    requires Inv(v, [], multiset{}, rank) && v.flush != [] && v.oldest in v.d
    ensures Inv(v.(d := SetPrev(v.d, v.oldest, META)), [], multiset{}, rank)
  {
    var w := v.(d := SetPrev(v.d, v.oldest, META));
    Whereabouts(v, [], multiset{}, rank);
    forall x ensures Holds(x, w, [], multiset{}, rank) {
      assert Holds(x, v, [], multiset{}, rank);
      match x
      case Links =>
        assert Holds(Order, v, [], multiset{}, rank);
        FirstPrevLinked(v);
      case Listing => ListedKeeps(v.d, w.d, v.flush, []);
      case Order =>
      case Grounds => GroundedKeeps(v.d, w.d, v.flush, v.stamp, v.refs.Keys);
      case Counts => LinksCounted(v, w.d);
      case Ranks => RanksKeep(v.d, w.d, rank);
      case Disk =>
      case Sizes => SizesKeep(v, w, []);
    }
  }

  lemma FirstPrevLinked(v: Cache)
    requires Linked(v.d, v.flush, v.oldest, v.newest) && Ordered(v.flush, v.stamp, v.clock) && v.flush != []
    ensures Linked(SetPrev(v.d, v.oldest, META), v.flush, v.oldest, v.newest)
  {
    var e, s := SetPrev(v.d, v.oldest, META), v.flush;
    forall i: nat {:trigger e[s[i]]} | i < |s|
      ensures e[s[i]].next == v.d[s[i]].next && (1 <= i ==> e[s[i]].prev == v.d[s[i]].prev)
    {
      if i > 0 { Apart(s, v.stamp, v.clock, 0, i); }
    }
  }

  lemma LinksCounted(v: Cache, e: Nodes)
    requires AllCounted(v.d, v.flush, multiset{}, v.refs.Keys) && META in v.d && SameUpToLinks(v.d, e)
    requires forall h :: h in v.flush ==> h in v.d
    ensures AllCounted(e, v.flush, multiset{}, v.refs.Keys)
  {
    SumsSame(v.d, e, v.flush);
    forall c | c in v.flush && c !in v.refs.Keys ensures Counted(e, v.flush, multiset{}, c) {
      assert Counted(v.d, v.flush, multiset{}, c);
    }
  }

  lemma Distinct(v: Cache, path: seq<Hash>, owed: multiset<Hash>, rank: Hash -> nat, i: nat, j: nat)
    requires Inv(v, path, owed, rank) && i < |v.flush| && j < |v.flush| && i != j
    ensures v.flush[i] != v.flush[j]
  {
    assert Holds(Order, v, path, owed, rank);
    Apart(v.flush, v.stamp, v.clock, i, j);
  }

  lemma NextIs(v: Cache, path: seq<Hash>, owed: multiset<Hash>, rank: Hash -> nat, i: nat)
    requires Inv(v, path, owed, rank) && i < |v.flush| && v.flush[i] in v.d
    ensures v.d[v.flush[i]].next == if i + 1 < |v.flush| then v.flush[i + 1] else META
  {
    assert Holds(Links, v, path, owed, rank);
  }

  lemma DropSize(d: Nodes, h: Hash)
    requires h in d
    ensures |d - {h}| == |d| - 1
  {
    assert (d - {h}).Keys == d.Keys - {h};
  }

  // ------------------------------------------------------------------------------------------
  // Whole tries
  // ------------------------------------------------------------------------------------------

  /** Node `h`, if cached, is on disk as it is in the cache, and so is every cached node below it. */
  ghost predicate Settled(d: Nodes, disk: map<Hash, Bytes>, rank: Hash -> nat, h: Hash)
    decreases rank(h)
  {
    h in d ==>
      && h in disk && disk[h] == d[h].body.blob && RefSet(d[h].body) <= disk.Keys
      && forall c :: c in RefSet(d[h].body) && rank(c) < rank(h) ==> Settled(d, disk, rank, c)
  }

  /** The disk has not lost what the cache holds, and keeps everything else it had. */
  ghost predicate Kept(d: Nodes, e: Nodes, disk: map<Hash, Bytes>, disk': map<Hash, Bytes>) {
    && disk.Keys <= disk'.Keys && e.Keys <= d.Keys
    && (forall h {:trigger e[h]} :: h in e ==> e[h].body == d[h].body)
    && (forall h {:trigger disk'[h]} :: h in e && h in disk && disk[h] == e[h].body.blob ==> disk'[h] == e[h].body.blob)
  }

  lemma {:induction false} SettledStays(d: Nodes, e: Nodes, disk: map<Hash, Bytes>, disk': map<Hash, Bytes>,
          rank: Hash -> nat, h: Hash)
    requires Settled(d, disk, rank, h) && Kept(d, e, disk, disk')
    ensures Settled(e, disk', rank, h)
    decreases rank(h)
  {
    if h in e {
      forall c | c in RefSet(e[h].body) && rank(c) < rank(h) ensures Settled(e, disk', rank, c) {
        SettledStays(d, e, disk, disk', rank, c);
      }
    }
  }

  /** Nodes have left the cache together with everything cached below them. */
  ghost predicate Pruned(d: Nodes, e: Nodes) {
    && Shrunk(d, e, {})
    && forall x, c {:trigger Refers(d[x].body, c)} :: x in d && x !in e && Refers(d[x].body, c) ==> c !in e
  }

  lemma PrunedTwice(d: Nodes, b: Nodes, e: Nodes)
    requires Pruned(d, b) && Pruned(b, e)
    ensures Pruned(d, e)
  {
    forall x, c {:trigger Refers(d[x].body, c)} | x in d && x !in e && Refers(d[x].body, c) ensures c !in e {
      if x in b { assert Refers(b[x].body, c); }
    }
  }

  /** A node leaves after everything below it has. */
  lemma PrunedLast(d: Nodes, b: Nodes, h: Hash, cs: seq<Hash>)
    requires Pruned(d, b) && h in d && multiset(cs) == Owed(d[h].body) && forall c :: c in cs ==> c !in b
    ensures Pruned(d, b - {h})
  {
    forall c | Refers(d[h].body, c) ensures c !in b { assert c in multiset(cs); }
  }

  /** What a cached node refers to is cached or on disk. */
  lemma Reachable(v: Cache, rank: Hash -> nat, h: Hash, c: Hash)
    requires Inv(v, [], multiset{}, rank) && h in v.d && Refers(v.d[h].body, c)
    ensures c in v.d || c in v.refs
  {
    Whereabouts(v, [], multiset{}, rank);
    assert Holds(Grounds, v, [], multiset{}, rank);
    assert Grounded(v.d[h].body, h, v.flush, v.stamp, v.refs.Keys);
  }

  /** The references of a node are on disk once the cached ones among them are settled. */
  lemma AllOnDisk(v: Cache, disk: map<Hash, Bytes>, rank: Hash -> nat, h: Hash, cs: seq<Hash>)
    requires Inv(v, [], multiset{}, rank) && v.refs.Keys == disk.Keys && h in v.d && multiset(cs) == Owed(v.d[h].body)
    requires forall c :: c in cs ==> Settled(v.d, disk, rank, c)
    ensures RefSet(v.d[h].body) <= disk.Keys
  {
    forall c | Refers(v.d[h].body, c) ensures c in disk {
      assert c in multiset(cs);
      assert Settled(v.d, disk, rank, c);
      Reachable(v, rank, h, c);
    }
  }

  lemma KeptTwice(d: Nodes, a: map<Hash, Bytes>, b: map<Hash, Bytes>, c: map<Hash, Bytes>)
    requires Kept(d, d, a, b) && Kept(d, d, b, c)
    ensures Kept(d, d, a, c)
  {
    forall h {:trigger c[h]} | h in d && h in a && a[h] == d[h].body.blob ensures c[h] == d[h].body.blob {
      assert b[h] == d[h].body.blob;
    }
  }

  /** A node is settled once its references are settled and it is written. */
  lemma WrittenSettled(d: Nodes, a: map<Hash, Bytes>, b: map<Hash, Bytes>, rank: Hash -> nat, h: Hash, cs: seq<Hash>)
    requires h in d && multiset(cs) == Owed(d[h].body) && b == a[h := d[h].body.blob] && RefSet(d[h].body) <= a.Keys
    requires forall c :: c in cs ==> Settled(d, a, rank, c)
    ensures Kept(d, d, a, b) && Settled(d, b, rank, h)
  {
    forall c | c in RefSet(d[h].body) && rank(c) < rank(h) ensures Settled(d, b, rank, c) {
      assert c in multiset(cs);
      SettledStays(d, d, a, b, rank, c);
    }
  }

  // ------------------------------------------------------------------------------------------
  // What the invariant means
  // ------------------------------------------------------------------------------------------

  ghost predicate Available(v: Cache, h: Hash) {
    h in v.d || h in v.refs
  }

  /** What node `h` refers to, as it is in the cache or else as it was written. */
  ghost predicate Leads(v: Cache, h: Hash, c: Hash) {
    if h in v.d then Refers(v.d[h].body, c) else h in v.refs && c in v.refs[h]
  }

  /** From an available node, references never lead to a missing one, however far they are followed. */
  lemma {:induction false} NoDangling(v: Cache, rank: Hash -> nat, way: seq<Hash>, n: nat)
    requires Inv(v, [], multiset{}, rank) && n < |way| && Available(v, way[0])
    requires forall i {:trigger way[i]} :: 0 < i < |way| ==> Leads(v, way[i - 1], way[i])
    ensures Available(v, way[n])
  {
    if n > 0 {
      NoDangling(v, rank, way, n - 1);
      var h, c := way[n - 1], way[n];
      assert Leads(v, h, c);
      if h in v.d {
        Reachable(v, rank, h, c);
      } else {
        assert Holds(Disk, v, [], multiset{}, rank);
      }
    }
  }

  /** On disk alone the same holds: a node's references were all written before it. */
  lemma {:induction false} DiskNoDangling(v: Cache, rank: Hash -> nat, way: seq<Hash>, n: nat)
    requires Inv(v, [], multiset{}, rank) && n < |way| && way[0] in v.refs
    requires forall i {:trigger way[i]} :: 0 < i < |way| && way[i - 1] in v.refs ==> way[i] in v.refs[way[i - 1]]
    ensures way[n] in v.refs
  {
    if n > 0 {
      DiskNoDangling(v, rank, way, n - 1);
      assert Holds(Disk, v, [], multiset{}, rank);
      assert way[n] in v.refs[way[n - 1]];
    }
  }

  /** The flush-list has every cached node but the meta-root, exactly once, in the order of insertion. */
  lemma ListEnumerates(v: Cache, rank: Hash -> nat)
    requires Inv(v, [], multiset{}, rank)
    ensures forall h {:trigger h in v.d} :: h in v.d && h != META <==> h in v.flush
    ensures forall i, j :: 0 <= i < j < |v.flush| ==> v.flush[i] != v.flush[j]
    ensures forall h :: h in v.flush ==> h in v.stamp
    ensures forall i, j :: 0 <= i < j < |v.flush| ==> v.stamp[v.flush[i]] < v.stamp[v.flush[j]]
  {
    Whereabouts(v, [], multiset{}, rank);
    assert Holds(Order, v, [], multiset{}, rank);
    forall i: nat, j: nat | i < j < |v.flush| ensures v.flush[i] != v.flush[j] {
      Apart(v.flush, v.stamp, v.clock, i, j);
    }
  }

  /** The nodes of a list that are still in the cache, in the same order. */
  function Remaining(s: seq<Hash>, d: Nodes): seq<Hash> {
    if s == [] then []
    else
      var n := |s| - 1;
      Remaining(s[..n], d) + if s[n] in d then [s[n]] else []
  }

  ghost predicate Rising(s: seq<Hash>, stamp: map<Hash, nat>) {
    && (forall i :: 0 <= i < |s| ==> s[i] in stamp)
    && forall i, j :: 0 <= i < j < |s| ==> stamp[s[i]] < stamp[s[j]]
  }

  lemma {:induction false} RemainingHas(s: seq<Hash>, d: Nodes, stamp: map<Hash, nat>)
    requires Rising(s, stamp)
    ensures forall h :: h in Remaining(s, d) <==> h in s && h in d
    ensures Rising(Remaining(s, d), stamp)
  {
    if s != [] {
      var n := |s| - 1;
      RemainingHas(s[..n], d, stamp);
      assert s == s[..n] + [s[n]];
      var r := Remaining(s[..n], d);
      forall i | 0 <= i < |r| ensures r[i] in stamp && stamp[r[i]] < stamp[s[n]] {
        assert r[i] in s[..n];
        var j :| 0 <= j < n && s[j] == r[i];
      }
    }
  }

  /** A list that follows the stamps is determined by what is in it. */
  lemma {:induction false} RisingUnique(s: seq<Hash>, t: seq<Hash>, stamp: map<Hash, nat>)
    requires Rising(s, stamp) && Rising(t, stamp) && forall h :: h in s <==> h in t
    ensures s == t
  {
    if s == [] {
      assert forall i :: 0 <= i < |t| ==> t[i] in t;
    } else {
      var m := |s| - 1;
      assert s[m] in t;
      var n := |t| - 1;
      assert t[n] in s;
      SameLast(s, t, stamp);
      assert s == s[..m] + [s[m]] && t == t[..n] + [t[n]];
      forall h ensures h in s[..m] <==> h in t[..n] {
        BeforeLast(s, stamp, h);
        BeforeLast(t, stamp, h);
      }
      RisingUnique(s[..m], t[..n], stamp);
    }
  }

  lemma BeforeLast(s: seq<Hash>, stamp: map<Hash, nat>, h: Hash)
    requires s != [] && Rising(s, stamp)
    ensures h in s[..|s| - 1] <==> h in s && h != s[|s| - 1]
  {
    var m := |s| - 1;
    assert s == s[..m] + [s[m]];
    assert forall i :: 0 <= i < m ==> stamp[s[..m][i]] < stamp[s[m]];
  }

  lemma SameLast(s: seq<Hash>, t: seq<Hash>, stamp: map<Hash, nat>)
    requires s != [] && t != [] && Rising(s, stamp) && Rising(t, stamp) && s[|s| - 1] in t && t[|t| - 1] in s
    ensures s[|s| - 1] == t[|t| - 1]
  {
    var i :| 0 <= i < |t| && t[i] == s[|s| - 1];
    var j :| 0 <= j < |s| && s[j] == t[|t| - 1];
  }

  lemma FlushRises(v: Cache, rank: Hash -> nat)
    requires Inv(v, [], multiset{}, rank)
    ensures Rising(v.flush, v.stamp)
  {
    ListEnumerates(v, rank);
    forall i | 0 <= i < |v.flush| ensures v.flush[i] in v.stamp { assert v.flush[i] in v.flush; }
  }

  /** When nodes only leave the cache, the list is the old one without them. */
  lemma ListRemains(v: Cache, w: Cache, rank: Hash -> nat)
    requires Inv(v, [], multiset{}, rank) && Inv(w, [], multiset{}, rank) && w.stamp == v.stamp && w.d.Keys <= v.d.Keys
    ensures w.flush == Remaining(v.flush, w.d)
  {
    FlushRises(v, rank);
    FlushRises(w, rank);
    ListEnumerates(v, rank);
    ListEnumerates(w, rank);
    RemainingHas(v.flush, w.d, v.stamp);
    Whereabouts(v, [], multiset{}, rank);
    Whereabouts(w, [], multiset{}, rank);
    RisingUnique(w.flush, Remaining(v.flush, w.d), v.stamp);
  }

  /** Going back undoes going on, everywhere but at the oldest node. */
  lemma PrevUndoesNext(v: Cache, rank: Hash -> nat, i: nat)
    requires Inv(v, [], multiset{}, rank) && i + 1 < |v.flush|
    ensures v.flush[i] in v.d && v.d[v.flush[i]].next in v.d && v.d[v.d[v.flush[i]].next].prev == v.flush[i]
  {
    Whereabouts(v, [], multiset{}, rank);
    assert Holds(Links, v, [], multiset{}, rank);
    assert v.flush[i] in v.flush && v.flush[i + 1] in v.flush;
    assert v.d[v.flush[i + 1]].prev == v.flush[i];
  }

  /** The running size is exact if and only if no blob of 65504 to 65535 bytes, modulo 65536, was ever inserted. */
  lemma SizeExactIff(v: Cache, rank: Hash -> nat)
    requires Inv(v, [], multiset{}, rank)
    ensures v.size == Sum(SizeIn(v.d), v.flush) <==> v.wraps == 0
  {
    assert Holds(Sizes, v, [], multiset{}, rank);
  }

  /** A blob is charged at its length plus 32 if and only if it is shorter than 65504 bytes. */
  lemma ChargeExactIff(b: Body)
    ensures Charge(b) == 32 + |b.blob| <==> |b.blob| < 65504
  {
    if |b.blob| < 0x1_0000 {
      assert |b.blob| % 0x1_0000 == |b.blob|;
    }
  }

  /** The shortest blob that is not: inserted into an empty cache, it is charged at nothing. */
  lemma ChargeWraps(blob: Bytes, h: Hash, refs: map<Hash, set<Hash>>)
    requires |blob| == 65504 && h != META
    ensures var d := map[META := Node(Body([], [], map[]), 0, META, META)];
            var w := Inserted(Cache(d, META, META, 0, [], map[], 0, 0, refs), d, h, Body(blob, [], map[]));
            w.flush == [h] && w.size == 0 && Sum(SizeIn(w.d), w.flush) == 65536
  {
    var d := map[META := Node(Body([], [], map[]), 0, META, META)];
    var w := Inserted(Cache(d, META, META, 0, [], map[], 0, 0, refs), d, h, Body(blob, [], map[]));
    assert w.flush == [h] && w.d[h].Size() == 65504;
    assert SumTo(SizeIn(w.d), w.flush, 1) == SumTo(SizeIn(w.d), w.flush, 0) + SizeIn(w.d)(h);
  }

  /** Reference counts are exact for every node that is in the cache only. */
  lemma CountIsReferences(v: Cache, rank: Hash -> nat, c: Hash)
    requires Inv(v, [], multiset{}, rank) && c in v.flush && c !in v.refs
    ensures META in v.d && c in v.d && v.d[c].parents == Refs(v.d[META].body, c) + Sum(RefsIn(v.d, c), v.flush)
  {
    Whereabouts(v, [], multiset{}, rank);
    assert Holds(Counts, v, [], multiset{}, rank);
    assert Counted(v.d, v.flush, multiset{}, c);
  }
}

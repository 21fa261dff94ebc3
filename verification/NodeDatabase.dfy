/**
 The trie node database of src/trie/database.go as an object: the methods change the cache in place, and every
 one of them keeps the invariant of NodeGraph.
 */
module NodeDatabase {
  import opened Wrappers
  import opened TrieKeys
  import opened NodeGraph

  /** `descendents`. The external references come in the arbitrary order of a map. */
  method Descendents(b: Body) returns (cs: seq<Hash>)
    ensures multiset(cs) == Owed(b)
  {
    cs := [];
    var keys := b.external.Keys;
    while keys != {}
      invariant keys <= b.external.Keys && multiset(cs) + multiset(keys) == multiset(b.external.Keys)
    {
      var k :| k in keys;
      cs := cs + [k];
      keys := keys - {k};
    }
    cs := cs + b.children;
  }

  /** What is still to be visited of a list. */
  ghost function Rest(cs: seq<Hash>, i: nat): multiset<Hash>
    requires i <= |cs|
  {
    multiset(cs[i..])
  }

  lemma RestStep(cs: seq<Hash>, i: nat)
    requires i < |cs|
    ensures Rest(cs, i) == Rest(cs, i + 1) + multiset{cs[i]}
  {
    assert cs[i..] == [cs[i]] + cs[i + 1..];
  }

  /** Bytes that `Cap` counts once the `k` oldest nodes are gone. */
  ghost function Left(total: int, d: Nodes, s: seq<Hash>, k: nat): int
    requires k <= |s|
  {
    total - SumTo(SizeIn(d), s, k) - 64 * k
  }

  ghost predicate SubMap(e: Nodes, d: Nodes) {
    e.Keys <= d.Keys && forall x {:trigger e[x]} :: x in e ==> e[x] == d[x]
  }

  lemma LeftOne(total: int, e: Nodes, d: Nodes, s: seq<Hash>, j: nat)
    requires j < |s| && s[j] in e && SubMap(e, d)
    ensures Left(total, d, s, j + 1) == Left(total, d, s, j) - SizeIn(e)(s[j]) - 64
  {}

  /** Dropping fewer than `k` nodes leaves too much. */
  ghost predicate TooFew(total: int, d: Nodes, s: seq<Hash>, k: nat, limit: int) {
    k <= |s| && forall j: nat :: j < k ==> Left(total, d, s, j) > limit
  }

  lemma OneMore(total: int, d: Nodes, s: seq<Hash>, k: nat, limit: int, n: nat)
    requires k < |s| && TooFew(total, d, s, k, limit) && Left(total, d, s, k) > limit && 32 + n == SizeIn(d)(s[k])
    ensures TooFew(total, d, s, k + 1, limit) && Left(total, d, s, k + 1) == Left(total, d, s, k) - 96 - n
  {}

  /** Dropping the `k` oldest nodes meets the limit, if that is possible at all, and dropping fewer does not. */
  ghost predicate Enough(total: int, d: Nodes, s: seq<Hash>, k: nat, limit: int) {
    TooFew(total, d, s, k, limit) && (k == |s| || Left(total, d, s, k) <= limit)
  }

  class Database {
    var dirties: Nodes
    var oldest: Hash
    var newest: Hash
    var dirtiesSize: int
    var disk: map<Hash, Bytes>

    ghost var flush: seq<Hash>
    ghost var stamp: map<Hash, nat>
    ghost var clock: nat
    ghost var wraps: nat
    ghost var refs: map<Hash, set<Hash>>
    ghost const rank: Hash -> nat

    ghost function Now(): Cache
      reads this
    {
      Cache(dirties, oldest, newest, dirtiesSize, flush, stamp, clock, wraps, refs)
    }

    ghost predicate ValidIn(path: seq<Hash>, owed: multiset<Hash>)
      reads this
    {
      Inv(Now(), path, owed, rank) && refs.Keys == disk.Keys
    }

    ghost predicate Valid()
      reads this
    {
      ValidIn([], multiset{})
    }

    /** `Node`: the cache first, then the disk. */
    function Lookup(h: Hash): Option<Bytes>
      reads this
    {
      if h in dirties then Some(dirties[h].body.blob) else if h in disk then Some(disk[h]) else None
    }

    /** `h` was inserted into the cache before `g`. */
    ghost predicate Older(h: Hash, g: Hash)
      reads this
    {
      h in stamp && g in stamp && stamp[h] < stamp[g]
    }

    /** `NewDatabase` over a disk that is closed under children. */
    constructor (stored: map<Hash, Bytes>, ghost links: map<Hash, set<Hash>>, ghost rank: Hash -> nat)
      requires links.Keys == stored.Keys && DiskClosed(links)
      ensures Valid() && flush == [] && disk == stored && refs == links && this.rank == rank && wraps == 0
    {
      dirties := map[META := Node(Body([], [], map[]), 0, META, META)];
      oldest, newest, dirtiesSize, disk := META, META, 0, stored;
      flush, stamp, clock, wraps, refs := [], map[], 0, 0, links;
      this.rank := rank;
    }

    /** Raise the reference counts of the cached nodes among `cs`. */
    method Credit(cs: seq<Hash>)
      modifies this`dirties
      ensures Credited(old(dirties), dirties, multiset(cs))
    {
      for i := 0 to |cs|
        invariant Credited(old(dirties), dirties, multiset(cs[..i]))
      {
        var c := cs[i];
        assert cs[..i + 1] == cs[..i] + [c];
        if c in dirties {
          dirties := dirties[c := dirties[c].(parents := dirties[c].parents + 1)];
        }
      }
      assert cs[..|cs|] == cs;
    }

    /** `insert`: a node whose children are cached or on disk. */
    method Insert(hash: Hash, blob: Bytes, children: seq<Hash>)
      requires Valid()
      requires hash !in dirties ==> forall c :: c in children ==>
                 c != META && rank(c) < rank(hash) && (c in dirties || c in disk)
      modifies this
      ensures Valid() && unchanged(this`disk, this`refs)
      ensures hash in old(dirties) ==> unchanged(this)
      ensures hash !in old(dirties) ==>
                flush == old(flush) + [hash] && Added(old(dirties), dirties, hash, Body(blob, children, map[]))
      ensures hash !in old(dirties) ==> wraps == old(wraps) + Wraps(Body(blob, children, map[]))
    {
      if hash !in dirties {
        InsertNew(hash, Body(blob, children, map[]));
      }
    }

    /** The part of `insert` for a node that is not cached yet. */
    method InsertNew(hash: Hash, body: Body)
      requires Valid() && hash !in dirties && body.external == map[]
      requires forall c :: c in body.children ==> c != META && rank(c) < rank(hash) && (c in dirties || c in disk)
      modifies this
      ensures Valid() && unchanged(this`disk, this`refs)
      ensures flush == old(flush) + [hash] && Added(old(dirties), dirties, hash, body)
      ensures wraps == old(wraps) + Wraps(body)
    {
      ghost var v := Now();
      var entry := Node(body, 0, newest, META);
      var cs := Descendents(entry.body);
      Credit(cs);
      InsertKeeps(v, dirties, hash, entry.body, rank);
      InsertedAdded(v, dirties, hash, entry.body);
      Append(hash, entry, v);
    }

    /** The end of `insert`: the entry goes into the map and to the end of the flush-list. */
    method Append(hash: Hash, entry: Node, ghost v: Cache)
      requires oldest != META ==> newest in dirties
      requires v == Now().(d := v.d) && entry == Node(entry.body, 0, newest, META)
      modifies this`dirties, this`oldest, this`newest, this`dirtiesSize, this`flush, this`stamp, this`clock, this`wraps
      ensures Now() == Inserted(v, old(dirties), hash, entry.body)
    {
      dirties := dirties[hash := entry];
      if oldest == META {
        oldest, newest := hash, hash;
      } else {
        dirties := dirties[newest := dirties[newest].(next := hash)];
        newest := hash;
      }
      dirtiesSize := dirtiesSize + Charge(entry.body);
      flush := flush + [hash];
      stamp, clock := stamp[hash := clock], clock + 1;
      wraps := wraps + Wraps(entry.body);
    }

    /** `Reference`: the parent is cached; a cached child is older than its parent. */
    method Reference(child: Hash, parent: Hash)
      requires Valid()
      requires child in dirties ==> parent in dirties && child != META && child != parent
      requires child in dirties && parent != META ==>
                 rank(child) < rank(parent) && (child in disk || Older(child, parent))
      modifies this`dirties
      ensures Valid()
      ensures child !in old(dirties) || (parent != META && child in old(dirties)[parent].body.external) ==>
                dirties == old(dirties)
      ensures child in old(dirties) && !(parent != META && child in old(dirties)[parent].body.external) ==>
                dirties == Referenced(old(dirties), child, parent)
    {
      if child !in dirties {
        return;
      }
      if parent != META && child in dirties[parent].body.external {
        return;
      }
      ghost var v := Now();
      Whereabouts(v, [], multiset{}, rank);
      dirties := dirties[child := dirties[child].(parents := dirties[child].parents + 1)];
      dirties := dirties[parent := dirties[parent].(body := MoreOne(dirties[parent].body, child))];
      ReferKeeps(v, child, parent, rank);
    }

    // ------------------------------------------------------------------------------------------
    // Removing nodes
    // ------------------------------------------------------------------------------------------

    /** Take a node that nothing refers to out of the flush-list. */
    method Unlink(h: Hash, ghost path: seq<Hash>, ghost owed: multiset<Hash>)
      requires ValidIn(path, owed) && h in flush && h in dirties && Free(Now(), h)
      modifies this`dirties, this`oldest, this`newest, this`flush
      ensures ValidIn(path + [h], owed + Owed(old(dirties)[h].body)) && SameUpToLinks(old(dirties), dirties)
    {
      ghost var v := Now();
      ghost var k: nat :| k < |flush| && flush[k] == h;
      Whereabouts(v, path, owed, rank);
      LinksOf(v, path, owed, k);
      Bypass(h, k);
      flush := Without(flush, k);
      UnlinkKeeps(v, dirties, oldest, newest, k, path, owed, rank);
    }

    /** The neighbours of a node in the list are linked to each other. */
    method Bypass(h: Hash, ghost k: nat)
      requires k < |flush| && flush[k] == h && h in dirties && UnlinkedLinks(Now(), k)
      modifies this`dirties, this`oldest, this`newest
      ensures Linked(dirties, Without(flush, k), oldest, newest) && SameUpToLinks(old(dirties), dirties)
    {
      var node := dirties[h];
      if h == oldest {
        oldest := node.next;
        dirties := SetPrev(dirties, node.next, META);
      } else if h == newest {
        newest := node.prev;
        dirties := SetNext(dirties, node.prev, META);
      } else {
        dirties := SetNext(dirties, node.prev, node.next);
        dirties := SetPrev(dirties, node.next, node.prev);
      }
    }

    /** What taking out node `k` of the list does to the links, case by case. */
    ghost predicate UnlinkedLinks(v: Cache, k: nat)
      requires k < |v.flush| && v.flush[k] in v.d
    {
      var h, n := v.flush[k], v.d[v.flush[k]];
      if h == v.oldest then n.next in v.d && Linked(SetPrev(v.d, n.next, META), Without(v.flush, k), n.next, v.newest)
      else if h == v.newest then n.prev in v.d
          && Linked(SetNext(v.d, n.prev, META), Without(v.flush, k), v.oldest, n.prev)
      else
        n.prev in v.d && n.next in v.d &&
        Linked(Joined(v.d, n.prev, n.next), Without(v.flush, k), v.oldest, v.newest)
    }

    lemma LinksOf(v: Cache, path: seq<Hash>, owed: multiset<Hash>, k: nat)
      requires Inv(v, path, owed, rank) && k < |v.flush| && META in v.d && v.flush[k] in v.d
      ensures UnlinkedLinks(v, k)
    {
      assert Holds(Links, v, path, owed, rank) && Holds(Order, v, path, owed, rank);
      var h, n := v.flush[k], |v.flush| - 1;
      if k == 0 {
        UnlinkFirst(v.d, v.flush, v.oldest, v.newest, v.stamp, v.clock);
      } else {
        Apart(v.flush, v.stamp, v.clock, 0, k);
        if k == n {
          UnlinkLast(v.d, v.flush, v.oldest, v.newest, v.stamp, v.clock);
        } else {
          Apart(v.flush, v.stamp, v.clock, n, k);
          UnlinkMiddle(v.d, v.flush, v.oldest, v.newest, v.stamp, v.clock, k);
        }
      }
    }

    /** The node at the end of the path leaves the map. */
    method Delete(h: Hash, ghost path: seq<Hash>, ghost owed: multiset<Hash>)
      requires ValidIn(path + [h], owed) && h !in path && h in dirties && h != META
      modifies this`dirties, this`dirtiesSize
      ensures ValidIn(path, owed) && dirties == old(dirties) - {h}
      ensures h in disk && disk[h] == old(dirties)[h].body.blob ==> forall x :: Lookup(x) == old(Lookup(x))
    {
      DeleteKeeps(Now(), path, h, owed, rank);
      dirtiesSize := dirtiesSize - (32 + dirties[h].Size());
      dirties := dirties - {h};
    }

    /** `dereference`, once the parent has given the reference up: remove the child when it was the last one. */
    method Release(child: Hash, ghost path: seq<Hash>, ghost owed: multiset<Hash>)
      requires ValidIn(path, owed) && child != META && (child in owed || child in disk || child !in dirties)
      requires forall p :: p in path ==> rank(child) < rank(p)
      modifies this`dirties, this`oldest, this`newest, this`dirtiesSize, this`flush
      ensures ValidIn(path, owed - multiset{child}) && Shrunk(old(dirties), dirties, {})
      ensures child in dirties ==> dirties[child].parents > 0
      decreases rank(child), 1
    {
      Whereabouts(Now(), path, owed, rank);
      if child !in dirties {
        ForgetKeeps(Now(), child, path, owed, rank);
        return;
      }
      ReleaseKeeps(Now(), child, path, owed, rank);
      dirties := Released(dirties, child);
      if dirties[child].parents == 0 {
        Remove(child, path, owed - multiset{child});
      }
    }

    /** Take a node that nothing refers to out of the list, release what it refers to, and delete it. */
    method Remove(h: Hash, ghost path: seq<Hash>, ghost owed: multiset<Hash>)
      requires ValidIn(path, owed) && h in flush && h in dirties && h != META && dirties[h].parents == 0
      requires forall p :: p in path ==> rank(h) < rank(p)
      modifies this`dirties, this`oldest, this`newest, this`dirtiesSize, this`flush
      ensures ValidIn(path, owed) && Shrunk(old(dirties), dirties, {}) && h !in dirties
      decreases rank(h), 0
    {
      CountZero(Now(), path, owed, rank, h);
      var cs := Descendents(dirties[h].body);
      OwedRanked(Now(), path, owed, rank, h, cs);
      Unlink(h, path, owed);
      ghost var inner := path + [h];
      for i := 0 to |cs|
        invariant ValidIn(inner, owed + Rest(cs, i)) && h in dirties && Shrunk(old(dirties), dirties, {h})
      {
        assert cs[i] in multiset(cs);
        RestStep(cs, i);
        DereferenceFrom(cs[i], h, inner, owed + Rest(cs, i));
        assert owed + Rest(cs, i) - multiset{cs[i]} == owed + Rest(cs, i + 1);
      }
      assert owed + Rest(cs, |cs|) == owed;
      Delete(h, path, owed);
    }

    /** `dereference` from a node that is being removed. */
    method DereferenceFrom(child: Hash, parent: Hash, ghost path: seq<Hash>, ghost owed: multiset<Hash>)
      requires ValidIn(path, owed) && child != META && child in owed && parent in path && parent in dirties
      requires forall p :: p in path ==> rank(child) < rank(p)
      modifies this`dirties, this`oldest, this`newest, this`dirtiesSize, this`flush
      ensures ValidIn(path, owed - multiset{child}) && parent in dirties && Shrunk(old(dirties), dirties, {parent})
      decreases rank(child), 2
    {
      DropOnPath(Now(), parent, child, path, owed, rank);
      dirties := DropIn(dirties, parent, child);
      Release(child, path, owed);
      Whereabouts(Now(), path, owed - multiset{child}, rank);
    }

    /** `Dereference`: the meta-root gives up one reference to `root`. */
    method Dereference(root: Hash)
      requires Valid()
      requires root != META && root in dirties && root !in disk ==>
                 META in dirties && root in dirties[META].body.external
      modifies this`dirties, this`oldest, this`newest, this`dirtiesSize, this`flush
      ensures Valid()
      ensures root == META ==> unchanged(this)
      ensures root != META ==> Shrunk(old(dirties), dirties, {META}) && (root in dirties ==> dirties[root].parents > 0)
      ensures flush == Remaining(old(flush), dirties)
      ensures root != META && META in old(dirties) ==>
                META in dirties && dirties[META].body.external == LessOne(old(dirties)[META].body.external, root)
    {
      ghost var v := Now();
      if root == META {
        ListRemains(v, v, rank);
        return;
      }
      Whereabouts(Now(), [], multiset{}, rank);
      ghost var owed := if root in dirties[META].body.external then multiset{root} else multiset{};
      DropFromMeta(Now(), root, rank);
      dirties := DropIn(dirties, META, root);
      Release(root, [], owed);
      assert owed - multiset{root} == multiset{};
      Whereabouts(Now(), [], multiset{}, rank);
      ListRemains(v, Now(), rank);
    }

    // ------------------------------------------------------------------------------------------
    // Writing nodes
    // ------------------------------------------------------------------------------------------

    /** Write one cached node whose references are on disk. The disk may refuse. */
    method Put(h: Hash) returns (ok: bool)
      requires Valid() && h in dirties && RefSet(dirties[h].body) <= refs.Keys
      modifies this`disk, this`refs
      ensures Valid() && forall x :: Lookup(x) == old(Lookup(x))
      ensures ok ==> disk == old(disk)[h := dirties[h].body.blob] && refs == old(refs)[h := RefSet(dirties[h].body)]
      ensures !ok ==> unchanged(this)
    {
      ok := *;
      if ok {
        WriteKeeps(Now(), h, [], multiset{}, rank);
        disk := disk[h := dirties[h].body.blob];
        refs := refs[h := RefSet(dirties[h].body)];
      }
    }

    /** A cached node is on disk as it is in the cache, and so is all that it refers to. */
    ghost predicate Written(h: Hash)
      reads this
    {
      h in dirties && h in disk && disk[h] == dirties[h].body.blob && RefSet(dirties[h].body) <= refs.Keys
    }

    /** The size that `Cap` compares with its limit. */
    function Size(): int
      reads this
    {
      dirtiesSize + (|dirties| - 1) * 64
    }

    /** The `k` oldest nodes have been written and `cur` is next. */
    ghost predicate Flushing(cur: Hash, k: nat)
      reads this
    {
      && Valid() && k <= |flush| && cur == (if k < |flush| then flush[k] else META)
      && (forall i :: 0 <= i < k ==> Written(flush[i]))
    }

    method FlushNext(cur: Hash, ghost k: nat) returns (ok: bool, next: Hash, size: nat)
      requires Flushing(cur, k) && cur != META
      modifies this`disk, this`refs
      ensures Valid() && k < |flush| && forall x :: Lookup(x) == old(Lookup(x))
      ensures 32 + size == SizeIn(dirties)(flush[k])
      ensures ok ==> Flushing(next, k + 1)
    {
      Whereabouts(Now(), [], multiset{}, rank);
      OlderFirst(Now(), k, rank);
      NextIs(Now(), [], multiset{}, rank, k);
      next, size := dirties[cur].next, dirties[cur].Size();
      ok := Put(cur);
    }

    /** So far too little has been written, and `size` is what remains of `total`. */
    ghost predicate Capping(cur: Hash, k: nat, size: int, total: int, limit: int)
      reads this
    {
      Flushing(cur, k) && TooFew(total, dirties, flush, k, limit) && size == Left(total, dirties, flush, k)
    }

    method FlushStep(cur: Hash, size: int, limit: int, ghost k: nat, ghost total: int)
      returns (ok: bool, next: Hash, left: int)
      requires Capping(cur, k, size, total, limit) && size > limit && cur != META
      modifies this`disk, this`refs
      ensures Valid() && k < |flush| && forall x :: Lookup(x) == old(Lookup(x))
      ensures ok ==> Capping(next, k + 1, left, total, limit)
    {
      var n;
      ok, next, n := FlushNext(cur, k);
      OneMore(total, dirties, flush, k, limit, n);
      left := size - (96 + n);
    }

    /** The first loop of `Cap`: write nodes, oldest first, until what remains is small enough. */
    method FlushOldest(limit: int) returns (ok: bool, cur: Hash, ghost k: nat)
      requires Valid()
      modifies this`disk, this`refs
      ensures Valid() && k <= |flush| && forall x :: Lookup(x) == old(Lookup(x))
      ensures ok ==> Flushing(cur, k) && Enough(old(Size()), old(dirties), old(flush), k, limit)
    {
      var size := Size();
      ghost var total := size;
      cur, k, ok := oldest, 0, true;
      Whereabouts(Now(), [], multiset{}, rank);
      while size > limit && cur != META
        invariant ok && Capping(cur, k, size, total, limit) && forall x :: Lookup(x) == old(Lookup(x))
        decreases |flush| - k
      {
        ok, cur, size := FlushStep(cur, size, limit, k, total);
        if !ok {
          return;
        }
        k := k + 1;
      }
      AtTheEnd(cur, k);
    }

    lemma AtTheEnd(cur: Hash, k: nat)
      requires Flushing(cur, k)
      ensures cur == META ==> k == |flush|
    {
      Whereabouts(Now(), [], multiset{}, rank);
    }

    /** Drop the oldest node, which is on disk. */
    method DropFirst()
      requires Valid() && flush != [] && Written(oldest)
      modifies this`dirties, this`oldest, this`dirtiesSize, this`flush
      ensures Valid() && forall x :: Lookup(x) == old(Lookup(x))
      ensures flush == old(flush)[1..] && dirties == old(dirties) - {old(oldest)}
      ensures old(oldest) in old(dirties) && Size() == old(Size()) - SizeIn(old(dirties))(old(oldest)) - 64
    {
      DropOldest(Now(), rank);
      DropSize(dirties, oldest);
      var h, node := oldest, dirties[oldest];
      dirties := dirties - {h};
      oldest := node.next;
      flush := flush[1..];
      dirtiesSize := dirtiesSize - (32 + node.Size());
    }

    /** `j` of the `k` written nodes of list `s` have been dropped from cache `d`. */
    ghost predicate Dropping(s: seq<Hash>, d: Nodes, total: int, j: nat, k: nat)
      reads this
    {
      && Valid() && j <= k <= |s| && flush == s[j..] && oldest == (if j < |s| then s[j] else META)
      && (forall i :: j <= i < k ==> Written(s[i]))
      && SubMap(dirties, d) && Size() == Left(total, d, s, j)
    }

    method DropNext(ghost s: seq<Hash>, ghost d: Nodes, ghost total: int, ghost j: nat, ghost k: nat)
      requires Dropping(s, d, total, j, k) && j < k
      modifies this`dirties, this`oldest, this`dirtiesSize, this`flush
      ensures Dropping(s, d, total, j + 1, k) && forall x :: Lookup(x) == old(Lookup(x))
    {
      LeftOne(total, dirties, d, s, j);
      DropFirst();
      StillWritten(s, j + 1, k);
    }

    lemma WrittenBefore(cur: Hash, k: nat)
      requires Flushing(cur, k)
      ensures (forall i: nat :: i < k ==> flush[i] != cur) && oldest == (if flush == [] then META else flush[0])
    {
      Whereabouts(Now(), [], multiset{}, rank);
      forall i: nat | i < k ensures flush[i] != cur {
        if k < |flush| { Distinct(Now(), [], multiset{}, rank, i, k); }
      }
    }

    /** The second loop of `Cap`: the written nodes leave the cache. */
    method DropWritten(cur: Hash, ghost k: nat)
      requires Flushing(cur, k)
      modifies this`dirties, this`oldest, this`dirtiesSize, this`flush
      ensures Valid() && flush == old(flush)[k..] && forall x :: Lookup(x) == old(Lookup(x))
      ensures Size() == Left(old(Size()), old(dirties), old(flush), k)
    {
      ghost var s, d, total, j: nat := flush, dirties, Size(), 0;
      WrittenBefore(cur, k);
      while oldest != cur
        invariant Dropping(s, d, total, j, k) && forall x :: Lookup(x) == old(Lookup(x))
        decreases |flush|
      {
        DropNext(s, d, total, j, k);
        j := j + 1;
      }
    }

    method ForgetPrev()
      requires Valid()
      modifies this`dirties
      ensures Valid() && Size() == old(Size()) && forall x :: Lookup(x) == old(Lookup(x))
    {
      Whereabouts(Now(), [], multiset{}, rank);
      if oldest != META {
        FirstPrevKeeps(Now(), rank);
        dirties := SetPrev(dirties, oldest, META);
        assert dirties.Keys == old(dirties.Keys);
      }
    }

    /**
     `Cap`: flush nodes, oldest first, until the cache is within the limit. When the disk refuses a write, the
     cache is left as it was.
     */
    method Cap(limit: int) returns (ok: bool, ghost k: nat)
      requires Valid()
      modifies this`dirties, this`oldest, this`dirtiesSize, this`flush, this`disk, this`refs
      ensures Valid() && k <= |old(flush)| && forall x :: Lookup(x) == old(Lookup(x))
      ensures !ok ==> unchanged(this`dirties, this`oldest, this`dirtiesSize, this`flush)
      ensures ok ==> flush == old(flush)[k..] && Enough(old(Size()), old(dirties), old(flush), k, limit)
      ensures ok ==> flush == [] || Size() <= limit
    {
      var cur;
      ok, cur, k := FlushOldest(limit);
      if !ok {
        return;
      }
      DropWritten(cur, k);
      ForgetPrev();
    }

    lemma StillWritten(s: seq<Hash>, j: nat, k: nat)
      requires Valid() && 0 < j <= k <= |s| && flush == s[j..]
      ensures oldest == if j < |s| then s[j] else META
      ensures forall i :: j <= i < k ==> s[i] in dirties
    {
      Whereabouts(Now(), [], multiset{}, rank);
      forall i | j <= i < k ensures s[i] in dirties { assert flush[i - j] == s[i]; }
    }

    // ------------------------------------------------------------------------------------------
    // Committing a trie
    // ------------------------------------------------------------------------------------------

    /** `commit`: write everything cached below `hash`, children first, then the node. */
    method CommitFrom(hash: Hash) returns (ok: bool)
      requires Valid() && hash != META
      modifies this`disk, this`refs
      ensures Valid() && (forall x :: Lookup(x) == old(Lookup(x))) && Kept(dirties, dirties, old(disk), disk)
      ensures ok ==> Settled(dirties, disk, rank, hash)
      decreases rank(hash), 1
    {
      if hash !in dirties {
        return true;
      }
      var cs := Descendents(dirties[hash].body);
      OwedRanked(Now(), [], multiset{}, rank, hash, cs);
      ok := CommitAll(cs, rank(hash));
      if !ok {
        return;
      }
      AllOnDisk(Now(), disk, rank, hash, cs);
      ghost var before := disk;
      ok := Put(hash);
      if ok {
        WrittenSettled(dirties, before, disk, rank, hash, cs);
        KeptTwice(dirties, old(disk), before, disk);
      }
    }

    /** The loop of `commit` over the references of a node. */
    method CommitAll(cs: seq<Hash>, ghost above: nat) returns (ok: bool)
      requires Valid() && forall c :: c in cs ==> c != META && rank(c) < above
      modifies this`disk, this`refs
      ensures Valid() && (forall x :: Lookup(x) == old(Lookup(x))) && Kept(dirties, dirties, old(disk), disk)
      ensures ok ==> forall c :: c in cs ==> Settled(dirties, disk, rank, c)
      decreases above, 0
    {
      ok := true;
      for i := 0 to |cs|
        invariant Valid() && (forall x :: Lookup(x) == old(Lookup(x))) && Kept(dirties, dirties, old(disk), disk)
        invariant forall c :: c in cs[..i] ==> Settled(dirties, disk, rank, c)
      {
        ghost var before := disk;
        ok := CommitFrom(cs[i]);
        KeptTwice(dirties, old(disk), before, disk);
        if !ok {
          return;
        }
        forall c | c in cs[..i] ensures Settled(dirties, disk, rank, c) {
          SettledStays(dirties, dirties, before, disk, rank, c);
        }
      }
    }

    /** `uncache`: drop everything cached below `hash`, which is on disk. */
    method Uncache(hash: Hash, ghost path: seq<Hash>)
      requires ValidIn(path, multiset{}) && hash != META && Settled(dirties, disk, rank, hash)
      requires forall p :: p in path ==> rank(hash) < rank(p)
      modifies this`dirties, this`oldest, this`newest, this`dirtiesSize, this`flush
      ensures ValidIn(path, multiset{}) && (forall x :: Lookup(x) == old(Lookup(x)))
      ensures Pruned(old(dirties), dirties) && hash !in dirties
      decreases rank(hash), 1
    {
      if hash in dirties {
        ghost var d := dirties;
        var cs := Descendents(dirties[hash].body);
        OwedRanked(Now(), path, multiset{}, rank, hash, cs);
        UnlinkSettled(hash, path);
        UncacheAll(cs, d, hash, path + [hash]);
        PrunedLast(d, dirties, hash, cs);
        Delete(hash, path, multiset{});
      }
    }

    method UnlinkSettled(h: Hash, ghost path: seq<Hash>)
      requires ValidIn(path, multiset{}) && h in dirties && h != META && Settled(dirties, disk, rank, h)
      requires forall p :: p in path ==> rank(h) < rank(p)
      modifies this`dirties, this`oldest, this`newest, this`flush
      ensures ValidIn(path + [h], multiset{}) && SameUpToLinks(old(dirties), dirties)
      ensures h in disk && disk[h] == dirties[h].body.blob && forall x :: Lookup(x) == old(Lookup(x))
    {
      Whereabouts(Now(), path, multiset{}, rank);
      ghost var b := dirties[h].body;
      Unlink(h, path, multiset{});
      OnDiskUncounted(Now(), path + [h], multiset{}, b, rank);
    }

    /** The loop of `uncache` over the references of a node. */
    method UncacheAll(cs: seq<Hash>, ghost d: Nodes, ghost h: Hash, ghost path: seq<Hash>)
      requires ValidIn(path, multiset{}) && h in path && SameUpToLinks(d, dirties)
      requires forall c :: c in cs ==> c != META && rank(c) < rank(h) && Settled(d, disk, rank, c)
      requires forall p :: p in path ==> rank(h) <= rank(p)
      modifies this`dirties, this`oldest, this`newest, this`dirtiesSize, this`flush
      ensures ValidIn(path, multiset{}) && h in dirties && (forall x :: Lookup(x) == old(Lookup(x)))
      ensures Pruned(d, dirties) && forall c :: c in cs ==> c !in dirties
      decreases rank(h), 0
    {
      for i := 0 to |cs|
        invariant ValidIn(path, multiset{}) && (forall x :: Lookup(x) == old(Lookup(x)))
        invariant Pruned(d, dirties) && forall c :: c in cs[..i] ==> c !in dirties
      {
        SettledStays(d, dirties, disk, disk, rank, cs[i]);
        ghost var before := dirties;
        Uncache(cs[i], path);
        PrunedTwice(d, before, dirties);
      }
      Whereabouts(Now(), path, multiset{}, rank);
    }

    /** `Commit`: write the trie below `root`, then drop it from the cache. */
    method Commit(root: Hash) returns (ok: bool)
      requires Valid() && root != META
      modifies this`dirties, this`oldest, this`newest, this`dirtiesSize, this`flush, this`disk, this`refs
      ensures Valid() && forall x :: Lookup(x) == old(Lookup(x))
      ensures flush == Remaining(old(flush), dirties)
      ensures !ok ==> unchanged(this`dirties, this`oldest, this`newest, this`dirtiesSize, this`flush)
      ensures ok ==> Settled(old(dirties), disk, rank, root) && Pruned(old(dirties), dirties) && root !in dirties
    {
      ghost var v := Now();
      ok := CommitFrom(root);
      if ok {
        Uncache(root, []);
      }
      ListRemains(v, Now(), rank);
    }
  }
}

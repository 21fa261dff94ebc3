/** Whole histories of updates: the tree answers like the map they build, and depends on nothing else. */
module TrieRuns {
  import opened Wrappers
  import opened TrieKeys
  import opened Tries

  /** `TryUpdate`; an empty value deletes. */
  datatype Op = Op(key: Bytes, value: Bytes)

  ghost predicate Root(t: Tree) {
    NF(t) && !t.Value?
  }

  function Update(t: Tree, op: Op): Tree
    requires Root(t)
  {
    KeyHexFull(op.key);
    if op.value != [] then Insert(t, KeyHex(op.key), Value(op.value)) else Delete(t, KeyHex(op.key))
  }

  lemma UpdateRoot(t: Tree, op: Op)
    requires Root(t)
    ensures Root(Update(t, op))
  {
    KeyHexFull(op.key);
    if op.value != [] {
      InsertNF(t, KeyHex(op.key), Value(op.value));
    } else {
      DeleteNF(t, KeyHex(op.key));
    }
  }

  lemma UpdateGet(t: Tree, op: Op, k: Hex)
    requires Root(t) && FullKey(k)
    ensures Get(Update(t, op), k) ==
            if k != KeyHex(op.key) then Get(t, k) else if op.value != [] then Some(op.value) else None
  {
    KeyHexFull(op.key);
    if op.value != [] {
      InsertGet(t, KeyHex(op.key), Value(op.value), k);
    } else {
      DeleteGet(t, KeyHex(op.key), k);
    }
  }

  ghost predicate RunsTo(ops: seq<Op>, t: Tree)
    decreases |ops|
  {
    if ops == [] then t == Nil
    else exists t0 :: RunsTo(ops[..|ops| - 1], t0) && Root(t0) && t == Update(t0, ops[|ops| - 1])
  }

  function MapOf(ops: seq<Op>): map<Bytes, Bytes> {
    if ops == [] then map[]
    else
      var m, op := MapOf(ops[..|ops| - 1]), ops[|ops| - 1];
      if op.value != [] then m[op.key := op.value] else m - {op.key}
  }

  function Lookup(m: map<Bytes, Bytes>, k: Bytes): Option<Bytes> {
    if k in m then Some(m[k]) else None
  }

  /** The tree holds exactly the map: nothing at any other full key. */
  ghost predicate Holds(t: Tree, m: map<Bytes, Bytes>) {
    && (forall k {:trigger KeyHex(k)} :: Get(t, KeyHex(k)) == Lookup(m, k))
    && (forall h {:trigger Get(t, h)} :: FullKey(h) && Get(t, h).Some? ==> exists k :: h == KeyHex(k))
  }

  /** Every history of updates leads to a tree in normal form that answers like the map it builds. */
  lemma {:induction false} RunHolds(ops: seq<Op>, t: Tree)
    requires RunsTo(ops, t)
    ensures Root(t) && Holds(t, MapOf(ops))
    decreases |ops|
  {
    if ops != [] {
      var pre, op := ops[..|ops| - 1], ops[|ops| - 1];
      var t0 :| RunsTo(pre, t0) && Root(t0) && t == Update(t0, op);
      RunHolds(pre, t0);
      UpdateRoot(t0, op);
      UpdateHolds(t0, MapOf(pre), op);
    }
  }

  lemma UpdateHolds(t: Tree, m: map<Bytes, Bytes>, op: Op)
    requires Root(t) && Holds(t, m)
    ensures Holds(Update(t, op), if op.value != [] then m[op.key := op.value] else m - {op.key})
  {
    var t', m' := Update(t, op), if op.value != [] then m[op.key := op.value] else m - {op.key};
    forall k ensures Get(t', KeyHex(k)) == Lookup(m', k) {
      KeyHexFull(k);
      UpdateGet(t, op, KeyHex(k));
      if KeyHex(k) == KeyHex(op.key) { KeyHexInjective(k, op.key); }
    }
    forall h | FullKey(h) && Get(t', h).Some? ensures exists k :: h == KeyHex(k) {
      UpdateGet(t, op, h);
      if h == KeyHex(op.key) {} else { assert Get(t, h).Some?; }
    }
  }

  /** Every history can be run. */
  lemma {:induction false} RunExists(ops: seq<Op>) returns (t: Tree)
    ensures RunsTo(ops, t)
    decreases |ops|
  {
    if ops == [] {
      t := Nil;
    } else {
      var t0 := RunExists(ops[..|ops| - 1]);
      RunHolds(ops[..|ops| - 1], t0);
      t := Update(t0, ops[|ops| - 1]);
    }
  }

  lemma HoldsSame(a: Tree, b: Tree, m: map<Bytes, Bytes>)
    requires Holds(a, m) && Holds(b, m)
    ensures SameContents(a, b)
  {
    forall h | FullKey(h) ensures Get(a, h) == Get(b, h) {
      assert Get(a, h).Some? ==> exists k :: h == KeyHex(k);
      assert Get(b, h).Some? ==> exists k :: h == KeyHex(k);
    }
  }

  /** Histories that build the same map build the same tree. */
  lemma HistoryIndependent(ops1: seq<Op>, t1: Tree, ops2: seq<Op>, t2: Tree)
    requires RunsTo(ops1, t1) && RunsTo(ops2, t2) && MapOf(ops1) == MapOf(ops2)
    ensures t1 == t2
  {
    RunHolds(ops1, t1);
    RunHolds(ops2, t2);
    HoldsSame(t1, t2, MapOf(ops1));
    Canonical(t1, t2);
  }
}

/**
 The Merkle Patricia trie as a tree without hashes or caches: lookup, insertion with splitting, deletion with
 merging (src/trie/trie.go), on hexadecimal keys that end in the terminator (src/trie/encoding.go). Such a
 tree answers like a finite map, and its shape is a function of that map alone.
 */
module Tries {
  import opened Wrappers
  import opened TrieKeys

  /** Children of a full node are indexed by nibble, with the value of the node's own key at 16. */
  datatype Tree = Nil | Value(v: Bytes) | Short(key: Hex, val: Tree) | Full(children: seq<Tree>)

  const NO_CHILDREN: seq<Tree> := [Nil, Nil, Nil, Nil, Nil, Nil, Nil, Nil, Nil, Nil, Nil, Nil, Nil, Nil, Nil, Nil, Nil]

  // ------------------------------------------------------------------------------------------
  // Operations
  // ------------------------------------------------------------------------------------------

  predicate StartsWith(key: Hex, k: Hex) {
    |k| <= |key| && key[..|k|] == k
  }

  /** `tryGet`. A full node is only asked for keys that reach into it. */
  function Get(t: Tree, key: Hex): Option<Bytes>
    decreases t
  {
    match t
    case Nil => None
    case Value(v) => Some(v)
    case Short(k, val) => if StartsWith(key, k) then Get(val, key[|k|..]) else None
    case Full(ch) => if key != [] && key[0] < |ch| then Get(ch[key[0]], key[1..]) else None
  }

  /** What `insert` makes of nothing: the node itself, or a short node leading to it. */
  function Hang(key: Hex, node: Tree): Tree {
    if key == [] then node else Short(key, node)
  }

  function Branch(i: nat, a: Tree, j: nat, b: Tree): Tree
    requires i < 17 && j < 17
  {
    Full(NO_CHILDREN[i := a][j := b])
  }

  /** `insert`. */
  function Insert(t: Tree, key: Hex, value: Tree): Tree
    requires NF(t) && FullKeyOrEnd(key) && Fits(t, key)
    decreases t
  {
    if key == [] then value
    else match t
      case Nil => Short(key, value)
      case Short(k, val) =>
        var m := PrefixLenSpec(key, k);
        if m == |k| then
          FitsBelow(t, key);
          Short(k, Insert(val, key[m..], value))
        else
          SplitPoint(k, key, m);
          var branch := Branch(k[m], Hang(k[m + 1..], val), key[m], Hang(key[m + 1..], value));
          if m == 0 then branch else Short(key[..m], branch)
      case Full(ch) => Full(ch[key[0] := Insert(ch[key[0]], key[1..], value)])
      case Value(_) => t
  }

  /** The single occupied position of a full node's children, if there is exactly one. */
  function Only(ch: seq<Tree>, from: nat): Option<nat>
    decreases |ch| - from
  {
    if from >= |ch| then None
    else if ch[from].Nil? then Only(ch, from + 1)
    else if AllNil(ch, from + 1) then Some(from) else None
  }

  predicate AllNil(ch: seq<Tree>, from: nat) {
    forall i :: from <= i < |ch| ==> ch[i].Nil?
  }

  /** A full node that may have come down to one child. */
  function Shrink(ch: seq<Tree>): Tree {
    match Only(ch, 0)
    case None => Full(ch)
    case Some(pos) =>
      if pos < |ch| && pos != 16 && ch[pos].Short? then Short([pos] + ch[pos].key, ch[pos].val)
      else if pos < |ch| then Short([pos], ch[pos]) else Nil
  }

  /** A short node whose child may have become a short node. */
  function Join(k: Hex, child: Tree): Tree {
    if child.Short? then Short(k + child.key, child.val) else Short(k, child)
  }

  /** `delete`. */
  function Delete(t: Tree, key: Hex): Tree
    requires NF(t) && FullKeyOrEnd(key) && Fits(t, key)
    decreases t
  {
    match t
    case Nil => Nil
    case Value(_) => Nil
    case Short(k, val) =>
      var m := PrefixLenSpec(key, k);
      if m < |k| then t
      else if m == |key| then Nil
      else
        FitsBelow(t, key);
        Join(k, Delete(val, key[m..]))
    case Full(ch) => Shrink(ch[key[0] := Delete(ch[key[0]], key[1..])])
  }

  // ------------------------------------------------------------------------------------------
  // Normal form
  // ------------------------------------------------------------------------------------------

  /**
   No short node under a short node, full nodes with at least two children, values exactly where a key ends.
   */
  ghost predicate NF(t: Tree)
    decreases t
  {
    match t
    case Nil => true
    case Value(v) => v != []
    case Short(k, val) => Fragment(k) && NF(val) && (if HasTerm(k) then val.Value? else val.Full?)
    case Full(ch) =>
      && |ch| == 17
      && (forall i :: 0 <= i < 17 ==> NF(ch[i]))
      && (forall i :: 0 <= i < 16 ==> !ch[i].Value?)
      && (ch[16].Nil? || ch[16].Value?)
      && Crowded(ch)
  }

  ghost predicate Crowded(ch: seq<Tree>) {
    exists i, j :: 0 <= i < j < |ch| && !ch[i].Nil? && !ch[j].Nil?
  }

  /** What is left of a key on the way down: a full key, or nothing once its terminator is used up. */
  predicate FullKeyOrEnd(key: Hex) {
    key == [] || FullKey(key)
  }

  /** Values sit where keys end and nowhere else. */
  predicate Fits(t: Tree, key: Hex) {
    t.Nil? || (t.Value? <==> key == [])
  }

  lemma FitsBelow(t: Tree, key: Hex)
    requires t.Short? && NF(t) && FullKey(key) && StartsWith(key, t.key)
    ensures FullKeyOrEnd(key[|t.key|..]) && Fits(t.val, key[|t.key|..])
  {
    assert key[|t.key| - 1] == t.key[|t.key| - 1];
  }

  lemma SplitPoint(k: Hex, key: Hex, m: nat)
    requires Fragment(k) && FullKey(key) && m == PrefixLenSpec(key, k) && m < |k|
    ensures m < |key| && key[m] != k[m] && key[m] < 17 && k[m] < 17
  {
    forall i | 0 <= i < m ensures key[i] == k[i] { assert key[..m][i] == k[..m][i]; }
  }

  lemma {:induction false} OnlyChild(ch: seq<Tree>, from: nat)
    requires from <= |ch|
    ensures Only(ch, from).Some? ==>
              var p := Only(ch, from).value;
              from <= p < |ch| && !ch[p].Nil? && forall i :: from <= i < |ch| && i != p ==> ch[i].Nil?
    ensures Only(ch, from).None? ==>
              AllNil(ch, from) || exists i, j :: from <= i < j < |ch| && !ch[i].Nil? && !ch[j].Nil?
    decreases |ch| - from
  {
    if from < |ch| && ch[from].Nil? { OnlyChild(ch, from + 1); }
    else if from < |ch| && !AllNil(ch, from + 1) {
      var j :| from + 1 <= j < |ch| && !ch[j].Nil?;
      assert from <= from < j < |ch|;
    }
  }

  // ------------------------------------------------------------------------------------------
  // Insertion
  // ------------------------------------------------------------------------------------------

  lemma BranchNF(i: nat, a: Tree, j: nat, b: Tree)
    requires i < 17 && j < 17 && i != j && NF(a) && NF(b) && !a.Nil? && !b.Nil?
    requires a.Value? <==> i == 16
    requires b.Value? <==> j == 16
    ensures NF(Branch(i, a, j, b))
  {
    forall k | 0 <= k < 17 ensures NO_CHILDREN[k].Nil? {}
    TwoAmongNone(NO_CHILDREN, i, a, j, b);
  }

  lemma TwoAmongNone(none: seq<Tree>, i: nat, a: Tree, j: nat, b: Tree)
    requires |none| == 17 && forall k :: 0 <= k < 17 ==> none[k].Nil?
    requires i < 17 && j < 17 && i != j && NF(a) && NF(b) && !a.Nil? && !b.Nil?
    requires (a.Value? <==> i == 16) && (b.Value? <==> j == 16)
    ensures NF(Full(none[i := a][j := b]))
  {
    var ch := none[i := a][j := b];
    assert !ch[i].Nil? && !ch[j].Nil?;
    TwoCrowd(ch, if i < j then i else j, if i < j then j else i);
  }

  lemma TwoCrowd(ch: seq<Tree>, i: nat, j: nat)
    requires i < j < |ch| && !ch[i].Nil? && !ch[j].Nil?
    ensures Crowded(ch)
  {}

  /** The remains of a split fragment hang in normal form, a value exactly at the terminator. */
  lemma HangNF(k: Hex, m: nat, node: Tree)
    requires Fragment(k) && m < |k| && NF(node) && (if HasTerm(k) then node.Value? else node.Full?)
    ensures NF(Hang(k[m + 1..], node)) && !Hang(k[m + 1..], node).Nil?
    ensures k[m] < 17 && (Hang(k[m + 1..], node).Value? <==> k[m] == 16)
  {
    var r := k[m + 1..];
    if r != [] {
      assert r[|r| - 1] == k[|k| - 1];
      assert Fragment(r);
    }
  }

  lemma {:induction false} InsertNF(t: Tree, key: Hex, value: Tree)
    requires NF(t) && FullKeyOrEnd(key) && Fits(t, key) && NF(value) && value.Value?
    ensures NF(Insert(t, key, value)) && !Insert(t, key, value).Nil?
    ensures Insert(t, key, value).Value? <==> key == []
    ensures t.Full? ==> Insert(t, key, value).Full?
    decreases t
  {
    if key != [] {
      match t
      case Nil =>
      case Value(_) =>
      case Short(k, val) =>
        var m := PrefixLenSpec(key, k);
        if m == |k| {
          FitsBelow(t, key);
          InsertNF(val, key[m..], value);
        } else {
          SplitPoint(k, key, m);
          HangNF(k, m, val);
          HangNF(key, m, value);
          BranchNF(k[m], Hang(k[m + 1..], val), key[m], Hang(key[m + 1..], value));
          if m > 0 { PrefixFragment(key, m); }
        }
      case Full(ch) =>
        InsertNF(ch[key[0]], key[1..], value);
        FullUpdate(ch, key[0], Insert(ch[key[0]], key[1..], value));
    }
  }

  lemma PrefixFragment(key: Hex, m: nat)
    requires FullKey(key) && 0 < m < |key|
    ensures Fragment(key[..m]) && !HasTerm(key[..m])
  {}

  /** Replacing a child by a non-empty one keeps a full node normal. */
  lemma FullUpdate(ch: seq<Tree>, i: nat, n: Tree)
    requires NF(Full(ch)) && i < 17 && NF(n) && !n.Nil? && (n.Value? <==> i == 16)
    ensures NF(Full(ch[i := n]))
  {
    var a, b :| 0 <= a < b < |ch| && !ch[a].Nil? && !ch[b].Nil?;
    var ch' := ch[i := n];
    assert !ch'[a].Nil? && !ch'[b].Nil?;
  }

  lemma HangGet(key: Hex, node: Tree, k: Hex)
    ensures Get(Hang(key, node), k) == if StartsWith(k, key) then Get(node, k[|key|..]) else None
  {
    if key == [] { assert k[0..] == k; }
  }

  /** Lookup in a two-way branch. */
  lemma BranchGet(i: nat, a: Tree, j: nat, b: Tree, k: Hex)
    requires i < 17 && j < 17 && i != j && FullKey(k)
    ensures Get(Branch(i, a, j, b), k) ==
            if k[0] == i then Get(a, k[1..]) else if k[0] == j then Get(b, k[1..]) else None
  {
    assert k[0] <= 16;
  }

  /** After an insertion the key has the new value and every other key the old one. */
  lemma {:induction false} InsertGet(t: Tree, key: Hex, value: Tree, k: Hex)
    requires NF(t) && FullKeyOrEnd(key) && Fits(t, key) && NF(value) && value.Value?
    requires FullKeyOrEnd(k) && (k == [] <==> key == [])
    ensures Get(Insert(t, key, value), k) == if k == key then Some(value.v) else Get(t, k)
    decreases t
  {
    if key != [] {
      match t
      case Nil =>
        SameStart(key, k);
      case Value(_) =>
      case Short(kk, val) =>
        var m := PrefixLenSpec(key, kk);
        if m == |kk| {
          InsertGetShort(t, key, value, k);
        } else {
          InsertGetSplit(t, key, value, k);
        }
      case Full(ch) =>
        assert key[0] <= 16 && k[0] <= 16;
        if k[0] == key[0] {
          assert k == [k[0]] + k[1..] && key == [key[0]] + key[1..];
          InsertGet(ch[key[0]], key[1..], value, k[1..]);
        }
    }
  }

  /** No full key is a proper prefix of another. */
  lemma SameStart(a: Hex, b: Hex)
    requires FullKey(a) && FullKey(b)
    ensures StartsWith(b, a) <==> a == b
  {
    if StartsWith(b, a) {
      assert b[|a| - 1] == b[..|a|][|a| - 1] == 16;
      assert b[..|b|] == b;
    }
    if a == b { assert b[..|a|] == a; }
  }

  lemma InsertGetShort(t: Tree, key: Hex, value: Tree, k: Hex)
    requires t.Short? && NF(t) && FullKey(key) && FullKey(k) && NF(value) && value.Value?
    requires PrefixLenSpec(key, t.key) == |t.key|
    ensures Get(Insert(t, key, value), k) == if k == key then Some(value.v) else Get(t, k)
    decreases t, 0
  {
    var kk, m := t.key, |t.key|;
    FitsBelow(t, key);
    var u := Insert(t.val, key[m..], value);
    assert Insert(t, key, value) == Short(kk, u);
    if StartsWith(k, kk) {
      FitsBelow(t, k);
      SameRest(kk, k, key);
      InsertGet(t.val, key[m..], value, k[m..]);
    }
  }

  lemma SameRest(kk: Hex, a: Hex, b: Hex)
    requires StartsWith(a, kk) && StartsWith(b, kk)
    ensures a == b <==> a[|kk|..] == b[|kk|..]
  {
    assert a == kk + a[|kk|..] && b == kk + b[|kk|..];
  }

  lemma InsertGetSplit(t: Tree, key: Hex, value: Tree, k: Hex)
    requires t.Short? && NF(t) && FullKey(key) && FullKey(k) && NF(value) && value.Value?
    requires PrefixLenSpec(key, t.key) < |t.key|
    ensures Get(Insert(t, key, value), k) == if k == key then Some(value.v) else Get(t, k)
  {
    var kk, m := t.key, PrefixLenSpec(key, t.key);
    SplitPoint(kk, key, m);
    if StartsWith(k, key[..m]) && m < |k| {
      BranchLookup(kk, t.val, key, value, m, k);
      assert m == 0 ==> k[m..] == k;
    } else {
      SplitMiss(key, kk, m, k);
    }
  }

  /** The branch made by a split finds below its fork what the two hung nodes hold. */
  lemma BranchLookup(kk: Hex, val: Tree, key: Hex, value: Tree, m: nat, k: Hex)
    requires FullKey(key) && FullKey(k) && value.Value? && m < |kk| && m < |key| && m < |k|
    requires key[..m] == kk[..m] && key[m] != kk[m] && key[m] < 17 && kk[m] < 17 && StartsWith(k, key[..m])
    ensures Get(Branch(kk[m], Hang(kk[m + 1..], val), key[m], Hang(key[m + 1..], value)), k[m..]) ==
            if k == key then Some(value.v) else if StartsWith(k, kk) then Get(val, k[|kk|..]) else None
  {
    var r := k[m..];
    BranchGet(kk[m], Hang(kk[m + 1..], val), key[m], Hang(key[m + 1..], value), r);
    SplitStart(key, m, k);
    SameStart(key, k);
    SplitStart(kk, m, k);
    if r[0] == kk[m] {
      HangGet(kk[m + 1..], val, r[1..]);
    } else if r[0] == key[m] {
      HangGet(key[m + 1..], value, r[1..]);
    }
  }

  /** A key starts with a fragment if it starts with its head, has its middle nibble and its tail. */
  lemma SplitStart(f: Hex, m: nat, k: Hex)
    requires m < |f| && m < |k| && StartsWith(k, f[..m])
    ensures StartsWith(k, f) <==> k[m] == f[m] && StartsWith(k[m..][1..], f[m + 1..])
    ensures StartsWith(k, f) ==> k[|f|..] == k[m..][1..][|f[m + 1..]|..]
  {
    assert f == f[..m] + [f[m]] + f[m + 1..];
    assert k == k[..m] + [k[m]] + k[m..][1..];
    if StartsWith(k, f) {
      assert k[..|f|] == k[..m] + [k[m]] + k[m..][1..][..|f| - m - 1];
      assert k[..|f|][m] == f[m];
      assert k[..|f|][m + 1..] == f[m + 1..];
    }
    if k[m] == f[m] && StartsWith(k[m..][1..], f[m + 1..]) {
      assert k[..|f|] == k[..m] + [k[m]] + k[m..][1..][..|f| - m - 1];
    }
  }

  lemma SplitMiss(key: Hex, kk: Hex, m: nat, k: Hex)
    requires FullKey(key) && FullKey(k) && m < |kk| && m < |key| && key[..m] == kk[..m]
    requires !(StartsWith(k, key[..m]) && m < |k|)
    ensures k != key && !StartsWith(k, kk) && (m > 0 ==> !StartsWith(k, key[..m]))
  {
    StartsShorter(k, kk, m);
    StartsShorter(k, key, m);
    SameStart(key, k);
  }

  lemma StartsShorter(k: Hex, f: Hex, m: nat)
    requires m <= |f|
    ensures StartsWith(k, f) ==> StartsWith(k, f[..m])
    ensures StartsWith(k, f[..m]) ==> forall i :: 0 <= i < m ==> k[i] == f[i]
  {
    if StartsWith(k, f) { assert k[..m] == k[..|f|][..m]; }
    if StartsWith(k, f[..m]) {
      forall i | 0 <= i < m ensures k[i] == f[i] { assert k[..m][i] == f[..m][i]; }
    }
  }

  // ------------------------------------------------------------------------------------------
  // Deletion
  // ------------------------------------------------------------------------------------------

  lemma JoinNF(k: Hex, child: Tree)
    requires Fragment(k) && !HasTerm(k) && NF(child) && (child.Short? || child.Full?)
    ensures NF(Join(k, child)) && Join(k, child).Short?
  {
    if child.Short? {
      var kk := k + child.key;
      assert kk[|kk| - 1] == child.key[|child.key| - 1];
    }
  }

  lemma ShrinkNF(ch: seq<Tree>, i: nat, n: Tree)
    requires NF(Full(ch)) && i < 17 && NF(n) && !n.Value?
    requires i == 16 ==> n.Nil?
    ensures NF(Shrink(ch[i := n])) && (Shrink(ch[i := n]).Short? || Shrink(ch[i := n]).Full?)
  {
    var ch' := ch[i := n];
    var a, b :| 0 <= a < b < |ch| && !ch[a].Nil? && !ch[b].Nil?;
    var c := if a == i then b else a;
    assert !ch'[c].Nil?;
    OnlyChild(ch', 0);
    if Only(ch', 0).Some? {
      var pos := Only(ch', 0).value;
      if pos != 16 && ch'[pos].Short? {
        var kk := [pos] + ch'[pos].key;
        assert kk[|kk| - 1] == ch'[pos].key[|ch'[pos].key| - 1];
        assert Fragment(kk);
      }
    }
  }

  lemma {:induction false} DeleteNF(t: Tree, key: Hex)
    requires NF(t) && FullKeyOrEnd(key) && Fits(t, key)
    ensures NF(Delete(t, key)) && !Delete(t, key).Value?
    ensures t.Full? ==> Delete(t, key).Short? || Delete(t, key).Full?
    decreases t
  {
    match t
    case Nil =>
    case Value(_) =>
    case Short(k, val) =>
      var m := PrefixLenSpec(key, k);
      if m == |k| && m < |key| {
        FitsBelow(t, key);
        DeleteNF(val, key[m..]);
        JoinNF(k, Delete(val, key[m..]));
      }
    case Full(ch) =>
      DeleteNF(ch[key[0]], key[1..]);
      ShrinkNF(ch, key[0], Delete(ch[key[0]], key[1..]));
  }

  lemma StartsAppend(k: Hex, a: Hex, b: Hex)
    ensures StartsWith(k, a + b) <==> StartsWith(k, a) && StartsWith(k[|a|..], b)
    ensures StartsWith(k, a + b) ==> k[|a + b|..] == k[|a|..][|b|..]
  {
    if StartsWith(k, a + b) {
      assert k[..|a|] == k[..|a + b|][..|a|] == a;
      assert k[|a|..][..|b|] == k[..|a + b|][|a|..] == b;
    }
    if StartsWith(k, a) && StartsWith(k[|a|..], b) {
      assert k[..|a + b|] == k[..|a|] + k[|a|..][..|b|];
    }
  }

  lemma JoinGet(kk: Hex, child: Tree, k: Hex)
    ensures Get(Join(kk, child), k) == if StartsWith(k, kk) then Get(child, k[|kk|..]) else None
  {
    if child.Short? { StartsAppend(k, kk, child.key); }
  }

  lemma ShrinkGet(ch: seq<Tree>, k: Hex)
    requires |ch| == 17 && FullKey(k) && !AllNil(ch, 0)
    ensures k[0] <= 16 && Get(Shrink(ch), k) == Get(ch[k[0]], k[1..])
  {
    OnlyChild(ch, 0);
    if Only(ch, 0).Some? {
      var pos := Only(ch, 0).value;
      if pos != 16 && ch[pos].Short? { StartsAppend(k, [pos], ch[pos].key); }
      assert StartsWith(k, [pos]) <==> k[0] == pos;
    }
  }

  /** After a deletion the key is absent and every other key has its old value. */
  lemma {:induction false} DeleteGet(t: Tree, key: Hex, k: Hex)
    requires NF(t) && FullKeyOrEnd(key) && Fits(t, key)
    requires FullKeyOrEnd(k) && (k == [] <==> key == [])
    ensures Get(Delete(t, key), k) == if k == key then None else Get(t, k)
    decreases t
  {
    match t
    case Nil =>
    case Value(_) =>
    case Short(kk, val) =>
      if PrefixLenSpec(key, kk) < |kk| {
        PrefixMiss(key, kk);
      } else {
        DeleteGetShort(t, key, k);
      }
    case Full(ch) =>
      var n := Delete(ch[key[0]], key[1..]);
      DeleteNF(ch[key[0]], key[1..]);
      StillOccupied(ch, key[0], n);
      ShrinkGet(ch[key[0] := n], k);
      if k[0] == key[0] {
        assert k == [k[0]] + k[1..] && key == [key[0]] + key[1..];
        DeleteGet(ch[key[0]], key[1..], k[1..]);
      }
  }

  lemma StillOccupied(ch: seq<Tree>, i: nat, n: Tree)
    requires |ch| == 17 && Crowded(ch) && i < 17
    ensures !AllNil(ch[i := n], 0)
  {
    var a, b :| 0 <= a < b < |ch| && !ch[a].Nil? && !ch[b].Nil?;
    var c := if a == i then b else a;
    assert !ch[i := n][c].Nil?;
  }

  lemma PrefixMiss(key: Hex, kk: Hex)
    requires PrefixLenSpec(key, kk) < |kk|
    ensures !StartsWith(key, kk)
  {
    StartsShorter(key, kk, PrefixLenSpec(key, kk) + 1);
    StartsShorter(key, kk, |kk|);
    assert kk[..|kk|] == kk;
  }

  lemma DeleteGetShort(t: Tree, key: Hex, k: Hex)
    requires t.Short? && NF(t) && FullKey(key) && FullKey(k)
    requires PrefixLenSpec(key, t.key) == |t.key|
    ensures Get(Delete(t, key), k) == if k == key then None else Get(t, k)
    decreases t, 1
  {
    var kk := t.key;
    FitsBelow(t, key);
    if |kk| == |key| {
      assert key[..|kk|] == key;
      SameStart(key, k);
    } else {
      JoinGet(kk, Delete(t.val, key[|kk|..]), k);
      if StartsWith(k, kk) { DeleteBelow(t, key, k); }
    }
  }

  lemma DeleteBelow(t: Tree, key: Hex, k: Hex)
    requires t.Short? && NF(t) && FullKey(key) && FullKey(k) && StartsWith(key, t.key) && StartsWith(k, t.key)
    requires FullKeyOrEnd(key[|t.key|..]) && Fits(t.val, key[|t.key|..])
    ensures Get(Delete(t.val, key[|t.key|..]), k[|t.key|..]) == if k == key then None else Get(t, k)
    decreases t, 0
  {
    var kk, m := t.key, |t.key|;
    FitsBelow(t, k);
    assert k == kk + k[m..] && key == kk + key[m..];
    assert k[m - 1] == kk[m - 1] && key[m - 1] == kk[m - 1];
    DeleteGet(t.val, key[m..], k[m..]);
  }

  // ------------------------------------------------------------------------------------------
  // Shape is determined by contents
  // ------------------------------------------------------------------------------------------

  /** Every occupied tree holds some key. */
  lemma {:induction false} SomeKey(t: Tree) returns (k: Hex)
    requires NF(t) && !t.Nil?
    ensures FullKeyOrEnd(k) && (k == [] <==> t.Value?) && Get(t, k).Some?
    decreases t
  {
    match t
    case Value(_) => k := [];
    case Short(kk, val) =>
      var r := SomeKey(val);
      k := kk + r;
      assert k[..|kk|] == kk && k[|kk|..] == r;
      assert r != [] ==> k[|k| - 1] == r[|r| - 1];
    case Full(ch) =>
      var i :| 0 <= i < |ch| && !ch[i].Nil?;
      k := KeyUnder(ch, i);
  }

  /** A key that starts with the nibble of an occupied child. */
  lemma {:induction false} KeyUnder(ch: seq<Tree>, i: nat) returns (k: Hex)
    requires NF(Full(ch)) && i < |ch| && !ch[i].Nil?
    ensures FullKey(k) && k[0] == i && Get(Full(ch), k).Some?
    decreases Full(ch), 0
  {
    var r := SomeKey(ch[i]);
    k := [i] + r;
    assert k[1..] == r;
    assert r != [] ==> k[|k| - 1] == r[|r| - 1];
  }

  ghost predicate SameContents(a: Tree, b: Tree) {
    forall k {:trigger Get(a, k)} {:trigger Get(b, k)} :: FullKey(k) ==> Get(a, k) == Get(b, k)
  }

  /** A full node and a short node never hold the same keys. */
  lemma FullIsNotShort(a: Tree, b: Tree)
    requires NF(a) && NF(b) && a.Full? && b.Short?
    ensures !SameContents(a, b)
  {
    var i, j :| 0 <= i < j < |a.children| && !a.children[i].Nil? && !a.children[j].Nil?;
    var x := KeyUnder(a.children, i);
    var y := KeyUnder(a.children, j);
    StartsShorter(x, b.key, 1);
    StartsShorter(y, b.key, 1);
    assert StartsWith(x, b.key) ==> x[0] == b.key[0];
    assert StartsWith(y, b.key) ==> y[0] == b.key[0];
  }

  /** Short nodes with the same keys have the same fragment: neither can be longer. */
  lemma NoLongerFragment(a: Tree, b: Tree)
    requires NF(a) && NF(b) && a.Short? && b.Short? && SameContents(a, b)
    ensures |b.key| <= |a.key|
  {
    if |a.key| < |b.key| {
      var x := SomeKey(a);
      assert Get(b, x).Some?;
      StartsShorter(x, b.key, |a.key|);
      assert a.key == b.key[..|a.key|];
      var n := |a.key|;
      assert a.key[n - 1] == b.key[n - 1];
      LongerHasOneNibble(a, b);
    }
  }

  lemma LongerHasOneNibble(a: Tree, b: Tree)
    requires NF(a) && NF(b) && a.Short? && b.Short? && a.val.Full?
    requires |a.key| < |b.key| && a.key == b.key[..|a.key|]
    ensures !SameContents(a, b)
  {
    var n, ch := |a.key|, a.val.children;
    var i, j :| 0 <= i < j < |ch| && !ch[i].Nil? && !ch[j].Nil?;
    var x := KeyUnder(ch, i);
    var y := KeyUnder(ch, j);
    Prepend(a, x);
    Prepend(a, y);
    StartsShorter(a.key + x, b.key, n + 1);
    StartsShorter(a.key + y, b.key, n + 1);
    assert (a.key + x)[n] == i && (a.key + y)[n] == j;
  }

  lemma Prepend(a: Tree, k: Hex)
    requires NF(a) && a.Short? && FullKey(k) && a.val.Full?
    ensures FullKey(a.key + k) && Get(a, a.key + k) == Get(a.val, k)
  {
    var kk := a.key + k;
    assert kk[..|a.key|] == a.key && kk[|a.key|..] == k;
    assert kk[|kk| - 1] == k[|k| - 1];
  }

  /** Normal forms with the same contents are equal. */
  lemma {:induction false} Canonical(a: Tree, b: Tree)
    requires NF(a) && NF(b) && !a.Value? && !b.Value? && SameContents(a, b)
    ensures a == b
    decreases a
  {
    if a.Nil? || b.Nil? {
      if !a.Nil? { var k := SomeKey(a); }
      if !b.Nil? { var k := SomeKey(b); }
    } else if a.Full? && b.Full? {
      CanonicalFull(a, b);
    } else if a.Full? {
      FullIsNotShort(a, b);
    } else if b.Full? {
      FullIsNotShort(b, a);
    } else {
      NoLongerFragment(a, b);
      NoLongerFragment(b, a);
      CanonicalShort(a, b);
    }
  }

  lemma {:induction false} CanonicalShort(a: Tree, b: Tree)
    requires NF(a) && NF(b) && a.Short? && b.Short? && |a.key| == |b.key| && SameContents(a, b)
    ensures a == b
    decreases a, 0
  {
    var x := SomeKey(a);
    assert Get(b, x).Some?;
    assert a.key == x[..|a.key|] == b.key;
    if HasTerm(a.key) {
      assert FullKey(a.key);
      assert a.key[..|a.key|] == a.key;
      assert Get(a, a.key) == Get(b, a.key);
    } else {
      forall k | FullKey(k) ensures Get(a.val, k) == Get(b.val, k) {
        Prepend(a, k);
        Prepend(b, k);
      }
      Canonical(a.val, b.val);
    }
  }

  lemma {:induction false} CanonicalFull(a: Tree, b: Tree)
    requires NF(a) && NF(b) && a.Full? && b.Full? && SameContents(a, b)
    ensures a == b
    decreases a, 0
  {
    forall i | 0 <= i < 17 ensures a.children[i] == b.children[i] {
      var x, y := a.children[i], b.children[i];
      if i == 16 {
        assert [16][1..] == [] && FullKey([16]);
        assert Get(a, [16]) == Get(b, [16]);
        assert Get(x, []) == Get(y, []);
      } else {
        forall k | FullKey(k) ensures Get(x, k) == Get(y, k) {
          var kk := [i] + k;
          assert kk[1..] == k && FullKey(kk);
          assert Get(a, kk) == Get(b, kk);
        }
        Canonical(x, y);
      }
    }
  }
}

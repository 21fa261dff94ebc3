/**
 The trie of src/trie/trie.go over a database: nodes are loaded when they are needed, and every operation gives
 what the plain tree gives.
 */
module LazyTrie {
  import opened Wrappers
  import opened TrieKeys
  import opened Tries
  import opened TrieNodes
  import Rlp

  type Db = map<Bytes, Bytes>

  // ------------------------------------------------------------------------------------------
  // Which tree a node stands for
  // ------------------------------------------------------------------------------------------

  /** The top node of a tree is in the database under its hash, and so is everything below it. */
  ghost predicate Stored(H: Hasher, db: Db, t: Tree)
    decreases t, 1
  {
    && Rlp.Encodable(ItemOf(H, t)) && HashOf(H, t) in db && db[HashOf(H, t)] == Blob(H, t)
    && Below(H, db, t)
  }

  ghost predicate Below(H: Hasher, db: Db, t: Tree)
    decreases t, 0
  {
    && (t.Short? ==> InDb(H, db, t.val))
    && (t.Full? ==> forall i {:trigger t.children[i]} :: 0 <= i < |t.children| ==> InDb(H, db, t.children[i]))
  }

  /** A subtree is stored by its hash when it is large, and inside its parent otherwise. */
  ghost predicate InDb(H: Hasher, db: Db, t: Tree)
    decreases t, 2
  {
    if Large(H, t) then Stored(H, db, t) else Below(H, db, t)
  }

  /**
   A cached hash is the true one, and a clean node that has one is in the database. Small nodes have a hash only
   as root; a clean node without hash is a small one that was loaded inside its parent.
   */
  ghost predicate FlagOk(H: Hasher, db: Db, f: Flag, t: Tree, top: bool) {
    if f.hash.Some? then
      && Proper(H, t) && Rlp.Encodable(ItemOf(H, t)) && f.hash.value == HashOf(H, t) && (top || Large(H, t))
      && (!f.dirty ==> Stored(H, db, t))
    else
      !f.dirty ==> !top && !Large(H, t)
  }

  /** Node `n` stands for tree `t`. */
  ghost predicate Rep(H: Hasher, db: Db, n: Node, t: Tree, top: bool)
    decreases t
  {
    match n
    case NilNode => t.Nil?
    case ValueNode(v) => t == Value(v)
    case ShortNode(k, val, f) => t.Short? && t.key == k && FlagOk(H, db, f, t, top) && Rep(H, db, val, t.val, false)
    case FullNode(ch, f) =>
      && t.Full? && |ch| == |t.children| && FlagOk(H, db, f, t, top)
      && forall i {:trigger ch[i]} {:trigger t.children[i]} :: 0 <= i < |ch| ==> Rep(H, db, ch[i], t.children[i], false)
    case HashNode(h) => IsNode(t) && Proper(H, t) && (top || Large(H, t)) && Stored(H, db, t) && h == HashOf(H, t)
  }

  /** Nodes as they come from the decoder. */
  lemma {:induction false} LoadedRep(H: Hasher, db: Db, t: Tree, hash: Option<Bytes>, gen: nat, top: bool)
    requires Proper(H, t) && Below(H, db, t)
    requires if hash.Some? then IsNode(t) && Stored(H, db, t) && hash.value == HashOf(H, t)
               && (top || Large(H, t)) else !top && !Large(H, t)
    ensures Rep(H, db, Loaded(H, t, hash, gen), t, top)
    decreases t, 0
  {
    match t
    case Nil =>
    case Value(_) =>
    case Short(k, val) =>
      ShortParts(H, t);
      ChildRep(H, db, val, gen);
    case Full(ch) =>
      FullParts(H, t);
      forall i: nat | i < 17 ensures Rep(H, db, ChildrenOf(H, ch, 0, 17, gen)[i], ch[i], false) {
        ChildAt(H, ch, 0, 17, i, gen);
        assert Proper(H, ch[i]) && InDb(H, db, ch[i]);
        ChildRep(H, db, ch[i], gen);
      }
  }

  lemma {:induction false} ChildRep(H: Hasher, db: Db, t: Tree, gen: nat)
    requires Proper(H, t) && InDb(H, db, t)
    ensures Rep(H, db, Child(H, t, gen), t, false)
    decreases t, 1
  {
    if !Large(H, t) { LoadedRep(H, db, t, None, gen, false); }
  }

  /** `resolveHash`. */
  function Resolve(db: Db, h: Bytes, gen: nat): Result<Node, TrieNodes.Error> {
    if h in db then DecodeNode(Some(h), db[h], gen) else Err(Missing(h))
  }

  lemma ResolveRep(H: Hasher, db: Db, h: Bytes, t: Tree, gen: nat, top: bool)
    requires Rep(H, db, HashNode(h), t, top)
    ensures Resolve(db, h, gen) == Ok(Loaded(H, t, Some(h), gen)) && Rep(H, db, Loaded(H, t, Some(h), gen), t, top)
  {
    DecodeEncode(H, t, Some(h), gen, []);
    assert Blob(H, t) + [] == Blob(H, t);
    LoadedRep(H, db, t, Some(h), gen, top);
  }

  // ------------------------------------------------------------------------------------------
  // Lookup
  // ------------------------------------------------------------------------------------------

  datatype Found = Found(value: Option<Bytes>, node: Node, resolved: bool)

  /** `tryGet`: the value, and the node with what was loaded on the way. */
  function TryGet(db: Db, n: Node, key: Hex, gen: nat): Result<Found, TrieNodes.Error>
    decreases |key|, if n.HashNode? then 1 else 0
  {
    match n
    case NilNode => Ok(Found(None, n, false))
    case ValueNode(v) => Ok(Found(Some(v), n, false))
    case ShortNode(k, val, f) =>
      if !StartsWith(key, k) then Ok(Found(None, n, false))
      else if k == [] then Err(BadEncoding)
      else
        (match TryGet(db, val, key[|k|..], gen)
         case Err(e) => Err(e)
         case Ok(r) => Ok(if r.resolved then Found(r.value, ShortNode(k, r.node, f.(gen := gen)), true)
             else Found(r.value, n, false)))
    case FullNode(ch, f) =>
      if key == [] || key[0] >= |ch| then Err(BadEncoding)
      else
        (match TryGet(db, ch[key[0]], key[1..], gen)
         case Err(e) => Err(e)
         case Ok(r) =>
           Ok(if r.resolved then Found(r.value, FullNode(ch[key[0] := r.node], f.(gen := gen)), true)
               else Found(r.value, n, false)))
    case HashNode(h) =>
      match Resolve(db, h, gen)
      case Err(e) => Err(e)
      case Ok(child) =>
        if child.HashNode? then Err(BadEncoding)
        else match TryGet(db, child, key, gen)
          case Err(e) => Err(e)
          case Ok(r) => Ok(Found(r.value, r.node, true))
  }

  /** Looking up a key gives what the tree has, and loading changes nothing. */
  lemma {:induction false} GetRefines(H: Hasher, db: Db, n: Node, t: Tree, key: Hex, gen: nat, top: bool)
    requires Rep(H, db, n, t, top) && NF(t) && FullKeyOrEnd(key) && Fits(t, key)
    ensures var r := TryGet(db, n, key, gen); r.Ok? && r.value.value == Get(t, key) && Rep(H, db, r.value.node, t, top)
    decreases t, if n.HashNode? then 1 else 0
  {
    match n
    case NilNode =>
    case ValueNode(_) =>
    case ShortNode(k, val, f) =>
      if StartsWith(key, k) {
        FitsBelow(t, key);
        GetRefines(H, db, val, t.val, key[|k|..], gen, false);
      }
    case FullNode(ch, f) =>
      assert key[0] <= 16;
      GetRefines(H, db, ch[key[0]], t.children[key[0]], key[1..], gen, false);
    case HashNode(h) =>
      ResolveRep(H, db, h, t, gen, top);
      GetRefines(H, db, Loaded(H, t, Some(h), gen), t, key, gen, top);
  }

  // ------------------------------------------------------------------------------------------
  // Insertion
  // ------------------------------------------------------------------------------------------

  /** `newFlag`. */
  function NewFlag(gen: nat): Flag {
    Flag(None, gen, true)
  }

  const NO_NODES: seq<Node> := [NilNode, NilNode, NilNode, NilNode, NilNode, NilNode, NilNode, NilNode, NilNode,
                                NilNode, NilNode, NilNode, NilNode, NilNode, NilNode, NilNode, NilNode]

  function HangNode(key: Hex, n: Node, gen: nat): Node {
    if key == [] then n else ShortNode(key, n, NewFlag(gen))
  }

  /** Whether anything has changed, and the node that replaces the old one. */
  datatype Changed = Changed(dirty: bool, node: Node)

  /** `insert`. */
  function TryInsert(db: Db, n: Node, key: Hex, value: Bytes, gen: nat): Result<Changed, TrieNodes.Error>
    decreases |key|, if n.HashNode? then 1 else 0
  {
    if key == [] then Ok(Changed(n != ValueNode(value), ValueNode(value)))
    else match n
      case NilNode => Ok(Changed(true, ShortNode(key, ValueNode(value), NewFlag(gen))))
      case ShortNode(k, val, f) =>
        var m := PrefixLenSpec(key, k);
        if m == |k| then
          if k == [] then Err(BadEncoding)
          else
            (match TryInsert(db, val, key[m..], value, gen)
             case Err(e) => Err(e)
             case Ok(r) => Ok(if r.dirty then Changed(true, ShortNode(k, r.node, NewFlag(gen))) else Changed(false, n)))
        else if m == |key| || k[m] > 16 || key[m] > 16 then Err(BadEncoding)
        else
          var branch := SplitNode(k, val, key, value, m, gen);
          Ok(Changed(true, if m == 0 then branch else ShortNode(key[..m], branch, NewFlag(gen))))
      case FullNode(ch, f) =>
        if key[0] >= |ch| then Err(BadEncoding)
        else
          (match TryInsert(db, ch[key[0]], key[1..], value, gen)
           case Err(e) => Err(e)
           case Ok(r) => Ok(if r.dirty then Changed(true, FullNode(ch[key[0] := r.node], NewFlag(gen)))
               else Changed(false, n)))
      case HashNode(h) =>
        (match Resolve(db, h, gen)
         case Err(e) => Err(e)
         case Ok(rn) =>
           if rn.HashNode? then Err(BadEncoding)
           else match TryInsert(db, rn, key, value, gen)
             case Err(e) => Err(e)
             case Ok(r) => Ok(if r.dirty then r else Changed(false, rn)))
      case ValueNode(_) => Err(BadEncoding)
  }

  /** Marked as changed in this generation, with no hash known. */
  predicate Renewed(n: Node, gen: nat) {
    match n
    case ShortNode(_, _, f) => f.hash.None? && f.dirty && f.gen == gen
    case FullNode(_, f) => f.hash.None? && f.dirty && f.gen == gen
    case _ => false
  }

  /** A changed node is marked, so that its old hash is not used again and it stays in memory until it is written. */
  lemma {:induction false} InsertRenews(db: Db, n: Node, key: Hex, value: Bytes, gen: nat)
    requires key != [] && TryInsert(db, n, key, value, gen).Ok? && TryInsert(db, n, key, value, gen).value.dirty
    ensures Renewed(TryInsert(db, n, key, value, gen).value.node, gen)
    decreases |key|, if n.HashNode? then 1 else 0
  {
    if n.HashNode? {
      var rn := Resolve(db, n.h, gen);
      if rn.Ok? && !rn.value.HashNode? { InsertRenews(db, rn.value, key, value, gen); }
    }
  }

  /** The full node at the point where two keys part. */
  function SplitNode(k: Hex, val: Node, key: Hex, value: Bytes, m: nat, gen: nat): Node
    requires m < |k| && m < |key| && k[m] <= 16 && key[m] <= 16
  {
    FullNode(NO_NODES[k[m] := HangNode(k[m + 1..], val, gen)][key[m] := HangNode(key[m + 1..], ValueNode(value), gen)],
        NewFlag(gen))
  }

  lemma HangRep(H: Hasher, db: Db, key: Hex, n: Node, t: Tree, gen: nat)
    requires Rep(H, db, n, t, false)
    ensures Rep(H, db, HangNode(key, n, gen), Hang(key, t), false)
  {}

  lemma SplitRep(H: Hasher, db: Db, k: Hex, val: Node, t: Tree, key: Hex, value: Bytes, m: nat, gen: nat, top: bool)
    requires m < |k| && m < |key| && k[m] <= 16 && key[m] <= 16 && Rep(H, db, val, t, false)
    ensures Rep(H, db, SplitNode(k, val, key, value, m, gen),
                Branch(k[m], Hang(k[m + 1..], t), key[m], Hang(key[m + 1..], Value(value))), top)
  {
    var a, b := HangNode(k[m + 1..], val, gen), HangNode(key[m + 1..], ValueNode(value), gen);
    var x, y := Hang(k[m + 1..], t), Hang(key[m + 1..], Value(value));
    HangRep(H, db, k[m + 1..], val, t, gen);
    HangRep(H, db, key[m + 1..], ValueNode(value), Value(value), gen);
    BranchRep(H, db, k[m], a, x, key[m], b, y);
  }

  lemma BranchRep(H: Hasher, db: Db, i: nat, a: Node, x: Tree, j: nat, b: Node, y: Tree)
    requires i <= 16 && j <= 16 && Rep(H, db, a, x, false) && Rep(H, db, b, y, false)
    ensures var ch, trees := NO_NODES[i := a][j := b], NO_CHILDREN[i := x][j := y];
            |ch| == |trees| == 17 && forall p {:trigger ch[p]} {:trigger trees[p]} :: 0 <= p < 17 ==>
                Rep(H, db, ch[p], trees[p], false)
  {
    var ch, trees := NO_NODES[i := a][j := b], NO_CHILDREN[i := x][j := y];
    forall p {:trigger ch[p]} {:trigger trees[p]} | 0 <= p < 17 ensures Rep(H, db, ch[p], trees[p], false) {
      assert NO_NODES[p] == NilNode && NO_CHILDREN[p] == Nil;
    }
  }

  /** Insertion gives what it gives on the tree, and says so when nothing has changed. */
  lemma {:induction false} InsertRefines(H: Hasher, db: Db, n: Node, t: Tree, key: Hex, value: Bytes, gen: nat,
          top: bool)
    requires Rep(H, db, n, t, top) && NF(t) && FullKeyOrEnd(key) && Fits(t, key)
    ensures var r, u := TryInsert(db, n, key, value, gen), Insert(t, key, Value(value));
            r.Ok? && Rep(H, db, r.value.node, u, top) && (!r.value.dirty ==> u == t)
    decreases t, if n.HashNode? then 2 else 1
  {
    if key != [] {
      match n
      case NilNode =>
      case ValueNode(_) =>
      case ShortNode(k, val, f) => InsertRefinesShort(H, db, n, t, key, value, gen, top);
      case FullNode(ch, f) =>
        assert key[0] <= 16;
        InsertRefines(H, db, ch[key[0]], t.children[key[0]], key[1..], value, gen, false);
        assert t.children[key[0] := t.children[key[0]]] == t.children;
      case HashNode(h) =>
        ResolveRep(H, db, h, t, gen, top);
        InsertRefines(H, db, Loaded(H, t, Some(h), gen), t, key, value, gen, top);
    }
  }

  lemma {:induction false} InsertRefinesShort(H: Hasher, db: Db, n: Node, t: Tree, key: Hex, value: Bytes, gen: nat,
          top: bool)
    requires n.ShortNode? && Rep(H, db, n, t, top) && NF(t) && FullKey(key)
    ensures var r, u := TryInsert(db, n, key, value, gen), Insert(t, key, Value(value));
            r.Ok? && Rep(H, db, r.value.node, u, top) && (!r.value.dirty ==> u == t)
    decreases t, 0
  {
    var k, m := n.key, PrefixLenSpec(key, n.key);
    if m == |k| {
      FitsBelow(t, key);
      InsertRefines(H, db, n.val, t.val, key[m..], value, gen, false);
    } else {
      SplitPoint(k, key, m);
      SplitRep(H, db, k, n.val, t.val, key, value, m, gen, top);
      SplitRep(H, db, k, n.val, t.val, key, value, m, gen, false);
    }
  }

  // ------------------------------------------------------------------------------------------
  // Deletion
  // ------------------------------------------------------------------------------------------

  /** The position of the only child that is there, if there is exactly one. */
  function OnlyNode(ch: seq<Node>, from: nat): Option<nat>
    decreases |ch| - from
  {
    if from >= |ch| then None
    else if ch[from].NilNode? then OnlyNode(ch, from + 1)
    else if forall i :: from < i < |ch| ==> ch[i].NilNode? then Some(from) else None
  }

  /** The loop that looks for it: -1 for no child, -2 for several. */
  method FindOnly(ch: seq<Node>) returns (pos: int)
    ensures OnlyNode(ch, 0) == if pos >= 0 then Some(pos as nat) else None
    ensures -2 <= pos < |ch|
  {
    pos := -1;
    for i := 0 to |ch|
      invariant -1 <= pos < i
      invariant pos == -1 ==> (forall j :: 0 <= j < i ==> ch[j].NilNode?) && OnlyNode(ch, 0) == OnlyNode(ch, i)
      invariant pos >= 0 ==> !ch[pos].NilNode? && OnlyNode(ch, 0) == OnlyNode(ch, pos) && forall j :: pos < j < i ==>
                  ch[j].NilNode?
    {
      if !ch[i].NilNode? {
        if pos == -1 {
          pos := i;
        } else {
          return -2;
        }
      }
    }
  }

  /** `resolve`. */
  function ResolveNode(db: Db, n: Node, gen: nat): Result<Node, TrieNodes.Error> {
    if n.HashNode? then Resolve(db, n.h, gen) else Ok(n)
  }

  /** A full node that may have come down to one child. */
  function ShrinkNode(db: Db, ch: seq<Node>, gen: nat): Result<Node, TrieNodes.Error> {
    match OnlyNode(ch, 0)
    case None => Ok(FullNode(ch, NewFlag(gen)))
    case Some(pos) =>
      if pos >= |ch| then Err(BadEncoding)
      else if pos == 16 then Ok(ShortNode([pos], ch[pos], NewFlag(gen)))
      else match ResolveNode(db, ch[pos], gen)
        case Err(e) => Err(e)
        case Ok(c) =>
          Ok(if c.ShortNode? then ShortNode([pos] + c.key, c.val, NewFlag(gen))
              else ShortNode([pos], ch[pos], NewFlag(gen)))
  }

  function JoinNode(k: Hex, child: Node, gen: nat): Node {
    if child.ShortNode? then ShortNode(k + child.key, child.val, NewFlag(gen)) else ShortNode(k, child, NewFlag(gen))
  }

  /** `delete`. */
  function TryDelete(db: Db, n: Node, key: Hex, gen: nat): Result<Changed, TrieNodes.Error>
    decreases |key|, if n.HashNode? then 1 else 0
  {
    match n
    case NilNode => Ok(Changed(false, NilNode))
    case ValueNode(_) => Ok(Changed(true, NilNode))
    case ShortNode(k, val, f) =>
      var m := PrefixLenSpec(key, k);
      if m < |k| then Ok(Changed(false, n))
      else if m == |key| then Ok(Changed(true, NilNode))
      else if k == [] then Err(BadEncoding)
      else
        (match TryDelete(db, val, key[m..], gen)
         case Err(e) => Err(e)
         case Ok(r) => Ok(if r.dirty then Changed(true, JoinNode(k, r.node, gen)) else Changed(false, n)))
    case FullNode(ch, f) =>
      if key == [] || key[0] >= |ch| then Err(BadEncoding)
      else
        (match TryDelete(db, ch[key[0]], key[1..], gen)
         case Err(e) => Err(e)
         case Ok(r) =>
           if !r.dirty then Ok(Changed(false, n))
           else match ShrinkNode(db, ch[key[0] := r.node], gen)
             case Err(e) => Err(e)
             case Ok(s) => Ok(Changed(true, s)))
    case HashNode(h) =>
      match Resolve(db, h, gen)
      case Err(e) => Err(e)
      case Ok(rn) =>
        if rn.HashNode? then Err(BadEncoding)
        else match TryDelete(db, rn, key, gen)
          case Err(e) => Err(e)
          case Ok(r) => Ok(if r.dirty then r else Changed(false, rn))
  }

  lemma {:induction false} DeleteRenews(db: Db, n: Node, key: Hex, gen: nat)
    requires TryDelete(db, n, key, gen).Ok? && TryDelete(db, n, key, gen).value.dirty
    ensures var r := TryDelete(db, n, key, gen).value.node; r.NilNode? || Renewed(r, gen)
    decreases |key|, if n.HashNode? then 1 else 0
  {
    if n.HashNode? {
      var rn := Resolve(db, n.h, gen);
      if rn.Ok? && !rn.value.HashNode? { DeleteRenews(db, rn.value, key, gen); }
    }
  }

  ghost predicate RepAll(H: Hasher, db: Db, ch: seq<Node>, trees: seq<Tree>) {
    |ch| == |trees| && forall i {:trigger ch[i]} {:trigger trees[i]} :: 0 <= i < |ch| ==>
        Rep(H, db, ch[i], trees[i], false)
  }

  lemma RepAllUpdate(H: Hasher, db: Db, ch: seq<Node>, trees: seq<Tree>, i: nat, n: Node, t: Tree)
    requires RepAll(H, db, ch, trees) && i < |ch| && Rep(H, db, n, t, false)
    ensures RepAll(H, db, ch[i := n], trees[i := t])
  {}

  lemma {:induction false} OnlySame(H: Hasher, db: Db, ch: seq<Node>, trees: seq<Tree>, from: nat)
    requires RepAll(H, db, ch, trees) && from <= |ch|
    ensures OnlyNode(ch, from) == Only(trees, from)
    decreases |ch| - from
  {
    forall i | from <= i < |ch| ensures ch[i].NilNode? <==> trees[i].Nil? { assert Rep(H, db, ch[i], trees[i], false); }
    if from < |ch| { OnlySame(H, db, ch, trees, from + 1); }
  }

  lemma JoinRep(H: Hasher, db: Db, k: Hex, child: Node, t: Tree, gen: nat, top: bool)
    requires Rep(H, db, child, t, false) && !child.HashNode?
    ensures Rep(H, db, JoinNode(k, child, gen), Join(k, t), top)
  {}

  lemma ResolveNodeRep(H: Hasher, db: Db, n: Node, t: Tree, gen: nat)
    requires Rep(H, db, n, t, false)
    ensures var r := ResolveNode(db, n, gen); r.Ok? && !r.value.HashNode? && Rep(H, db, r.value, t, false)
  {
    if n.HashNode? { ResolveRep(H, db, n.h, t, gen, false); }
  }

  lemma ShrinkRep(H: Hasher, db: Db, ch: seq<Node>, trees: seq<Tree>, gen: nat, top: bool)
    requires RepAll(H, db, ch, trees) && |ch| == 17
    ensures var r := ShrinkNode(db, ch, gen); r.Ok? && Rep(H, db, r.value, Shrink(trees), top)
  {
    OnlySame(H, db, ch, trees, 0);
    OnlyChild(trees, 0);
    if Only(trees, 0).Some? {
      var pos := Only(trees, 0).value;
      ResolveNodeRep(H, db, ch[pos], trees[pos], gen);
    }
  }

  /** Nothing is merged in a full node that has not changed. */
  lemma ShrinkNothing(ch: seq<Tree>)
    requires NF(Full(ch))
    ensures Shrink(ch) == Full(ch)
  {
    OnlyChild(ch, 0);
    var i, j :| 0 <= i < j < |ch| && !ch[i].Nil? && !ch[j].Nil?;
  }

  /** Deletion gives what it gives on the tree, and says so when nothing has changed. */
  lemma {:induction false} DeleteRefines(H: Hasher, db: Db, n: Node, t: Tree, key: Hex, gen: nat, top: bool)
    requires Rep(H, db, n, t, top) && NF(t) && FullKeyOrEnd(key) && Fits(t, key)
    ensures var r, u := TryDelete(db, n, key, gen), Delete(t, key);
            && r.Ok? && Rep(H, db, r.value.node, u, top) && (!r.value.dirty ==> u == t)
            && (r.value.dirty ==> !r.value.node.HashNode?)
    decreases t, if n.HashNode? then 2 else 1
  {
    match n
    case NilNode =>
    case ValueNode(_) =>
    case ShortNode(k, val, f) => DeleteRefinesShort(H, db, n, t, key, gen, top);
    case FullNode(ch, f) => DeleteRefinesFull(H, db, n, t, key, gen, top);
    case HashNode(h) =>
      ResolveRep(H, db, h, t, gen, top);
      DeleteRefines(H, db, Loaded(H, t, Some(h), gen), t, key, gen, top);
  }

  lemma {:induction false} DeleteRefinesShort(H: Hasher, db: Db, n: Node, t: Tree, key: Hex, gen: nat, top: bool)
    requires n.ShortNode? && Rep(H, db, n, t, top) && NF(t) && FullKey(key)
    ensures var r, u := TryDelete(db, n, key, gen), Delete(t, key);
            && r.Ok? && Rep(H, db, r.value.node, u, top) && (!r.value.dirty ==> u == t)
            && (r.value.dirty ==> !r.value.node.HashNode?)
    decreases t, 0
  {
    var k, m := n.key, PrefixLenSpec(key, n.key);
    if m == |k| && m < |key| {
      FitsBelow(t, key);
      DeleteRefines(H, db, n.val, t.val, key[m..], gen, false);
      var r := TryDelete(db, n.val, key[m..], gen).value;
      if r.dirty { JoinRep(H, db, k, r.node, Delete(t.val, key[m..]), gen, top); }
    }
  }

  lemma {:induction false} DeleteRefinesFull(H: Hasher, db: Db, n: Node, t: Tree, key: Hex, gen: nat, top: bool)
    requires n.FullNode? && Rep(H, db, n, t, top) && NF(t) && FullKey(key)
    ensures var r, u := TryDelete(db, n, key, gen), Delete(t, key);
            && r.Ok? && Rep(H, db, r.value.node, u, top) && (!r.value.dirty ==> u == t)
            && (r.value.dirty ==> !r.value.node.HashNode?)
    decreases t, 0
  {
    var i, trees := key[0], t.children;
    assert i <= 16;
    DeleteRefines(H, db, n.children[i], trees[i], key[1..], gen, false);
    var r := TryDelete(db, n.children[i], key[1..], gen).value;
    var u := Delete(trees[i], key[1..]);
    TryDeleteFull(db, n, key, gen);
    if r.dirty {
      ChangedChild(H, db, n, t, i, r.node, u, gen, top);
      ShrunkShape(db, n.children[i := r.node], gen);
    } else {
      SameChild(trees, i);
    }
  }

  /** What deletion does in a full node, once it has been done below. */
  lemma TryDeleteFull(db: Db, n: Node, key: Hex, gen: nat)
    requires n.FullNode? && key != [] && key[0] < |n.children| && TryDelete(db, n.children[key[0]], key[1..], gen).Ok?
    ensures var r, all := TryDelete(db, n.children[key[0]], key[1..], gen).value, TryDelete(db, n, key, gen);
            if !r.dirty then all == Ok(Changed(false, n))
            else
              var s := ShrinkNode(db, n.children[key[0] := r.node], gen);
              s.Ok? ==> all == Ok(Changed(true, s.value))
  {}

  lemma ShrunkShape(db: Db, ch: seq<Node>, gen: nat)
    requires ShrinkNode(db, ch, gen).Ok?
    ensures !ShrinkNode(db, ch, gen).value.HashNode?
  {}

  lemma SameChild(trees: seq<Tree>, i: nat)
    requires NF(Full(trees)) && i < |trees|
    ensures Shrink(trees[i := trees[i]]) == Full(trees)
  {
    assert trees[i := trees[i]] == trees;
    ShrinkNothing(trees);
  }

  lemma ChangedChild(H: Hasher, db: Db, n: Node, t: Tree, i: nat, child: Node, u: Tree, gen: nat, top: bool)
    requires n.FullNode? && t.Full? && |n.children| == |t.children| == 17 && Rep(H, db, n, t, top)
    requires i < 17 && Rep(H, db, child, u, false)
    ensures var r := ShrinkNode(db, n.children[i := child], gen);
            r.Ok? && Rep(H, db, r.value, Shrink(t.children[i := u]), top)
  {
    RepAllUpdate(H, db, n.children, t.children, i, child, u);
    ShrinkRep(H, db, n.children[i := child], t.children[i := u], gen, top);
  }

  // ------------------------------------------------------------------------------------------
  // Databases from which nodes are missing
  // ------------------------------------------------------------------------------------------

  ghost predicate Grows(db: Db, db': Db) {
    forall h {:trigger h in db} {:trigger h in db'} :: h in db ==> h in db' && db'[h] == db[h]
  }

  /** With fewer nodes an operation either gives the same result or names a node that is missing. */
  ghost predicate SameOrMissing<T(!new)>(r: Result<T, TrieNodes.Error>, whole: Result<T, TrieNodes.Error>, db: Db) {
    r == whole || (r.Err? && r.error.Missing? && r.error.hash !in db)
  }

  lemma {:induction false} GetMissing(db: Db, full: Db, n: Node, key: Hex, gen: nat)
    requires Grows(db, full)
    ensures SameOrMissing(TryGet(db, n, key, gen), TryGet(full, n, key, gen), db)
    decreases |key|, if n.HashNode? then 1 else 0
  {
    match n
    case NilNode =>
    case ValueNode(_) =>
    case ShortNode(k, val, f) => if StartsWith(key, k) && k != [] { GetMissing(db, full, val, key[|k|..], gen); }
    case FullNode(ch, f) => if key != [] && key[0] < |ch| { GetMissing(db, full, ch[key[0]], key[1..], gen); }
    case HashNode(h) =>
      var r := Resolve(db, h, gen);
      if r.Ok? && !r.value.HashNode? { GetMissing(db, full, r.value, key, gen); }
  }

  lemma {:induction false} InsertMissing(db: Db, full: Db, n: Node, key: Hex, value: Bytes, gen: nat)
    requires Grows(db, full)
    ensures SameOrMissing(TryInsert(db, n, key, value, gen), TryInsert(full, n, key, value, gen), db)
    decreases |key|, if n.HashNode? then 1 else 0
  {
    if key != [] {
      match n
      case NilNode =>
      case ValueNode(_) =>
      case ShortNode(k, val, f) =>
        var m := PrefixLenSpec(key, k);
        if m == |k| && k != [] { InsertMissing(db, full, val, key[m..], value, gen); }
      case FullNode(ch, f) => if key[0] < |ch| { InsertMissing(db, full, ch[key[0]], key[1..], value, gen); }
      case HashNode(h) =>
        var r := Resolve(db, h, gen);
        if r.Ok? && !r.value.HashNode? { InsertMissing(db, full, r.value, key, value, gen); }
    }
  }

  lemma ShrinkMissing(db: Db, full: Db, ch: seq<Node>, gen: nat)
    requires Grows(db, full)
    ensures SameOrMissing(ShrinkNode(db, ch, gen), ShrinkNode(full, ch, gen), db)
  {}

  lemma {:induction false} DeleteMissing(db: Db, full: Db, n: Node, key: Hex, gen: nat)
    requires Grows(db, full)
    ensures SameOrMissing(TryDelete(db, n, key, gen), TryDelete(full, n, key, gen), db)
    decreases |key|, if n.HashNode? then 1 else 0
  {
    match n
    case NilNode =>
    case ValueNode(_) =>
    case ShortNode(k, val, f) =>
      var m := PrefixLenSpec(key, k);
      if m == |k| && m < |key| && k != [] { DeleteMissing(db, full, val, key[m..], gen); }
    case FullNode(ch, f) =>
      if key != [] && key[0] < |ch| {
        DeleteMissing(db, full, ch[key[0]], key[1..], gen);
        var r := TryDelete(db, ch[key[0]], key[1..], gen);
        if r.Ok? && r.value.dirty { ShrinkMissing(db, full, ch[key[0] := r.value.node], gen); }
      }
    case HashNode(h) =>
      var r := Resolve(db, h, gen);
      if r.Ok? && !r.value.HashNode? { DeleteMissing(db, full, r.value, key, gen); }
  }
}

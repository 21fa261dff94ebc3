/**
 Merkle proofs (src/trie/proof.go): the encoded nodes on the way to a key, and the verifier that reads them. A
 proof made from a trie verifies to what the trie has, and no set of nodes filed under their hashes verifies to
 anything else.
 */
module TrieProof {
  import opened Wrappers
  import opened TrieKeys
  import opened Tries
  import opened TrieNodes
  import opened LazyTrie
  import opened TrieHasher
  import Rlp

  // ------------------------------------------------------------------------------------------
  // The verifier
  // ------------------------------------------------------------------------------------------

  /** Where walking down from a node ends: the rest of the key, and a hash, a value or nothing. */
  datatype Stop = Stop(rest: Hex, node: Node)

  function Walk(n: Node, key: Hex): Stop
    decreases n
  {
    match n
    case ShortNode(k, val, _) => if StartsWith(key, k) then Walk(val, key[|k|..]) else Stop([], NilNode)
    case FullNode(ch, _) => if key != [] && key[0] < |ch| then Walk(ch[key[0]], key[1..]) else Stop([], NilNode)
    case HashNode(_) => Stop(key, n)
    case NilNode => Stop(key, n)
    case ValueNode(_) => Stop([], n)
  }

  /** `get`. */
  method WalkDown(start: Node, full: Hex) returns (r: Stop)
    ensures r == Walk(start, full)
  {
    var n, key := start, full;
    while true
      invariant Walk(n, key) == Walk(start, full)
      decreases n
    {
      match n {
        case ShortNode(k, val, _) =>
          if !StartsWith(key, k) {
            return Stop([], NilNode);
          }
          key := key[|k|..];
          n := val;
        case FullNode(ch, _) =>
          if key == [] || key[0] >= |ch| {
            return Stop([], NilNode);
          }
          n := ch[key[0]];
          key := key[1..];
        case HashNode(_) => return Stop(key, n);
        case NilNode => return Stop(key, n);
        case ValueNode(_) => return Stop([], n);
      }
    }
  }

  lemma {:induction false} WalkShortens(n: Node, key: Hex)
    ensures |Walk(n, key).rest| <= |key|
    decreases n
  {
    match n
    case ShortNode(k, val, _) => if StartsWith(key, k) { WalkShortens(val, key[|k|..]); }
    case FullNode(ch, _) => if key != [] && key[0] < |ch| { WalkShortens(ch[key[0]], key[1..]); }
    case _ =>
  }

  /** Nodes from the decoder use up some of the key before they lead to a hash. */
  lemma WalkUses(hash: Option<Bytes>, buf: Bytes, key: Hex)
    requires DecodeNode(hash, buf, 0).Ok?
    ensures var s := Walk(DecodeNode(hash, buf, 0).value, key); s.node.HashNode? ==> |s.rest| < |key|
  {
    var n := DecodeNode(hash, buf, 0).value;
    DecodedShape(hash, buf);
    match n
    case ShortNode(k, val, _) => if StartsWith(key, k) { WalkShortens(val, key[|k|..]); }
    case FullNode(ch, _) => if key != [] && key[0] < |ch| { WalkShortens(ch[key[0]], key[1..]); }
    case _ =>
  }

  lemma DecodedShape(hash: Option<Bytes>, buf: Bytes)
    requires DecodeNode(hash, buf, 0).Ok?
    ensures var n := DecodeNode(hash, buf, 0).value; n.FullNode? || (n.ShortNode? && n.key != [])
  {}

  /** `VerifyProof`: follow the hashes through the proof. */
  function Verify(proof: Db, want: Bytes, key: Hex): Result<Option<Bytes>, TrieNodes.Error>
    decreases |key|
  {
    if want !in proof then Err(Missing(want))
    else
      match DecodeNode(Some(want), proof[want], 0)
      case Err(e) => Err(e)
      case Ok(n) =>
        WalkUses(Some(want), proof[want], key);
        var s := Walk(n, key);
        match s.node
        case HashNode(h) => Verify(proof, h, s.rest)
        case ValueNode(v) => Ok(Some(v))
        case _ => Ok(None)
  }

  /** The number of proof nodes that lead on to another node or to the value. */
  function Used(proof: Db, want: Bytes, key: Hex): nat
    decreases |key|
  {
    if want !in proof || DecodeNode(Some(want), proof[want], 0).Err? then 0
    else
      WalkUses(Some(want), proof[want], key);
      var s := Walk(DecodeNode(Some(want), proof[want], 0).value, key);
      match s.node
      case HashNode(h) => 1 + Used(proof, h, s.rest)
      case ValueNode(_) => 1
      case _ => 0
  }

  /** The loop of `VerifyProof`, which also counts the nodes it has used. */
  method VerifyProof(root: Bytes, key: Bytes, proof: Db) returns (r: Result<Option<Bytes>, TrieNodes.Error>, nodes: nat)
    ensures r == Verify(proof, root, KeyHex(key)) && nodes == Used(proof, root, KeyHex(key))
  {
    var k := KeybytesToHex(key);
    var want := root;
    nodes := 0;
    while true
      invariant Verify(proof, want, k) == Verify(proof, root, KeyHex(key))
      invariant nodes + Used(proof, want, k) == Used(proof, root, KeyHex(key))
      decreases |k|
    {
      if want !in proof {
        return Err(Missing(want)), nodes;
      }
      var n := DecodeNode(Some(want), proof[want], 0);
      if n.Err? {
        return Err(n.error), nodes;
      }
      WalkUses(Some(want), proof[want], k);
      var s := WalkDown(n.value, k);
      match s.node {
        case HashNode(h) =>
          k := s.rest;
          want := h;
          nodes := nodes + 1;
        case ValueNode(v) => return Ok(Some(v)), nodes + 1;
        case NilNode => return Ok(None), nodes;
        case ShortNode(_, _, _) => return Ok(None), nodes;
        case FullNode(_, _) => return Ok(None), nodes;
      }
    }
  }

  // ------------------------------------------------------------------------------------------
  // Walking down a tree
  // ------------------------------------------------------------------------------------------

  /** Where walking down from the top node of a tree ends. */
  datatype End = Absent | Present(v: Bytes) | Down(rest: Hex, tree: Tree)

  function Descend(H: Hasher, t: Tree, key: Hex): End
    decreases t, 0
  {
    match t
    case Short(k, val) => if StartsWith(key, k) then DescendInto(H, val, key[|k|..]) else Absent
    case Full(ch) => if key != [] && key[0] < |ch| then DescendInto(H, ch[key[0]], key[1..]) else Absent
    case Nil => Absent
    case Value(v) => Present(v)
  }

  function DescendInto(H: Hasher, t: Tree, key: Hex): End
    decreases t, 1
  {
    if Large(H, t) then Down(key, t) else Descend(H, t, key)
  }

  ghost predicate StopsAt(H: Hasher, s: Stop, e: End) {
    match e
    case Absent => s.node.NilNode?
    case Present(v) => s.node == ValueNode(v)
    case Down(rest, u) => s.rest == rest && Rlp.Encodable(ItemOf(H, u)) && s.node == HashNode(HashOf(H, u))
  }

  lemma {:induction false} WalkLoaded(H: Hasher, t: Tree, hash: Option<Bytes>, key: Hex)
    requires Proper(H, t)
    ensures StopsAt(H, Walk(Loaded(H, t, hash, 0), key), Descend(H, t, key))
    decreases t, 0
  {
    match t
    case Nil =>
    case Value(_) =>
    case Short(k, val) =>
      ShortParts(H, t);
      if StartsWith(key, k) { WalkChild(H, val, key[|k|..]); }
    case Full(ch) =>
      FullParts(H, t);
      if key != [] && key[0] < 17 {
        ChildAt(H, ch, 0, 17, key[0], 0);
        WalkChild(H, ch[key[0]], key[1..]);
      }
  }

  lemma {:induction false} WalkChild(H: Hasher, t: Tree, key: Hex)
    requires Proper(H, t)
    ensures StopsAt(H, Walk(Child(H, t, 0), key), DescendInto(H, t, key))
    decreases t, 1
  {
    if !Large(H, t) { WalkLoaded(H, t, None, key); }
  }

  /** What is found on the way is what lookup finds, and a subtree further down answers for the rest of the key. */
  ghost predicate EndOk(H: Hasher, t: Tree, key: Hex, e: End) {
    match e
    case Absent => Get(t, key).None?
    case Present(v) => Get(t, key) == Some(v)
    case Down(rest, u) => Get(t, key) == Get(u, rest) && Proper(H, u) && Large(H, u) && FullKey(rest) && |rest| <= |key|
  }

  lemma {:induction false} DescendGet(H: Hasher, t: Tree, key: Hex)
    requires Proper(H, t) && FullKeyOrEnd(key) && Fits(t, key)
    ensures EndOk(H, t, key, Descend(H, t, key))
    decreases t, 0
  {
    match t
    case Nil =>
    case Value(_) =>
    case Short(k, val) =>
      ShortParts(H, t);
      if StartsWith(key, k) {
        FitsBelow(t, key);
        IntoGet(H, val, key[|k|..]);
      }
    case Full(ch) =>
      FullParts(H, t);
      assert key[0] <= 16;
      IntoGet(H, ch[key[0]], key[1..]);
  }

  lemma {:induction false} IntoGet(H: Hasher, t: Tree, key: Hex)
    requires Proper(H, t) && FullKeyOrEnd(key) && Fits(t, key)
    ensures EndOk(H, t, key, DescendInto(H, t, key))
    decreases t, 1
  {
    if !Large(H, t) { DescendGet(H, t, key); }
  }

  // ------------------------------------------------------------------------------------------
  // No other value can be proved
  // ------------------------------------------------------------------------------------------

  lemma {:induction false} DescendInPlay(H: Hasher, blobs: set<Bytes>, t: Tree, key: Hex)
    requires InPlay(H, blobs, t)
    ensures Descend(H, t, key).Down? ==> InPlay(H, blobs, Descend(H, t, key).tree)
    ensures DescendInto(H, t, key).Down? ==> InPlay(H, blobs, DescendInto(H, t, key).tree)
    decreases t
  {
    match t
    case Nil =>
    case Value(_) =>
    case Short(k, val) => if StartsWith(key, k) { DescendInPlay(H, blobs, val, key[|k|..]); }
    case Full(ch) => if key != [] && key[0] < |ch| { DescendInPlay(H, blobs, ch[key[0]], key[1..]); }
  }

  /** A step of the verifier at the true encoding of a tree. */
  lemma VerifyStep(H: Hasher, proof: Db, t: Tree, key: Hex)
    requires Proper(H, t) && IsNode(t) && FullKey(key) && Rlp.Encodable(ItemOf(H, t))
    requires HashOf(H, t) in proof && proof[HashOf(H, t)] == Blob(H, t)
    ensures var e := Descend(H, t, key);
            && EndOk(H, t, key, e)
            && (e.Down? ==>
                  && |e.rest| < |key| && Rlp.Encodable(ItemOf(H, e.tree))
                  && Verify(proof, HashOf(H, t), key) == Verify(proof, HashOf(H, e.tree), e.rest))
            && (!e.Down? ==> Verify(proof, HashOf(H, t), key) == Ok(Get(t, key)))
  {
    var h, n := HashOf(H, t), Loaded(H, t, Some(HashOf(H, t)), 0);
    LoadedFromProof(H, t, proof[h]);
    VerifyOnce(proof, h, key, n);
    WalkLoaded(H, t, Some(h), key);
    DescendGet(H, t, key);
  }

  lemma LoadedFromProof(H: Hasher, t: Tree, buf: Bytes)
    requires Proper(H, t) && IsNode(t) && Rlp.Encodable(ItemOf(H, t)) && buf == Blob(H, t)
    ensures DecodeNode(Some(HashOf(H, t)), buf, 0) == Ok(Loaded(H, t, Some(HashOf(H, t)), 0))
  {
    DecodeEncode(H, t, Some(HashOf(H, t)), 0, []);
    assert Blob(H, t) + [] == Blob(H, t);
  }

  /** One round of the verifier. */
  lemma VerifyOnce(proof: Db, want: Bytes, key: Hex, n: Node)
    requires want in proof && DecodeNode(Some(want), proof[want], 0) == Ok(n)
    ensures var s := Walk(n, key);
            && (s.node.HashNode? ==> |s.rest| < |key| && Verify(proof, want, key) == Verify(proof, s.node.h, s.rest))
            && (s.node.ValueNode? ==> Verify(proof, want, key) == Ok(Some(s.node.v)))
            && (s.node.NilNode? ==> Verify(proof, want, key) == Ok(None))
  {
    WalkUses(Some(want), proof[want], key);
  }

  /** With nodes filed under their hashes, a proof for a tree verifies to what the tree has, or lacks a node. */
  lemma {:induction false} ProofIsSound(H: Hasher, blobs: set<Bytes>, proof: Db, t: Tree, key: Hex)
    requires Proper(H, t) && IsNode(t) && InPlay(H, blobs, t) && FullKey(key)
    requires NoCollision(H, blobs) && Filed(H, blobs, proof)
    ensures var r := Verify(proof, HashOf(H, t), key); r == Ok(Get(t, key)) || (r.Err? && r.error.Missing?)
    decreases |key|
  {
    if HashOf(H, t) in proof {
      assert proof[HashOf(H, t)] == Blob(H, t);
      VerifyStep(H, proof, t, key);
      var e := Descend(H, t, key);
      if e.Down? {
        DescendInPlay(H, blobs, t, key);
        ProofIsSound(H, blobs, proof, e.tree, e.rest);
      }
    }
  }

  // ------------------------------------------------------------------------------------------
  // The proof that is made
  // ------------------------------------------------------------------------------------------

  /** The nodes on the way to a key. */
  function Path(t: Tree, key: Hex): seq<Tree>
    decreases t
  {
    if key == [] then []
    else match t
      case Short(k, val) => [t] + if StartsWith(key, k) then Path(val, key[|k|..]) else []
      case Full(ch) => [t] + if key[0] < |ch| then Path(ch[key[0]], key[1..]) else []
      case _ => []
  }

  /** Those that go into a proof: the first one, and the large ones. */
  function Elements(H: Hasher, path: seq<Tree>): seq<Tree> {
    if path == [] then []
    else if |path| == 1 then path
    else
      var last := path[|path| - 1];
      Elements(H, path[..|path| - 1]) + if Large(H, last) then [last] else []
  }

  /** All of these nodes are in the proof. */
  ghost predicate Covers(H: Hasher, proof: Db, us: seq<Tree>) {
    forall u {:trigger u in us} :: u in us ==>
        Rlp.Encodable(ItemOf(H, u)) && HashOf(H, u) in proof && proof[HashOf(H, u)] == Blob(H, u)
  }

  lemma {:induction false} ElementsHas(H: Hasher, path: seq<Tree>, i: nat)
    requires i < |path| && (i == 0 || Large(H, path[i]))
    ensures path[i] in Elements(H, path)
    decreases |path|
  {
    if |path| > 1 && i < |path| - 1 {
      ElementsHas(H, path[..|path| - 1], i);
    }
  }

  ghost predicate Among(us: seq<Tree>, ws: seq<Tree>) {
    forall u {:trigger u in us} {:trigger u in ws} :: u in us ==> u in ws
  }

  ghost predicate OnTheWay(e: End, path: seq<Tree>) {
    e.Down? ==> Among(Path(e.tree, e.rest), path)
  }

  /** The subtree where walking down stops is on the way, with its own way behind it. */
  lemma {:induction false} PathBelow(H: Hasher, t: Tree, key: Hex)
    requires Proper(H, t) && FullKeyOrEnd(key) && Fits(t, key)
    ensures OnTheWay(Descend(H, t, key), Path(t, key))
    decreases t, 0
  {
    match t
    case Nil =>
    case Value(_) =>
    case Short(k, val) =>
      ShortParts(H, t);
      if StartsWith(key, k) {
        FitsBelow(t, key);
        PathInto(H, val, key[|k|..]);
        assert Path(t, key) == [t] + Path(val, key[|k|..]);
      }
    case Full(ch) =>
      FullParts(H, t);
      assert key[0] <= 16;
      PathInto(H, ch[key[0]], key[1..]);
      assert Path(t, key) == [t] + Path(ch[key[0]], key[1..]);
  }

  lemma {:induction false} PathInto(H: Hasher, t: Tree, key: Hex)
    requires Proper(H, t) && FullKeyOrEnd(key) && Fits(t, key)
    ensures OnTheWay(DescendInto(H, t, key), Path(t, key))
    decreases t, 1
  {
    if !Large(H, t) { PathBelow(H, t, key); }
  }

  /** What a proof must hold for a tree and a key: the top node, and every large node on the way. */
  ghost predicate Complete(H: Hasher, proof: Db, t: Tree, key: Hex) {
    && Rlp.Encodable(ItemOf(H, t)) && HashOf(H, t) in proof && proof[HashOf(H, t)] == Blob(H, t)
    && forall u {:trigger u in Path(t, key)} :: u in Path(t, key) && Large(H, u) ==>
         Rlp.Encodable(ItemOf(H, u)) && HashOf(H, u) in proof && proof[HashOf(H, u)] == Blob(H, u)
  }

  /** A complete proof verifies to what the tree has, also when that is nothing. */
  lemma {:induction false} ProofIsComplete(H: Hasher, proof: Db, t: Tree, key: Hex)
    requires Proper(H, t) && IsNode(t) && FullKey(key) && Complete(H, proof, t, key)
    ensures Verify(proof, HashOf(H, t), key) == Ok(Get(t, key))
    decreases |key|
  {
    VerifyStep(H, proof, t, key);
    var e := Descend(H, t, key);
    if e.Down? {
      PathBelow(H, t, key);
      assert e.tree in Path(e.tree, e.rest);
      ProofIsComplete(H, proof, e.tree, e.rest);
    }
  }

  // ------------------------------------------------------------------------------------------
  // How many nodes are used
  // ------------------------------------------------------------------------------------------

  /** The nodes that are reached by their hash. */
  function Hashed(H: Hasher, us: seq<Tree>): nat {
    if us == [] then 0 else (if Large(H, us[0]) then 1 else 0) + Hashed(H, us[1..])
  }

  /** Hashed nodes on the way to a key, without the first node. */
  function Hops(H: Hasher, t: Tree, key: Hex): nat {
    var path := Path(t, key);
    if path == [] then 0 else Hashed(H, path[1..])
  }

  ghost predicate HopsOn(H: Hasher, e: End, n: nat) {
    n == if e.Down? then 1 + Hops(H, e.tree, e.rest) else 0
  }

  lemma {:induction false} HopsBelow(H: Hasher, t: Tree, key: Hex)
    requires Proper(H, t) && FullKeyOrEnd(key) && Fits(t, key)
    ensures HopsOn(H, Descend(H, t, key), Hops(H, t, key))
    decreases t, 0
  {
    match t
    case Nil =>
    case Value(_) =>
    case Short(k, val) =>
      ShortParts(H, t);
      if StartsWith(key, k) {
        FitsBelow(t, key);
        HopsInto(H, val, key[|k|..]);
        assert Path(t, key)[1..] == Path(val, key[|k|..]);
      }
    case Full(ch) =>
      FullParts(H, t);
      assert key[0] <= 16;
      HopsInto(H, ch[key[0]], key[1..]);
      assert Path(t, key)[1..] == Path(ch[key[0]], key[1..]);
  }

  lemma {:induction false} HopsInto(H: Hasher, t: Tree, key: Hex)
    requires Proper(H, t) && FullKeyOrEnd(key) && Fits(t, key)
    ensures HopsOn(H, DescendInto(H, t, key), Hashed(H, Path(t, key)))
    decreases t, 1
  {
    if !Large(H, t) { HopsBelow(H, t, key); }
  }

  /** One round of the count. */
  lemma UsedOnce(proof: Db, want: Bytes, key: Hex, n: Node)
    requires want in proof && DecodeNode(Some(want), proof[want], 0) == Ok(n)
    ensures var s := Walk(n, key);
            && (s.node.HashNode? ==> Used(proof, want, key) == 1 + Used(proof, s.node.h, s.rest))
            && (s.node.ValueNode? ==> Used(proof, want, key) == 1)
            && (s.node.NilNode? ==> Used(proof, want, key) == 0)
  {
    WalkUses(Some(want), proof[want], key);
  }

  lemma UsedStep(H: Hasher, proof: Db, t: Tree, key: Hex)
    requires Proper(H, t) && IsNode(t) && FullKey(key) && Rlp.Encodable(ItemOf(H, t))
    requires HashOf(H, t) in proof && proof[HashOf(H, t)] == Blob(H, t)
    ensures var e, used := Descend(H, t, key), Used(proof, HashOf(H, t), key);
            && (e.Absent? ==> used == 0) && (e.Present? ==> used == 1)
            && (e.Down? ==> Rlp.Encodable(ItemOf(H, e.tree)) && used == 1 + Used(proof, HashOf(H, e.tree), e.rest))
  {
    var h, n := HashOf(H, t), Loaded(H, t, Some(HashOf(H, t)), 0);
    LoadedFromProof(H, t, proof[h]);
    UsedOnce(proof, h, key, n);
    WalkLoaded(H, t, Some(h), key);
  }

  /** The verifier counts the hashed nodes that it goes on to, and one more when it finds a value. */
  lemma {:induction false} UsedIsHops(H: Hasher, proof: Db, t: Tree, key: Hex)
    requires Proper(H, t) && IsNode(t) && FullKey(key) && Complete(H, proof, t, key)
    ensures Used(proof, HashOf(H, t), key) == Hops(H, t, key) + (if Get(t, key).Some? then 1 else 0)
    decreases |key|
  {
    VerifyStep(H, proof, t, key);
    UsedStep(H, proof, t, key);
    HopsBelow(H, t, key);
    var e := Descend(H, t, key);
    if e.Down? {
      PathBelow(H, t, key);
      assert e.tree in Path(e.tree, e.rest);
      UsedIsHops(H, proof, e.tree, e.rest);
    }
  }

  /** A proof has one node more than there are hashed nodes below the first. */
  lemma {:induction false} ElementsCount(H: Hasher, path: seq<Tree>)
    requires path != []
    ensures |Elements(H, path)| == 1 + Hashed(H, path[1..])
    decreases |path|
  {
    if |path| > 1 {
      var n := |path| - 1;
      ElementsCount(H, path[..n]);
      assert path[1..] == path[..n][1..] + [path[n]];
      HashedLast(H, path[..n][1..], path[n]);
    }
  }

  /** For a key that is there the verifier counts all nodes of its proof, and for one that is not all but the last. */
  lemma CountIsProof(H: Hasher, proof: Db, t: Tree, key: Hex)
    requires Proper(H, t) && IsNode(t) && FullKey(key) && Complete(H, proof, t, key)
    ensures Used(proof, HashOf(H, t), key) == |Elements(H, Path(t, key))| - if Get(t, key).Some? then 0 else 1
  {
    UsedIsHops(H, proof, t, key);
    assert Path(t, key) != [];
    ElementsCount(H, Path(t, key));
  }

  lemma {:induction false} HashedLast(H: Hasher, us: seq<Tree>, u: Tree)
    ensures Hashed(H, us + [u]) == Hashed(H, us) + if Large(H, u) then 1 else 0
  {
    if us == [] {
      assert us + [u] == [u] && [u][1..] == [];
    } else {
      HashedLast(H, us[1..], u);
      assert (us + [u])[1..] == us[1..] + [u];
    }
  }

  /** Nodes filed under their hashes, one after the other. */
  function Filing(H: Hasher, us: seq<Tree>): Db {
    if us == [] then map[]
    else
      var n := |us| - 1;
      var before := Filing(H, us[..n]);
      if Rlp.Encodable(ItemOf(H, us[n])) then before[HashOf(H, us[n]) := Blob(H, us[n])] else before
  }

  /** Every node on the way is a proper part of the tree. */
  ghost predicate Parts(H: Hasher, blobs: set<Bytes>, us: seq<Tree>) {
    forall i {:trigger us[i]} :: 0 <= i < |us| ==> Proper(H, us[i]) && IsNode(us[i]) && InPlay(H, blobs, us[i])
  }

  lemma PartsBelow(H: Hasher, blobs: set<Bytes>, t: Tree, us: seq<Tree>)
    requires Proper(H, t) && IsNode(t) && InPlay(H, blobs, t) && Parts(H, blobs, us)
    ensures Parts(H, blobs, [t] + us)
  {
    var all := [t] + us;
    forall i {:trigger all[i]} | 0 <= i < |all|
      ensures Proper(H, all[i]) && IsNode(all[i]) && InPlay(H, blobs, all[i])
    {
      if i > 0 { assert all[i] == us[i - 1]; }
    }
  }

  lemma {:induction false} PathParts(H: Hasher, blobs: set<Bytes>, t: Tree, key: Hex)
    requires Proper(H, t) && InPlay(H, blobs, t) && FullKeyOrEnd(key) && Fits(t, key)
    ensures Parts(H, blobs, Path(t, key))
    decreases t
  {
    match t
    case Nil =>
    case Value(_) =>
    case Short(k, val) =>
      ShortParts(H, t);
      if StartsWith(key, k) {
        FitsBelow(t, key);
        PathParts(H, blobs, val, key[|k|..]);
      }
      PartsBelow(H, blobs, t, if StartsWith(key, k) then Path(val, key[|k|..]) else []);
    case Full(ch) =>
      FullParts(H, t);
      assert key[0] <= 16;
      PathParts(H, blobs, ch[key[0]], key[1..]);
      PartsBelow(H, blobs, t, Path(ch[key[0]], key[1..]));
  }

  lemma {:induction false} ElementsParts(H: Hasher, blobs: set<Bytes>, us: seq<Tree>)
    requires Parts(H, blobs, us)
    ensures Parts(H, blobs, Elements(H, us))
    decreases |us|
  {
    if |us| > 1 { ElementsParts(H, blobs, us[..|us| - 1]); }
  }

  lemma {:induction false} FilingCovers(H: Hasher, blobs: set<Bytes>, us: seq<Tree>)
    requires Parts(H, blobs, us) && NoCollision(H, blobs)
    ensures Covers(H, Filing(H, us), us)
    decreases |us|
  {
    if us != [] {
      var n := |us| - 1;
      FilingCovers(H, blobs, us[..n]);
      assert us == us[..n] + [us[n]];
      forall u {:trigger u in us} | u in us
        ensures Rlp.Encodable(ItemOf(H, u)) && HashOf(H, u) in Filing(H, us)
                  && Filing(H, us)[HashOf(H, u)] == Blob(H, u)
      {
        var i :| 0 <= i < |us| && us[i] == u;
        if i < n { assert us[..n][i] == u; }
      }
    }
  }

  /** The nodes that go into a proof make it complete. */
  lemma ElementsComplete(H: Hasher, blobs: set<Bytes>, t: Tree, key: Hex)
    requires Proper(H, t) && IsNode(t) && InPlay(H, blobs, t) && FullKey(key) && NoCollision(H, blobs)
    ensures Complete(H, Filing(H, Elements(H, Path(t, key))), t, key)
  {
    var path := Path(t, key);
    PathParts(H, blobs, t, key);
    ElementsParts(H, blobs, path);
    FilingCovers(H, blobs, Elements(H, path));
    ElementsHas(H, path, 0);
    forall u {:trigger u in path} | u in path && Large(H, u) ensures u in Elements(H, path) {
      var i :| 0 <= i < |path| && path[i] == u;
      ElementsHas(H, path, i);
    }
  }

  /** The proof made for a key verifies to what the trie has under it, also when that is nothing. */
  lemma ProveVerifies(H: Hasher, blobs: set<Bytes>, t: Tree, key: Bytes)
    requires Proper(H, t) && IsNode(t) && InPlay(H, blobs, t) && NoCollision(H, blobs)
    ensures Verify(Filing(H, Elements(H, Path(t, KeyHex(key)))), HashOf(H, t), KeyHex(key)) == Ok(Get(t, KeyHex(key)))
  {
    KeyHexFull(key);
    ElementsComplete(H, blobs, t, KeyHex(key));
    ProofIsComplete(H, Filing(H, Elements(H, Path(t, KeyHex(key)))), t, KeyHex(key));
  }

  // ------------------------------------------------------------------------------------------
  // Making the proof
  // ------------------------------------------------------------------------------------------

  /** Collected nodes stand for the nodes on the way. */
  ghost predicate RepPath(H: Hasher, db: Db, ns: seq<Node>, us: seq<Tree>) {
    |ns| == |us| && forall i {:trigger ns[i]} :: 0 <= i < |ns| ==>
        (ns[i].ShortNode? || ns[i].FullNode?) && Rep(H, db, ns[i], us[i], i == 0)
  }

  /** The search has come to tree `tt` with `k` left of the key, and has passed the nodes `us`. */
  ghost predicate Collecting(H: Hasher, db: Db, path: seq<Tree>, ns: seq<Node>, us: seq<Tree>, tn: Node, tt: Tree,
          k: Hex) {
    && Rep(H, db, tn, tt, ns == []) && NF(tt) && FullKeyOrEnd(k) && Fits(tt, k)
    && RepPath(H, db, ns, us) && path == us + Path(tt, k)
  }

  lemma PassNode(path: seq<Tree>, us: seq<Tree>, t: Tree, p: seq<Tree>, rest: seq<Tree>)
    requires path == us + p && p == [t] + rest
    ensures path == (us + [t]) + rest
  {}

  lemma RepPathMore(H: Hasher, db: Db, ns: seq<Node>, us: seq<Tree>, n: Node, t: Tree)
    requires RepPath(H, db, ns, us) && Rep(H, db, n, t, ns == []) && (n.ShortNode? || n.FullNode?)
    ensures RepPath(H, db, ns + [n], us + [t])
  {
    var ms, ws := ns + [n], us + [t];
    forall i {:trigger ms[i]} | 0 <= i < |ms|
      ensures (ms[i].ShortNode? || ms[i].FullNode?) && Rep(H, db, ms[i], ws[i], i == 0)
    {
      if i < |ns| { assert ms[i] == ns[i] && ws[i] == us[i]; }
    }
  }

  lemma CollectMiss(H: Hasher, db: Db, path: seq<Tree>, ns: seq<Node>, us: seq<Tree>, tn: Node, tt: Tree, k: Hex)
    requires Collecting(H, db, path, ns, us, tn, tt, k) && tn.ShortNode? && k != [] && !StartsWith(k, tn.key)
    ensures Collecting(H, db, path, ns + [tn], us + [tt], NilNode, Nil, k)
  {
    RepPathMore(H, db, ns, us, tn, tt);
    PassNode(path, us, tt, Path(tt, k), []);
  }

  lemma CollectShort(H: Hasher, db: Db, path: seq<Tree>, ns: seq<Node>, us: seq<Tree>, tn: Node, tt: Tree, k: Hex)
    requires Collecting(H, db, path, ns, us, tn, tt, k) && tn.ShortNode? && k != [] && StartsWith(k, tn.key)
    ensures tn.key != [] && Collecting(H, db, path, ns + [tn], us + [tt], tn.val, tt.val, k[|tn.key|..])
  {
    FitsBelow(tt, k);
    RepPathMore(H, db, ns, us, tn, tt);
    PassNode(path, us, tt, Path(tt, k), Path(tt.val, k[|tn.key|..]));
  }

  lemma CollectFull(H: Hasher, db: Db, path: seq<Tree>, ns: seq<Node>, us: seq<Tree>, tn: Node, tt: Tree, k: Hex)
    requires Collecting(H, db, path, ns, us, tn, tt, k) && tn.FullNode? && k != []
    ensures k[0] < |tn.children| == |tt.children|
              && Collecting(H, db, path, ns + [tn], us + [tt], tn.children[k[0]], tt.children[k[0]], k[1..])
  {
    assert k[0] <= 16;
    RepPathMore(H, db, ns, us, tn, tt);
    PassNode(path, us, tt, Path(tt, k), Path(tt.children[k[0]], k[1..]));
  }

  lemma CollectHash(H: Hasher, db: Db, full: Db, path: seq<Tree>, ns: seq<Node>, us: seq<Tree>, tn: Node, tt: Tree,
          k: Hex, gen: nat)
    requires Collecting(H, full, path, ns, us, tn, tt, k) && tn.HashNode? && Grows(db, full)
    ensures var rn := Resolve(db, tn.h, gen);
            if rn.Ok? then (rn.value.ShortNode? || rn.value.FullNode?)
                && Collecting(H, full, path, ns, us, rn.value, tt, k)
            else rn.error.Missing? && rn.error.hash !in db
  {
    ResolveRep(H, full, tn.h, tt, gen, ns == []);
  }

  /** The first loop of `Prove`: the nodes on the way to the key, loaded as needed. */
  method Collect(db: Db, root: Node, key: Hex, gen: nat, ghost H: Hasher, ghost full: Db, ghost t: Tree)
    returns (r: Result<seq<Node>, TrieNodes.Error>)
    requires Rep(H, full, root, t, true) && Grows(db, full) && NF(t) && FullKey(key) && Fits(t, key)
    ensures if r.Ok? then RepPath(H, full, r.value, Path(t, key)) else r.error.Missing? && r.error.hash !in db
  {
    var nodes: seq<Node>, tn, k := [], root, key;
    ghost var us: seq<Tree>, tt, path := [], t, Path(t, key);
    assert [] + path == path;
    while |k| > 0 && !tn.NilNode?
      invariant Collecting(H, full, path, nodes, us, tn, tt, k)
      decreases |k|, if tn.HashNode? then 2 else if tn.NilNode? then 0 else 1
    {
      if tn.ShortNode? {
        if !StartsWith(k, tn.key) {
          CollectMiss(H, full, path, nodes, us, tn, tt, k);
          nodes, us := nodes + [tn], us + [tt];
          tn, tt := NilNode, Nil;
        } else {
          CollectShort(H, full, path, nodes, us, tn, tt, k);
          nodes, us := nodes + [tn], us + [tt];
          tn, tt, k := tn.val, tt.val, k[|tn.key|..];
        }
      } else if tn.FullNode? {
        CollectFull(H, full, path, nodes, us, tn, tt, k);
        nodes, us := nodes + [tn], us + [tt];
        tn, tt, k := tn.children[k[0]], tt.children[k[0]], k[1..];
      } else {
        CollectHash(H, db, full, path, nodes, us, tn, tt, k, gen);
        var rn := Resolve(db, tn.h, gen);
        if rn.Err? {
          return Err(rn.error);
        }
        tn := rn.value;
      }
    }
    assert Path(tt, k) == [] && us + [] == us;
    r := Ok(nodes);
  }

  /** What is left of a list after its first `n` elements. */
  function Skip(us: seq<Tree>, n: nat): seq<Tree> {
    if n <= |us| then us[n..] else []
  }

  lemma ElementsMore(H: Hasher, us: seq<Tree>, i: nat)
    requires i < |us|
    ensures Elements(H, us[..i + 1]) == Elements(H, us[..i]) + if i == 0 || Large(H, us[i]) then [us[i]] else []
  {
    assert us[..i + 1][..i] == us[..i];
  }

  lemma FilingMore(H: Hasher, us: seq<Tree>, u: Tree)
    requires Rlp.Encodable(ItemOf(H, u))
    ensures Filing(H, us + [u]) == Filing(H, us)[HashOf(H, u) := Blob(H, u)]
  {
    assert (us + [u])[..|us|] == us;
  }

  /** How far the second loop has come: `left` elements are still to be skipped. */
  ghost predicate Written(H: Hasher, us: seq<Tree>, level: nat, left: nat, proof: Db) {
    && proof == Filing(H, Skip(Elements(H, us), level))
    && left == if |Elements(H, us)| <= level then level - |Elements(H, us)| else 0
  }

  lemma WriteNext(H: Hasher, us: seq<Tree>, i: nat, level: nat, left: nat, proof: Db)
    requires i < |us| && Written(H, us[..i], level, left, proof) && Rlp.Encodable(ItemOf(H, us[i]))
    ensures if i == 0 || Large(H, us[i]) then
              if left > 0 then Written(H, us[..i + 1], level, left - 1, proof)
              else Written(H, us[..i + 1], level, 0, proof[HashOf(H, us[i]) := Blob(H, us[i])])
            else Written(H, us[..i + 1], level, left, proof)
  {
    ElementsMore(H, us, i);
    var es, u := Elements(H, us[..i]), us[i];
    if i == 0 || Large(H, u) {
      SkipMore(es, u, level);
      if left == 0 { FilingMore(H, Skip(es, level), u); }
    } else {
      assert es + [] == es;
    }
  }

  lemma SkipMore(es: seq<Tree>, u: Tree, level: nat)
    ensures Skip(es + [u], level) == if |es| < level then [] else Skip(es, level) + [u]
    ensures |es| < level ==> Skip(es, level) == []
  {}

  /** The second loop of `Prove`: encode the collected nodes, except the first `fromLevel` elements. */
  method WriteProof(H: Hasher, nodes: seq<Node>, fromLevel: nat, ghost blobs: set<Bytes>, ghost full: Db,
          ghost us: seq<Tree>)
    returns (proof: Db)
    requires RepPath(H, full, nodes, us) && Parts(H, blobs, us) && NoCollision(H, blobs) && Filed(H, blobs, full)
    ensures proof == Filing(H, Skip(Elements(H, us), fromLevel))
  {
    proof := map[];
    var left := fromLevel;
    var mode := Mode(false, 0, 0);
    for i := 0 to |nodes|
      invariant Written(H, us[..i], fromLevel, left, proof)
    {
      CollapseRefines(H, blobs, full, nodes[i], us[i], mode, i == 0);
      WriteNext(H, us, i, fromLevel, left, proof);
      var n := HashChildren(H, nodes[i], map[], mode).ref;
      var hn := StoreNode(H, n, FlagOf(nodes[i]).hash, map[], mode, false).0;
      if hn.CHash? || i == 0 {
        if left > 0 {
          left := left - 1;
        } else {
          var enc := Rlp.Encode(RawItem(n));
          var hash := if hn.CHash? then hn.h else H(enc);
          proof := proof[hash := enc];
        }
      }
    }
    assert us[..|us|] == us;
  }

  /** `Prove`. From level 0 it gives the whole proof, which verifies to what the trie has. */
  method Prove(H: Hasher, db: Db, root: Node, key: Bytes, fromLevel: nat, gen: nat,
               ghost blobs: set<Bytes>, ghost full: Db, ghost t: Tree) returns (r: Result<Db, TrieNodes.Error>)
    requires Rep(H, full, root, t, true) && Grows(db, full) && Ready(H, blobs, full, t) && !t.Value?
    ensures if r.Ok? then r.value == Filing(H, Skip(Elements(H, Path(t, KeyHex(key))), fromLevel))
            else r.error.Missing? && r.error.hash !in db
    ensures r.Ok? && fromLevel == 0 && IsNode(t) ==>
              Rlp.Encodable(ItemOf(H, t)) && Verify(r.value, HashOf(H, t), KeyHex(key)) == Ok(Get(t, KeyHex(key)))
    ensures r.Ok? && t.Nil? ==> r.value == map[]
  {
    var k := KeybytesToHex(key);
    KeyHexFull(key);
    var nodes := Collect(db, root, k, gen, H, full, t);
    if nodes.Err? {
      return Err(nodes.error);
    }
    PathParts(H, blobs, t, k);
    var proof := WriteProof(H, nodes.value, fromLevel, blobs, full, Path(t, k));
    r := Ok(proof);
    if IsNode(t) {
      ProveVerifies(H, blobs, t, key);
      assert Elements(H, Path(t, k))[0..] == Elements(H, Path(t, k));
    }
  }
}

/**
 Trie nodes as they are in memory and as they are stored (src/trie/node.go): the encoding of every tree, by
 which it is hashed, and the decoder. Decoding the encoding of a tree gives its top node back, with large
 subtrees as hashes and small ones in place.
 */
module TrieNodes {
  import opened Wrappers
  import opened TrieKeys
  import opened Tries
  import opened CompactKeys
  import Rlp

  const HASH_LENGTH := 32

  /** The hash function is a parameter; all that is known of it is the length of its results. */
  type Hasher = Bytes -> Bytes

  ghost predicate Sized(H: Hasher) {
    forall b {:trigger H(b)} :: |H(b)| == HASH_LENGTH
  }

  // ------------------------------------------------------------------------------------------
  // Encoding
  // ------------------------------------------------------------------------------------------

  /** The node at the top of a tree as a list of two or of seventeen values. */
  function ItemOf(H: Hasher, t: Tree): Rlp.Item
    decreases t, 0
  {
    match t
    case Nil => Rlp.Str([])
    case Value(v) => Rlp.Str(v)
    case Short(k, val) => Rlp.List([Rlp.Str(if KeyLike(k) then Compact(k) else [])] + [RefOf(H, val)])
    case Full(ch) => Rlp.List(RefsOf(H, ch, 0))
  }

  /** How a tree appears in the node above it: in place when its encoding is shorter than a hash. */
  function RefOf(H: Hasher, t: Tree): Rlp.Item
    decreases t, 1
  {
    var item := ItemOf(H, t);
    if t.Nil? || t.Value? || Rlp.Len(item) < HASH_LENGTH || !Rlp.Encodable(item) then item
    else Rlp.Str(H(Rlp.Encode(item)))
  }

  function RefsOf(H: Hasher, ch: seq<Tree>, i: nat): (items: seq<Rlp.Item>)
    requires i <= |ch|
    ensures |items| == |ch| - i
    decreases ch, |ch| - i
  {
    if i == |ch| then [] else [RefOf(H, ch[i])] + RefsOf(H, ch, i + 1)
  }

  predicate IsNode(t: Tree) {
    t.Short? || t.Full?
  }

  /** Everything in the tree is short enough to be encoded at all. */
  ghost predicate Storable(H: Hasher, t: Tree)
    decreases t
  {
    && Rlp.Encodable(ItemOf(H, t))
    && (t.Short? ==> Storable(H, t.val))
    && (t.Full? ==> forall i :: 0 <= i < |t.children| ==> Storable(H, t.children[i]))
  }

  function Blob(H: Hasher, t: Tree): Bytes
    requires Rlp.Encodable(ItemOf(H, t))
  {
    Rlp.Encode(ItemOf(H, t))
  }

  /** The hash of a tree, from scratch. */
  function HashOf(H: Hasher, t: Tree): Bytes
    requires Rlp.Encodable(ItemOf(H, t))
  {
    H(Blob(H, t))
  }

  /** A tree that is referred to by its hash. */
  predicate Large(H: Hasher, t: Tree) {
    IsNode(t) && Rlp.Len(ItemOf(H, t)) >= HASH_LENGTH
  }

  // ------------------------------------------------------------------------------------------
  // The form of an encoding
  // ------------------------------------------------------------------------------------------

  /** In the node above it, a node is its own encoding when that is shorter than a hash, and its hash otherwise. */
  lemma RefForm(H: Hasher, t: Tree)
    requires Sized(H) && IsNode(t) && Rlp.Encodable(ItemOf(H, t))
    ensures Rlp.Encodable(RefOf(H, t))
    ensures |Blob(H, t)| < 32 ==> Rlp.Encode(RefOf(H, t)) == Blob(H, t)
    ensures |Blob(H, t)| >= 32 ==> Rlp.Encode(RefOf(H, t)) == [0xA0] + H(Blob(H, t))
  {
    if |Blob(H, t)| >= 32 {
      Rlp.StringForm(H(Blob(H, t)));
      var e := Rlp.Encode(RefOf(H, t));
      assert e == [e[0]] + e[1..];
    }
  }

  /** A short node is a list of its key in compact form and what stands for its child. */
  lemma ShortForm(H: Hasher, k: Hex, val: Tree)
    requires KeyLike(k) && Rlp.Encodable(ItemOf(H, Short(k, val))) && Rlp.Encodable(RefOf(H, val))
    ensures |Compact(k)| < Rlp.MAX_SIZE && Packs(Compact(k), k)
    ensures Rlp.Announces(Blob(H, Short(k, val)), 0xC0, Rlp.Encode(Rlp.Str(Compact(k))) + Rlp.Encode(RefOf(H, val)))
  {
    CompactPacks(k);
    var key, ref := Rlp.Str(Compact(k)), RefOf(H, val);
    var xs := [key] + [ref];
    assert ItemOf(H, Short(k, val)) == Rlp.List(xs) && xs[0] == key && xs[1..] == [ref];
    assert [ref][1..] == [];
    Rlp.ListForm(xs);
    Rlp.ListOne(ref, []);
    assert [ref] + [] == [ref];
    assert Rlp.EncodeAll([ref]) == Rlp.Encode(ref) + [];
  }

  /** A full node is a list of what stands for its children, in their order. */
  lemma FullForm(H: Hasher, ch: seq<Tree>, i: nat)
    requires Rlp.Encodable(ItemOf(H, Full(ch))) && i < |ch|
    ensures Rlp.EncodableAll(RefsOf(H, ch, 0)) && |RefsOf(H, ch, 0)| == |ch| && RefsOf(H, ch, 0)[i] == RefOf(H, ch[i])
    ensures Rlp.Announces(Blob(H, Full(ch)), 0xC0, Rlp.EncodeAll(RefsOf(H, ch, 0)))
  {
    RefsAt(H, ch, 0, i);
    ListBlob(H, Full(ch), RefsOf(H, ch, 0));
  }

  lemma ListBlob(H: Hasher, t: Tree, xs: seq<Rlp.Item>)
    requires ItemOf(H, t) == Rlp.List(xs) && Rlp.Encodable(ItemOf(H, t))
    ensures Rlp.EncodableAll(xs) && Rlp.Announces(Blob(H, t), 0xC0, Rlp.EncodeAll(xs))
  {
    Rlp.ListForm(xs);
  }

  lemma {:induction false} RefsAt(H: Hasher, ch: seq<Tree>, from: nat, i: nat)
    requires from <= i < |ch|
    ensures RefsOf(H, ch, from)[i - from] == RefOf(H, ch[i])
    decreases i - from
  {
    if from < i { RefsAt(H, ch, from + 1, i); }
  }

  /** The key "a" with the value "b". */
  lemma OneKeyBlob(H: Hasher)
    ensures var t := Short([6, 1, TERM], Value([0x62]));
            Rlp.Encodable(ItemOf(H, t)) && Blob(H, t) == [0xC4, 0x82, 0x20, 0x61, 0x62]
  {
    var k, val := [6, 1, TERM], Value([0x62]);
    assert Bare(k) == [6, 1] && Nibbles([6, 1]);
    assert Pairs([6, 1]) == [0x61] + Pairs([6, 1][2..]);
    assert Compact(k) == [0x20, 0x61];
    var key, ref := Rlp.Str([0x20, 0x61]), Rlp.Str([0x62]);
    assert ItemOf(H, Short(k, val)) == Rlp.List([key] + [ref]);
    assert Rlp.Encode(key) == [0x82, 0x20, 0x61] && Rlp.Encode(ref) == [0x62];
    Rlp.ListOne(ref, []);
    assert [ref] + [] == [ref];
    Rlp.ListOne(key, [ref]);
  }

  // ------------------------------------------------------------------------------------------
  // Nodes in memory
  // ------------------------------------------------------------------------------------------

  datatype Flag = Flag(hash: Option<Bytes>, gen: nat, dirty: bool)

  datatype Node =
    | NilNode
    | ValueNode(v: Bytes)
    | ShortNode(key: Hex, val: Node, flag: Flag)
    | FullNode(children: seq<Node>, flag: Flag)
    | HashNode(h: Bytes)

  datatype Error = Missing(hash: Bytes) | BadEncoding

  // ------------------------------------------------------------------------------------------
  // Decoding
  // ------------------------------------------------------------------------------------------

  /** `decodeNode`. */
  function DecodeNode(hash: Option<Bytes>, buf: Bytes, gen: nat): Result<Node, Error>
    decreases |buf|, 2
  {
    match Rlp.SplitList(buf)
    case Err(_) => Err(BadEncoding)
    case Ok((elems, _)) =>
      ListShrinks(buf);
      match Rlp.Count(elems)
      case None => Err(BadEncoding)
      case Some(c) =>
        if c == 2 then DecodeShort(hash, elems, gen)
        else if c == 17 then DecodeFull(hash, elems, gen)
        else Err(BadEncoding)
  }

  lemma ListShrinks(buf: Bytes)
    ensures Rlp.SplitList(buf).Ok? ==> |Rlp.SplitList(buf).value.0| < |buf|
  {}

  /** `decodeShort`. An empty key, which is never written, is refused. */
  function DecodeShort(hash: Option<Bytes>, elems: Bytes, gen: nat): Result<Node, Error>
    decreases |elems|, 1
  {
    match Rlp.SplitString(elems)
    case Err(_) => Err(BadEncoding)
    case Ok((kbuf, rest)) =>
      if kbuf == [] then Err(BadEncoding)
      else
        var key := Expanded(kbuf);
        if key == [] then Err(BadEncoding)
        else if HasTerm(key) then
          match Rlp.SplitString(rest)
          case Err(_) => Err(BadEncoding)
          case Ok((val, _)) => Ok(ShortNode(key, ValueNode(val), Flag(hash, gen, false)))
        else
          match DecodeRef(rest, gen)
          case Err(e) => Err(e)
          case Ok((child, _)) => Ok(ShortNode(key, child, Flag(hash, gen, false)))
  }

  /** `decodeRef`: one reference from the front of `buf`, and what follows it. */
  function DecodeRef(buf: Bytes, gen: nat): (r: Result<(Node, Bytes), Error>)
    ensures r.Ok? ==> |r.value.1| < |buf|
    decreases |buf|, 3
  {
    match Rlp.Split(buf)
    case Err(_) => Err(BadEncoding)
    case Ok(p) =>
      if p.kind == Rlp.ListKind then
        if |buf| - |p.rest| > HASH_LENGTH then Err(BadEncoding)
        else match DecodeNode(None, buf, gen)
          case Err(e) => Err(e)
          case Ok(n) => Ok((n, p.rest))
      else if p.kind == Rlp.StringKind && p.content == [] then Ok((NilNode, p.rest))
      else if p.kind == Rlp.StringKind && |p.content| == HASH_LENGTH then Ok((HashNode(p.content), p.rest))
      else Err(BadEncoding)
  }

  /** `n` references in a row. */
  function DecodeRefs(buf: Bytes, n: nat, gen: nat): Result<(seq<Node>, Bytes), Error>
    decreases |buf|, 4, n
  {
    if n == 0 then Ok(([], buf))
    else match DecodeRef(buf, gen)
      case Err(e) => Err(e)
      case Ok((child, rest)) =>
        match DecodeRefs(rest, n - 1, gen)
        case Err(e) => Err(e)
        case Ok((children, end)) => Ok(([child] + children, end))
  }

  /** `decodeFull`: sixteen references and a value. */
  function DecodeFull(hash: Option<Bytes>, elems: Bytes, gen: nat): Result<Node, Error>
    decreases |elems|, 5
  {
    match DecodeRefs(elems, 16, gen)
    case Err(e) => Err(e)
    case Ok((children, rest)) =>
      match Rlp.SplitString(rest)
      case Err(_) => Err(BadEncoding)
      case Ok((val, _)) => Ok(FullNode(children + [if val == [] then NilNode else ValueNode(val)],
          Flag(hash, gen, false)))
  }

  // ------------------------------------------------------------------------------------------
  // Decoding what was encoded
  // ------------------------------------------------------------------------------------------

  /** The top node of a tree as the decoder makes it. */
  function Loaded(H: Hasher, t: Tree, hash: Option<Bytes>, gen: nat): Node
    decreases t, 0
  {
    match t
    case Short(k, val) => ShortNode(k, Child(H, val, gen), Flag(hash, gen, false))
    case Full(ch) => FullNode(ChildrenOf(H, ch, 0, |ch|, gen), Flag(hash, gen, false))
    case Nil => NilNode
    case Value(v) => ValueNode(v)
  }

  /** A tree under the top node: its hash, or the node itself when it is small. */
  function Child(H: Hasher, t: Tree, gen: nat): Node
    decreases t, 1
  {
    if Large(H, t) && Rlp.Encodable(ItemOf(H, t)) then HashNode(HashOf(H, t)) else Loaded(H, t, None, gen)
  }

  /** The `n` children from position `i` on. */
  function ChildrenOf(H: Hasher, ch: seq<Tree>, i: nat, n: nat, gen: nat): (nodes: seq<Node>)
    requires i + n <= |ch|
    ensures |nodes| == n
    decreases ch, n
  {
    if n == 0 then [] else [Child(H, ch[i], gen)] + ChildrenOf(H, ch, i + 1, n - 1, gen)
  }

  lemma ValueRef(H: Hasher, v: Bytes, gen: nat)
    ensures RefOf(H, Value(v)) == Rlp.Str(v) && Child(H, Value(v), gen) == ValueNode(v)
  {}

  lemma SplitStr(b: Bytes, rest: Bytes)
    requires |b| < Rlp.MAX_SIZE
    ensures Rlp.SplitString(Rlp.Encode(Rlp.Str(b)) + rest) == Ok((b, rest))
  {
    Rlp.SplitWrap(Rlp.StringKind, b, rest);
  }

  lemma SplitLst(xs: seq<Rlp.Item>, rest: Bytes)
    requires Rlp.Encodable(Rlp.List(xs))
    ensures Rlp.SplitList(Rlp.Encode(Rlp.List(xs)) + rest) == Ok((Rlp.EncodeAll(xs), rest))
  {
    Rlp.SplitWrap(Rlp.ListKind, Rlp.EncodeAll(xs), rest);
  }

  /** A list of two values. */
  lemma TwoItems(a: Rlp.Item, b: Rlp.Item)
    requires Rlp.Encodable(a) && Rlp.Encodable(b)
    ensures Rlp.EncodableAll([a] + [b]) && Rlp.EncodeAll([a] + [b]) == Rlp.Encode(a) + Rlp.Encode(b)
  {
    assert ([a] + [b])[1..] == [b] && [b][1..] == [];
    assert Rlp.EncodeAll([b]) == Rlp.Encode(b) + Rlp.EncodeAll([]);
  }

  lemma RefsOne(H: Hasher, ch: seq<Tree>, i: nat)
    requires i < |ch| && Rlp.EncodableAll(RefsOf(H, ch, i))
    ensures Rlp.Encodable(RefOf(H, ch[i])) && Rlp.EncodableAll(RefsOf(H, ch, i + 1))
    ensures Rlp.EncodeAll(RefsOf(H, ch, i)) == Rlp.Encode(RefOf(H, ch[i])) + Rlp.EncodeAll(RefsOf(H, ch, i + 1))
  {
    assert RefsOf(H, ch, i)[1..] == RefsOf(H, ch, i + 1);
  }

  lemma SplitKind(b: Bytes)
    requires Rlp.Split(b).Ok?
    ensures Rlp.Split(b).value.kind == Rlp.ByteKind ==> |Rlp.Split(b).value.content| == 1
  {}

  /** A reference that is a string is read as one. */
  lemma DecodeString(b: Bytes, gen: nat, rest: Bytes)
    requires |b| == 0 || |b| == HASH_LENGTH
    ensures DecodeRef(Rlp.Encode(Rlp.Str(b)) + rest, gen) == Ok((if b == [] then NilNode else HashNode(b), rest))
  {
    Rlp.SplitWrap(Rlp.StringKind, b, rest);
    SplitKind(Rlp.Encode(Rlp.Str(b)) + rest);
  }

  /** A reference that is a node in place is read as that node. */
  lemma DecodeInline(xs: seq<Rlp.Item>, n: Node, gen: nat, rest: Bytes)
    requires Rlp.Encodable(Rlp.List(xs)) && Rlp.Len(Rlp.List(xs)) <= HASH_LENGTH
    requires DecodeNode(None, Rlp.Encode(Rlp.List(xs)) + rest, gen) == Ok(n)
    ensures DecodeRef(Rlp.Encode(Rlp.List(xs)) + rest, gen) == Ok((n, rest))
  {
    Rlp.SplitWrap(Rlp.ListKind, Rlp.EncodeAll(xs), rest);
  }

  lemma DecodeTwo(hash: Option<Bytes>, k: Hex, ref: Rlp.Item, gen: nat, rest: Bytes)
    requires Fragment(k) && Rlp.Encodable(Rlp.List([Rlp.Str(Compact(k))] + [ref])) && Rlp.Encodable(ref)
               && |Compact(k)| < Rlp.MAX_SIZE
    ensures DecodeNode(hash, Rlp.Encode(Rlp.List([Rlp.Str(Compact(k))] + [ref])) + rest, gen) ==
            DecodeShort(hash, Rlp.Encode(Rlp.Str(Compact(k))) + Rlp.Encode(ref), gen)
  {
    var xs := [Rlp.Str(Compact(k))] + [ref];
    SplitLst(xs, rest);
    Rlp.CountEncodeAll(xs);
    TwoItems(Rlp.Str(Compact(k)), ref);
  }

  /** A leaf: a key with its terminator, and a value. */
  lemma DecodeLeaf(hash: Option<Bytes>, k: Hex, v: Bytes, gen: nat)
    requires Fragment(k) && HasTerm(k) && |Compact(k)| < Rlp.MAX_SIZE && |v| < Rlp.MAX_SIZE
    ensures DecodeShort(hash, Rlp.Encode(Rlp.Str(Compact(k))) + Rlp.Encode(Rlp.Str(v)), gen) ==
            Ok(ShortNode(k, ValueNode(v), Flag(hash, gen, false)))
  {
    SplitStr(Compact(k), Rlp.Encode(Rlp.Str(v)));
    CompactRoundTrip(k);
    SplitLastStr(v);
  }

  lemma SplitLastStr(b: Bytes)
    requires |b| < Rlp.MAX_SIZE
    ensures Rlp.SplitString(Rlp.Encode(Rlp.Str(b))) == Ok((b, []))
  {
    var e := Rlp.Encode(Rlp.Str(b));
    assert e + [] == e;
    SplitStr(b, []);
  }

  /** An extension: a key without terminator, and a reference. */
  lemma DecodeExtension(hash: Option<Bytes>, k: Hex, ref: Bytes, child: Node, gen: nat)
    requires Fragment(k) && !HasTerm(k) && |Compact(k)| < Rlp.MAX_SIZE && DecodeRef(ref, gen) == Ok((child, []))
    ensures DecodeShort(hash, Rlp.Encode(Rlp.Str(Compact(k))) + ref, gen) ==
              Ok(ShortNode(k, child, Flag(hash, gen, false)))
  {
    SplitStr(Compact(k), ref);
    CompactRoundTrip(k);
  }

  ghost predicate Improper(H: Hasher, t: Tree) {
    !(Sized(H) && NF(t) && Storable(H, t))
  }

  /** A tree in normal form that can be encoded. The double negation keeps it one obligation in proofs, not three. */
  ghost predicate Proper(H: Hasher, t: Tree) {
    !Improper(H, t)
  }

  lemma ShortParts(H: Hasher, t: Tree)
    requires t.Short? && Proper(H, t)
    ensures Fragment(t.key) && |Compact(t.key)| < Rlp.MAX_SIZE && Rlp.Encodable(RefOf(H, t.val)) && Proper(H, t.val)
    ensures if HasTerm(t.key) then t.val.Value? else t.val.Full?
    ensures ItemOf(H, t) == Rlp.List([Rlp.Str(Compact(t.key))] + [RefOf(H, t.val)]) && Rlp.Encodable(ItemOf(H, t))
  {
    FragmentKeyLike(t.key);
    var xs := [Rlp.Str(Compact(t.key))] + [RefOf(H, t.val)];
    assert ItemOf(H, t) == Rlp.List(xs);
    assert Rlp.EncodableAll(xs) && xs[0] == Rlp.Str(Compact(t.key)) && xs[1..] == [RefOf(H, t.val)];
    assert Rlp.Encodable(xs[0]) && Rlp.EncodableAll(xs[1..]);
  }

  lemma FullParts(H: Hasher, t: Tree)
    requires t.Full? && Proper(H, t)
    ensures |t.children| == 17 && ItemOf(H, t) == Rlp.List(RefsOf(H, t.children, 0)) && Rlp.Encodable(ItemOf(H, t))
    ensures forall i {:trigger t.children[i]} :: 0 <= i < 17 ==>
              Proper(H, t.children[i]) && (i < 16 ==> !t.children[i].Value?)
    ensures t.children[16].Nil? || t.children[16].Value?
  {}

  /** Decoding the encoding of a tree gives its top node. */
  lemma {:induction false} DecodeEncode(H: Hasher, t: Tree, hash: Option<Bytes>, gen: nat, rest: Bytes)
    requires Proper(H, t) && IsNode(t)
    ensures Rlp.Encodable(ItemOf(H, t)) && DecodeNode(hash, Blob(H, t) + rest, gen) == Ok(Loaded(H, t, hash, gen))
    decreases t, 3
  {
    if t.Short? { DecodeShortOf(H, t, hash, gen, rest); } else { DecodeFullOf(H, t, hash, gen, rest); }
  }

  lemma {:induction false} DecodeShortOf(H: Hasher, t: Tree, hash: Option<Bytes>, gen: nat, rest: Bytes)
    requires t.Short? && Proper(H, t)
    ensures Rlp.Encodable(ItemOf(H, t)) && DecodeNode(hash, Blob(H, t) + rest, gen) == Ok(Loaded(H, t, hash, gen))
    decreases t, 2
  {
    var k, val, ref := t.key, t.val, RefOf(H, t.val);
    ShortParts(H, t);
    DecodeTwo(hash, k, ref, gen, rest);
    if HasTerm(k) {
      DecodeLeaf(hash, k, val.v, gen);
      ValueRef(H, val.v, gen);
    } else {
      DecodeRefOf(H, val, gen, []);
      assert Rlp.Encode(ref) + [] == Rlp.Encode(ref);
      DecodeExtension(hash, k, Rlp.Encode(ref), Child(H, val, gen), gen);
    }
  }

  lemma {:induction false} DecodeFullOf(H: Hasher, t: Tree, hash: Option<Bytes>, gen: nat, rest: Bytes)
    requires t.Full? && Proper(H, t)
    ensures Rlp.Encodable(ItemOf(H, t)) && DecodeNode(hash, Blob(H, t) + rest, gen) == Ok(Loaded(H, t, hash, gen))
    decreases t, 2
  {
    var ch := t.children;
    FullParts(H, t);
    DecodeMany(hash, RefsOf(H, ch, 0), gen, rest);
    DecodeRefsOf(H, ch, 0, gen);
    DecodeLast(H, ch);
    LastChild(H, ch, gen);
  }

  lemma DecodeMany(hash: Option<Bytes>, xs: seq<Rlp.Item>, gen: nat, rest: Bytes)
    requires |xs| == 17 && Rlp.Encodable(Rlp.List(xs))
    ensures DecodeNode(hash, Rlp.Encode(Rlp.List(xs)) + rest, gen) == DecodeFull(hash, Rlp.EncodeAll(xs), gen)
  {
    SplitLst(xs, rest);
    Rlp.CountEncodeAll(xs);
    FullByCount(hash, Rlp.Encode(Rlp.List(xs)) + rest, Rlp.EncodeAll(xs), rest, gen);
  }

  lemma FullByCount(hash: Option<Bytes>, buf: Bytes, elems: Bytes, rest: Bytes, gen: nat)
    requires Rlp.SplitList(buf) == Ok((elems, rest)) && Rlp.Count(elems) == Some(17)
    ensures DecodeNode(hash, buf, gen) == DecodeFull(hash, elems, gen)
  {}

  /** Decoding a reference to a tree. */
  lemma {:induction false} DecodeRefOf(H: Hasher, t: Tree, gen: nat, rest: Bytes)
    requires Proper(H, t) && !t.Value? && Rlp.Encodable(RefOf(H, t))
    ensures DecodeRef(Rlp.Encode(RefOf(H, t)) + rest, gen) == Ok((Child(H, t, gen), rest))
    decreases t, 4
  {
    if t.Nil? {
      DecodeString([], gen, rest);
    } else {
      DecodeEncode(H, t, None, gen, rest);
      if Large(H, t) {
        DecodeString(HashOf(H, t), gen, rest);
      } else {
        DecodeInline(ItemOf(H, t).items, Loaded(H, t, None, gen), gen, rest);
      }
    }
  }

  lemma OneRefMore(buf: Bytes, n: nat, gen: nat, child: Node, rest: Bytes, children: seq<Node>, end: Bytes)
    requires DecodeRef(buf, gen) == Ok((child, rest)) && DecodeRefs(rest, n, gen) == Ok((children, end))
    ensures DecodeRefs(buf, n + 1, gen) == Ok(([child] + children, end))
  {}

  lemma RefsStep(H: Hasher, ch: seq<Tree>, i: nat, gen: nat, end: Bytes)
    requires |ch| == 17 && i < 16 && Rlp.EncodableAll(RefsOf(H, ch, i)) && Rlp.EncodableAll(RefsOf(H, ch, i + 1))
               && Rlp.Encodable(RefOf(H, ch[i]))
    requires var rest := Rlp.EncodeAll(RefsOf(H, ch, i + 1));
             && DecodeRef(Rlp.Encode(RefOf(H, ch[i])) + rest, gen) == Ok((Child(H, ch[i], gen), rest))
             && DecodeRefs(rest, 15 - i, gen) == Ok((ChildrenOf(H, ch, i + 1, 15 - i, gen), end))
    ensures DecodeRefs(Rlp.EncodeAll(RefsOf(H, ch, i)), 16 - i, gen) == Ok((ChildrenOf(H, ch, i, 16 - i, gen), end))
  {
    RefsOne(H, ch, i);
    var buf, rest := Rlp.EncodeAll(RefsOf(H, ch, i)), Rlp.EncodeAll(RefsOf(H, ch, i + 1));
    OneRefMore(buf, 15 - i, gen, Child(H, ch[i], gen), rest, ChildrenOf(H, ch, i + 1, 15 - i, gen), end);
  }

  /** The references from position `i` on decode. */
  ghost predicate RefsDecode(H: Hasher, ch: seq<Tree>, i: nat, gen: nat)
    requires |ch| == 17 && i <= 16
  {
    && Rlp.EncodableAll(RefsOf(H, ch, i)) && Rlp.EncodableAll(RefsOf(H, ch, 16))
    && DecodeRefs(Rlp.EncodeAll(RefsOf(H, ch, i)), 16 - i, gen) ==
       Ok((ChildrenOf(H, ch, i, 16 - i, gen), Rlp.EncodeAll(RefsOf(H, ch, 16))))
  }

  lemma NoRefsLeft(H: Hasher, ch: seq<Tree>, gen: nat)
    requires |ch| == 17 && Rlp.EncodableAll(RefsOf(H, ch, 16))
    ensures RefsDecode(H, ch, 16, gen)
  {
    assert ChildrenOf(H, ch, 16, 0, gen) == [];
  }

  lemma {:induction false} DecodeRefAt(H: Hasher, ch: seq<Tree>, i: nat, gen: nat)
    requires |ch| == 17 && i < 16 && Rlp.EncodableAll(RefsOf(H, ch, i)) && Proper(H, ch[i]) && !ch[i].Value?
    ensures Rlp.EncodableAll(RefsOf(H, ch, i + 1)) && Rlp.Encodable(RefOf(H, ch[i]))
    ensures var rest := Rlp.EncodeAll(RefsOf(H, ch, i + 1));
            DecodeRef(Rlp.Encode(RefOf(H, ch[i])) + rest, gen) == Ok((Child(H, ch[i], gen), rest))
    decreases ch, 16 - i, 0
  {
    RefsOne(H, ch, i);
    DecodeRefOf(H, ch[i], gen, Rlp.EncodeAll(RefsOf(H, ch, i + 1)));
  }

  /** The sixteen references of a full node. */
  lemma {:induction false} DecodeRefsOf(H: Hasher, ch: seq<Tree>, i: nat, gen: nat)
    requires |ch| == 17 && i <= 16 && Rlp.EncodableAll(RefsOf(H, ch, i))
    requires forall j {:trigger ch[j]} :: 0 <= j < 17 ==> Proper(H, ch[j]) && (j < 16 ==> !ch[j].Value?)
    ensures RefsDecode(H, ch, i, gen)
    decreases ch, 16 - i, 1
  {
    if i == 16 {
      NoRefsLeft(H, ch, gen);
    } else {
      DecodeRefAt(H, ch, i, gen);
      DecodeRefsOf(H, ch, i + 1, gen);
      RefsStep(H, ch, i, gen, Rlp.EncodeAll(RefsOf(H, ch, 16)));
    }
  }

  /** The value at the end of a full node. */
  lemma DecodeLast(H: Hasher, ch: seq<Tree>)
    requires |ch| == 17 && (ch[16].Nil? || ch[16].Value?) && Rlp.EncodableAll(RefsOf(H, ch, 16))
    ensures Rlp.SplitString(Rlp.EncodeAll(RefsOf(H, ch, 16))) == Ok((if ch[16].Value? then ch[16].v else [], []))
  {
    RefsOne(H, ch, 16);
    SplitStr(if ch[16].Value? then ch[16].v else [], []);
  }

  lemma LastChild(H: Hasher, ch: seq<Tree>, gen: nat)
    requires |ch| == 17 && (ch[16].Nil? || ch[16].Value?)
    ensures ChildrenOf(H, ch, 0, 17, gen) == ChildrenOf(H, ch, 0, 16, gen)
              + [if ch[16].Value? then ValueNode(ch[16].v) else NilNode]
  {
    FlatChild(H, ch[16], gen);
    ChildrenSnoc(H, ch, 0, 16, gen);
  }

  lemma FlatChild(H: Hasher, t: Tree, gen: nat)
    requires t.Nil? || t.Value?
    ensures Child(H, t, gen) == if t.Value? then ValueNode(t.v) else NilNode
  {}

  lemma {:induction false} ChildrenSnoc(H: Hasher, ch: seq<Tree>, i: nat, n: nat, gen: nat)
    requires i + n < |ch|
    ensures ChildrenOf(H, ch, i, n + 1, gen) == ChildrenOf(H, ch, i, n, gen) + [Child(H, ch[i + n], gen)]
    decreases n
  {
    if n > 0 {
      ChildrenSnoc(H, ch, i + 1, n - 1, gen);
      Regroup(Child(H, ch[i], gen), ChildrenOf(H, ch, i + 1, n - 1, gen), Child(H, ch[i + n], gen));
    }
  }

  lemma Regroup(first: Node, nodes: seq<Node>, last: Node)
    ensures [first] + (nodes + [last]) == [first] + nodes + [last]
  {}

  lemma {:induction false} ChildAt(H: Hasher, ch: seq<Tree>, i: nat, n: nat, j: nat, gen: nat)
    requires i + n <= |ch| && j < n
    ensures ChildrenOf(H, ch, i, n, gen)[j] == Child(H, ch[i + j], gen)
    decreases j
  {
    if j > 0 { ChildAt(H, ch, i + 1, n - 1, j - 1, gen); }
  }

  /** The loop of `decodeFull` over the sixteen references. */
  method DecodeFullLoop(hash: Option<Bytes>, input: Bytes, gen: nat) returns (r: Result<Node, Error>)
    ensures r == DecodeFull(hash, input, gen)
  {
    var elems, children := input, [];
    PrefixedNone(DecodeRefs(input, 16, gen));
    for i := 0 to 16
      invariant |children| == i
      invariant DecodeRefs(input, 16, gen) == Prefixed(children, DecodeRefs(elems, 16 - i, gen))
    {
      var ref := DecodeRef(elems, gen);
      if ref.Err? {
        return Err(ref.error);
      }
      PrefixedMore(children, ref.value.0, DecodeRefs(ref.value.1, 15 - i, gen));
      children, elems := children + [ref.value.0], ref.value.1;
    }
    assert children + [] == children;
    var last := Rlp.SplitString(elems);
    if last.Err? {
      return Err(BadEncoding);
    }
    r := Ok(FullNode(children + [if last.value.0 == [] then NilNode else ValueNode(last.value.0)],
        Flag(hash, gen, false)));
  }

  function Prefixed(ns: seq<Node>, r: Result<(seq<Node>, Bytes), Error>): Result<(seq<Node>, Bytes), Error> {
    match r
    case Err(e) => Err(e)
    case Ok((more, end)) => Ok((ns + more, end))
  }

  lemma PrefixedNone(r: Result<(seq<Node>, Bytes), Error>)
    ensures Prefixed([], r) == r
  {
    if r.Ok? { assert [] + r.value.0 == r.value.0; }
  }

  lemma PrefixedMore(ns: seq<Node>, n: Node, r: Result<(seq<Node>, Bytes), Error>)
    ensures Prefixed(ns, Prefixed([n], r)) == Prefixed(ns + [n], r)
  {
    if r.Ok? { assert ns + ([n] + r.value.0) == ns + [n] + r.value.0; }
  }

  // ------------------------------------------------------------------------------------------
  // Collapsed nodes, as the node store keeps them
  // ------------------------------------------------------------------------------------------

  /** A node without caches: compact keys, and hashes in the place of large subtrees. */
  datatype Collapsed = CNil | CValue(v: Bytes) | CHash(h: Bytes)
                     | CShort(key: Bytes, val: Collapsed) | CFull(children: seq<Collapsed>)

  function Collapse(H: Hasher, t: Tree): Collapsed
    decreases t, 0
  {
    match t
    case Nil => CNil
    case Value(v) => CValue(v)
    case Short(k, val) => CShort(if KeyLike(k) then Compact(k) else [], CollapsedRef(H, val))
    case Full(ch) => CFull(CollapsedRefs(H, ch, 0))
  }

  function CollapsedRef(H: Hasher, t: Tree): Collapsed
    decreases t, 1
  {
    if Large(H, t) && Rlp.Encodable(ItemOf(H, t)) then CHash(HashOf(H, t)) else Collapse(H, t)
  }

  function CollapsedRefs(H: Hasher, ch: seq<Tree>, i: nat): (cs: seq<Collapsed>)
    requires i <= |ch|
    ensures |cs| == |ch| - i
    decreases ch, |ch| - i
  {
    if i == |ch| then [] else [CollapsedRef(H, ch[i])] + CollapsedRefs(H, ch, i + 1)
  }

  /** `expandNode`. */
  function ExpandNode(hash: Option<Bytes>, c: Collapsed, gen: nat): Node
    decreases c, 0
  {
    match c
    case CNil => NilNode
    case CValue(v) => ValueNode(v)
    case CHash(h) => HashNode(h)
    case CShort(k, val) =>
      ShortNode(if k == [] then [] else Expanded(k), ExpandNode(None, val, gen), Flag(hash, gen, false))
    case CFull(cs) => FullNode(ExpandAll(cs, 0, gen), Flag(hash, gen, false))
  }

  function ExpandAll(cs: seq<Collapsed>, i: nat, gen: nat): seq<Node>
    requires i <= |cs|
    decreases cs, |cs| - i
  {
    if i == |cs| then [] else [ExpandNode(None, cs[i], gen)] + ExpandAll(cs, i + 1, gen)
  }

  /** The encoding of a collapsed node. */
  function RawItem(c: Collapsed): Rlp.Item
    decreases c, 0
  {
    match c
    case CNil => Rlp.Str([])
    case CValue(v) => Rlp.Str(v)
    case CHash(h) => Rlp.Str(h)
    case CShort(k, val) => Rlp.List([Rlp.Str(k)] + [RawItem(val)])
    case CFull(cs) => Rlp.List(RawItems(cs, 0))
  }

  function RawItems(cs: seq<Collapsed>, i: nat): seq<Rlp.Item>
    requires i <= |cs|
    decreases cs, |cs| - i
  {
    if i == |cs| then [] else [RawItem(cs[i])] + RawItems(cs, i + 1)
  }

  /** A collapsed node is encoded like the tree it comes from. */
  lemma {:induction false} CollapsedItem(H: Hasher, t: Tree)
    requires Proper(H, t)
    ensures RawItem(Collapse(H, t)) == ItemOf(H, t) && RawItem(CollapsedRef(H, t)) == RefOf(H, t)
    decreases t
  {
    match t
    case Nil =>
    case Value(_) =>
    case Short(k, val) =>
      ShortParts(H, t);
      CollapsedItem(H, val);
    case Full(ch) =>
      FullParts(H, t);
      CollapsedItems(H, ch, 0);
  }

  lemma {:induction false} CollapsedItems(H: Hasher, ch: seq<Tree>, i: nat)
    requires i <= |ch| == 17 && forall j {:trigger ch[j]} :: 0 <= j < 17 ==> Proper(H, ch[j])
    ensures RawItems(CollapsedRefs(H, ch, 0), i) == RefsOf(H, ch, i)
    decreases ch, |ch| - i
  {
    if i < |ch| {
      CollapsedAt(H, ch, 0, i);
      CollapsedItem(H, ch[i]);
      CollapsedItems(H, ch, i + 1);
    }
  }

  lemma {:induction false} CollapsedAt(H: Hasher, ch: seq<Tree>, i: nat, j: nat)
    requires i <= j < |ch|
    ensures CollapsedRefs(H, ch, i)[j - i] == CollapsedRef(H, ch[j])
    decreases j - i
  {
    if i < j {
      CollapsedAt(H, ch, i + 1, j);
      BehindFirst(CollapsedRef(H, ch[i]), CollapsedRefs(H, ch, i + 1), j - i);
    }
  }

  lemma BehindFirst(c: Collapsed, cs: seq<Collapsed>, k: nat)
    requires 0 < k <= |cs|
    ensures ([c] + cs)[k] == cs[k - 1]
  {}

  lemma ExpandShort(H: Hasher, t: Tree, hash: Option<Bytes>, gen: nat)
    requires t.Short? && Proper(H, t) && ExpandNode(None, CollapsedRef(H, t.val), gen) == Child(H, t.val, gen)
    ensures ExpandNode(hash, Collapse(H, t), gen) == Loaded(H, t, hash, gen)
  {
    ShortParts(H, t);
    FragmentKeyLike(t.key);
    CompactRoundTrip(t.key);
    assert Collapse(H, t) == CShort(Compact(t.key), CollapsedRef(H, t.val));
  }

  /** Expanding a collapsed node gives the node that decoding gives. */
  lemma {:induction false} ExpandIsLoaded(H: Hasher, t: Tree, hash: Option<Bytes>, gen: nat)
    requires Proper(H, t)
    ensures ExpandNode(hash, Collapse(H, t), gen) == Loaded(H, t, hash, gen)
    decreases t, 1
  {
    match t
    case Nil =>
    case Value(_) =>
    case Short(k, val) =>
      ShortParts(H, t);
      ExpandRefLoaded(H, val, gen);
      ExpandShort(H, t, hash, gen);
    case Full(ch) =>
      ExpandFull(H, t, hash, gen);
  }

  lemma {:induction false} ExpandFull(H: Hasher, t: Tree, hash: Option<Bytes>, gen: nat)
    requires t.Full? && Proper(H, t)
    ensures ExpandNode(hash, Collapse(H, t), gen) == Loaded(H, t, hash, gen)
    decreases t, 0
  {
    FullParts(H, t);
    var ch := t.children;
    var cs, nodes := CollapsedRefs(H, ch, 0), ChildrenOf(H, ch, 0, 17, gen);
    forall j {:trigger nodes[j]} | 0 <= j < 17 ensures ExpandNode(None, cs[j], gen) == nodes[j] {
      ExpandChild(H, ch, j, gen);
    }
    ExpandAllIs(cs, nodes, 0, gen);
    assert nodes[0..] == nodes;
  }

  lemma {:induction false} ExpandChild(H: Hasher, ch: seq<Tree>, j: nat, gen: nat)
    requires j < |ch| && Proper(H, ch[j])
    ensures ExpandNode(None, CollapsedRefs(H, ch, 0)[j], gen) == ChildrenOf(H, ch, 0, |ch|, gen)[j]
    decreases ch
  {
    CollapsedAt(H, ch, 0, j);
    ChildAt(H, ch, 0, |ch|, j, gen);
    ExpandRefLoaded(H, ch[j], gen);
  }

  lemma {:induction false} ExpandAllIs(cs: seq<Collapsed>, nodes: seq<Node>, i: nat, gen: nat)
    requires i <= |cs| == |nodes| && forall j {:trigger nodes[j]} :: 0 <= j < |cs| ==>
               ExpandNode(None, cs[j], gen) == nodes[j]
    ensures ExpandAll(cs, i, gen) == nodes[i..]
    decreases |cs| - i
  {
    if i < |cs| {
      ExpandAllIs(cs, nodes, i + 1, gen);
      assert nodes[i..] == [nodes[i]] + nodes[i + 1..];
    }
  }

  lemma {:induction false} ExpandRefLoaded(H: Hasher, t: Tree, gen: nat)
    requires Proper(H, t)
    ensures ExpandNode(None, CollapsedRef(H, t), gen) == Child(H, t, gen)
    decreases t, 2
  {
    if !(Large(H, t) && Rlp.Encodable(ItemOf(H, t))) { ExpandIsLoaded(H, t, None, gen); }
  }

  /** Whether a node comes from the cache or from disk makes no difference. */
  lemma ExpandIsDecode(H: Hasher, t: Tree, hash: Option<Bytes>, gen: nat)
    requires Proper(H, t) && IsNode(t)
    ensures RawItem(Collapse(H, t)) == ItemOf(H, t) && Rlp.Encodable(ItemOf(H, t))
    ensures DecodeNode(hash, Rlp.Encode(RawItem(Collapse(H, t))), gen) == Ok(ExpandNode(hash, Collapse(H, t), gen))
  {
    CollapsedItem(H, t);
    ExpandIsLoaded(H, t, hash, gen);
    DecodeEncode(H, t, hash, gen, []);
    assert Blob(H, t) + [] == Blob(H, t);
  }
}

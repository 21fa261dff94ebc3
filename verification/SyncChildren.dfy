/**
 What the download scheduler takes for the children of a trie node (`children` in src/trie/sync.go). It looks one
 level down only, which is enough: a node small enough to be accepted inside its parent (src/trie/node.go) has no
 room for a hash.
 */
module SyncChildren {
  import opened Wrappers
  import opened TrieKeys
  import opened CompactKeys
  import opened TrieNodes
  import opened SyncState
  import Rlp

  /** The hashes anywhere in a decoded node. */
  function RefsIn(n: Node): set<Bytes> {
    match n
    case HashNode(h) => {h}
    case ShortNode(_, val, _) => RefsIn(val)
    case FullNode(ch, _) => RefsInAll(ch)
    case _ => {}
  }

  function RefsInAll(ch: seq<Node>): set<Bytes> {
    if ch == [] then {} else RefsIn(ch[0]) + RefsInAll(ch[1..])
  }

  // ------------------------------------------------------------------------------------------
  // Embedded nodes
  // ------------------------------------------------------------------------------------------

  /** Strings and lists have a header. */
  lemma HeaderTakesRoom(b: Bytes)
    requires Rlp.Split(b).Ok? && Rlp.Split(b).value.kind != Rlp.ByteKind
    ensures |Rlp.Split(b).value.content| + |Rlp.Split(b).value.rest| < |b|
  {}

  /** In 32 bytes there is no room for a reference by hash. */
  lemma {:induction false} NoRoomRef(buf: Bytes, gen: nat)
    requires |buf| <= HASH_LENGTH && DecodeRef(buf, gen).Ok?
    ensures RefsIn(DecodeRef(buf, gen).value.0) == {}
    decreases |buf|, 3
  {
    HeaderTakesRoom(buf);
    if Rlp.Split(buf).value.kind == Rlp.ListKind { NoRoomNode(None, buf, gen); }
  }

  lemma {:induction false} NoRoomNode(hash: Option<Bytes>, buf: Bytes, gen: nat)
    requires Rlp.SplitList(buf).Ok? && |Rlp.SplitList(buf).value.0| <= HASH_LENGTH && DecodeNode(hash, buf, gen).Ok?
    ensures RefsIn(DecodeNode(hash, buf, gen).value) == {}
    decreases |buf|, 2
  {
    var elems := Rlp.SplitList(buf).value.0;
    ListShrinks(buf);
    if Rlp.Count(elems) == Some(2) { NoRoomShort(hash, elems, gen); } else { NoRoomFull(hash, elems, gen); }
  }

  lemma {:induction false} NoRoomShort(hash: Option<Bytes>, elems: Bytes, gen: nat)
    requires |elems| <= HASH_LENGTH && DecodeShort(hash, elems, gen).Ok?
    ensures RefsIn(DecodeShort(hash, elems, gen).value) == {}
    decreases |elems|, 1
  {
    var rest := Rlp.SplitString(elems).value.1;
    if DecodeRef(rest, gen).Ok? { NoRoomRef(rest, gen); }
  }

  lemma {:induction false} NoRoomRefs(buf: Bytes, n: nat, gen: nat)
    requires |buf| <= HASH_LENGTH && DecodeRefs(buf, n, gen).Ok?
    ensures RefsInAll(DecodeRefs(buf, n, gen).value.0) == {}
    decreases |buf|, 4, n
  {
    if n > 0 {
      NoRoomRef(buf, gen);
      var rest := DecodeRef(buf, gen).value.1;
      NoRoomRefs(rest, n - 1, gen);
      var child, children := DecodeRef(buf, gen).value.0, DecodeRefs(rest, n - 1, gen).value.0;
      assert ([child] + children)[1..] == children;
    }
  }

  lemma {:induction false} NoRoomFull(hash: Option<Bytes>, elems: Bytes, gen: nat)
    requires |elems| <= HASH_LENGTH && DecodeFull(hash, elems, gen).Ok?
    ensures RefsIn(DecodeFull(hash, elems, gen).value) == {}
    decreases |elems|, 5
  {
    NoRoomRefs(elems, 16, gen);
    var children := DecodeRefs(elems, 16, gen).value.0;
    var n := DecodeFull(hash, elems, gen).value;
    RefsInMore(children, n.children[|children|]);
    assert n.children == children + [n.children[|children|]];
  }

  lemma {:induction false} RefsInMore(ch: seq<Node>, last: Node)
    ensures RefsInAll(ch + [last]) == RefsInAll(ch) + RefsIn(last)
  {
    if ch == [] {
      assert ch + [last] == [last] && [last][1..] == [];
    } else {
      assert (ch + [last])[1..] == ch[1..] + [last];
      RefsInMore(ch[1..], last);
    }
  }

  /** A node inside its parent refers to nothing by hash, whatever follows it. */
  lemma EmbeddedHasNoRefs(buf: Bytes, gen: nat)
    requires DecodeRef(buf, gen).Ok? && !DecodeRef(buf, gen).value.0.HashNode?
    ensures RefsIn(DecodeRef(buf, gen).value.0) == {}
  {
    HeaderTakesRoom(buf);
    if Rlp.Split(buf).value.kind == Rlp.ListKind { NoRoomNode(None, buf, gen); }
  }

  // ------------------------------------------------------------------------------------------
  // One level down
  // ------------------------------------------------------------------------------------------

  function DirectRef(n: Node): set<Bytes> {
    if n.HashNode? then {n.h} else {}
  }

  function DirectRefs(ch: seq<Node>): set<Bytes> {
    if ch == [] then {} else DirectRef(ch[0]) + DirectRefs(ch[1..])
  }

  /** The hashes that are children of the node itself. */
  function OwnRefs(n: Node): set<Bytes> {
    match n
    case ShortNode(_, val, _) => DirectRef(val)
    case FullNode(ch, _) => DirectRefs(ch)
    case _ => {}
  }

  lemma {:induction false} RefsAreDirect(buf: Bytes, n: nat, gen: nat)
    requires DecodeRefs(buf, n, gen).Ok?
    ensures RefsInAll(DecodeRefs(buf, n, gen).value.0) == DirectRefs(DecodeRefs(buf, n, gen).value.0)
    decreases n
  {
    if n > 0 {
      var (child, rest) := DecodeRef(buf, gen).value;
      if !child.HashNode? { EmbeddedHasNoRefs(buf, gen); }
      RefsAreDirect(rest, n - 1, gen);
      var children := DecodeRefs(rest, n - 1, gen).value.0;
      assert ([child] + children)[1..] == children;
    }
  }

  lemma {:induction false} DirectMore(ch: seq<Node>, last: Node)
    ensures DirectRefs(ch + [last]) == DirectRefs(ch) + DirectRef(last)
  {
    if ch == [] {
      assert ch + [last] == [last] && [last][1..] == [];
    } else {
      assert (ch + [last])[1..] == ch[1..] + [last];
      DirectMore(ch[1..], last);
    }
  }

  lemma ShortIsDirect(hash: Option<Bytes>, elems: Bytes, gen: nat)
    requires DecodeShort(hash, elems, gen).Ok?
    ensures RefsIn(DecodeShort(hash, elems, gen).value) == OwnRefs(DecodeShort(hash, elems, gen).value)
  {
    var n := DecodeShort(hash, elems, gen).value;
    var (kbuf, rest) := Rlp.SplitString(elems).value;
    if !HasTerm(Expanded(kbuf)) {
      assert n.val == DecodeRef(rest, gen).value.0;
      if !n.val.HashNode? { EmbeddedHasNoRefs(rest, gen); }
    }
  }

  lemma FullIsDirect(hash: Option<Bytes>, elems: Bytes, gen: nat)
    requires DecodeFull(hash, elems, gen).Ok?
    ensures RefsIn(DecodeFull(hash, elems, gen).value) == OwnRefs(DecodeFull(hash, elems, gen).value)
  {
    RefsAreDirect(elems, 16, gen);
    var children := DecodeRefs(elems, 16, gen).value.0;
    var n := DecodeFull(hash, elems, gen).value;
    assert n.children == children + [n.children[|children|]];
    RefsInMore(children, n.children[|children|]);
    DirectMore(children, n.children[|children|]);
  }

  /** Every hash anywhere in a node that decodes is a child of the node itself. */
  lemma OneLevelIsEnough(hash: Option<Bytes>, buf: Bytes, gen: nat)
    requires DecodeNode(hash, buf, gen).Ok?
    ensures RefsIn(DecodeNode(hash, buf, gen).value) == OwnRefs(DecodeNode(hash, buf, gen).value)
  {
    var elems := Rlp.SplitList(buf).value.0;
    if Rlp.Count(elems) == Some(2) { ShortIsDirect(hash, elems, gen); } else { FullIsDirect(hash, elems, gen); }
  }

  // ------------------------------------------------------------------------------------------
  // What the scheduler makes of it
  // ------------------------------------------------------------------------------------------

  /** How stored hashes are numbered, and what the leaf callback asks for. */
  datatype Reading = Reading(number: Bytes -> Hash, report: Bytes -> seq<Entry>)

  function ChildOf(r: Reading, n: Node, depth: int): Child {
    match n
    case HashNode(h) => Ref(r.number(h), depth)
    case ValueNode(v) => Leaf(r.report(v))
    case _ => Inline
  }

  /** The children of a full node that are there. */
  function ChildrenFrom(r: Reading, ch: seq<Node>): seq<Child> {
    if ch == [] then []
    else if ch[0].NilNode? then ChildrenFrom(r, ch[1..])
    else [ChildOf(r, ch[0], 1)] + ChildrenFrom(r, ch[1..])
  }

  /** The list that `children` goes through. */
  function ChildrenOfNode(r: Reading, n: Node): seq<Child> {
    match n
    case ShortNode(key, val, _) => [ChildOf(r, val, |key|)]
    case FullNode(ch, _) => ChildrenFrom(r, ch)
    case _ => []
  }

  function DecodeChildren(r: Reading, b: Bytes): Option<seq<Child>> {
    match DecodeNode(None, b, 0)
    case Err(_) => None
    case Ok(n) => Some(ChildrenOfNode(r, n))
  }

  /** A trie as the scheduler sees it. */
  function TrieContent(r: Reading, preimage: Hash -> Bytes, kindOf: Hash -> Kind): Content {
    Content(b => DecodeChildren(r, b), preimage, kindOf)
  }

  lemma {:induction false} FromHasRefs(r: Reading, ch: seq<Node>, h: Bytes)
    requires h in DirectRefs(ch)
    ensures exists i :: 0 <= i < |ChildrenFrom(r, ch)| && ChildrenFrom(r, ch)[i] == Ref(r.number(h), 1)
  {
    var cs := ChildrenFrom(r, ch);
    if h in DirectRef(ch[0]) {
      assert cs[0] == Ref(r.number(h), 1);
    } else {
      FromHasRefs(r, ch[1..], h);
      var i :| 0 <= i < |ChildrenFrom(r, ch[1..])| && ChildrenFrom(r, ch[1..])[i] == Ref(r.number(h), 1);
      var skip := if ch[0].NilNode? then 0 else 1;
      assert cs[i + skip] == Ref(r.number(h), 1);
    }
  }

  /** The scheduler waits for every hash anywhere in a node before it takes the node for complete. */
  lemma NeedsEverything(r: Reading, preimage: Hash -> Bytes, kindOf: Hash -> Kind, x: Hash, h: Bytes)
    requires kindOf(x) != Raw && DecodeNode(None, preimage(x), 0).Ok?
    requires h in RefsIn(DecodeNode(None, preimage(x), 0).value)
    ensures r.number(h) in Needs(TrieContent(r, preimage, kindOf), x)
  {
    var c, n := TrieContent(r, preimage, kindOf), DecodeNode(None, preimage(x), 0).value;
    OneLevelIsEnough(None, preimage(x), 0);
    var cs := Children(c, x);
    assert cs == ChildrenOfNode(r, n);
    var i: nat;
    if n.FullNode? {
      FromHasRefs(r, n.children, h);
      i :| 0 <= i < |cs| && cs[i] == Ref(r.number(h), 1);
    } else {
      i := 0;
    }
    assert r.number(h) in NeededBy(cs[i], kindOf(x));
  }

  /** A reference lies deeper by the nibbles of a short node's key, or by the one nibble that selects a child. */
  lemma DepthIsNibbles(r: Reading, n: Node, i: nat)
    requires i < |ChildrenOfNode(r, n)| && ChildrenOfNode(r, n)[i].Ref?
    ensures n.ShortNode? || n.FullNode?
    ensures ChildrenOfNode(r, n)[i].depth == if n.ShortNode? then |n.key| else 1
  {
    if n.FullNode? { OneNibble(r, n.children, i); }
  }

  lemma {:induction false} OneNibble(r: Reading, ch: seq<Node>, i: nat)
    requires i < |ChildrenFrom(r, ch)| && ChildrenFrom(r, ch)[i].Ref?
    ensures ChildrenFrom(r, ch)[i].depth == 1
  {
    if ch[0].NilNode? { OneNibble(r, ch[1..], i); } else if i > 0 { OneNibble(r, ch[1..], i - 1); }
  }
}

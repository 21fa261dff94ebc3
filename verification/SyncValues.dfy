/**
 Which values of a trie node the download scheduler reports to the leaf callback (`children` in src/trie/sync.go): those
 that are children of the node itself, and not those inside nodes embedded in it.
 */
module SyncValues {
  import opened Wrappers
  import opened TrieKeys
  import opened Tries
  import opened CompactKeys
  import opened TrieNodes
  import opened SyncState
  import opened SyncChildren
  import Rlp

  /** The values anywhere in a decoded node, in order. */
  function Held(n: Node): seq<Bytes> {
    match n
    case ValueNode(v) => [v]
    case ShortNode(_, val, _) => Held(val)
    case FullNode(ch, _) => HeldBy(ch)
    case _ => []
  }

  function HeldBy(ch: seq<Node>): seq<Bytes> {
    if ch == [] then [] else Held(ch[0]) + HeldBy(ch[1..])
  }

  /** The values that are children of the node itself, in order. */
  function Reported(n: Node): seq<Bytes> {
    match n
    case ShortNode(_, val, _) => Direct(val)
    case FullNode(ch, _) => DirectBy(ch)
    case _ => []
  }

  function Direct(n: Node): seq<Bytes> {
    if n.ValueNode? then [n.v] else []
  }

  function DirectBy(ch: seq<Node>): seq<Bytes> {
    if ch == [] then [] else Direct(ch[0]) + DirectBy(ch[1..])
  }

  /** What the leaf callback asks for, value by value. */
  function Reports(cs: seq<Child>): seq<seq<Entry>> {
    if cs == [] then []
    else if cs[0].Leaf? then [cs[0].entries] + Reports(cs[1..])
    else Reports(cs[1..])
  }

  function Through(f: Bytes -> seq<Entry>, vs: seq<Bytes>): seq<seq<Entry>> {
    if vs == [] then [] else [f(vs[0])] + Through(f, vs[1..])
  }

  /** The callback is called for exactly the reported values, in order. */
  lemma CallbackSees(r: Reading, n: Node)
    ensures Reports(ChildrenOfNode(r, n)) == Through(r.report, Reported(n))
  {
    match n
    case ShortNode(key, val, _) => assert Reports([ChildOf(r, val, |key|)][1..]) == [];
    case FullNode(ch, _) => CallbackSeesAll(r, ch);
    case _ =>
  }

  lemma {:induction false} CallbackSeesAll(r: Reading, ch: seq<Node>)
    ensures Reports(ChildrenFrom(r, ch)) == Through(r.report, DirectBy(ch))
  {
    if ch != [] {
      CallbackSeesAll(r, ch[1..]);
      var rest, c := ChildrenFrom(r, ch[1..]), ChildOf(r, ch[0], 1);
      assert ([c] + rest)[1..] == rest;
      var vs := DirectBy(ch[1..]);
      if ch[0].ValueNode? {
        assert ([ch[0].v] + vs)[1..] == vs;
      } else {
        assert Direct(ch[0]) + vs == vs;
      }
    }
  }

  // ------------------------------------------------------------------------------------------
  // When everything is reported
  // ------------------------------------------------------------------------------------------

  /** A node inside its parent that holds a value. */
  predicate Hides(n: Node) {
    (n.ShortNode? || n.FullNode?) && Held(n) != []
  }

  lemma {:induction false} NothingHidden(ch: seq<Node>)
    ensures |DirectBy(ch)| <= |HeldBy(ch)|
    ensures DirectBy(ch) == HeldBy(ch) <==> forall i :: 0 <= i < |ch| ==> !Hides(ch[i])
  {
    if ch != [] {
      NothingHidden(ch[1..]);
      assert forall i :: 0 < i < |ch| ==> ch[i] == ch[1..][i - 1];
      assert Hides(ch[0]) ==> |DirectBy(ch)| < |HeldBy(ch)|;
      assert forall i :: 0 <= i < |ch[1..]| ==> ch[1..][i] == ch[i + 1];
      if !Hides(ch[0]) {
        assert Direct(ch[0]) == Held(ch[0]);
        SameTail(Held(ch[0]), DirectBy(ch[1..]), HeldBy(ch[1..]));
      }
    }
  }

  lemma SameTail(a: seq<Bytes>, b: seq<Bytes>, c: seq<Bytes>)
    ensures a + b == a + c <==> b == c
  {
    if a + b == a + c { assert b == (a + b)[|a|..] && c == (a + c)[|a|..]; }
  }

  /** The children of a node in memory. */
  function Below(n: Node): seq<Node> {
    match n
    case ShortNode(_, val, _) => [val]
    case FullNode(ch, _) => ch
    case _ => []
  }

  /** All values of a node are reported if and only if no node inside it holds one. */
  lemma AllReportedIff(n: Node)
    requires n.ShortNode? || n.FullNode?
    ensures Reported(n) == Held(n) <==> forall i :: 0 <= i < |Below(n)| ==> !Hides(Below(n)[i])
  {
    if n.FullNode? {
      assert Below(n) == n.children;
      NothingHidden(n.children);
    } else {
      assert Below(n)[0] == n.val;
      assert Hides(n.val) ==> Held(n.val) != [] && Direct(n.val) == [];
    }
  }

  // ------------------------------------------------------------------------------------------
  // In terms of the tree
  // ------------------------------------------------------------------------------------------

  lemma {:induction false} HeldSome(ch: seq<Node>, i: nat)
    requires i < |ch| && Held(ch[i]) != []
    ensures HeldBy(ch) != []
  {
    if i > 0 {
      assert ch[1..][i - 1] == ch[i];
      HeldSome(ch[1..], i - 1);
    }
  }

  lemma {:induction false} RefsOfOne(ch: seq<Node>, i: nat)
    requires i < |ch| && RefsInAll(ch) == {}
    ensures RefsIn(ch[i]) == {}
  {
    if i > 0 {
      assert ch[1..][i - 1] == ch[i];
      RefsOfOne(ch[1..], i - 1);
    }
  }

  /** A tree that is embedded has its subtrees embedded too. */
  lemma SmallHasNoRefs(H: Hasher, t: Tree, gen: nat)
    requires Proper(H, t) && IsNode(t) && !Large(H, t)
    ensures RefsIn(Loaded(H, t, None, gen)) == {}
  {
    DecodeEncode(H, t, None, gen, []);
    var blob := Blob(H, t);
    assert blob + [] == blob;
    ListShrinks(blob);
    NoRoomNode(None, blob, gen);
  }

  /** The children of a tree. */
  function Kids(t: Tree): seq<Tree> {
    match t
    case Short(_, val) => [val]
    case Full(ch) => ch
    case _ => []
  }

  lemma KidsProper(H: Hasher, t: Tree, i: nat)
    requires Proper(H, t) && i < |Kids(t)|
    ensures Proper(H, Kids(t)[i])
  {
    if t.Short? { ShortParts(H, t); } else { FullParts(H, t); }
  }

  lemma KidLoaded(H: Hasher, t: Tree, hash: Option<Bytes>, gen: nat, i: nat)
    requires Proper(H, t) && IsNode(t) && i < |Kids(t)| == |Below(Loaded(H, t, hash, gen))|
    ensures Below(Loaded(H, t, hash, gen))[i] == TrieNodes.Child(H, Kids(t)[i], gen)
  {
    if t.Full? { ChildAt(H, t.children, 0, |t.children|, i, gen); }
  }

  lemma KidsLoaded(H: Hasher, t: Tree, hash: Option<Bytes>, gen: nat)
    requires Proper(H, t) && IsNode(t)
    ensures |Below(Loaded(H, t, hash, gen))| == |Kids(t)|
    ensures forall i {:trigger Kids(t)[i]} :: 0 <= i < |Kids(t)| ==>
              Proper(H, Kids(t)[i]) && Below(Loaded(H, t, hash, gen))[i] == TrieNodes.Child(H, Kids(t)[i], gen)
  {
    forall i {:trigger Kids(t)[i]} | 0 <= i < |Kids(t)|
      ensures Proper(H, Kids(t)[i]) && Below(Loaded(H, t, hash, gen))[i] == TrieNodes.Child(H, Kids(t)[i], gen)
    {
      KidsProper(H, t, i);
      KidLoaded(H, t, hash, gen, i);
    }
  }

  lemma ProperNode(H: Hasher, t: Tree)
    requires Proper(H, t)
    ensures Rlp.Encodable(ItemOf(H, t))
  {}

  lemma {:induction false} SomeKid(H: Hasher, t: Tree) returns (i: nat)
    requires Proper(H, t) && IsNode(t)
    ensures i < |Kids(t)| && !Kids(t)[i].Nil?
  {
    if t.Short? {
      ShortParts(H, t);
      i := 0;
    } else {
      assert Crowded(t.children);
      var a, b :| 0 <= a < b < |t.children| && !t.children[a].Nil? && !t.children[b].Nil?;
      i := a;
    }
  }

  lemma HeldBelow(n: Node, i: nat)
    requires (n.ShortNode? || n.FullNode?) && i < |Below(n)| && Held(Below(n)[i]) != []
    ensures Held(n) != []
  {
    if n.FullNode? { HeldSome(n.children, i); }
  }

  lemma RefBelow(n: Node, i: nat)
    requires (n.ShortNode? || n.FullNode?) && i < |Below(n)| && RefsIn(n) == {}
    ensures RefsIn(Below(n)[i]) == {}
  {
    if n.FullNode? { RefsOfOne(n.children, i); }
  }

  /** An embedded tree holds a value. */
  lemma {:induction false} SmallHolds(H: Hasher, t: Tree, gen: nat)
    requires Proper(H, t) && IsNode(t) && !Large(H, t)
    ensures Held(Loaded(H, t, None, gen)) != []
    decreases t
  {
    var n := Loaded(H, t, None, gen);
    var i := SomeKid(H, t);
    KidsLoaded(H, t, None, gen);
    SmallHasNoRefs(H, t, gen);
    RefBelow(n, i);
    var kid := Kids(t)[i];
    ProperNode(H, kid);
    if IsNode(kid) { SmallHolds(H, kid, gen); } else { ValueRef(H, kid.v, gen); }
    HeldBelow(n, i);
  }

  lemma HidesIffSmall(H: Hasher, t: Tree, gen: nat)
    requires Proper(H, t)
    ensures Hides(TrieNodes.Child(H, t, gen)) <==> IsNode(t) && !Large(H, t)
  {
    ProperNode(H, t);
    if IsNode(t) && !Large(H, t) { SmallHolds(H, t, gen); }
  }

  /** Every value of a stored node is reported if and only if every child that is a node is stored by its hash. */
  lemma AllReportedIffLarge(H: Hasher, t: Tree, hash: Option<Bytes>, gen: nat)
    requires Proper(H, t) && IsNode(t)
    ensures Rlp.Encodable(ItemOf(H, t)) && DecodeNode(hash, Blob(H, t), gen).Ok?
    ensures var n := DecodeNode(hash, Blob(H, t), gen).value;
            Reported(n) == Held(n) <==> forall i :: 0 <= i < |Kids(t)| && IsNode(Kids(t)[i]) ==> Large(H, Kids(t)[i])
  {
    DecodeEncode(H, t, hash, gen, []);
    assert Blob(H, t) + [] == Blob(H, t);
    var n := Loaded(H, t, hash, gen);
    KidsLoaded(H, t, hash, gen);
    forall i | 0 <= i < |Kids(t)| ensures Hides(Below(n)[i]) <==> IsNode(Kids(t)[i]) && !Large(H, Kids(t)[i]) {
      HidesIffSmall(H, Kids(t)[i], gen);
    }
    AllReportedIff(n);
  }

  // ------------------------------------------------------------------------------------------
  // How large a value can be without being reported
  // ------------------------------------------------------------------------------------------

  ghost predicate AllShort(vs: seq<Bytes>) {
    forall i :: 0 <= i < |vs| ==> |vs[i]| < HASH_LENGTH
  }

  lemma {:induction false} ShortInRef(buf: Bytes, gen: nat)
    requires |buf| < HASH_LENGTH && DecodeRef(buf, gen).Ok?
    ensures AllShort(Held(DecodeRef(buf, gen).value.0))
    decreases |buf|, 3
  {
    if Rlp.Split(buf).value.kind == Rlp.ListKind { ShortInNode(None, buf, gen); }
  }

  lemma {:induction false} ShortInNode(hash: Option<Bytes>, buf: Bytes, gen: nat)
    requires Rlp.SplitList(buf).Ok? && |Rlp.SplitList(buf).value.0| < HASH_LENGTH && DecodeNode(hash, buf, gen).Ok?
    ensures AllShort(Held(DecodeNode(hash, buf, gen).value))
    decreases |buf|, 2
  {
    var elems := Rlp.SplitList(buf).value.0;
    ListShrinks(buf);
    if Rlp.Count(elems) == Some(2) { ShortInShort(hash, elems, gen); } else { ShortInFull(hash, elems, gen); }
  }

  lemma {:induction false} ShortInShort(hash: Option<Bytes>, elems: Bytes, gen: nat)
    requires |elems| < HASH_LENGTH && DecodeShort(hash, elems, gen).Ok?
    ensures AllShort(Held(DecodeShort(hash, elems, gen).value))
    decreases |elems|, 1
  {
    var rest := Rlp.SplitString(elems).value.1;
    if DecodeRef(rest, gen).Ok? { ShortInRef(rest, gen); }
  }

  lemma {:induction false} ShortInRefs(buf: Bytes, n: nat, gen: nat)
    requires |buf| < HASH_LENGTH && DecodeRefs(buf, n, gen).Ok?
    ensures AllShort(HeldBy(DecodeRefs(buf, n, gen).value.0)) && |DecodeRefs(buf, n, gen).value.1| <= |buf|
    decreases |buf|, 4, n
  {
    if n > 0 {
      ShortInRef(buf, gen);
      var rest := DecodeRef(buf, gen).value.1;
      ShortInRefs(rest, n - 1, gen);
      var child, children := DecodeRef(buf, gen).value.0, DecodeRefs(rest, n - 1, gen).value.0;
      assert ([child] + children)[1..] == children;
    }
  }

  lemma {:induction false} ShortInFull(hash: Option<Bytes>, elems: Bytes, gen: nat)
    requires |elems| < HASH_LENGTH && DecodeFull(hash, elems, gen).Ok?
    ensures AllShort(Held(DecodeFull(hash, elems, gen).value))
    decreases |elems|, 5
  {
    ShortInRefs(elems, 16, gen);
    var children := DecodeRefs(elems, 16, gen).value.0;
    var n := DecodeFull(hash, elems, gen).value;
    HeldMore(children, n.children[|children|]);
    assert n.children == children + [n.children[|children|]];
  }

  lemma {:induction false} HeldMore(ch: seq<Node>, last: Node)
    ensures HeldBy(ch + [last]) == HeldBy(ch) + Held(last)
  {
    if ch == [] {
      assert ch + [last] == [last] && [last][1..] == [];
    } else {
      assert (ch + [last])[1..] == ch[1..] + [last];
      HeldMore(ch[1..], last);
    }
  }

  /** Values inside an embedded node are shorter than a hash: a value of 32 bytes or more is always reported. */
  lemma EmbeddedValuesShort(buf: Bytes, gen: nat)
    requires DecodeRef(buf, gen).Ok?
    ensures AllShort(Held(DecodeRef(buf, gen).value.0))
  {
    if Rlp.Split(buf).value.kind == Rlp.ListKind {
      HeaderTakesRoom(buf);
      ShortInNode(None, buf, gen);
    }
  }

  // ------------------------------------------------------------------------------------------
  // A node that reports nothing
  // ------------------------------------------------------------------------------------------

  /** A leaf under one more nibble. */
  function SmallLeaf(x: Byte): Tree {
    Short([0, TERM], Value([x]))
  }

  /** Two keys of one byte, `0x00` and `0x10`, with values of one byte. */
  function TwoLeaves(): Tree {
    Full(NO_CHILDREN[0 := SmallLeaf(1)][1 := SmallLeaf(2)])
  }

  predicate HasTwoLeaves(t: Tree) {
    && t.Full? && |t.children| == 17 && t.children[0] == SmallLeaf(1) && t.children[1] == SmallLeaf(2)
    && forall i :: 2 <= i < 17 ==> t.children[i] == Nil
  }

  lemma TwoLeavesShape()
    ensures HasTwoLeaves(TwoLeaves())
  {}

  lemma SmallLeafItem(H: Hasher, x: Byte)
    requires 0 < x < 128 && Sized(H)
    ensures ItemOf(H, SmallLeaf(x)) == Rlp.List([Rlp.Str([48])] + [Rlp.Str([x])])
    ensures Rlp.Len(ItemOf(H, SmallLeaf(x))) == 3 && Proper(H, SmallLeaf(x)) && !Large(H, SmallLeaf(x))
  {
    var k: Hex := [0, TERM];
    assert Bare(k) == [0] && [0][1..] == [];
    assert Compact(k) == [48];
    ValueRef(H, [x], 0);
    var xs := [Rlp.Str([48])] + [Rlp.Str([x])];
    assert xs[1..] == [Rlp.Str([x])] && xs[1..][1..] == [];
    assert Rlp.LenAll(xs[1..]) == 1 + Rlp.LenAll([]);
    assert Rlp.LenAll(xs) == 1 + Rlp.LenAll(xs[1..]);
    TwoItems(Rlp.Str([48]), Rlp.Str([x]));
    SmallLeafNF(x);
    assert Storable(H, Value([x])) && Storable(H, SmallLeaf(x));
  }

  lemma SmallLeafNF(x: Byte)
    ensures NF(SmallLeaf(x))
  {
    var k: Hex := [0, TERM];
    assert k[..1] == [0];
    assert Fragment(k) && HasTerm(k) && NF(Value([x]));
  }

  /** Empty places take one byte each. */
  lemma {:induction false} NoneLeft(H: Hasher, ch: seq<Tree>, i: nat)
    requires i <= |ch| && forall j :: i <= j < |ch| ==> ch[j].Nil?
    ensures Rlp.LenAll(RefsOf(H, ch, i)) == |ch| - i && Rlp.EncodableAll(RefsOf(H, ch, i))
    decreases |ch| - i
  {
    if i < |ch| {
      NoneLeft(H, ch, i + 1);
      assert RefsOf(H, ch, i)[1..] == RefsOf(H, ch, i + 1);
    }
  }

  lemma OneRef(H: Hasher, ch: seq<Tree>, i: nat, x: Byte)
    requires i < |ch| && ch[i] == SmallLeaf(x) && 0 < x < 128 && Sized(H) && Rlp.EncodableAll(RefsOf(H, ch, i + 1))
    ensures Rlp.LenAll(RefsOf(H, ch, i)) == 3 + Rlp.LenAll(RefsOf(H, ch, i + 1)) && Rlp.EncodableAll(RefsOf(H, ch, i))
  {
    SmallLeafItem(H, x);
    ProperNode(H, SmallLeaf(x));
    assert RefsOf(H, ch, i)[1..] == RefsOf(H, ch, i + 1);
  }

  lemma TwoLeavesProper(H: Hasher, t: Tree)
    requires Sized(H) && HasTwoLeaves(t)
    ensures Proper(H, t)
  {
    SmallLeafItem(H, 1);
    SmallLeafItem(H, 2);
    NoneLeft(H, t.children, 2);
    OneRef(H, t.children, 1, 2);
    OneRef(H, t.children, 0, 1);
    TwoCrowd(t.children, 0, 1);
    forall i | 0 <= i < 17 ensures NF(t.children[i]) && Storable(H, t.children[i]) {
      assert i > 1 ==> t.children[i] == Nil;
    }
    assert NF(t);
    assert Rlp.Encodable(ItemOf(H, t));
    assert Storable(H, t);
  }

  lemma {:induction false} HoldNothing(ch: seq<Node>)
    requires forall i :: 0 <= i < |ch| ==> ch[i] == NilNode
    ensures HeldBy(ch) == []
  {
    if ch != [] { HoldNothing(ch[1..]); }
  }

  /** It decodes, holds two values and reports neither. */
  lemma NothingReported(H: Hasher, gen: nat)
    requires Sized(H)
    ensures var t := TwoLeaves();
            && Proper(H, t) && Rlp.Encodable(ItemOf(H, t)) && DecodeNode(None, Blob(H, t), gen).Ok?
            && Reported(DecodeNode(None, Blob(H, t), gen).value) == []
            && Held(DecodeNode(None, Blob(H, t), gen).value) == [[1], [2]]
  {
    TwoLeavesShape();
    NoneOfTwo(H, TwoLeaves(), gen);
  }

  lemma NoneOfTwo(H: Hasher, t: Tree, gen: nat)
    requires Sized(H) && HasTwoLeaves(t)
    ensures Proper(H, t) && Rlp.Encodable(ItemOf(H, t)) && DecodeNode(None, Blob(H, t), gen).Ok?
    ensures Reported(DecodeNode(None, Blob(H, t), gen).value) == []
    ensures Held(DecodeNode(None, Blob(H, t), gen).value) == [[1], [2]]
  {
    TwoLeavesProper(H, t);
    DecodeEncode(H, t, None, gen, []);
    assert Blob(H, t) + [] == Blob(H, t);
    LoadedLeaves(H, t, gen);
  }

  lemma LoadedLeaf(H: Hasher, x: Byte, gen: nat)
    requires Sized(H) && 0 < x < 128
    ensures Held(TrieNodes.Child(H, SmallLeaf(x), gen)) == [[x]] && TrieNodes.Child(H, SmallLeaf(x), gen).ShortNode?
  {
    SmallLeafItem(H, x);
    ValueRef(H, [x], gen);
  }

  lemma {:induction false} ReportNothing(ch: seq<Node>)
    requires forall i :: 0 <= i < |ch| ==> !ch[i].ValueNode?
    ensures DirectBy(ch) == []
  {
    if ch != [] { ReportNothing(ch[1..]); }
  }

  lemma TwoThenNone(ch: seq<Node>, a: Bytes, b: Bytes)
    requires |ch| == 17 && forall i :: 2 <= i < 17 ==> ch[i] == NilNode
    requires ch[0].ShortNode? && ch[1].ShortNode? && Held(ch[0]) == [a] && Held(ch[1]) == [b]
    ensures HeldBy(ch) == [a, b] && DirectBy(ch) == []
  {
    HoldNothing(ch[2..]);
    assert ch[1..][1..] == ch[2..] && ch[1..][0] == ch[1];
    assert HeldBy(ch[1..]) == [b];
    ReportNothing(ch);
  }

  lemma LoadedLeaves(H: Hasher, t: Tree, gen: nat)
    requires Sized(H) && Proper(H, t) && HasTwoLeaves(t)
    ensures var n := Loaded(H, t, None, gen); Reported(n) == [] && Held(n) == [[1], [2]]
  {
    var n := Loaded(H, t, None, gen);
    KidsLoaded(H, t, None, gen);
    LoadedLeaf(H, 1, gen);
    LoadedLeaf(H, 2, gen);
    assert Kids(t)[0] == SmallLeaf(1) && Kids(t)[1] == SmallLeaf(2);
    forall i | 2 <= i < 17 ensures n.children[i] == NilNode { assert Kids(t)[i] == Nil; }
    TwoThenNone(n.children, [1], [2]);
  }
}

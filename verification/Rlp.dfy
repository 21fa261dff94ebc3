/**
 RLP, the serialisation of Appendix B of the Ethereum Yellow Paper: the plain recursive encoding of nested
 byte strings and lists, and the slice splitter of src/rlp/raw.go with the parser it gives rise to. Parsing
 and encoding are inverse to each other, so the encoding is canonical.
 */
module Rlp {
  import opened Wrappers
  import ByteStrings

  type Byte = ByteStrings.Byte
  type Bytes = seq<Byte>

  const MAX_SIZE: nat := 0x1_0000_0000_0000_0000

  datatype Item = Str(b: Bytes) | List(items: seq<Item>)

  // ------------------------------------------------------------------------------------------
  // Big-endian integers
  // ------------------------------------------------------------------------------------------

  /** The shortest big-endian form. */
  function BigEndian(n: nat): (b: Bytes)
    ensures |b| > 0
  {
    if n < 256 then [n] else BigEndian(n / 256) + [n % 256]
  }

  /** The value of the first `n` bytes. */
  function FromBigEndian(b: Bytes, n: nat): nat
    requires n <= |b|
  {
    if n == 0 then 0 else 256 * FromBigEndian(b, n - 1) + b[n - 1]
  }

  lemma {:induction false} SameDigits(a: Bytes, b: Bytes, n: nat)
    requires n <= |a| && n <= |b| && a[..n] == b[..n]
    ensures FromBigEndian(a, n) == FromBigEndian(b, n)
  {
    if n > 0 {
      assert a[..n][..n - 1] == a[..n - 1] && b[..n][..n - 1] == b[..n - 1];
      assert a[..n][n - 1] == b[..n][n - 1];
      SameDigits(a, b, n - 1);
    }
  }

  lemma {:induction false} BigEndianInverse(n: nat)
    ensures FromBigEndian(BigEndian(n), |BigEndian(n)|) == n
    ensures n > 0 ==> BigEndian(n)[0] != 0
  {
    if n >= 256 {
      BigEndianInverse(n / 256);
      var b := BigEndian(n / 256);
      assert (b + [n % 256])[..|b|] == b[..|b|];
      SameDigits(b + [n % 256], b, |b|);
    } else {
      assert FromBigEndian([n], 1) == 256 * FromBigEndian([n], 0) + n;
    }
  }

  lemma {:induction false} FromBigEndianInverse(b: Bytes, n: nat)
    requires 0 < n <= |b| && b[0] != 0
    ensures FromBigEndian(b, n) > 0 && BigEndian(FromBigEndian(b, n)) == b[..n]
  {
    if n > 1 {
      FromBigEndianInverse(b, n - 1);
      var v, l := FromBigEndian(b, n - 1), b[n - 1];
      assert (256 * v + l) / 256 == v && (256 * v + l) % 256 == l;
      assert b[..n] == b[..n - 1] + [l];
    } else {
      assert FromBigEndian(b, 1) == b[0];
    }
  }

  function Pow256(k: nat): (p: nat)
    ensures p > 0
  {
    if k == 0 then 1 else 256 * Pow256(k - 1)
  }

  /** The length of the shortest form is the number of base-256 digits. */
  lemma {:induction false} BigEndianLength(n: nat, k: nat)
    ensures |BigEndian(n)| <= k + 1 <==> n < Pow256(k + 1)
    decreases k
  {
    if k == 0 {
      assert Pow256(1) == 256 * Pow256(0);
    } else {
      BigEndianLength(n / 256, k - 1);
      assert Pow256(k + 1) == 256 * Pow256(k);
      if n < 256 { assert Pow256(k) >= 1; }
    }
  }

  lemma EightBytes(n: nat)
    ensures |BigEndian(n)| <= 8 <==> n < MAX_SIZE
  {
    BigEndianLength(n, 7);
    assert Pow256(2) == 0x1_0000;
    assert Pow256(4) == 256 * Pow256(3) == 0x1_0000_0000;
    assert Pow256(6) == 256 * Pow256(5) == 0x1_0000_0000_0000;
    assert Pow256(8) == 256 * Pow256(7) == MAX_SIZE;
  }

  // ------------------------------------------------------------------------------------------
  // Encoding
  // ------------------------------------------------------------------------------------------

  /** Header of a payload of the given size; strings use tags 0x80 and 0xB7, lists 0xC0 and 0xF7. */
  function Head(small: Byte, large: Byte, size: nat): (h: Bytes)
    requires size < MAX_SIZE && small <= 0xC0 && large <= 0xF7
    ensures |h| == HeadSize(size)
  {
    EightBytes(size);
    if size < 56 then [small + size] else [large + |BigEndian(size)|] + BigEndian(size)
  }

  function HeadSize(size: nat): nat {
    if size < 56 then 1 else 1 + |BigEndian(size)|
  }

  /** Encoded length, before anything is encoded. */
  function Len(t: Item): nat
    decreases t, 0
  {
    match t
    case Str(b) => if |b| == 1 && b[0] <= 0x7F then 1 else HeadSize(|b|) + |b|
    case List(xs) => HeadSize(LenAll(xs)) + LenAll(xs)
  }

  function LenAll(xs: seq<Item>): nat
    decreases xs, 0
  {
    if xs == [] then 0 else Len(xs[0]) + LenAll(xs[1..])
  }

  /** Every payload size fits in 64 bits. */
  predicate Encodable(t: Item)
    decreases t, 0
  {
    match t
    case Str(b) => |b| < MAX_SIZE
    case List(xs) => LenAll(xs) < MAX_SIZE && EncodableAll(xs)
  }

  predicate EncodableAll(xs: seq<Item>)
    decreases xs, 0
  {
    xs == [] || (Encodable(xs[0]) && EncodableAll(xs[1..]))
  }

  function Encode(t: Item): (b: Bytes)
    requires Encodable(t)
    ensures |b| == Len(t) && |b| > 0
    decreases t, 0
  {
    match t
    case Str(b) => if |b| == 1 && b[0] <= 0x7F then b else Head(0x80, 0xB7, |b|) + b
    case List(xs) => Head(0xC0, 0xF7, LenAll(xs)) + EncodeAll(xs)
  }

  function EncodeAll(xs: seq<Item>): (b: Bytes)
    requires EncodableAll(xs)
    ensures |b| == LenAll(xs)
    decreases xs, 0
  {
    if xs == [] then [] else Encode(xs[0]) + EncodeAll(xs[1..])
  }

  // ------------------------------------------------------------------------------------------
  // The form of an encoding
  // ------------------------------------------------------------------------------------------

  /**
   A payload of fewer than 56 bytes follows one byte that tells its length; a longer one follows the length of its
   length and the length itself, the most significant byte first and not zero.
   */
  ghost predicate Announces(e: Bytes, tag: Byte, payload: Bytes) {
    if |payload| < 56 then |e| == 1 + |payload| && e[0] == tag + |payload| && e[1..] == payload
    else
      var n := |e| - 1 - |payload|;
      && 1 <= n <= 8 && e[0] == tag + 55 + n && e[1] != 0
      && FromBigEndian(e[1..], n) == |payload| && e[1 + n..] == payload
  }

  lemma HeadAnnounces(small: Byte, payload: Bytes)
    requires |payload| < MAX_SIZE && small <= 0xC0
    ensures Announces(Head(small, small + 55, |payload|) + payload, small, payload)
  {
    var size := |payload|;
    if size >= 56 {
      EightBytes(size);
      BigEndianInverse(size);
      var b, e := BigEndian(size), Head(small, small + 55, size) + payload;
      assert e == [small + 55 + |b|] + b + payload;
      assert e[1..][..|b|] == b[..|b|];
      SameDigits(e[1..], b, |b|);
      assert e[1] == b[0] && e[1 + |b|..] == payload;
    }
  }

  /** A byte below 128 stands for itself; any other string is announced from 0x80 on. */
  lemma StringForm(b: Bytes)
    requires |b| < MAX_SIZE
    ensures |b| == 1 && b[0] < 128 ==> Encode(Str(b)) == b
    ensures !(|b| == 1 && b[0] < 128) ==> Announces(Encode(Str(b)), 0x80, b)
  {
    HeadAnnounces(0x80, b);
  }

  /** A list is announced from 0xC0 on, its payload being the encodings of its members in turn. */
  lemma ListForm(xs: seq<Item>)
    requires Encodable(List(xs))
    ensures Announces(Encode(List(xs)), 0xC0, EncodeAll(xs))
    ensures xs == [] ==> EncodeAll(xs) == []
    ensures xs != [] ==> EncodeAll(xs) == Encode(xs[0]) + EncodeAll(xs[1..])
  {
    HeadAnnounces(0xC0, EncodeAll(xs));
  }

  /** Encodings that the tests of src/rlp list. */
  lemma Examples()
    ensures Encode(Str([])) == [0x80] && Encode(Str([0x7F])) == [0x7F] && Encode(Str([0x80])) == [0x81, 0x80]
    ensures Encode(Str([0x64, 0x6F, 0x67])) == [0x83, 0x64, 0x6F, 0x67]
    ensures BigEndian(1024) == [0x04, 0x00] && Encode(Str(BigEndian(1024))) == [0x82, 0x04, 0x00]
    ensures Encodable(Nest(3)) && Encode(Nest(3)) == [0xC7, 0xC0, 0xC1, 0xC0, 0xC3, 0xC0, 0xC1, 0xC0]
  {
    assert 1024 / 256 == 4 && 1024 % 256 == 0;
    NestOne();
    NestTwo();
    NestThree();
  }

  /** The set-theoretic numbers. */
  function Nest(n: nat): Item {
    if n == 0 then List([]) else if n == 1 then List([Nest(0)]) else if n == 2 then List([Nest(0), Nest(1)])
    else List([Nest(0), Nest(1), Nest(2)])
  }

  lemma ListOne(x: Item, rest: seq<Item>)
    requires Encodable(x) && EncodableAll(rest)
    ensures EncodableAll([x] + rest) && LenAll([x] + rest) == Len(x) + LenAll(rest)
    ensures EncodeAll([x] + rest) == Encode(x) + EncodeAll(rest)
  {
    assert ([x] + rest)[1..] == rest;
  }

  lemma NestOne()
    ensures Encodable(Nest(0)) && Encode(Nest(0)) == [0xC0] && Encodable(Nest(1)) && Encode(Nest(1)) == [0xC1, 0xC0]
  {
    ListOne(Nest(0), []);
    assert [Nest(0)] + [] == [Nest(0)];
  }

  lemma NestTwo()
    ensures Encodable(Nest(2)) && Encode(Nest(2)) == [0xC3, 0xC0, 0xC1, 0xC0]
  {
    NestOne();
    ListOne(Nest(1), []);
    ListOne(Nest(0), [Nest(1)] + []);
    assert [Nest(0)] + ([Nest(1)] + []) == [Nest(0), Nest(1)];
  }

  lemma NestThree()
    ensures Encodable(Nest(3)) && Encode(Nest(3)) == [0xC7, 0xC0, 0xC1, 0xC0, 0xC3, 0xC0, 0xC1, 0xC0]
  {
    NestOne();
    NestTwo();
    ListOne(Nest(2), []);
    ListOne(Nest(1), [Nest(2)] + []);
    ListOne(Nest(0), [Nest(1)] + ([Nest(2)] + []));
    assert [Nest(0)] + ([Nest(1)] + ([Nest(2)] + [])) == [Nest(0), Nest(1), Nest(2)];
  }

  // ------------------------------------------------------------------------------------------
  // Splitting (raw.go)
  // ------------------------------------------------------------------------------------------

  datatype Kind = ByteKind | StringKind | ListKind

  datatype Error = UnexpectedEOF | CanonSize | ValueTooLarge | ExpectedString | ExpectedList
                 | ElemTooLarge | EOF | EOL | MoreThanOneValue | NotInList | NotAtEOL

  datatype Header = Header(kind: Kind, tagSize: nat, size: nat)

  /** `readSize`: a big-endian size of `slen` bytes, refused if it is not the shortest form. */
  function ReadSize(b: Bytes, slen: nat): Result<nat, Error>
    requires 1 <= slen <= 8
  {
    if slen > |b| then Err(UnexpectedEOF)
    else
      var s := FromBigEndian(b, slen);
      if s < 56 || b[0] == 0 then Err(CanonSize) else Ok(s)
  }

  /** `readKind` on a slice. */
  function ReadKind(buf: Bytes): Result<Header, Error> {
    if buf == [] then Err(UnexpectedEOF)
    else
      var b := buf[0];
      if b < 0x80 then Fitting(Header(ByteKind, 0, 1), buf)
      else if b < 0xB8 then
        if b - 0x80 == 1 && |buf| > 1 && buf[1] < 128 then Err(CanonSize)
        else Fitting(Header(StringKind, 1, b - 0x80), buf)
      else if b < 0xC0 then
        (match ReadSize(buf[1..], b - 0xB7)
         case Err(e) => Err(e)
         case Ok(s) => Fitting(Header(StringKind, b - 0xB7 + 1, s), buf))
      else if b < 0xF8 then Fitting(Header(ListKind, 1, b - 0xC0), buf)
      else
        (match ReadSize(buf[1..], b - 0xF7)
         case Err(e) => Err(e)
         case Ok(s) => Fitting(Header(ListKind, b - 0xF7 + 1, s), buf))
  }

  /** Reject values larger than the input slice. */
  function Fitting(h: Header, buf: Bytes): Result<Header, Error> {
    if h.tagSize <= |buf| && h.size > |buf| - h.tagSize then Err(ValueTooLarge) else Ok(h)
  }

  datatype Parts = Parts(kind: Kind, content: Bytes, rest: Bytes)

  /** `Split`. */
  function Split(b: Bytes): (r: Result<Parts, Error>)
    ensures r.Ok? ==> |r.value.content| + |r.value.rest| <= |b| && |r.value.rest| < |b|
    ensures r.Ok? && r.value.kind == ListKind ==> |r.value.content| < |b|
  {
    match ReadKind(b)
    case Err(e) => Err(e)
    case Ok(h) =>
      KindFits(b);
      Ok(Parts(h.kind, b[h.tagSize..h.tagSize + h.size], b[h.tagSize + h.size..]))
  }

  lemma KindFits(b: Bytes)
    requires ReadKind(b).Ok?
    ensures var h := ReadKind(b).value;
            h.tagSize + h.size <= |b| && h.tagSize + h.size > 0 && (h.kind == ListKind ==> h.tagSize > 0)
  {}

  lemma SplitAt(w: Bytes, h: Header)
    requires ReadKind(w) == Ok(h)
    ensures h.tagSize + h.size <= |w|
    ensures Split(w) == Ok(Parts(h.kind, w[h.tagSize..h.tagSize + h.size], w[h.tagSize + h.size..]))
  {
    KindFits(w);
  }

  /** The bytes of a value with the given content, as the encoder writes them. */
  function Wrap(kind: Kind, content: Bytes): Bytes
    requires |content| < MAX_SIZE
  {
    if kind == ListKind then Head(0xC0, 0xF7, |content|) + content else Encode(Str(content))
  }

  lemma ReadShortHead(small: Byte, large: Byte, content: Bytes, rest: Bytes)
    requires |content| < 56 && ((small == 0x80 && large == 0xB7) || (small == 0xC0 && large == 0xF7))
    requires small == 0x80 ==> !(|content| == 1 && content[0] <= 0x7F)
    ensures var b := Head(small, large, |content|) + content + rest;
            ReadKind(b) == Ok(Header(if small == 0x80 then StringKind else ListKind, 1, |content|))
  {
    var b := Head(small, large, |content|) + content + rest;
    assert b[0] == small + |content|;
    if |content| == 1 { assert b[1] == content[0]; }
  }

  lemma ReadLongHead(small: Byte, large: Byte, content: Bytes, rest: Bytes)
    requires 56 <= |content| < MAX_SIZE && ((small == 0x80 && large == 0xB7) || (small == 0xC0 && large == 0xF7))
    ensures var b := Head(small, large, |content|) + content + rest;
            ReadKind(b) == Ok(Header(if small == 0x80 then StringKind else ListKind, HeadSize(|content|), |content|))
  {
    var be := BigEndian(|content|);
    var b := Head(small, large, |content|) + content + rest;
    EightBytes(|content|);
    BigEndianInverse(|content|);
    assert b[0] == large + |be|;
    assert b[1..] == be + content + rest;
    assert b[1..][..|be|] == be[..|be|];
    SameDigits(b[1..], be, |be|);
    assert b[1] == be[0];
  }

  /** Splitting what the encoder wrote gives the content and the rest. */
  lemma SplitWrap(kind: Kind, content: Bytes, rest: Bytes)
    requires |content| < MAX_SIZE
    ensures var r := Split(Wrap(kind, content) + rest);
            r.Ok? && r.value.content == content && r.value.rest == rest
                && (r.value.kind == ListKind <==> kind == ListKind)
  {
    var b := Wrap(kind, content) + rest;
    if kind != ListKind && |content| == 1 && content[0] <= 0x7F {
      assert b[0] == content[0];
      assert b[0..1] == content && b[1..] == rest;
    } else {
      var small, large := if kind == ListKind then 0xC0 else 0x80, if kind == ListKind then 0xF7 else 0xB7;
      if |content| < 56 {
        ReadShortHead(small, large, content, rest);
      } else {
        ReadLongHead(small, large, content, rest);
      }
      var n := HeadSize(|content|);
      var h := Head(small, large, |content|);
      assert b == h + content + rest;
      assert b[n..n + |content|] == content && b[n + |content|..] == rest;
    }
  }

  lemma SizeSound(b: Bytes, slen: nat)
    requires 1 <= slen <= 8 && ReadSize(b, slen).Ok?
    ensures BigEndian(ReadSize(b, slen).value) == b[..slen] && 56 <= ReadSize(b, slen).value < MAX_SIZE
  {
    FromBigEndianInverse(b, slen);
    EightBytes(ReadSize(b, slen).value);
  }

  /** Whatever the splitter accepts is what the encoder writes for that content. */
  lemma SplitSound(b: Bytes)
    requires Split(b).Ok?
    ensures var p := Split(b).value; |p.content| < MAX_SIZE && b == Wrap(p.kind, p.content) + p.rest
  {
    var h, p := ReadKind(b).value, Split(b).value;
    KindFits(b);
    assert b == b[..h.tagSize] + p.content + p.rest;
    if b[0] < 0x80 {
      assert p.content == [b[0]];
    } else {
      HeadSound(b);
      if h.size == 1 && h.kind == StringKind { assert p.content[0] == b[1]; }
    }
  }

  lemma HeadSound(b: Bytes)
    requires ReadKind(b).Ok? && b[0] >= 0x80
    ensures var h := ReadKind(b).value;
            && h.size < MAX_SIZE && h.tagSize <= |b| && h.kind != ByteKind
            && b[..h.tagSize] == (if h.kind == ListKind then Head(0xC0, 0xF7, h.size) else Head(0x80, 0xB7, h.size))
  {
    var n := ReadKind(b).value.tagSize;
    if b[0] < 0xB8 || 0xC0 <= b[0] < 0xF8 {
      assert b[..1] == [b[0]];
    } else {
      var slen := if b[0] < 0xC0 then b[0] - 0xB7 else b[0] - 0xF7;
      SizeSound(b[1..], slen);
      assert b[..n] == [b[0]] + b[1..][..slen];
    }
  }

  // ------------------------------------------------------------------------------------------
  // Parsing
  // ------------------------------------------------------------------------------------------

  /** One value from the front of `b`, and what follows it. */
  function Parse(b: Bytes): (r: Option<(Item, Bytes)>)
    ensures r.Some? ==> |r.value.1| < |b|
    decreases |b|, 0
  {
    match Split(b)
    case Err(_) => None
    case Ok(p) =>
      if p.kind != ListKind then Some((Str(p.content), p.rest))
      else match ParseAll(p.content)
        case None => None
        case Some(xs) => Some((List(xs), p.rest))
  }

  function ParseAll(b: Bytes): Option<seq<Item>>
    decreases |b|, 1
  {
    if b == [] then Some([])
    else match Parse(b)
      case None => None
      case Some((t, rest)) =>
        match ParseAll(rest)
        case None => None
        case Some(xs) => Some([t] + xs)
  }

  /** Parsing an encoding gives the value back, whatever follows. */
  lemma {:induction false} ParseEncode(t: Item, rest: Bytes)
    requires Encodable(t)
    ensures Parse(Encode(t) + rest) == Some((t, rest))
    decreases t, 0
  {
    match t
    case Str(b) => SplitWrap(StringKind, b, rest);
    case List(xs) =>
      SplitWrap(ListKind, EncodeAll(xs), rest);
      ParseEncodeAll(xs);
  }

  lemma {:induction false} ParseEncodeAll(xs: seq<Item>)
    requires EncodableAll(xs)
    ensures ParseAll(EncodeAll(xs)) == Some(xs)
    decreases xs, 0
  {
    if xs != [] {
      ParseEncode(xs[0], EncodeAll(xs[1..]));
      ParseEncodeAll(xs[1..]);
      assert EncodeAll(xs) == Encode(xs[0]) + EncodeAll(xs[1..]);
      assert xs == [xs[0]] + xs[1..];
    }
  }

  /** Whatever parses is the encoding of the result: there is one encoding per value. */
  lemma {:induction false} ParseSound(b: Bytes)
    requires Parse(b).Some?
    ensures var (t, rest) := Parse(b).value; Encodable(t) && b == Encode(t) + rest
    decreases |b|, 0
  {
    SplitSound(b);
    var p := Split(b).value;
    if p.kind == ListKind { ParseAllSound(p.content); }
  }

  lemma {:induction false} ParseAllSound(b: Bytes)
    requires ParseAll(b).Some?
    ensures EncodableAll(ParseAll(b).value) && b == EncodeAll(ParseAll(b).value)
    decreases |b|, 1
  {
    if b != [] {
      ParseSound(b);
      var (t, rest) := Parse(b).value;
      ParseAllSound(rest);
      var xs := ParseAll(rest).value;
      assert ([t] + xs)[1..] == xs;
    }
  }

  /** Encodings are self-delimiting: equal concatenations have equal values and equal rests. */
  lemma PrefixFree(a: Item, x: Bytes, b: Item, y: Bytes)
    requires Encodable(a) && Encodable(b) && Encode(a) + x == Encode(b) + y
    ensures a == b && x == y
  {
    ParseEncode(a, x);
    ParseEncode(b, y);
  }

  // ------------------------------------------------------------------------------------------
  // The other slice operations
  // ------------------------------------------------------------------------------------------

  /** `SplitString`. */
  function SplitString(b: Bytes): Result<(Bytes, Bytes), Error> {
    match Split(b)
    case Err(e) => Err(e)
    case Ok(p) => if p.kind == ListKind then Err(ExpectedString) else Ok((p.content, p.rest))
  }

  /** `SplitList`. */
  function SplitList(b: Bytes): Result<(Bytes, Bytes), Error> {
    match Split(b)
    case Err(e) => Err(e)
    case Ok(p) => if p.kind != ListKind then Err(ExpectedList) else Ok((p.content, p.rest))
  }

  /** The values in `b` counted by their headers alone. */
  function Count(b: Bytes): Option<nat>
    decreases |b|
  {
    if b == [] then Some(0)
    else match Split(b)
      case Err(_) => None
      case Ok(p) => Plus(1, Count(p.rest))
  }

  function Plus(i: nat, n: Option<nat>): Option<nat> {
    match n
    case None => None
    case Some(m) => Some(i + m)
  }

  lemma CountOne(b: Bytes, p: Parts)
    requires b != [] && Split(b) == Ok(p)
    ensures Count(b) == Plus(1, Count(p.rest))
  {}

  method CountValues(input: Bytes) returns (r: Result<nat, Error>)
    ensures r.Ok? <==> Count(input).Some?
    ensures r.Ok? ==> Some(r.value) == Count(input)
  {
    var b, i := input, 0;
    while |b| > 0
      invariant Count(input) == Plus(i, Count(b))
      decreases |b|
    {
      var h := ReadKind(b);
      if h.Err? {
        return Err(h.error);
      }
      SplitAt(b, h.value);
      CountOne(b, Split(b).value);
      b := b[h.value.tagSize + h.value.size..];
      i := i + 1;
    }
    r := Ok(i);
  }

  lemma {:induction false} CountEncodeAll(xs: seq<Item>)
    requires EncodableAll(xs)
    ensures Count(EncodeAll(xs)) == Some(|xs|)
    decreases xs
  {
    if xs != [] {
      var rest := EncodeAll(xs[1..]);
      match xs[0] {
        case Str(b) => SplitWrap(StringKind, b, rest);
        case List(ys) => SplitWrap(ListKind, EncodeAll(ys), rest);
      }
      CountEncodeAll(xs[1..]);
    }
  }
}

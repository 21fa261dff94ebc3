/**
 The stream decoder of src/rlp/decode.go for nested byte strings and lists: it reads through one input, keeps a
 stack of the lists it is inside of, and accepts exactly what the encoder writes.
 */
module RlpDecoder {
  import opened Wrappers
  import opened Rlp

  /** How far into an open list the stream is, and how long the list is. */
  datatype ListPos = ListPos(pos: nat, size: nat)

  /** A header as the stream reads it; the check on one-byte strings comes later. */
  function LooseKind(w: Bytes): Option<Header> {
    match HeadRead(w)
    case None => None
    case Some(h) => Within(h, w)
  }

  function Within(h: Header, w: Bytes): Option<Header> {
    if h.tagSize + h.size <= |w| then Some(h) else None
  }

  /** A header whose content has not been checked to fit. */
  function HeadRead(w: Bytes): Option<Header> {
    if w == [] then None
    else
      var b := w[0];
      if b < 0x80 then Some(Header(ByteKind, 0, 1))
      else if b < 0xB8 then Some(Header(StringKind, 1, b - 0x80))
      else if b < 0xC0 then
        (match ReadSize(w[1..], b - 0xB7) case Err(_) => None case Ok(s) => Some(Header(StringKind, b - 0xB7 + 1, s)))
      else if b < 0xF8 then Some(Header(ListKind, 1, b - 0xC0))
      else
        (match ReadSize(w[1..], b - 0xF7) case Err(_) => None case Ok(s) => Some(Header(ListKind, b - 0xF7 + 1, s)))
  }

  /** The stream and the slice splitter agree on headers, up to the one-byte check. */
  lemma LooseIsSplit(w: Bytes)
    ensures ReadKind(w).Ok? <==>
              && LooseKind(w).Some?
              && !(LooseKind(w).value.kind == StringKind && LooseKind(w).value.size == 1 && w[1] < 128)
    ensures ReadKind(w).Ok? ==> ReadKind(w).value == LooseKind(w).value
  {}

  lemma NoHeader(w: Bytes)
    ensures w == [] || LooseKind(w).None? ==> Parse(w).None?
  {
    LooseIsSplit(w);
  }

  lemma StringAccepted(w: Bytes, h: Header)
    requires LooseKind(w) == Some(h) && h.kind != ListKind
    ensures h.tagSize + h.size <= |w|
    ensures Parse(w).Some? <==> !(h.kind == StringKind && h.size == 1 && w[h.tagSize] < 128)
  {
    LooseIsSplit(w);
  }

  lemma StringParsed(w: Bytes, h: Header)
    requires LooseKind(w) == Some(h) && h.kind != ListKind && Parse(w).Some?
    ensures h.tagSize + h.size <= |w|
    ensures Parse(w).value == (Str(w[h.tagSize..h.tagSize + h.size]), w[h.tagSize + h.size..])
  {
    assert ReadKind(w) == Ok(h) by { LooseIsSplit(w); }
    SplitAt(w, h);
  }

  lemma ListParse(w: Bytes, h: Header)
    requires LooseKind(w) == Some(h) && h.kind == ListKind
    ensures 1 <= h.tagSize && h.tagSize + h.size <= |w|
    ensures var content := w[h.tagSize..h.tagSize + h.size];
            && (Parse(w).Some? <==> ParseAll(content).Some?)
            && (Parse(w).Some? ==> Parse(w).value == (List(ParseAll(content).value), w[h.tagSize + h.size..]))
  {
    assert ReadKind(w) == Ok(h) by { LooseIsSplit(w); }
    assert h.tagSize > 0 by { KindFits(w); }
    SplitAt(w, h);
  }

  function Prepended(xs: seq<Item>, r: Option<seq<Item>>): Option<seq<Item>> {
    match r
    case None => None
    case Some(ys) => Some(xs + ys)
  }

  /** One more value read moves from the input to the values so far. */
  lemma ReadOne(whole: Option<seq<Item>>, xs: seq<Item>, w: Bytes, t: Item, rest: Bytes)
    requires whole == Prepended(xs, ParseAll(w)) && Parse(w) == Some((t, rest))
    ensures whole == Prepended(xs + [t], ParseAll(rest))
  {
    if w == [] { NoHeader(w); }
    var r := ParseAll(rest);
    if r.Some? { assert xs + ([t] + r.value) == xs + [t] + r.value; }
  }

  lemma ReadNone(whole: Option<seq<Item>>, xs: seq<Item>, w: Bytes)
    requires whole == Prepended(xs, ParseAll(w)) && Parse(w).None? && w != []
    ensures whole.None?
  {}

  class Stream {
    const data: Bytes
    var pos: nat
    var remaining: nat
    var kind: Option<Kind>
    var size: nat
    var byteval: Byte
    var kinderr: Option<Error>
    var stack: seq<ListPos>

    /** Every open list is read up to at most its size and fits in the one around it. */
    ghost predicate Nested(st: seq<ListPos>) {
      && (forall i :: 0 <= i < |st| ==> st[i].pos <= st[i].size)
      && (forall i :: 0 <= i < |st| - 1 ==> st[i].pos + st[i + 1].size <= st[i].size)
    }

    ghost predicate Valid()
      reads this
    {
      && pos <= |data| && remaining == |data| - pos && Nested(stack)
      && (stack != [] ==> Top().size - Top().pos <= remaining)
    }

    function Top(): ListPos
      reads this
      requires stack != []
    {
      stack[|stack| - 1]
    }

    /** Bytes that the innermost open list, or the input, still has. */
    function Avail(): int
      reads this
    {
      if stack == [] then remaining else Top().size - Top().pos
    }

    ghost function Window(): Bytes
      reads this
      requires Valid()
    {
      data[pos..pos + Avail()]
    }

    constructor (input: Bytes)
      ensures Valid() && kind == None && stack == [] && data == input && pos == 0 && Window() == input
    {
      data, pos, remaining := input, 0, |input|;
      kind, size, byteval, kinderr, stack := None, 0, 0, None, [];
    }

    /** The stack after `n` more bytes of the innermost list. */
    ghost function Advanced(st: seq<ListPos>, n: nat): seq<ListPos> {
      if st == [] then [] else st[|st| - 1 := ListPos(st[|st| - 1].pos + n, st[|st| - 1].size)]
    }

    /** `willRead` and the read itself. */
    method ReadFull(n: nat) returns (r: Result<Bytes, Error>)
      requires Valid()
      modifies this`pos, this`remaining, this`kind, this`stack
      ensures Valid() && kind == None
      ensures r.Ok? <==> n <= old(Avail())
      ensures r.Ok? ==> r.value == old(Window())[..n] && Window() == old(Window())[n..]
      ensures r.Ok? ==> pos == old(pos) + n && stack == Advanced(old(stack), n)
      ensures r.Err? ==> pos == old(pos) && stack == old(stack) && r.error != EOL
    {
      kind := None;
      if |stack| > 0 {
        var tos := Top();
        if n > tos.size - tos.pos {
          return Err(ElemTooLarge);
        }
        stack := stack[|stack| - 1 := ListPos(tos.pos + n, tos.size)];
      }
      if n > remaining {
        return Err(ValueTooLarge);
      }
      remaining := remaining - n;
      r := Ok(data[pos..pos + n]);
      pos := pos + n;
    }

    /** `readUint` for a size of one to eight bytes. */
    method ReadUint(n: nat) returns (r: Result<nat, Error>)
      requires Valid() && 1 <= n <= 8
      modifies this`pos, this`remaining, this`kind, this`stack
      ensures Valid() && kind == None
      ensures r.Ok? ==>
                n <= old(Avail()) && r.value == FromBigEndian(old(Window()), n) && (n > 1 ==> old(Window())[0] != 0)
      ensures r.Ok? ==> Window() == old(Window())[n..] && pos == old(pos) + n && stack == Advanced(old(stack), n)
      ensures r.Err? ==> (n > old(Avail()) || (n > 1 && old(Window())[0] == 0)) && r.error != EOL
    {
      var b := ReadFull(n);
      if b.Err? {
        return Err(b.error);
      }
      if n > 1 && b.value[0] == 0 {
        return Err(CanonSize);
      }
      SameDigits(b.value, old(Window()), n);
      r := Ok(FromBigEndian(b.value, n));
    }

    /** Bytes that belong to the header: a single byte below 0x80 is all header. */
    ghost function Consumed(h: Header): nat {
      if h.kind == ByteKind then 1 else h.tagSize
    }

    /** `readKind` on the stream: the header bytes of the window, whose content may still be too long. */
    method ReadStreamKind() returns (r: Result<(Kind, nat), Error>)
      requires Valid()
      modifies this`pos, this`remaining, this`kind, this`stack, this`byteval
      ensures Valid() && (r.Err? ==> r.error != EOL)
      ensures r.Ok? <==> HeadRead(old(Window())).Some?
      ensures r.Ok? ==> var h := HeadRead(old(Window())).value;
                        && r.value == (h.kind, if h.kind == ByteKind then 0 else h.size)
                        && Consumed(h) <= old(Avail()) && Window() == old(Window())[Consumed(h)..]
                        && pos == old(pos) + Consumed(h) && stack == Advanced(old(stack), Consumed(h))
                        && (h.kind == ByteKind ==> byteval == old(Window())[0])
    {
      var top := |stack| == 0;
      ghost var w, st := Window(), stack;
      var first := ReadFull(1);
      if first.Err? {
        return Err(if top then EOF else first.error);
      }
      r := ReadTag(first.value[0], w, st);
    }

    /** The header that begins with tag `b`, which has been read. */
    method ReadTag(b: Byte, ghost w: Bytes, ghost st: seq<ListPos>) returns (r: Result<(Kind, nat), Error>)
      requires Valid() && w != [] && w[0] == b && Window() == w[1..] && stack == Advanced(st, 1)
      modifies this`pos, this`remaining, this`kind, this`stack, this`byteval
      ensures Valid() && (r.Err? ==> r.error != EOL)
      ensures r.Ok? <==> HeadRead(w).Some?
      ensures r.Ok? ==> var h := HeadRead(w).value;
                        && r.value == (h.kind, if h.kind == ByteKind then 0 else h.size)
                        && Consumed(h) <= |w| && Window() == w[Consumed(h)..]
                        && pos == old(pos) + Consumed(h) - 1 && stack == Advanced(st, Consumed(h))
                        && (h.kind == ByteKind ==> byteval == w[0])
    {
      byteval := 0;
      if b < 0x80 {
        byteval := b;
        r := Ok((ByteKind, 0));
      } else if b < 0xB8 {
        r := Ok((StringKind, b - 0x80));
      } else if b < 0xC0 {
        r := ReadLong(StringKind, b - 0xB7, w, st);
      } else if b < 0xF8 {
        r := Ok((ListKind, b - 0xC0));
      } else {
        r := ReadLong(ListKind, b - 0xF7, w, st);
      }
    }

    /** The size bytes of a long header. */
    method ReadLong(k: Kind, n: nat, ghost w: Bytes, ghost st: seq<ListPos>) returns (r: Result<(Kind, nat), Error>)
      requires Valid() && 1 <= n <= 8 && w != [] && Window() == w[1..] && stack == Advanced(st, 1)
      modifies this`pos, this`remaining, this`kind, this`stack
      ensures Valid() && (r.Err? ==> r.error != EOL)
      ensures r.Ok? <==> ReadSize(w[1..], n).Ok?
      ensures r.Ok? ==> r.value == (k, ReadSize(w[1..], n).value)
      ensures r.Ok? ==> n + 1 <= |w| && Window() == w[n + 1..] && pos == old(pos) + n && stack == Advanced(st, n + 1)
    {
      var s := ReadUint(n);
      if s.Err? {
        return Err(s.error);
      }
      if s.value < 56 {
        return Err(CanonSize);
      }
      assert w[1..][n..] == w[n + 1..];
      r := Ok((k, s.value));
    }

    /** The header `h` of window `w` has been read and its content is next. */
    ghost predicate HeaderRead(w: Bytes, h: Header, st: seq<ListPos>, from: nat)
      reads this
    {
      && Valid() && pos == from + Consumed(h) && h.tagSize + h.size <= |w| && Consumed(h) <= |w|
      && kind == Some(h.kind) && kinderr == None && size == (if h.kind == ByteKind then 0 else h.size)
      && Window() == w[Consumed(h)..] && stack == Advanced(st, Consumed(h))
      && (h.kind == ByteKind ==> h == Header(ByteKind, 0, 1) && byteval == w[0])
    }

    predicate AtEnd()
      reads this
    {
      stack != [] && Top().pos == Top().size
    }

    /** `Kind`, when no header has been read yet. */
    method ReadHeader() returns (r: Result<(Kind, nat), Error>)
      requires Valid() && kind == None && !AtEnd()
      modifies this`pos, this`remaining, this`kind, this`stack, this`byteval, this`size, this`kinderr
      ensures Valid() && (r.Err? ==> r.error != EOL)
      ensures r.Ok? <==> LooseKind(old(Window())).Some?
      ensures r.Ok? ==>
                && HeaderRead(old(Window()), LooseKind(old(Window())).value, old(stack), old(pos))
                && r.value == (kind.value, size)
    {
      ghost var w, st, from := Window(), stack, pos;
      var head := ReadStreamKind();
      if head.Err? {
        kind, size, kinderr := Some(ByteKind), 0, Some(head.error);
        return Err(head.error);
      }
      r := KeepHeader(head.value.0, head.value.1, w, HeadRead(w).value, st, from);
    }

    /** Keep the header that has been read, or the error that its content does not fit. */
    method KeepHeader(k: Kind, n: nat, ghost w: Bytes, ghost h: Header, ghost st: seq<ListPos>, ghost from: nat)
      returns (r: Result<(Kind, nat), Error>)
      requires Valid() && HeadRead(w) == Some(h) && k == h.kind && n == (if h.kind == ByteKind then 0 else h.size)
      requires Consumed(h) <= |w| && Window() == w[Consumed(h)..] && pos == from + Consumed(h)
      requires stack == Advanced(st, Consumed(h)) && (h.kind == ByteKind ==> byteval == w[0])
      modifies this`kind, this`size, this`kinderr
      ensures Valid() && (r.Err? ==> r.error != EOL)
      ensures r.Ok? <==> LooseKind(w).Some?
      ensures r.Ok? ==> LooseKind(w) == Some(h) && HeaderRead(w, h, st, from) && r.value == (kind.value, size)
    {
      kind, size, kinderr := Some(k), n, None;
      CheckRoom();
      r := if kinderr == None then Ok((kind.value, size)) else Err(kinderr.value);
    }

    /** Whether what the header announces fits into the input and into the list around it. */
    method CheckRoom()
      requires Valid() && kinderr == None
      modifies this`kinderr
      ensures Valid() && (kinderr == None <==> size <= Avail()) && kinderr != Some(EOL)
    {
      if |stack| == 0 {
        if size > remaining {
          kinderr := Some(ValueTooLarge);
        }
      } else if size > Top().size - Top().pos {
        kinderr := Some(ElemTooLarge);
      }
    }

    /** `Kind`: read a header unless one has been read already or the list is over. */
    method GetKind() returns (r: Result<(Kind, nat), Error>)
      requires Valid()
      modifies this`pos, this`remaining, this`kind, this`stack, this`byteval, this`size, this`kinderr
      ensures Valid()
      ensures old(kind).Some? ==>
                unchanged(this) && r == (if kinderr == None then Ok((kind.value, size)) else Err(kinderr.value))
      ensures old(kind).None? ==> (r.Ok? <==> !old(AtEnd()) && LooseKind(old(Window())).Some?)
      ensures old(kind).None? && r.Ok? ==>
                HeaderRead(old(Window()), LooseKind(old(Window())).value, old(stack), old(pos))
                    && r.value == (kind.value, size)
      ensures old(kind).None? && old(AtEnd()) ==> kind == None && stack == old(stack) && pos == old(pos)
      ensures old(kind).None? ==> (r == Err(EOL) <==> old(AtEnd()))
    {
      if kind.Some? {
        r := if kinderr == None then Ok((kind.value, size)) else Err(kinderr.value);
      } else if |stack| > 0 && Top().pos == Top().size {
        kinderr := None;
        r := Err(EOL);
      } else {
        r := ReadHeader();
      }
    }

    /** `Bytes`, once the header is read: a single byte was its own header. */
    method GetBytes(ghost w: Bytes, ghost h: Header, ghost st: seq<ListPos>, ghost from: nat)
      returns (r: Result<Bytes, Error>)
      requires HeaderRead(w, h, st, from) && kind != Some(ListKind)
      modifies this`pos, this`remaining, this`kind, this`stack
      ensures Valid() && (r.Err? ==> r.error != EOL)
      ensures r.Ok? <==> !(h.kind == StringKind && h.size == 1 && w[h.tagSize] < 128)
      ensures r.Ok? ==> kind == None && r.value == w[h.tagSize..h.tagSize + h.size]
      ensures r.Ok? ==> Window() == w[h.tagSize + h.size..] && stack == Advanced(st, h.tagSize + h.size)
      ensures r.Ok? ==> pos == from + h.tagSize + h.size
    {
      if kind == Some(ByteKind) {
        kind := None;
        r := Ok([byteval]);
      } else {
        r := GetString(w, h.tagSize, st);
      }
    }

    method GetString(ghost w: Bytes, ghost tag: nat, ghost st: seq<ListPos>) returns (r: Result<Bytes, Error>)
      requires Valid() && tag + size <= |w| && Window() == w[tag..] && stack == Advanced(st, tag)
      modifies this`pos, this`remaining, this`kind, this`stack
      ensures Valid() && (r.Err? ==> r.error != EOL)
      ensures r.Ok? <==> !(size == 1 && w[tag] < 128)
      ensures r.Ok? ==> kind == None && r.value == w[tag..tag + size]
      ensures r.Ok? ==> Window() == w[tag + size..] && stack == Advanced(st, tag + size) && pos == old(pos) + size
    {
      AdvancedTwice(st, tag, size);
      Slices(w, tag, size);
      var b := ReadFull(size);
      if size == 1 && b.value[0] < 128 {
        return Err(CanonSize);
      }
      r := Ok(b.value);
    }

    lemma Slices(w: Bytes, a: nat, n: nat)
      requires a + n <= |w|
      ensures w[a..][..n] == w[a..a + n] && w[a..][n..] == w[a + n..]
      ensures n > 0 ==> w[a..][..n][0] == w[a]
    {}

    lemma AdvancedTwice(st: seq<ListPos>, a: nat, b: nat)
      ensures Advanced(Advanced(st, a), b) == Advanced(st, a + b) && Advanced(st, 0) == st
    {}

    /** The lists around the innermost one. */
    ghost function Around(st: seq<ListPos>): seq<ListPos>
      requires st != []
    {
      st[..|st| - 1]
    }

    lemma AdvancedAround(st: seq<ListPos>, n: nat)
      requires st != []
      ensures Around(Advanced(st, n)) == Around(st)
    {}

    /** `List`, once the header is read. */
    method OpenList(ghost w: Bytes, ghost h: Header, ghost st: seq<ListPos>, ghost from: nat) returns (n: nat)
      requires HeaderRead(w, h, st, from) && kind == Some(ListKind)
      modifies this`pos, this`remaining, this`kind, this`stack, this`byteval, this`size, this`kinderr
      ensures Valid() && kind == None && n == h.size
      ensures Window() == w[h.tagSize..h.tagSize + h.size]
      ensures stack == Advanced(st, h.tagSize) + [ListPos(0, h.size)] && pos == old(pos)
    {
      n := size;
      Slices(w, h.tagSize, n);
      Slices(data, pos, n);
      assert Window()[..n] == data[pos..pos + n];
      stack := stack + [ListPos(0, size)];
      kind := None;
      size := 0;
    }

    /** Bytes available at position `p` with these lists open. */
    ghost function AvailIn(st: seq<ListPos>, p: nat): int {
      if st == [] then |data| - p else st[|st| - 1].size - st[|st| - 1].pos
    }

    /** `ListEnd`: the enclosing list moves past the whole inner one, which began at `start`. */
    method ListEnd(ghost below: seq<ListPos>, ghost start: nat, ghost outer: Bytes) returns (r: Result<(), Error>)
      requires Valid() && stack != [] && below == Around(stack) && start + Top().pos == pos
      requires Top().size <= AvailIn(below, start) <= |data| - start
                 && outer == data[start..start + AvailIn(below, start)]
      modifies this`kind, this`size, this`stack
      ensures r.Ok? <==> old(AtEnd())
      ensures r.Ok? ==> Valid() && kind == None && stack == Advanced(below, old(Top()).size)
      ensures r.Ok? ==> Window() == outer[old(Top()).size..]
      ensures r.Err? ==> r.error == NotAtEOL
    {
      var tos := Top();
      if tos.pos != tos.size {
        return Err(NotAtEOL);
      }
      stack := stack[..|stack| - 1];
      if |stack| > 0 {
        var around := Top();
        stack := stack[|stack| - 1 := ListPos(around.pos + tos.size, around.size)];
      }
      kind := None;
      size := 0;
      r := Ok(());
    }

    /**
     `decodeInterface`: read one value. It succeeds exactly when the window parses, with the same value and the
     same rest.
     */
    method DecodeItem() returns (r: Result<Item, Error>)
      requires Valid() && kind == None
      modifies this`pos, this`remaining, this`kind, this`stack, this`byteval, this`size, this`kinderr
      ensures r.Ok? <==> Parse(old(Window())).Some?
      ensures r.Ok? ==> Valid() && kind == None && Parse(old(Window())).value == (r.value, Window())
      ensures r.Ok? ==> pos > old(pos) && stack == Advanced(old(stack), pos - old(pos))
      ensures r == Err(EOL) <==> old(AtEnd())
      ensures old(AtEnd()) ==> Valid() && kind == None && stack == old(stack) && pos == old(pos)
      decreases Avail(), 0
    {
      ghost var w, st, from := Window(), stack, pos;
      var k := GetKind();
      if k.Err? {
        NoHeader(w);
        return Err(k.error);
      }
      r := DecodeBody(w, LooseKind(w).value, st, from);
    }

    /** A string or a list, once the header is read. */
    method DecodeBody(ghost w: Bytes, ghost h: Header, ghost st: seq<ListPos>,
            ghost from: nat) returns (r: Result<Item, Error>)
      requires HeaderRead(w, h, st, from) && LooseKind(w) == Some(h)
      modifies this`pos, this`remaining, this`kind, this`stack, this`byteval, this`size, this`kinderr
      ensures r.Ok? <==> Parse(w).Some?
      ensures r.Ok? ==> Valid() && kind == None && Parse(w).value == (r.value, Window())
      ensures r.Ok? ==> pos > from && stack == Advanced(st, pos - from)
      ensures r.Err? ==> r.error != EOL
      decreases size, 5
    {
      if kind == Some(ListKind) {
        ListParse(w, h);
        r := DecodeList(w, h, st, from);
      } else {
        r := DecodeString(w, h, st, from);
      }
    }

    method DecodeString(ghost w: Bytes, ghost h: Header, ghost st: seq<ListPos>,
            ghost from: nat) returns (r: Result<Item, Error>)
      requires HeaderRead(w, h, st, from) && kind != Some(ListKind) && LooseKind(w) == Some(h)
      modifies this`pos, this`remaining, this`kind, this`stack, this`byteval, this`size, this`kinderr
      ensures r.Ok? <==> Parse(w).Some?
      ensures r.Ok? ==> Valid() && kind == None && Parse(w).value == (r.value, Window())
      ensures r.Ok? ==> pos > from && stack == Advanced(st, pos - from)
      ensures r.Err? ==> r.error != EOL
    {
      StringAccepted(w, h);
      if Parse(w).Some? { StringParsed(w, h); }
      var b := GetBytes(w, h, st, from);
      if b.Err? {
        return Err(b.error);
      }
      r := Ok(Str(b.value));
    }

    /** `decodeListSlice`, once the header is read. */
    method DecodeList(ghost w: Bytes, ghost h: Header, ghost st: seq<ListPos>,
            ghost from: nat) returns (r: Result<Item, Error>)
      requires HeaderRead(w, h, st, from) && kind == Some(ListKind)
      modifies this`pos, this`remaining, this`kind, this`stack, this`byteval, this`size, this`kinderr
      ensures r.Ok? <==> ParseAll(w[h.tagSize..h.tagSize + h.size]).Some?
      ensures r.Ok? ==> r.value == List(ParseAll(w[h.tagSize..h.tagSize + h.size]).value)
      ensures r.Ok? ==> Valid() && kind == None && Window() == w[h.tagSize + h.size..]
      ensures r.Ok? ==> pos == from + h.tagSize + h.size && stack == Advanced(st, h.tagSize + h.size)
      ensures r.Err? ==> r.error != EOL
      decreases size, 4
    {
      ghost var w1, below := Window(), stack;
      AdvancedTwice(st, h.tagSize, h.size);
      Slices(w, h.tagSize, h.size);
      var n := OpenList(w, h, st, from);
      var xs := ReadList(below, h.size, w1, ParseAll(Window()));
      r := if xs.Ok? then Ok(List(xs.value)) else Err(xs.error);
    }

    /** The values of the list just opened, and its end. */
    method ReadList(ghost below: seq<ListPos>, ghost n: nat, ghost outer: Bytes, ghost content: Option<seq<Item>>)
      returns (r: Result<seq<Item>, Error>)
      requires Valid() && kind == None && stack == below + [ListPos(0, n)] && content == ParseAll(Window())
      requires n <= AvailIn(below, pos) <= remaining && outer == data[pos..pos + AvailIn(below, pos)]
      modifies this`pos, this`remaining, this`kind, this`stack, this`byteval, this`size, this`kinderr
      ensures r.Ok? <==> content.Some?
      ensures r.Ok? ==> r.value == content.value
      ensures r.Ok? ==> Valid() && kind == None && Window() == outer[n..]
      ensures r.Ok? ==> pos == old(pos) + n && stack == Advanced(below, n)
      ensures r.Err? ==> r.error != EOL
      decreases n, 3
    {
      ghost var start := pos;
      assert Around(stack) == below;
      r := DecodeItems();
      if r.Ok? {
        var e := ListEnd(below, start, outer);
      }
    }

    /** One round of the loop below. */
    method DecodeNext(ghost xs: seq<Item>, ghost whole: Option<seq<Item>>) returns (t: Result<Item, Error>)
      requires Valid() && kind == None && stack != [] && whole == Prepended(xs, ParseAll(Window()))
      modifies this`pos, this`remaining, this`kind, this`stack, this`byteval, this`size, this`kinderr
      ensures t.Ok? ==> Valid() && kind == None && pos > old(pos) && stack == Advanced(old(stack), pos - old(pos))
      ensures t.Ok? ==> whole == Prepended(xs + [t.value], ParseAll(Window()))
      ensures t == Err(EOL) ==> Valid() && kind == None && AtEnd() && pos == old(pos) && stack == old(stack)
      ensures t.Err? && t.error != EOL ==> whole.None?
      decreases Avail(), 1
    {
      ghost var w := Window();
      t := DecodeItem();
      if t.Ok? {
        ReadOne(whole, xs, w, t.value, Window());
      } else if t.error != EOL {
        ReadNone(whole, xs, w);
      }
    }

    /** `decodeSliceElems`: values until the end of the list. */
    method DecodeItems() returns (r: Result<seq<Item>, Error>)
      requires Valid() && kind == None && stack != []
      modifies this`pos, this`remaining, this`kind, this`stack, this`byteval, this`size, this`kinderr
      ensures r.Ok? <==> ParseAll(old(Window())).Some?
      ensures r.Ok? ==> Valid() && kind == None && AtEnd() && ParseAll(old(Window())).value == r.value
      ensures r.Ok? ==>
                pos == old(pos) + old(Avail()) && Around(stack) == Around(old(stack)) && Top().size == old(Top()).size
      ensures r.Err? ==> r.error != EOL
      decreases Avail(), 2
    {
      var xs: seq<Item> := [];
      ghost var whole, around, end := ParseAll(Window()), Around(stack), pos + Avail();
      assert whole.Some? ==> [] + whole.value == whole.value;
      while true
        invariant Valid() && kind == None && stack != [] && whole == Prepended(xs, ParseAll(Window()))
        invariant Around(stack) == around && Top().size == old(Top()).size && pos + Avail() == end
        decreases Avail()
      {
        ghost var st, at := stack, pos;
        var t := DecodeNext(xs, whole);
        if t == Err(EOL) {
          break;
        }
        if t.Err? {
          return Err(t.error);
        }
        AdvancedAround(st, pos - at);
        xs := xs + [t.value];
      }
      r := Ok(xs);
    }
  }

  /** `DecodeBytes` into nested byte strings and lists. */
  method DecodeBytes(b: Bytes) returns (r: Result<Item, Error>)
    ensures r.Ok? ==> Encodable(r.value) && b == Encode(r.value)
    ensures r.Err? ==> forall t {:trigger Encode(t)} | Encodable(t) :: b != Encode(t)
    ensures Parse(b).Some? && Parse(b).value.1 != [] ==> r == Err(MoreThanOneValue)
  {
    var s := new Stream(b);
    r := s.DecodeItem();
    if r.Ok? {
      ParseSound(b);
      if s.remaining > 0 {
        r := Err(MoreThanOneValue);
      }
    }
    forall t {:trigger Encode(t)} | Encodable(t) ensures b == Encode(t) ==> r == Ok(t) {
      ParseEncode(t, []);
      assert Encode(t) + [] == Encode(t);
    }
  }
}

/**
 The encoder of src/rlp/encode.go: string data and list headers are kept apart while a value is walked, because
 a list's header needs the size of what follows it, and are interleaved on output. All three outputs produce
 the plain recursive encoding.
 */
module RlpEncoder {
  import opened Wrappers
  import opened Rlp
  import opened RlpHeads

  /** `putint`: the bytes of `i`, most significant first, picked out by shifts. */
  function PutInt(i: nat): (b: Bytes)
    requires i < MAX_SIZE
  {
    if i < 0x100 then [i % 256]
    else if i < 0x1_0000 then [i / 0x100 % 256, i % 256]
    else if i < 0x100_0000 then [i / 0x1_0000 % 256, i / 0x100 % 256, i % 256]
    else if i < 0x1_0000_0000 then [i / 0x100_0000 % 256, i / 0x1_0000 % 256, i / 0x100 % 256, i % 256]
    else if i < 0x100_0000_0000 then
      [i / 0x1_0000_0000 % 256, i / 0x100_0000 % 256, i / 0x1_0000 % 256, i / 0x100 % 256, i % 256]
    else if i < 0x1_0000_0000_0000 then
      [i / 0x100_0000_0000 % 256, i / 0x1_0000_0000 % 256, i / 0x100_0000 % 256, i / 0x1_0000 % 256,
       i / 0x100 % 256, i % 256]
    else if i < 0x100_0000_0000_0000 then
      [i / 0x1_0000_0000_0000 % 256, i / 0x100_0000_0000 % 256, i / 0x1_0000_0000 % 256, i / 0x100_0000 % 256,
       i / 0x1_0000 % 256, i / 0x100 % 256, i % 256]
    else
      [i / 0x100_0000_0000_0000 % 256, i / 0x1_0000_0000_0000 % 256, i / 0x100_0000_0000 % 256,
       i / 0x1_0000_0000 % 256, i / 0x100_0000 % 256, i / 0x1_0000 % 256, i / 0x100 % 256, i % 256]
  }

  lemma PutIntStep(i: nat)
    requires 256 <= i < MAX_SIZE
    ensures PutInt(i) == PutInt(i / 256) + [i % 256]
  {
    Shifts(i);
  }

  lemma Shifts(i: nat)
    ensures i / 0x1_0000 == i / 256 / 0x100
    ensures i / 0x100_0000 == i / 256 / 0x1_0000
    ensures i / 0x1_0000_0000 == i / 256 / 0x100_0000
    ensures i / 0x100_0000_0000 == i / 256 / 0x1_0000_0000
    ensures i / 0x1_0000_0000_0000 == i / 256 / 0x100_0000_0000
    ensures i / 0x100_0000_0000_0000 == i / 256 / 0x1_0000_0000_0000
  {}

  /** The shifts give the shortest big-endian form. */
  lemma {:induction false} PutIntIsBigEndian(i: nat)
    requires i < MAX_SIZE
    ensures PutInt(i) == BigEndian(i)
  {
    if i >= 256 {
      PutIntStep(i);
      PutIntIsBigEndian(i / 256);
    }
  }

  method IntSize(n: nat) returns (size: nat)
    ensures size == |BigEndian(n)|
  {
    var i := n;
    size := 1;
    while true
      invariant size >= 1 && |BigEndian(n)| == size - 1 + |BigEndian(i)|
      decreases i
    {
      if i / 256 == 0 {
        return;
      }
      i := i / 256;
      size := size + 1;
    }
  }

  /** `puthead`. */
  function PutHead(small: Byte, large: Byte, size: nat): (h: Bytes)
    requires size < MAX_SIZE && small <= 0xC0 && large <= 0xF7
    ensures h == Head(small, large, size)
  {
    PutIntIsBigEndian(size);
    EightBytes(size);
    if size < 56 then [small + size] else [large + |PutInt(size)|] + PutInt(size)
  }

  lemma {:induction false} ItemEncodable(xs: seq<Item>, i: nat)
    requires EncodableAll(xs) && i < |xs|
    ensures Encodable(xs[i]) && EncodableAll(xs[..i]) && EncodableAll(xs[..i + 1])
    ensures EncodeAll(xs[..i + 1]) == EncodeAll(xs[..i]) + Encode(xs[i])
    decreases |xs|
  {
    if i == 0 {
      assert xs[..1] == [xs[0]] && xs[..0] == [] && [xs[0]][1..] == [];
    } else {
      ItemEncodable(xs[1..], i - 1);
      assert xs[1..][..i - 1] == xs[..i][1..] && xs[1..][..i] == xs[..i + 1][1..];
    }
  }

  lemma {:induction false} PlacedPrefix(hs: seq<ListHead>, len: nat, i: nat)
    requires Placed(hs, len) && i < |hs|
    ensures hs[i].size < MAX_SIZE && hs[i].offset <= len && Placed(hs[..i], hs[i].offset)
    ensures Placed(hs[..i + 1], if i + 1 < |hs| then hs[i + 1].offset else len)
    ensures i + 1 < |hs| ==> hs[i].offset <= hs[i + 1].offset
    decreases |hs|
  {
    var n := |hs| - 1;
    if i < n {
      PlacedPrefix(hs[..n], hs[n].offset, i);
      assert hs[..n][..i] == hs[..i] && hs[..n][..i + 1] == hs[..i + 1];
    } else {
      assert hs[..i + 1] == hs;
    }
  }

  /** Output up to data position `to` after the first `i` headers. */
  ghost predicate Sent(out: Bytes, s: Bytes, hs: seq<ListHead>, i: nat, to: nat) {
    && i <= |hs| && to <= |s|
    && Placed(hs[..i], to) && out == Render(s[..to], hs[..i])
    && (if i < |hs| then to <= hs[i].offset else true)
  }

  lemma SentData(out: Bytes, s: Bytes, hs: seq<ListHead>, i: nat, a: nat, b: nat)
    requires Placed(hs, |s|) && Sent(out, s, hs, i, a) && a <= b <= (if i < |hs| then hs[i].offset else |s|) && b <= |s|
    ensures Sent(out + s[a..b], s, hs, i, b)
  {
    DataAfter(s[..a], s[a..b], hs[..i]);
    assert s[..a] + s[a..b] == s[..b];
  }

  lemma SentHead(out: Bytes, s: Bytes, hs: seq<ListHead>, i: nat)
    requires i < |hs| && hs[i].size < MAX_SIZE && Sent(out, s, hs, i, hs[i].offset)
    requires i + 1 < |hs| ==> hs[i].offset <= hs[i + 1].offset
    ensures Sent(out + ListHeader(hs[i]), s, hs, i + 1, hs[i].offset)
  {
    var s0, pre, h := s[..hs[i].offset], hs[..i], hs[i];
    assert hs[..i + 1] == pre + [h];
    HeadAfter(s0, pre, h);
  }

  lemma SentAll(out: Bytes, s: Bytes, hs: seq<ListHead>)
    requires Placed(hs, |s|) && Sent(out, s, hs, |hs|, |s|)
    ensures out == Render(s, hs)
  {
    assert s[..|s|] == s && hs[..|hs|] == hs;
  }

  /** `copy` into a buffer at a position. */
  method CopyInto(out: array<Byte>, pos: nat, src: Bytes)
    requires pos + |src| <= out.Length
    modifies out
    ensures out[..pos + |src|] == old(out[..pos]) + src
  {
    forall i | 0 <= i < |src| {
      out[pos + i] := src[i];
    }
    assert forall i :: 0 <= i < pos ==> out[i] == old(out[i]);
  }

  class EncBuf {
    var str: Bytes
    var lheads: seq<ListHead>
    var lhsize: nat

    /** All lists are closed and every header is accounted for. */
    ghost predicate Complete()
      reads this
    {
      Placed(lheads, |str|) && lhsize == HeadsSize(lheads)
    }

    constructor ()
      ensures str == [] && lheads == [] && lhsize == 0 && Complete()
    {
      str, lheads, lhsize := [], [], 0;
    }

    method EncodeStringHeader(size: nat)
      requires size < MAX_SIZE
      modifies this`str
      ensures str == old(str) + Head(0x80, 0xB7, size)
    {
      if size < 56 {
        str := str + [0x80 + size];
      } else {
        PutIntIsBigEndian(size);
        EightBytes(size);
        var sizebuf := PutInt(size);
        str := str + ([0xB7 + |sizebuf|] + sizebuf);
      }
    }

    method EncodeString(b: Bytes)
      requires |b| < MAX_SIZE
      modifies this`str
      ensures str == old(str) + Encode(Str(b))
    {
      if |b| == 1 && b[0] <= 0x7F {
        str := str + [b[0]];
      } else {
        EncodeStringHeader(|b|);
        str := str + b;
      }
    }

    /** Open a list; the header remembers how much header space was in use. */
    method OpenList() returns (lh: nat)
      modifies this`lheads
      ensures lh == |old(lheads)| && lheads == old(lheads) + [ListHead(|str|, lhsize)]
    {
      lh := |lheads|;
      lheads := lheads + [ListHead(|str|, lhsize)];
    }

    method ListEnd(lh: nat)
      requires lh < |lheads| && lheads[lh].offset + lheads[lh].size <= |str| + lhsize
      modifies this`lheads, this`lhsize
      ensures var h := old(lheads)[lh]; var size := |str| + old(lhsize) - h.offset - h.size;
              lheads == old(lheads)[lh := ListHead(h.offset, size)] && lhsize == old(lhsize) + HeadSize(size)
    {
      var h := lheads[lh];
      var size := |str| + lhsize - h.offset - h.size;
      lheads := lheads[lh := ListHead(h.offset, size)];
      if size < 56 {
        lhsize := lhsize + 1;
      } else {
        var n := IntSize(size);
        lhsize := lhsize + 1 + n;
      }
    }

    /** Walk a value: the output grows by its encoding, whatever lists are still open around it. */
    method EncodeItem(t: Item) returns (ghost hs: seq<ListHead>)
      requires Encodable(t)
      modifies this
      ensures lheads == old(lheads) + hs && lhsize == old(lhsize) + HeadsSize(hs)
      ensures Appends(old(str), str, hs, Encode(t))
      decreases t
    {
      match t
      case Str(b) =>
        AppendsData(str, Encode(t));
        EncodeString(b);
        hs := [];
      case List(xs) =>
        ghost var heads0, str0, lhsize0 := lheads, str, lhsize;
        var lh := OpenList();
        ghost var open := lheads;
        ghost var ks: seq<ListHead> := [];
        AppendsData(str, []);
        assert str + [] == str;
        for i := 0 to |xs|
          invariant lheads == open + ks && lhsize == lhsize0 + HeadsSize(ks)
          invariant EncodableAll(xs[..i]) && Appends(str0, str, ks, EncodeAll(xs[..i]))
        {
          ItemEncodable(xs, i);
          ghost var before := str;
          ghost var more := EncodeItem(xs[i]);
          AppendsTwice(str0, before, str, ks, more, EncodeAll(xs[..i]), Encode(xs[i]));
          HeadsSizeConcat(ks, more);
          ks := ks + more;
        }
        assert xs[..|xs|] == xs;
        hs := CloseList(t, lh, heads0, str0, lhsize0, ks);
    }

    method CloseList(t: Item, lh: nat, ghost heads0: seq<ListHead>, ghost str0: Bytes, ghost lhsize0: nat,
                     ghost ks: seq<ListHead>) returns (ghost hs: seq<ListHead>)
      requires t.List? && Encodable(t) && lh == |heads0|
      requires lheads == heads0 + [ListHead(|str0|, lhsize0)] + ks && lhsize == lhsize0 + HeadsSize(ks)
      requires Appends(str0, str, ks, EncodeAll(t.items))
      modifies this`lheads, this`lhsize
      ensures lheads == heads0 + hs && lhsize == lhsize0 + HeadsSize(hs) && Appends(str0, str, hs, Encode(t))
    {
      AppendsLength(str0, str, ks, EncodeAll(t.items));
      ListEnd(lh);
      ghost var h := ListHead(|str0|, LenAll(t.items));
      AppendsList(str0, str, ks, EncodeAll(t.items), h);
      hs := [h] + ks;
      HeadsSizeConcat([h], ks);
      assert lheads == heads0 + hs;
    }

    /** `toBytes`. */
    method ToBytes() returns (bytes: Bytes)
      requires Complete()
      ensures bytes == Render(str, lheads)
    {
      RenderLength(str, lheads);
      var out := new Byte[|str| + lhsize];
      var strpos: nat, pos: nat := 0, 0;
      for i := 0 to |lheads|
        invariant pos <= out.Length && Sent(out[..pos], str, lheads, i, strpos)
        invariant pos == strpos + HeadsSize(lheads[..i])
      {
        strpos, pos := PutOne(out, i, strpos, pos);
      }
      assert lheads[..|lheads|] == lheads;
      SentData(out[..pos], str, lheads, |lheads|, strpos, |str|);
      CopyInto(out, pos, str[strpos..]);
      SentAll(out[..], str, lheads);
      bytes := out[..];
    }

    /** The data before header `i`, then the header. */
    method PutOne(out: array<Byte>, i: nat, strpos: nat, pos: nat) returns (strpos': nat, pos': nat)
      requires Complete() && out.Length == |str| + lhsize && i < |lheads|
      requires pos <= out.Length && Sent(out[..pos], str, lheads, i, strpos) && pos == strpos + HeadsSize(lheads[..i])
      modifies out
      ensures pos' <= out.Length && Sent(out[..pos'], str, lheads, i + 1, strpos')
      ensures pos' == strpos' + HeadsSize(lheads[..i + 1])
    {
      var head := lheads[i];
      PlacedPrefix(lheads, |str|, i);
      Room(i);
      SentData(out[..pos], str, lheads, i, strpos, head.offset);
      CopyInto(out, pos, str[strpos..head.offset]);
      pos' := pos + (head.offset - strpos);
      strpos' := head.offset;
      SentHead(out[..pos'], str, lheads, i);
      var enc := PutHead(0xC0, 0xF7, head.size);
      CopyInto(out, pos', enc);
      pos' := pos' + |enc|;
    }

    lemma Room(i: nat)
      requires Complete() && i < |lheads|
      ensures HeadsSize(lheads[..i + 1]) == HeadsSize(lheads[..i]) + HeadSize(lheads[i].size)
      ensures HeadsSize(lheads[..i + 1]) <= lhsize
    {
      assert lheads[..i + 1][..i] == lheads[..i];
      HeadsSizeConcat(lheads[..i + 1], lheads[i + 1..]);
      assert lheads == lheads[..i + 1] + lheads[i + 1..];
    }

    /** `toWriter`: what the writer has received in the end. */
    method ToWriter() returns (out: Bytes)
      requires Complete()
      ensures out == Render(str, lheads)
    {
      out := [];
      var strpos: nat := 0;
      for i := 0 to |lheads|
        invariant Sent(out, str, lheads, i, strpos)
      {
        var head := lheads[i];
        PlacedPrefix(lheads, |str|, i);
        SentData(out, str, lheads, i, strpos, head.offset);
        if head.offset - strpos > 0 {
          out := out + str[strpos..head.offset];
          strpos := head.offset;
        }
        SentHead(out, str, lheads, i);
        out := out + PutHead(0xC0, 0xF7, head.size);
      }
      SentData(out, str, lheads, |lheads|, strpos, |str|);
      if strpos < |str| {
        out := out + str[strpos..];
      }
      SentAll(out, str, lheads);
    }
  }

  /** `EncodeToBytes`: two passes give the plain encoding. */
  method EncodeToBytes(t: Item) returns (out: Bytes)
    requires Encodable(t)
    ensures out == Encode(t)
  {
    var eb := new EncBuf();
    ghost var hs := eb.EncodeItem(t);
    Whole(eb.str, eb.lheads, hs, Encode(t));
    out := eb.ToBytes();
  }

  /** `Encode` to a writer. */
  method EncodeToWriter(t: Item) returns (out: Bytes)
    requires Encodable(t)
    ensures out == Encode(t)
  {
    var eb := new EncBuf();
    ghost var hs := eb.EncodeItem(t);
    Whole(eb.str, eb.lheads, hs, Encode(t));
    out := eb.ToWriter();
  }

  lemma Whole(str: Bytes, lheads: seq<ListHead>, hs: seq<ListHead>, enc: Bytes)
    requires lheads == [] + hs && Appends([], str, hs, enc)
    ensures lheads == hs && Placed(hs, |str|) && Render(str, hs) == enc
  {
    assert Placed([], 0);
    assert [] + hs == hs;
  }

  /** What has been sent is a prefix of the whole output. */
  lemma {:induction false} SentPrefix(out: Bytes, s: Bytes, hs: seq<ListHead>, i: nat, to: nat)
    requires Placed(hs, |s|) && Sent(out, s, hs, i, to)
    ensures out <= Render(s, hs)
    decreases |hs| - i
  {
    if i == |hs| {
      SentData(out, s, hs, i, to, |s|);
      SentAll(out + s[to..], s, hs);
    } else {
      PlacedPrefix(hs, |s|, i);
      var o := hs[i].offset;
      SentData(out, s, hs, i, to, o);
      SentHead(out + s[to..o], s, hs, i);
      SentPrefix(out + s[to..o] + ListHeader(hs[i]), s, hs, i + 1, o);
    }
  }

  /** `encReader`, which hands the output out in pieces of whatever size is asked for. */
  class EncReader {
    const str: Bytes
    const lheads: seq<ListHead>
    var open: bool
    var lhpos: nat
    var strpos: nat
    var piece: Option<Bytes>
    ghost var sent: Bytes

    ghost function Whole(): Bytes
      requires Placed(lheads, |str|)
    {
      Render(str, lheads)
    }

    function Pending(): Bytes
      reads this
    {
      if piece.Some? then piece.value else []
    }

    ghost predicate Valid()
      reads this
    {
      && Placed(lheads, |str|)
      && (piece.Some? ==> open && piece.value != [])
      && (if open then Sent(sent + Pending(), str, lheads, lhpos, strpos) else sent == Whole())
    }

    constructor (eb: EncBuf)
      requires eb.Complete()
      ensures Valid() && sent == [] && Whole() == Render(eb.str, eb.lheads)
    {
      str, lheads := eb.str, eb.lheads;
      open, lhpos, strpos, piece, sent := true, 0, 0, None, [];
    }

    /** Whatever was sent is a prefix of the whole output. */
    lemma SoFar()
      requires Valid()
      ensures sent <= Whole()
    {
      if open { SentPrefix(sent + Pending(), str, lheads, lhpos, strpos); }
    }

    /** `r.piece = r.next()`. */
    method Next()
      requires Valid()
      modifies this`piece, this`lhpos, this`strpos
      ensures Valid()
      ensures piece.None? ==> sent == Whole()
    {
      if !open || piece.Some? {
        return;
      }
      assert sent + [] == sent;
      if lhpos < |lheads| {
        var head := lheads[lhpos];
        PlacedPrefix(lheads, |str|, lhpos);
        SentData(sent, str, lheads, lhpos, strpos, head.offset);
        if head.offset > strpos {
          piece := Some(str[strpos..head.offset]);
          strpos := head.offset;
        } else {
          assert str[strpos..strpos] == [];
          SentHead(sent, str, lheads, lhpos);
          piece := Some(PutHead(0xC0, 0xF7, head.size));
          lhpos := lhpos + 1;
        }
      } else {
        SentData(sent, str, lheads, lhpos, strpos, |str|);
        SentAll(sent + str[strpos..], str, lheads);
        if strpos < |str| {
          piece := Some(str[strpos..]);
          strpos := |str|;
        } else {
          assert str[strpos..] == [];
        }
      }
    }

    /**
     Read up to `n` bytes: they continue what was sent before, fewer than `n` come only at the end, and the
     end is reported exactly when everything has been sent.
     */
    method Read(n: nat) returns (data: Bytes, eof: bool)
      requires Valid()
      modifies this
      ensures Valid() && sent == old(sent) + data && sent <= Whole()
      ensures |data| <= n && (!eof ==> |data| == n)
      ensures eof <==> sent == Whole()
    {
      data := [];
      SoFar();
      while true
        invariant Valid() && sent == old(sent) + data && |data| <= n
        invariant |sent| <= |Whole()|
        decreases |Whole()| - |sent|
      {
        Next();
        if piece.None? {
          open := false;
          return data, true;
        }
        var chunk := Take(n - |data|);
        data := data + chunk;
        if piece.Some? {
          SoFar();
          return data, false;
        }
      }
    }

    /** Hand out as much of the current piece as there is room for. */
    method Take(room: nat) returns (chunk: Bytes)
      requires Valid() && piece.Some?
      modifies this`piece, this`sent
      ensures Valid() && sent == old(sent) + chunk && |sent + Pending()| <= |Whole()|
      ensures |chunk| <= room && (piece.Some? ==> |chunk| == room) && (piece.None? ==> |chunk| > 0)
    {
      var p := piece.value;
      SentPrefix(sent + p, str, lheads, lhpos, strpos);
      var nn := if |p| < room then |p| else room;
      assert sent + p == sent + p[..nn] + p[nn..];
      chunk := p[..nn];
      sent := sent + chunk;
      if nn < |p| {
        piece := Some(p[nn..]);
      } else {
        piece := None;
      }
    }
  }

  /** `EncodeToReader`: what is read in the end is the plain encoding, and its size is known from the start. */
  method EncodeToReader(t: Item) returns (size: nat, r: EncReader)
    requires Encodable(t)
    ensures fresh(r) && r.Valid() && r.sent == [] && r.Whole() == Encode(t) && size == |Encode(t)|
  {
    var eb := new EncBuf();
    ghost var hs := eb.EncodeItem(t);
    Whole(eb.str, eb.lheads, hs, Encode(t));
    RenderLength(eb.str, eb.lheads);
    size := |eb.str| + eb.lhsize;
    r := new EncReader(eb);
  }
}

/** The compact form of key fragments (src/trie/encoding.go) and its inverse. */
module CompactKeys {
  import opened TrieKeys

  /** Bytes of an even number of nibbles. */
  function Pairs(h: Hex): Bytes
    requires Nibbles(h)
  {
    if |h| < 2 then [] else [h[0] * 16 + h[1]] + Pairs(h[2..])
  }

  /** A fragment without its terminator. */
  function Bare(h: Hex): Hex {
    if HasTerm(h) then h[..|h| - 1] else h
  }

  /** Nibbles, perhaps followed by the terminator. */
  predicate KeyLike(h: Hex) {
    Nibbles(Bare(h))
  }

  /** The compact form: a flag for the terminator and for an odd length, and the nibbles packed in bytes. */
  function Compact(h: Hex): (c: Bytes)
    requires KeyLike(h)
    ensures c != []
  {
    var b, flag := Bare(h), if HasTerm(h) then 32 else 0;
    if |b| % 2 == 1 then [flag + 16 + b[0]] + Pairs(b[1..]) else [flag] + Pairs(b)
  }

  /** `compactToHex` on a key that is not empty. */
  function Expanded(c: Bytes): Hex
    requires c != []
  {
    Chopped(KeyHex(c))
  }

  /** The flag nibble says whether the terminator goes and how much of the front. */
  function Chopped(base: Hex): Hex
    requires |base| >= 3
  {
    var kept := if base[0] < 2 then base[..|base| - 1] else base;
    kept[2 - base[0] % 2..]
  }

  lemma {:induction false} PairsHex(h: Hex)
    requires Nibbles(h) && |h| % 2 == 0
    ensures KeyHex(Pairs(h)) == h + [TERM]
  {
    if h != [] {
      PairsHex(h[2..]);
      var p := Pairs(h);
      assert p[1..] == Pairs(h[2..]);
      assert h == [h[0], h[1]] + h[2..];
    }
  }

  lemma KeyHexCons(x: Byte, p: Bytes)
    ensures KeyHex([x] + p) == [x / 16, x % 16] + KeyHex(p)
  {
    assert ([x] + p)[1..] == p;
  }

  lemma PackedByte(hi: nat, lo: nat, rest: Hex)
    requires hi < 16 && lo < 16 && Nibbles(rest) && |rest| % 2 == 0
    ensures KeyHex([hi * 16 + lo] + Pairs(rest)) == [hi, lo] + (rest + [TERM])
  {
    var x: Byte, p := hi * 16 + lo, Pairs(rest);
    assert x / 16 == hi && x % 16 == lo;
    PairsHex(rest);
    KeyHexCons(x, p);
  }

  lemma ChoppedEven(hi: nat, rest: Hex)
    requires hi == 0 || hi == 2
    ensures Chopped([hi, 0] + (rest + [TERM])) == rest + if hi == 2 then [TERM] else []
  {
    var base := [hi, 0] + (rest + [TERM]);
    assert base[..|base| - 1] == [hi, 0] + rest;
  }

  lemma ChoppedOdd(hi: nat, lo: nat, rest: Hex)
    requires hi == 1 || hi == 3
    ensures Chopped([hi, lo] + (rest + [TERM])) == [lo] + rest + if hi == 3 then [TERM] else []
  {
    var base := [hi, lo] + (rest + [TERM]);
    assert base[..|base| - 1] == [hi, lo] + rest;
  }

  lemma RoundTripOdd(h: Hex)
    requires KeyLike(h) && |Bare(h)| % 2 == 1
    ensures Expanded(Compact(h)) == Bare(h) + if HasTerm(h) then [TERM] else []
  {
    var b, hi := Bare(h), if HasTerm(h) then 3 else 1;
    var rest := b[1..];
    PackedByte(hi, b[0], rest);
    assert Compact(h) == [hi * 16 + b[0]] + Pairs(rest);
    ChoppedOdd(hi, b[0], rest);
    assert b == [b[0]] + rest;
  }

  lemma RoundTripEven(h: Hex)
    requires KeyLike(h) && |Bare(h)| % 2 == 0
    ensures Expanded(Compact(h)) == Bare(h) + if HasTerm(h) then [TERM] else []
  {
    var b, hi := Bare(h), if HasTerm(h) then 2 else 0;
    PackedByte(hi, 0, b);
    assert Compact(h) == [hi * 16 + 0] + Pairs(b);
    ChoppedEven(hi, b);
  }

  /** The compact form keeps the whole fragment. */
  lemma CompactRoundTrip(h: Hex)
    requires KeyLike(h)
    ensures Expanded(Compact(h)) == h
  {
    if |Bare(h)| % 2 == 1 { RoundTripOdd(h); } else { RoundTripEven(h); }
    assert h == Bare(h) + if HasTerm(h) then [TERM] else [];
  }

  /** No two fragments have the same compact form. */
  lemma CompactInjective(g: Hex, h: Hex)
    requires KeyLike(g) && KeyLike(h) && Compact(g) == Compact(h)
    ensures g == h
  {
    CompactRoundTrip(g);
    CompactRoundTrip(h);
  }

  // ------------------------------------------------------------------------------------------
  // Byte by byte
  // ------------------------------------------------------------------------------------------

  /** The byte of two nibbles from position `i` on. */
  predicate PackedAt(b: Hex, i: nat, x: nat) {
    i + 1 < |b| && x == b[i] * 16 + b[i + 1]
  }

  /**
   Hex prefix encoding: the high nibble of the first byte tells the terminator and the odd length, its low nibble is the
   first nibble of an odd fragment and otherwise zero, and each further byte holds two nibbles, the first one high.
   */
  ghost predicate Packs(c: Bytes, h: Hex) {
    var b := Bare(h);
    var odd := |b| % 2;
    && |c| == |b| / 2 + 1
    && c[0] / 16 == (if HasTerm(h) then 2 else 0) + odd
    && c[0] % 16 == (if odd == 1 then b[0] else 0)
    && forall i {:trigger c[i]} :: 1 <= i < |c| ==> PackedAt(b, 2 * i - 2 + odd, c[i])
  }

  lemma CompactPacks(h: Hex)
    requires KeyLike(h)
    ensures Packs(Compact(h), h)
  {
    var b, c := Bare(h), Compact(h);
    var rest := if |b| % 2 == 1 then b[1..] else b;
    PairsLength(rest);
    forall i: nat | 1 <= i < |c| ensures PackedAt(b, 2 * i - 2 + |b| % 2, c[i]) {
      PairsAt(rest, i - 1);
      assert c[i] == Pairs(rest)[i - 1];
    }
  }

  /** What `compactToHex` makes of any first byte, also of one that no fragment has. */
  ghost predicate Unpacks(h: Hex, c: Bytes)
    requires c != []
  {
    var odd := c[0] / 16 % 2;
    && KeyLike(h) && (HasTerm(h) <==> c[0] / 16 >= 2)
    && |Bare(h)| == 2 * |c| - 2 + odd
    && (odd == 1 ==> Bare(h)[0] == c[0] % 16)
    && forall i {:trigger c[i]} :: 1 <= i < |c| ==> SpelledAt(Bare(h), 2 * i - 2 + odd, c[i])
  }

  /** Dropping the terminator and one or two nibbles in front. */
  lemma ChoppedBare(base: Hex)
    requires |base| >= 3 && FullKey(base)
    ensures var h := Chopped(base);
            Bare(h) == base[2 - base[0] % 2..|base| - 1] && (HasTerm(h) <==> base[0] >= 2) && KeyLike(h)
  {
    var n, from := |base| - 1, 2 - base[0] % 2;
    var h := Chopped(base);
    if base[0] < 2 {
      assert h == base[from..n];
    } else {
      assert h == base[from..] && h[..|h| - 1] == base[from..n];
    }
  }

  lemma ExpandedUnpacks(c: Bytes)
    requires c != []
    ensures Unpacks(Expanded(c), c)
  {
    var base := KeyHex(c);
    KeyHexFull(c);
    KeyHexSpells(c);
    assert base[0] == c[0] / 16 by { assert SpelledAt(base, 2 * 0, c[0]); }
    ChoppedBare(base);
    var b := Bare(Chopped(base));
    SpelledBare(c, base, b, base[0] % 2);
  }

  lemma SpelledBare(c: Bytes, base: Hex, b: Hex, odd: nat)
    requires c != [] && Spells(base, c) && odd < 2 && b == base[2 - odd..|base| - 1]
    ensures |b| == 2 * |c| - 2 + odd && (odd == 1 ==> b[0] == c[0] % 16)
    ensures forall i {:trigger c[i]} :: 1 <= i < |c| ==> SpelledAt(b, 2 * i - 2 + odd, c[i])
  {
    assert SpelledAt(base, 2 * 0, c[0]);
    forall i: nat | 1 <= i < |c| ensures SpelledAt(b, 2 * i - 2 + odd, c[i]) {
      assert SpelledAt(base, 2 * i, c[i]);
      assert b[2 * i - 2 + odd] == base[2 * i] && b[2 * i - 2 + odd + 1] == base[2 * i + 1];
    }
  }

  /** The flag is one of the four, and an even fragment has nothing in the low nibble. */
  predicate CleanFlag(c: Bytes)
    requires c != []
  {
    c[0] / 16 < 4 && (c[0] / 16 % 2 == 0 ==> c[0] % 16 == 0)
  }

  /** A byte string is the compact form of its own expansion exactly when its flag is clean. */
  lemma CanonicalIff(c: Bytes)
    requires c != []
    ensures KeyLike(Expanded(c)) && (Compact(Expanded(c)) == c <==> CleanFlag(c))
  {
    ExpandedUnpacks(c);
    CompactPacks(Expanded(c));
    if CleanFlag(c) { SamePacked(c, Compact(Expanded(c)), Expanded(c)); }
  }

  lemma SamePacked(c: Bytes, d: Bytes, h: Hex)
    requires c != [] && CleanFlag(c) && Unpacks(h, c) && Packs(d, h)
    ensures d == c
  {
    SplitByte(c[0]);
    SplitByte(d[0]);
    var odd := c[0] / 16 % 2;
    assert |Bare(h)| % 2 == odd && |d| == |c|;
    forall i: nat | 1 <= i < |c| ensures d[i] == c[i] {
      assert SpelledAt(Bare(h), 2 * i - 2 + odd, c[i]) && PackedAt(Bare(h), 2 * i - 2 + odd, d[i]);
      SplitByte(c[i]);
    }
  }

  lemma SplitByte(x: Byte)
    ensures x == (x / 16) * 16 + x % 16
  {}

  lemma FragmentKeyLike(h: Hex)
    requires Fragment(h)
    ensures KeyLike(h)
  {}

  lemma {:induction false} PairsAt(h: Hex, i: nat)
    requires Nibbles(h) && 2 * i + 1 < |h|
    ensures |Pairs(h)| == |h| / 2 && Pairs(h)[i] == h[2 * i] * 16 + h[2 * i + 1]
  {
    PairsLength(h);
    if i > 0 {
      PairsAt(h[2..], i - 1);
      assert Pairs(h)[i] == Pairs(h[2..])[i - 1];
      assert h[2..][2 * (i - 1)] == h[2 * i] && h[2..][2 * (i - 1) + 1] == h[2 * i + 1];
    }
  }

  lemma {:induction false} PairsLength(h: Hex)
    requires Nibbles(h)
    ensures |Pairs(h)| == |h| / 2
  {
    if |h| >= 2 { PairsLength(h[2..]); }
  }

  /** `decodeNibbles`: pack nibbles into a buffer from position `at` on. */
  method DecodeNibbles(nibbles: Hex, bytes: array<Byte>, at: nat)
    requires Nibbles(nibbles) && |nibbles| % 2 == 0 && at + |nibbles| / 2 == bytes.Length
    modifies bytes
    ensures bytes[..] == old(bytes[..at]) + Pairs(nibbles)
    ensures forall j {:trigger bytes[j]} :: at <= j < bytes.Length ==> PackedAt(nibbles, 2 * (j - at), bytes[j])
  {
    var bi, ni := at, 0;
    while ni < |nibbles|
      invariant ni == 2 * (bi - at) && 0 <= ni <= |nibbles|
      invariant forall j :: 0 <= j < at ==> bytes[j] == old(bytes[j])
      invariant forall j :: at <= j < bi ==> bytes[j] == nibbles[2 * (j - at)] * 16 + nibbles[2 * (j - at) + 1]
    {
      bytes[bi] := nibbles[ni] * 16 + nibbles[ni + 1];
      bi, ni := bi + 1, ni + 2;
    }
    PairsLength(nibbles);
    forall j: nat | at <= j < bytes.Length ensures bytes[j] == Pairs(nibbles)[j - at] { PairsAt(nibbles, j - at); }
  }

  /** `hexToCompact`. */
  method HexToCompact(h: Hex) returns (c: Bytes)
    requires KeyLike(h)
    ensures Packs(c, h) && c == Compact(h)
  {
    var terminator, hex := 0, h;
    if HasTerm(hex) {
      terminator := 1;
      hex := hex[..|hex| - 1];
    }
    var buf := new Byte[|hex| / 2 + 1];
    buf[0] := terminator * 32;
    if |hex| % 2 == 1 {
      buf[0] := buf[0] + 16 + hex[0];
      hex := hex[1..];
    }
    assert buf[..1] == [buf[0]];
    DecodeNibbles(hex, buf, 1);
    c := buf[..];
    CompactPacks(h);
  }

  /** `compactToHex`. */
  method CompactToHex(c: Bytes) returns (h: Hex)
    requires c != []
    ensures Unpacks(h, c) && h == Expanded(c)
  {
    ExpandedUnpacks(c);
    var base := KeybytesToHex(c);
    var chop := 2 - base[0] % 2;
    if base[0] < 2 {
      base := base[..|base| - 1];
    }
    h := base[chop..];
  }

  /** `hexToKeybytes`, which refuses keys of odd length. */
  method HexToKeybytes(h: Hex) returns (ok: bool, key: Bytes)
    requires KeyLike(h)
    ensures ok <==> |Bare(h)| % 2 == 0
    ensures ok ==> KeyHex(key) == Bare(h) + [TERM]
  {
    var hex := h;
    if HasTerm(hex) {
      hex := hex[..|hex| - 1];
    }
    if |hex| % 2 != 0 {
      return false, [];
    }
    var buf := new Byte[|hex| / 2];
    assert buf[..0] == [];
    DecodeNibbles(hex, buf, 0);
    PairsHex(hex);
    return true, buf[..];
  }
}

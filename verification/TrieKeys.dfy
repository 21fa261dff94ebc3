/** Hexadecimal keys with a terminator (src/trie/encoding.go). */
module TrieKeys {
  import ByteStrings

  type Byte = ByteStrings.Byte
  type Bytes = seq<Byte>

  /** Nibbles, with 16 as the terminator. */
  type Hex = seq<nat>

  const TERM := 16

  predicate HasTerm(k: Hex) {
    |k| > 0 && k[|k| - 1] == TERM
  }

  predicate Nibbles(k: Hex) {
    forall i :: 0 <= i < |k| ==> k[i] < 16
  }

  /** A full key: nibbles, then the terminator. */
  predicate FullKey(k: Hex) {
    HasTerm(k) && forall i :: 0 <= i < |k| - 1 ==> k[i] < 16
  }

  /** A key fragment as found in a node: some nibbles, perhaps ending a full key. */
  predicate Fragment(k: Hex) {
    |k| > 0 && (FullKey(k) || Nibbles(k))
  }

  function PrefixLenSpec(a: Hex, b: Hex): (n: nat)
    ensures n <= |a| && n <= |b| && a[..n] == b[..n]
    ensures n < |a| && n < |b| ==> a[n] != b[n]
  {
    if a == [] || b == [] || a[0] != b[0] then 0 else
      var n := 1 + PrefixLenSpec(a[1..], b[1..]);
      assert a[..n] == [a[0]] + a[1..][..n - 1] && b[..n] == [b[0]] + b[1..][..n - 1];
      n
  }

  /** The length of a common prefix that cannot be extended is unique. */
  lemma PrefixLenUnique(a: Hex, b: Hex, n: nat)
    requires n <= |a| && n <= |b| && a[..n] == b[..n]
    requires n < |a| && n < |b| ==> a[n] != b[n]
    ensures n == PrefixLenSpec(a, b)
  {
    var m := PrefixLenSpec(a, b);
    forall i | 0 <= i < n ensures a[i] == b[i] { assert a[..n][i] == b[..n][i]; }
    forall i | 0 <= i < m ensures a[i] == b[i] { assert a[..m][i] == b[..m][i]; }
  }

  method PrefixLen(a: Hex, b: Hex) returns (i: nat)
    ensures i == PrefixLenSpec(a, b)
  {
    var length := |a|;
    if |b| < length {
      length := |b|;
    }
    i := 0;
    while i < length
      invariant i <= length && a[..i] == b[..i]
    {
      if a[i] != b[i] {
        break;
      }
      i := i + 1;
    }
    PrefixLenUnique(a, b, i);
  }

  /** `keybytesToHex`. */
  function KeyHex(s: Bytes): (k: Hex)
    ensures |k| == 2 * |s| + 1
  {
    if s == [] then [TERM] else [s[0] / 16, s[0] % 16] + KeyHex(s[1..])
  }

  lemma {:induction false} KeyHexFull(s: Bytes)
    ensures FullKey(KeyHex(s))
  {
    if s != [] {
      KeyHexFull(s[1..]);
      var k, r := KeyHex(s), KeyHex(s[1..]);
      forall i | 0 <= i < |k| - 1 ensures k[i] < 16 {
        if i >= 2 { assert k[i] == r[i - 2]; }
      }
    }
  }

  lemma {:induction false} KeyHexInjective(a: Bytes, b: Bytes)
    requires KeyHex(a) == KeyHex(b)
    ensures a == b
  {
    var ka, kb := KeyHex(a), KeyHex(b);
    assert |a| == |b|;
    if a != [] {
      assert ka[2..] == KeyHex(a[1..]) && kb[2..] == KeyHex(b[1..]);
      assert ka[0] == a[0] / 16 && kb[0] == b[0] / 16 && ka[1] == a[0] % 16 && kb[1] == b[0] % 16;
      KeyHexInjective(a[1..], b[1..]);
      assert a == [a[0]] + a[1..] && b == [b[0]] + b[1..];
    }
  }

  /** The two nibbles of a byte from position `i` on, the high one first. */
  predicate SpelledAt(k: Hex, i: nat, x: Byte) {
    i + 1 < |k| && k[i] == x / 16 && k[i + 1] == x % 16
  }

  /** The nibbles of every byte, and the terminator. */
  ghost predicate Spells(k: Hex, s: Bytes) {
    && |k| == 2 * |s| + 1 && k[|k| - 1] == TERM
    && forall j {:trigger SpelledAt(k, 2 * j, s[j])} :: 0 <= j < |s| ==> SpelledAt(k, 2 * j, s[j])
  }

  lemma SpellsMore(x: Byte, s: Bytes, k: Hex)
    requires Spells(k, s)
    ensures Spells([x / 16, x % 16] + k, [x] + s)
  {
    var k', s' := [x / 16, x % 16] + k, [x] + s;
    forall j | 0 <= j < |s'| ensures SpelledAt(k', 2 * j, s'[j]) {
      if j > 0 {
        assert SpelledAt(k, 2 * (j - 1), s[j - 1]);
        assert k'[2 * j] == k[2 * (j - 1)] && k'[2 * j + 1] == k[2 * (j - 1) + 1];
      }
    }
  }

  lemma {:induction false} KeyHexSpells(s: Bytes)
    ensures Spells(KeyHex(s), s)
  {
    if s != [] {
      KeyHexSpells(s[1..]);
      SpellsMore(s[0], s[1..], KeyHex(s[1..]));
      assert s == [s[0]] + s[1..];
    }
  }

  /** `keybytesToHex`: the loop that fills the nibble buffer. */
  method KeybytesToHex(str: Bytes) returns (nibbles: Hex)
    ensures Spells(nibbles, str) && nibbles == KeyHex(str)
  {
    var l := |str| * 2 + 1;
    var buf := new nat[l];
    for i := 0 to |str|
      invariant forall j :: 0 <= j < i ==> buf[2 * j] == str[j] / 16 && buf[2 * j + 1] == str[j] % 16
    {
      buf[i * 2] := str[i] / 16;
      buf[i * 2 + 1] := str[i] % 16;
    }
    buf[l - 1] := TERM;
    nibbles := buf[..];
    forall j | 0 <= j < |str| ensures SpelledAt(nibbles, 2 * j, str[j]) {}
    KeyHexSpells(str);
    OneSpelling(str, nibbles, KeyHex(str));
  }

  /** A byte string is spelled in one way only. */
  lemma OneSpelling(s: Bytes, k: Hex, k': Hex)
    requires Spells(k, s) && Spells(k', s)
    ensures k == k'
  {
    forall i: nat | i < |k| ensures k[i] == k'[i] {
      if i < 2 * |s| {
        var j := i / 2;
        assert SpelledAt(k, 2 * j, s[j]) && SpelledAt(k', 2 * j, s[j]);
      }
    }
  }
}

/** Deferred list headers: where they go, and what putting them there gives (src/rlp/encode.go). */
module RlpHeads {
  import opened Rlp

  /** Where a list header goes in the string data, and the size it announces. */
  datatype ListHead = ListHead(offset: nat, size: nat)

  /** Headers lie in order within the first `len` bytes of string data and announce encodable sizes. */
  predicate Placed(hs: seq<ListHead>, len: nat)
    decreases |hs|
  {
    hs == [] ||
    (var h := hs[|hs| - 1];
     h.offset <= len && h.size < MAX_SIZE && Placed(hs[..|hs| - 1], h.offset))
  }

  function ListHeader(h: ListHead): Bytes
    requires h.size < MAX_SIZE
  {
    Head(0xC0, 0xF7, h.size)
  }

  /** String data with its headers put in. */
  function Render(s: Bytes, hs: seq<ListHead>): Bytes
    requires Placed(hs, |s|)
    decreases |hs|
  {
    if hs == [] then s
    else
      var h := hs[|hs| - 1];
      Render(s[..h.offset], hs[..|hs| - 1]) + ListHeader(h) + s[h.offset..]
  }

  function HeadsSize(hs: seq<ListHead>): nat {
    if hs == [] then 0 else HeadsSize(hs[..|hs| - 1]) + HeadSize(hs[|hs| - 1].size)
  }

  lemma {:induction false} RenderLength(s: Bytes, hs: seq<ListHead>)
    requires Placed(hs, |s|)
    ensures |Render(s, hs)| == |s| + HeadsSize(hs)
    decreases |hs|
  {
    if hs != [] {
      RenderLength(s[..hs[|hs| - 1].offset], hs[..|hs| - 1]);
    }
  }

  lemma {:induction false} HeadsSizeConcat(a: seq<ListHead>, b: seq<ListHead>)
    ensures HeadsSize(a + b) == HeadsSize(a) + HeadsSize(b)
  {
    if b == [] { assert a + b == a; }
    else {
      assert (a + b)[..|a + b| - 1] == a + b[..|b| - 1];
      HeadsSizeConcat(a, b[..|b| - 1]);
    }
  }

  /** Data after all headers. */
  lemma DataAfter(s: Bytes, t: Bytes, hs: seq<ListHead>)
    requires Placed(hs, |s|)
    ensures Placed(hs, |s + t|) && Render(s + t, hs) == Render(s, hs) + t
  {
    if hs != [] {
      var n := hs[|hs| - 1].offset;
      assert (s + t)[..n] == s[..n] && (s + t)[n..] == s[n..] + t;
    }
  }

  /** A header at the end. */
  lemma HeadAfter(s: Bytes, hs: seq<ListHead>, h: ListHead)
    requires Placed(hs, |s|) && h.offset == |s| && h.size < MAX_SIZE
    ensures Placed(hs + [h], |s|) && Render(s, hs + [h]) == Render(s, hs) + ListHeader(h)
  {
    assert (hs + [h])[..|hs + [h]| - 1] == hs;
    assert s[..|s|] == s && s[|s|..] == [];
  }

  /**
   Going from string data `s` to `t` with the further headers `hs` adds `enc` to the output, whatever
   headers came before.
   */
  ghost predicate Appends(s: Bytes, t: Bytes, hs: seq<ListHead>, enc: Bytes) {
    && s <= t
    && forall pre {:trigger Placed(pre, |s|)} :: Placed(pre, |s|) ==>
        Placed(pre + hs, |t|) && Render(t, pre + hs) == Render(s, pre) + enc
  }

  lemma AppendsData(s: Bytes, enc: Bytes)
    ensures Appends(s, s + enc, [], enc)
  {
    forall pre | Placed(pre, |s|)
      ensures Placed(pre + [], |s + enc|) && Render(s + enc, pre + []) == Render(s, pre) + enc
    {
      assert pre + [] == pre;
      DataAfter(s, enc, pre);
    }
  }

  lemma AppendsTwice(s: Bytes, t: Bytes, u: Bytes, hs: seq<ListHead>, ks: seq<ListHead>, a: Bytes, b: Bytes)
    requires Appends(s, t, hs, a) && Appends(t, u, ks, b)
    ensures Appends(s, u, hs + ks, a + b)
  {
    forall pre | Placed(pre, |s|)
      ensures Placed(pre + (hs + ks), |u|) && Render(u, pre + (hs + ks)) == Render(s, pre) + (a + b)
    {
      AppendsAt(s, t, hs, a, pre);
      AppendsAt(t, u, ks, b, pre + hs);
      assert pre + (hs + ks) == pre + hs + ks;
      Regroup(Render(s, pre), a, b);
    }
  }

  lemma AppendsAt(s: Bytes, t: Bytes, hs: seq<ListHead>, enc: Bytes, pre: seq<ListHead>)
    requires Appends(s, t, hs, enc) && Placed(pre, |s|)
    ensures Placed(pre + hs, |t|) && Render(t, pre + hs) == Render(s, pre) + enc
  {}

  lemma Regroup(x: Bytes, a: Bytes, b: Bytes)
    ensures x + a + b == x + (a + b)
  {}

  /** Closing a list: its header, placed before the items, announces their rendered size. */
  lemma AppendsList(s: Bytes, t: Bytes, hs: seq<ListHead>, enc: Bytes, h: ListHead)
    requires Appends(s, t, hs, enc) && h.offset == |s| && h.size < MAX_SIZE
    ensures Appends(s, t, [h] + hs, ListHeader(h) + enc)
  {
    forall pre | Placed(pre, |s|)
      ensures Placed(pre + ([h] + hs), |t|) && Render(t, pre + ([h] + hs)) == Render(s, pre) + (ListHeader(h) + enc)
    {
      assert pre + ([h] + hs) == pre + [h] + hs;
      HeadAfter(s, pre, h);
    }
  }

  /** From nothing, the rendered buffer is the encoding, and its length is data plus headers. */
  lemma AppendsLength(s: Bytes, t: Bytes, hs: seq<ListHead>, enc: Bytes)
    requires Appends(s, t, hs, enc)
    ensures |enc| == |t| - |s| + HeadsSize(hs)
  {
    assert Placed([], |s|);
    assert [] + hs == hs;
    RenderLength(t, hs);
  }
}

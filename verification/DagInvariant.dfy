/**
 What `InsertEvent` keeps: every reachable DAG is closed under parents, has unforked creator chains,
 locally consistent placements and a faithful root index; and the per-creator root lookup never fails.
 */
module DagInvariant {
  import opened Wrappers
  import opened EventDag

  /** Frames never fall towards children, and a root is an event that rises above its self-parent. */
  predicate EventRises(d: Dag, h: Hash)
    requires h in d.events
  {
    var e := d.events[h];
    !IsLeaf(e) ==>
      && Lookup(d, e.msg.selfParent).frame <= e.frame
      && Lookup(d, e.msg.otherParent).frame <= e.frame
      && (e.root <==> Lookup(d, e.msg.selfParent).frame < e.frame)
  }

  ghost predicate Rises(d: Dag) {
    forall h {:trigger EventRises(d, h)} :: h in d.events ==> EventRises(d, h)
  }

  lemma PlaceRises(self: View, other: View, otherRootTable: FlagTable, h: Hash, quorum: nat)
    ensures var p := Place(self, other, otherRootTable, h, quorum);
            self.frame <= p.frame && other.frame <= p.frame && (p.root <==> self.frame < p.frame)
  {}

  lemma FramesRise(d: Dag)
    requires AllPlaced(d)
    ensures Rises(d)
  {
    forall h | h in d.events
      ensures EventRises(d, h)
    {
      assert EventPlaced(d, h);
      var m := d.events[h].msg;
      var self, other := Lookup(d, m.selfParent), Lookup(d, m.otherParent);
      PlaceRises(ViewOf(self), ViewOf(other), OtherRootTable(d, self, other), m.hash, d.quorum);
    }
  }

  /** Along a creator's chain, insertion order and frames follow the index. */
  lemma {:induction false} ChainOrder(d: Dag, c: Creator, i: int, j: int)
    requires Closed(d) && Chained(d) && Rises(d) && c in d.chains && 0 <= i <= j < |d.chains[c]|
    ensures d.chains[c][i] in d.events && d.chains[c][j] in d.events
    ensures d.events[d.chains[c][i]].frame <= d.events[d.chains[c][j]].frame
    ensures i < j ==> d.events[d.chains[c][i]].topo < d.events[d.chains[c][j]].topo
    decreases j - i
  {
    assert LinkOk(d, c, i) && LinkOk(d, c, j);
    if i < j {
      var h := d.chains[c][j];
      assert EventClosed(d, h) && EventRises(d, h);
      var p := d.events[h].msg.selfParent;
      assert EventChained(d, p);
      ChainOrder(d, c, i, j - 1);
    }
  }

  // ------------------------------------------------------------------------------------------
  // One insertion
  // ------------------------------------------------------------------------------------------

  lemma FreshHash(d: Dag, m: Message)
    requires Chained(d) && Honest(d, m) && Insert(d, m).Ok?
    ensures m.hash !in d.events
  {
    assert m.index == |d.chains[m.creator]|;
    assert m.hash in d.events ==> EventChained(d, m.hash);
  }

  /** The accepted event's self-parent is its creator's last one, so the event extends the chain. */
  lemma NewestLink(d: Dag, m: Message)
    requires Chained(d) && Honest(d, m) && Insert(d, m).Ok?
    ensures m.creator in d.chains && m.index == |d.chains[m.creator]| > 0
    ensures m.selfParent in d.events
    ensures d.events[m.selfParent].msg.creator == m.creator
    ensures d.events[m.selfParent].msg.index == m.index - 1
  {
    assert LinkOk(d, m.creator, |d.chains[m.creator]| - 1);
  }

  /** A new root never displaces a registered one: its creator has no root of that frame yet. */
  lemma NewRootKey(d: Dag, m: Message)
    requires Inv(d) && Honest(d, m) && Insert(d, m).Ok? && NewEvent(d, m).root
    ensures (NewEvent(d, m).frame, m.creator) !in d.creatorRoots
    ensures NewEvent(d, m).frame >= 1
  {
    NewestLink(d, m);
    var self, other := Lookup(d, m.selfParent), Lookup(d, m.otherParent);
    PlaceRises(ViewOf(self), ViewOf(other), OtherRootTable(d, self, other), m.hash, d.quorum);
    NoRootAbove(d, m.creator, m.selfParent, NewEvent(d, m).frame);
  }

  lemma NoRootAbove(d: Dag, c: Creator, last: Hash, frame: int)
    requires Inv(d) && c in d.chains && last in d.events
    requires d.chains[c] != [] && d.chains[c][|d.chains[c]| - 1] == last
    requires d.events[last].frame < frame
    ensures (frame, c) !in d.creatorRoots
    ensures frame >= 1
  {
    assert EventRooted(d, last);
    if (frame, c) in d.creatorRoots {
      assert RootKeyOk(d, (frame, c));
      var r := d.creatorRoots[(frame, c)];
      assert EventChained(d, r);
      FramesRise(d);
      ChainOrder(d, c, d.events[r].msg.index, |d.chains[c]| - 1);
    }
  }

  /** `d'` has everything `d` has. */
  ghost predicate Extends(d: Dag, d': Dag) {
    && (forall h :: h in d.events ==> h in d'.events && d'.events[h] == d.events[h])
    && (forall k :: k in d.creatorRoots ==> k in d'.creatorRoots && d'.creatorRoots[k] == d.creatorRoots[k])
    && d'.quorum == d.quorum
  }

  lemma InsertExtends(d: Dag, m: Message)
    requires Inv(d) && Honest(d, m) && Insert(d, m).Ok?
    ensures Extends(d, Insert(d, m).value)
  {
    FreshHash(d, m);
    if NewEvent(d, m).root { NewRootKey(d, m); }
  }

  lemma KeepsClosed(d: Dag, m: Message)
    requires Closed(d) && Chained(d) && Honest(d, m) && Insert(d, m).Ok?
    ensures Closed(Insert(d, m).value)
  {
    FreshHash(d, m);
    NewestLink(d, m);
    var d' := Insert(d, m).value;
    forall h | h in d'.events
      ensures EventClosed(d', h)
    {
      if h == m.hash {
        assert EventClosed(d, m.selfParent);
        if m.otherParent != 0 { assert EventClosed(d, m.otherParent); }
      } else {
        assert EventClosed(d, h);
      }
    }
  }

  lemma KeepsChained(d: Dag, m: Message)
    requires Chained(d) && Honest(d, m) && Insert(d, m).Ok?
    ensures Chained(Insert(d, m).value)
  {
    FreshHash(d, m);
    NewestLink(d, m);
    var d' := Insert(d, m).value;
    forall h | h in d'.events
      ensures EventChained(d', h)
    {
      if h != m.hash { assert EventChained(d, h); }
    }
    forall c, i | c in d'.chains && 0 <= i < |d'.chains[c]|
      ensures LinkOk(d', c, i)
    {
      if c in d.chains && i < |d.chains[c]| { assert LinkOk(d, c, i); }
    }
  }

  /** Lookups made for a message whose parents are in `d` give the same in any extension. */
  lemma StableLookups(d: Dag, d': Dag, m: Message)
    requires Extends(d, d') && LookupFound(d, m)
    requires m.selfParent in d.events
    requires m.otherParent in d.events || (m.otherParent !in d'.events)
    requires forall k :: k in d.creatorRoots ==> d.creatorRoots[k] in d.events
    ensures Lookup(d', m.selfParent) == Lookup(d, m.selfParent)
    ensures Lookup(d', m.otherParent) == Lookup(d, m.otherParent)
    ensures LookupFound(d', m) && Placed(d', m) == Placed(d, m)
  {
    var self, other := Lookup(d, m.selfParent), Lookup(d, m.otherParent);
    assert OtherRootTable(d', self, other) == OtherRootTable(d, self, other);
  }

  lemma KeepsPlaced(d: Dag, m: Message)
    requires Inv(d) && Honest(d, m) && Insert(d, m).Ok?
    ensures AllPlaced(Insert(d, m).value)
  {
    FreshHash(d, m);
    NewestLink(d, m);
    InsertExtends(d, m);
    forall k | k in d.creatorRoots ensures d.creatorRoots[k] in d.events { assert RootKeyOk(d, k); }
    var d' := Insert(d, m).value;
    forall h | h in d'.events
      ensures EventPlaced(d', h)
    {
      if h == m.hash {
        StableLookups(d, d', m);
      } else if !IsLeaf(d.events[h]) {
        assert EventPlaced(d, h) && EventClosed(d, h);
        StableLookups(d, d', d.events[h].msg);
      } else {
        assert EventPlaced(d, h);
      }
    }
  }

  lemma KeepsRooted(d: Dag, m: Message)
    requires Inv(d) && Honest(d, m) && Insert(d, m).Ok?
    ensures Rooted(Insert(d, m).value)
  {
    FreshHash(d, m);
    InsertExtends(d, m);
    var d' := Insert(d, m).value;
    if NewEvent(d, m).root { NewRootKey(d, m); }
    forall k | k in d'.creatorRoots
      ensures RootKeyOk(d', k)
    {
      if k in d.creatorRoots { assert RootKeyOk(d, k); }
    }
    forall h | h in d'.events
      ensures EventRooted(d', h)
    {
      if h == m.hash { NewEventRooted(d, m); } else { assert EventRooted(d, h); }
    }
  }

  lemma KeepsRegistered(d: Dag, m: Message)
    requires Inv(d) && Honest(d, m) && Insert(d, m).Ok?
    ensures Registered(Insert(d, m).value)
  {
    FreshHash(d, m);
    if NewEvent(d, m).root { NewRootKey(d, m); }
    var d' := Insert(d, m).value;
    forall f, h
      ensures (f, h) in d'.registered <==> f >= 1 && h in d'.events && d'.events[h].root && d'.events[h].frame == f
    {
      assert (f, h) in d.registered <==> f >= 1 && h in d.events && d.events[h].root && d.events[h].frame == f;
    }
  }

  lemma NewEventRooted(d: Dag, m: Message)
    requires Inv(d) && Honest(d, m) && Insert(d, m).Ok?
    ensures m.hash in Insert(d, m).value.events && EventRooted(Insert(d, m).value, m.hash)
  {
    FreshHash(d, m);
    NewestLink(d, m);
    var self, other := Lookup(d, m.selfParent), Lookup(d, m.otherParent);
    PlaceRises(ViewOf(self), ViewOf(other), OtherRootTable(d, self, other), m.hash, d.quorum);
    assert EventRooted(d, m.selfParent);
    if NewEvent(d, m).root { NewRootKey(d, m); } else { InsertExtends(d, m); }
  }

  /**
   Only the index keeps creators from forking: an accepted new message leaves the chains unforked exactly
   when its index is the next one. `InsertEvent` checks the self-parent and not the index.
   */
  lemma ForkFreeIffNextIndex(d: Dag, m: Message)
    requires Inv(d) && Insert(d, m).Ok? && m.hash !in d.events && m.hash != 0
    ensures Chained(Insert(d, m).value) <==> m.index == |d.chains[m.creator]|
  {
    var d' := Insert(d, m).value;
    if m.index == |d.chains[m.creator]| {
      KeepsChained(d, m);
    } else {
      assert LinkOk(d, m.creator, m.index);
      var h := d.chains[m.creator][m.index];
      assert !EventChained(d', h);
    }
  }

  /**
   Such an input: a lone creator sends a second event with the index of its leaf. It is accepted, and the creator's
   chain no longer holds the leaf.
   */
  lemma ForkAccepted(leaves: seq<Leaf>, m: Message)
    requires leaves == [Leaf(7, 1)] && m == Message(9, 0, 0, 7, 0, true, true)
    ensures var d := Genesis(leaves, 1);
            && Inv(d) && Insert(d, m).Ok? && !Chained(Insert(d, m).value)
            && Insert(d, m).value.chains == map[0 := [9]] && 7 in Insert(d, m).value.events
  {
    GenesisInv(leaves, 1);
    OneLeaf(leaves);
    DisplacesLeaf(Genesis(leaves, 1), m);
  }

  lemma OneLeaf(leaves: seq<Leaf>)
    requires leaves == [Leaf(7, 1)]
    ensures var d := Genesis(leaves, 1);
            d.events == map[7 := LeafEvent(0, leaves[0])] && d.chains == map[0 := [7]] && d.creatorRoots == map[]
  {
    assert leaves[..0] == [];
  }

  lemma DisplacesLeaf(d: Dag, m: Message)
    requires Inv(d) && d.chains == map[0 := [7]] && d.events.Keys == {7} && d.creatorRoots == map[]
    requires m == Message(9, 0, 0, 7, 0, true, true)
    ensures Insert(d, m).Ok? && !Chained(Insert(d, m).value)
    ensures Insert(d, m).value.chains == map[0 := [9]] && 7 in Insert(d, m).value.events
  {
    assert EventRooted(d, 7);
    LookupNeverFails(d, m);
    ForkFreeIffNextIndex(d, m);
    assert SetIndex([7], 0, 9) == [9];
    assert Insert(d, m).value.chains == d.chains[0 := SetIndex([7], 0, 9)];
  }

  /** Every accepted honest insertion keeps the invariant. */
  lemma InsertKeepsInv(d: Dag, m: Message)
    requires Inv(d) && Honest(d, m) && Insert(d, m).Ok?
    ensures Inv(Insert(d, m).value)
  {
    KeepsClosed(d, m);
    KeepsChained(d, m);
    KeepsPlaced(d, m);
    KeepsRooted(d, m);
    KeepsRegistered(d, m);
  }

  /** The root lookup of the last branch never fails. */
  lemma LookupNeverFails(d: Dag, m: Message)
    requires Inv(d)
    ensures LookupFound(d, m)
    ensures Insert(d, m) != Err(RootLookupFailed)
  {
    if m.selfParent in d.events { assert EventRooted(d, m.selfParent); }
    if m.otherParent in d.events { assert EventRooted(d, m.otherParent); }
  }

  // ------------------------------------------------------------------------------------------
  // Genesis and whole runs
  // ------------------------------------------------------------------------------------------

  predicate IsLeafOf(d: Dag, leaves: seq<Leaf>, h: Hash, c: Creator)
    requires h in d.events
  {
    c < |leaves| && leaves[c].hash == h && d.events[h] == LeafEvent(c, leaves[c])
  }

  ghost predicate LeafStored(d: Dag, leaves: seq<Leaf>, c: Creator)
    requires c < |leaves|
  {
    leaves[c].hash in d.events && c in d.chains && d.chains[c] == [leaves[c].hash]
  }

  lemma {:induction false} GenesisShape(leaves: seq<Leaf>, quorum: nat)
    ensures var d := Genesis(leaves, quorum);
            d.quorum == quorum && d.next == |leaves| && d.creatorRoots == map[] && d.registered == {}
    ensures forall c :: c in Genesis(leaves, quorum).chains ==> c < |leaves|
    ensures forall c :: 0 <= c < |leaves| ==> LeafStored(Genesis(leaves, quorum), leaves, c)
    ensures forall h :: h in Genesis(leaves, quorum).events ==>
              exists c :: IsLeafOf(Genesis(leaves, quorum), leaves, h, c)
  {
    if leaves != [] {
      var c := |leaves| - 1;
      var d0, d := Genesis(leaves[..c], quorum), Genesis(leaves, quorum);
      GenesisShape(leaves[..c], quorum);
      forall h | h in d.events
        ensures exists b :: IsLeafOf(d, leaves, h, b)
      {
        if h == leaves[c].hash {
          assert IsLeafOf(d, leaves, h, c);
        } else {
          var b :| IsLeafOf(d0, leaves[..c], h, b);
          assert IsLeafOf(d, leaves, h, b);
        }
      }
      forall b | 0 <= b < |leaves|
        ensures LeafStored(d, leaves, b)
      {
        if b < c { assert LeafStored(d0, leaves[..c], b); }
      }
    }
  }

  lemma GenesisInv(leaves: seq<Leaf>, quorum: nat)
    requires GenesisOk(leaves, quorum)
    ensures Inv(Genesis(leaves, quorum))
  {
    GenesisShape(leaves, quorum);
    var d := Genesis(leaves, quorum);
    forall h | h in d.events
      ensures EventClosed(d, h) && EventChained(d, h) && EventPlaced(d, h) && EventRooted(d, h)
    {
      var c :| IsLeafOf(d, leaves, h, c);
      assert LeafStored(d, leaves, c);
    }
    forall c, i | c in d.chains && 0 <= i < |d.chains[c]|
      ensures LinkOk(d, c, i)
    {
      assert LeafStored(d, leaves, c);
      var b :| IsLeafOf(d, leaves, leaves[c].hash, b);
    }
  }

  /** Every DAG a node can reach satisfies the invariant, and stored events never change or go. */
  lemma {:induction false} RunInv(d: Dag, ms: seq<Message>)
    requires Inv(d) && Runs(d, ms)
    ensures Inv(After(d, ms)) && Extends(d, After(d, ms))
    decreases |ms|
  {
    if ms != [] {
      InsertKeepsInv(d, ms[0]);
      InsertExtends(d, ms[0]);
      RunInv(Insert(d, ms[0]).value, ms[1..]);
    }
  }
}

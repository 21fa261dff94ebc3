/**
 The tables that insertion fills in step by step are fast forms of reachability and quorum facts:
 the flag table is the set of same-frame roots among the ancestors, a root's root table is a quorum of
 previous-frame roots among its strict ancestors, and two roots of one frame share such an ancestor.
 */
module DagReachability {
  import opened EventDag
  import opened DagInvariant

  predicate IsParent(d: Dag, h: Hash, p: Hash)
    requires h in d.events
  {
    p in d.events && p != 0 && (p == d.events[h].msg.selfParent || p == d.events[h].msg.otherParent)
  }

  /** A walk from an event down to one of its ancestors, parent by parent. */
  ghost predicate IsPath(d: Dag, p: seq<Hash>) {
    && |p| > 0
    && (forall i :: 0 <= i < |p| ==> p[i] in d.events)
    && (forall i :: 0 <= i < |p| - 1 ==> IsParent(d, p[i], p[i + 1]))
  }

  ghost predicate Reaches(d: Dag, h: Hash, a: Hash) {
    exists p :: IsPath(d, p) && p[0] == h && p[|p| - 1] == a
  }

  /** Ancestors of `h`, itself included. */
  ghost function Anc(d: Dag, h: Hash): set<Hash>
    requires Closed(d) && h in d.events
    decreases d.events[h].topo
  {
    assert EventClosed(d, h);
    var m := d.events[h].msg;
    if IsLeaf(d.events[h]) then {h}
    else {h} + Anc(d, m.selfParent) + (if m.otherParent == 0 then {} else Anc(d, m.otherParent))
  }

  lemma {:induction false} AncIsReachability(d: Dag, h: Hash, a: Hash)
    requires Closed(d) && h in d.events
    ensures a in Anc(d, h) <==> Reaches(d, h, a)
  {
    if a in Anc(d, h) { var p := PathTo(d, h, a); }
    if Reaches(d, h, a) {
      var p :| IsPath(d, p) && p[0] == h && p[|p| - 1] == a;
      PathStays(d, p);
    }
  }

  lemma {:induction false} PathTo(d: Dag, h: Hash, a: Hash) returns (p: seq<Hash>)
    requires Closed(d) && h in d.events && a in Anc(d, h)
    ensures IsPath(d, p) && p[0] == h && p[|p| - 1] == a
    decreases d.events[h].topo
  {
    assert EventClosed(d, h);
    var m := d.events[h].msg;
    if a == h {
      p := [h];
    } else {
      var q := if a in Anc(d, m.selfParent) then m.selfParent else m.otherParent;
      var rest := PathTo(d, q, a);
      p := [h] + rest;
    }
  }

  lemma {:induction false} PathStays(d: Dag, p: seq<Hash>)
    requires Closed(d) && IsPath(d, p)
    ensures p[|p| - 1] in Anc(d, p[0])
    decreases |p|
  {
    assert EventClosed(d, p[0]);
    if |p| > 1 {
      assert IsParent(d, p[0], p[1]);
      PathStays(d, p[1..]);
    }
  }

  /** Ancestors are stored, were inserted earlier, and are in no later frame. */
  lemma {:induction false} AncBelow(d: Dag, h: Hash, a: Hash)
    requires Closed(d) && Rises(d) && h in d.events && a in Anc(d, h)
    ensures a in d.events && d.events[a].frame <= d.events[h].frame
    ensures a != h ==> d.events[a].topo < d.events[h].topo
    decreases d.events[h].topo
  {
    if a != h {
      assert EventClosed(d, h) && EventRises(d, h);
      var m := d.events[h].msg;
      AncBelow(d, if a in Anc(d, m.selfParent) then m.selfParent else m.otherParent, a);
    }
  }

  lemma {:induction false} AncTransitive(d: Dag, h: Hash, a: Hash, b: Hash)
    requires Closed(d) && h in d.events && a in Anc(d, h) && a in d.events && b in Anc(d, a)
    ensures b in Anc(d, h)
    decreases d.events[h].topo
  {
    if a != h {
      assert EventClosed(d, h);
      var m := d.events[h].msg;
      AncTransitive(d, if a in Anc(d, m.selfParent) then m.selfParent else m.otherParent, a, b);
    }
  }

  /** Earlier events of a creator are ancestors of its later ones. */
  lemma {:induction false} ChainAnc(d: Dag, c: Creator, i: int, j: int)
    requires Closed(d) && Chained(d) && c in d.chains && 0 <= i <= j < |d.chains[c]|
    ensures d.chains[c][j] in d.events && d.chains[c][i] in Anc(d, d.chains[c][j])
    decreases j - i
  {
    assert LinkOk(d, c, j);
    if i < j {
      var h := d.chains[c][j];
      assert EventClosed(d, h);
      assert EventChained(d, d.events[h].msg.selfParent);
      ChainAnc(d, c, i, j - 1);
    }
  }

  predicate IsRootAt(d: Dag, r: Hash, f: int) {
    r in d.events && d.events[r].root && d.events[r].frame == f
  }

  /** Roots of frame `f` among the ancestors-or-self of `h`. */
  ghost function RootsSeen(d: Dag, h: Hash, f: int): set<Hash>
    requires Closed(d) && h in d.events
  {
    set r | r in Anc(d, h) && IsRootAt(d, r, f)
  }

  ghost function TableOf(s: set<Hash>, f: int): FlagTable {
    map r | r in s :: f
  }

  ghost function If(b: bool, s: set<Hash>): set<Hash> { if b then s else {} }

  ghost predicate Uniform(t: FlagTable, f: int) {
    forall r :: r in t ==> t[r] == f
  }

  lemma CarryingUniform(t: FlagTable, f: int, g: int)
    requires Uniform(t, f)
    ensures Carrying(t, g) == if f == g then t else map[]
  {}

  lemma TableUniform(a: set<Hash>, f: int)
    ensures Uniform(TableOf(a, f), f) && TableOf(a, f).Keys == a
  {}

  lemma MergeTables(a: set<Hash>, b: set<Hash>, f: int)
    ensures Merge(TableOf(a, f), TableOf(b, f), f) == TableOf(a + b, f)
  {
    TableUniform(a, f);
    TableUniform(b, f);
    CarryingUniform(TableOf(a, f), f, f);
    CarryingUniform(TableOf(b, f), f, f);
  }

  lemma MergeKeys(src: FlagTable, f: int, dst: FlagTable, g: int)
    requires Uniform(src, f) && Uniform(dst, g)
    ensures Uniform(Merge(src, dst, g), g) && Merge(src, dst, g).Keys == If(f == g, src.Keys) + dst.Keys
  {
    CarryingUniform(src, f, g);
    CarryingUniform(dst, g, g);
  }

  lemma AddFlag(s: set<Hash>, h: Hash, f: int)
    ensures TableOf(s, f)[h := f] == TableOf(s + {h}, f)
    ensures map[h := f] == TableOf({h}, f)
  {}

  lemma RiseFlags(a: set<Hash>, b: set<Hash>, f: int, h: Hash, q: nat)
    ensures var p := Rise(f, Merge(TableOf(a, f), TableOf(b, f), f), h, q);
            p.flags == TableOf(if p.root then {h} else a + b, p.frame)
  {
    MergeTables(a, b, f);
    AddFlag({}, h, f + 1);
  }

  /** Placement on tables that hold sets of same-frame roots. */
  lemma PlaceFlags(self: View, other: View, t: FlagTable, h: Hash, q: nat, a: set<Hash>, b: set<Hash>)
    requires self.flags == TableOf(a, self.frame) && other.flags == TableOf(b, other.frame)
    ensures var p := Place(self, other, t, h, q);
            p.flags == TableOf(If(self.frame == p.frame, a) + If(other.frame == p.frame, b) + If(p.root, {h}), p.frame)
  {
    var p := Place(self, other, t, h, q);
    var s := If(self.frame == p.frame, a) + If(other.frame == p.frame, b) + If(p.root, {h});
    if self.frame == other.frame {
      RiseFlags(a, b, self.frame, h, q);
      assert s == if p.root then {h} else a + b;
    } else if self.frame > other.frame {
      assert s == a;
    } else {
      AddFlag(b, h, p.frame);
      assert s == b + {h};
    }
  }

  /** The table of a root that rises from two parents of one frame. */
  lemma RisingRootTable(self: View, other: View, h: Hash, q: nat)
    requires self.frame == other.frame && Uniform(self.flags, self.frame) && Uniform(other.flags, other.frame)
    ensures var p := Rise(self.frame, Merge(self.flags, other.flags, self.frame), h, q);
            p.root ==> Uniform(p.rootTable, p.frame - 1) && |p.rootTable.Keys| >= q
                       && p.rootTable.Keys == self.flags.Keys + other.flags.Keys
  {
    MergeKeys(self.flags, self.frame, other.flags, other.frame);
  }

  lemma Enough(s: set<Hash>, a: set<Hash>, b: set<Hash>, q: nat)
    requires s == a + b && |b| >= q
    ensures |s| >= q
  {
    SubsetSize(b, s);
  }

  lemma {:induction false} SubsetSize<T>(a: set<T>, b: set<T>)
    requires a <= b
    ensures |a| <= |b|
  {
    if a != {} {
      var x :| x in a;
      SubsetSize(a - {x}, b - {x});
    }
  }

  ghost function OtherRoots(d: Dag, m: Message, f: int): set<Hash>
    requires Closed(d) && (m.otherParent == 0 || m.otherParent in d.events)
  {
    if m.otherParent == 0 then {} else RootsSeen(d, m.otherParent, f)
  }

  lemma RootsStep(d: Dag, h: Hash, f: int)
    requires Closed(d) && h in d.events && !IsLeaf(d.events[h]) && EventClosed(d, h)
    ensures var m := d.events[h].msg;
            RootsSeen(d, h, f) == RootsSeen(d, m.selfParent, f) + OtherRoots(d, m, f)
                                  + (if IsRootAt(d, h, f) then {h} else {})
  {}

  lemma NoLaterRoots(d: Dag, h: Hash, f: int)
    requires Closed(d) && Rises(d) && h in d.events && d.events[h].frame < f
    ensures RootsSeen(d, h, f) == {}
  {
    forall r | r in Anc(d, h)
      ensures !IsRootAt(d, r, f)
    {
      AncBelow(d, h, r);
    }
  }

  /** The flag table is exactly the roots of the event's own frame among its ancestors-or-self. */
  lemma {:induction false} FlagTableIsReachability(d: Dag, h: Hash)
    requires Inv(d) && h in d.events
    ensures d.events[h].flags == TableOf(RootsSeen(d, h, d.events[h].frame), d.events[h].frame)
    decreases d.events[h].topo
  {
    FramesRise(d);
    assert EventClosed(d, h) && EventPlaced(d, h) && EventRises(d, h) && EventRooted(d, h);
    var e := d.events[h];
    var m := e.msg;
    if IsLeaf(e) {
      assert RootsSeen(d, h, 0) == {h};
    } else {
      FlagTableIsReachability(d, m.selfParent);
      if m.otherParent != 0 { FlagTableIsReachability(d, m.otherParent); }
      OtherTable(d, m);
      FlagStep(d, h);
    }
  }

  /** The table of an absent other parent is empty. */
  lemma OtherTable(d: Dag, m: Message)
    requires Closed(d) && (m.otherParent == 0 || m.otherParent in d.events)
    requires m.otherParent != 0 ==>
               d.events[m.otherParent].flags ==
                   TableOf(RootsSeen(d, m.otherParent, d.events[m.otherParent].frame), d.events[m.otherParent].frame)
    ensures var other := Lookup(d, m.otherParent);
            other.flags == TableOf(OtherRoots(d, m, other.frame), other.frame)
  {}

  lemma FlagStep(d: Dag, h: Hash)
    requires Closed(d) && Rises(d) && h in d.events && !IsLeaf(d.events[h])
    requires EventClosed(d, h) && EventPlaced(d, h) && EventRises(d, h)
    requires var s := d.events[h].msg.selfParent;
             d.events[s].flags == TableOf(RootsSeen(d, s, d.events[s].frame), d.events[s].frame)
    requires var other := Lookup(d, d.events[h].msg.otherParent);
             other.flags == TableOf(OtherRoots(d, d.events[h].msg, other.frame), other.frame)
    ensures d.events[h].flags == TableOf(RootsSeen(d, h, d.events[h].frame), d.events[h].frame)
  {
    var e := d.events[h];
    var m := e.msg;
    var self, other := Lookup(d, m.selfParent), Lookup(d, m.otherParent);
    PlaceFlags(ViewOf(self), ViewOf(other), OtherRootTable(d, self, other), h, d.quorum,
               RootsSeen(d, m.selfParent, self.frame), OtherRoots(d, m, other.frame));
    RootsStep(d, h, e.frame);
    if self.frame < e.frame { NoLaterRoots(d, m.selfParent, e.frame); }
    if m.otherParent != 0 && other.frame < e.frame { NoLaterRoots(d, m.otherParent, e.frame); }
  }

  /** A quorum of previous-frame roots, all of them strict ancestors of `h`. */
  ghost predicate QuorumTable(d: Dag, h: Hash, table: FlagTable)
    requires Closed(d) && h in d.events
  {
    && |table.Keys| >= d.quorum
    && Uniform(table, d.events[h].frame - 1)
    && table.Keys <= RootsSeen(d, h, d.events[h].frame - 1) - {h}
  }

  /** Every root of frame one or more carries a quorum of previous-frame roots it descends from. */
  lemma {:induction false} RootTableIsQuorum(d: Dag, h: Hash)
    requires Inv(d) && h in d.events && d.events[h].root && d.events[h].frame >= 1
    ensures QuorumTable(d, h, d.events[h].rootTable)
    decreases d.events[h].topo
  {
    FramesRise(d);
    RootCases(d, h);
    var m := d.events[h].msg;
    ParentTables(d, h);
    if Lookup(d, m.selfParent).frame == Lookup(d, m.otherParent).frame {
      RisingQuorum(d, h);
    } else {
      var r := JumpRoot(d, h);
      RootTableIsQuorum(d, r);
      InheritedTable(d, m, r);
      JumpingQuorum(d, h, d.events[r].rootTable);
    }
  }

  lemma RootCases(d: Dag, h: Hash)
    requires Inv(d) && h in d.events && d.events[h].root && d.events[h].frame >= 1
    ensures !IsLeaf(d.events[h]) && EventClosed(d, h)
    ensures var m := d.events[h].msg; Lookup(d, m.selfParent).frame == Lookup(d, m.otherParent).frame || Jumps(d, h)
  {
    assert EventClosed(d, h) && EventPlaced(d, h);
  }

  predicate Jumps(d: Dag, h: Hash)
    requires h in d.events
  {
    var m := d.events[h].msg;
    Lookup(d, m.selfParent).frame < Lookup(d, m.otherParent).frame
  }

  /** The earlier root whose table a jumping root builds on. */
  lemma JumpRoot(d: Dag, h: Hash) returns (r: Hash)
    requires Inv(d) && h in d.events && !IsLeaf(d.events[h]) && EventClosed(d, h) && Jumps(d, h)
    ensures var m := d.events[h].msg;
            && r in d.events && m.otherParent != 0 && r in Anc(d, m.otherParent)
            && d.events[r].topo < d.events[h].topo && d.events[r].root && d.events[r].frame >= 1
            && d.events[r].frame == d.events[m.otherParent].frame
            && d.events[r].msg.creator == d.events[m.otherParent].msg.creator
            && OtherRootTable(d, Lookup(d, m.selfParent), Lookup(d, m.otherParent)) == d.events[r].rootTable
  {
    assert EventRooted(d, d.events[h].msg.selfParent);
    r := OtherRootBelow(d, d.events[h].msg);
  }

  lemma ParentTables(d: Dag, h: Hash)
    requires Inv(d) && h in d.events && !IsLeaf(d.events[h]) && EventClosed(d, h)
    ensures var m := d.events[h].msg; var self, other := Lookup(d, m.selfParent), Lookup(d, m.otherParent);
            && self.flags.Keys == RootsSeen(d, m.selfParent, self.frame) && Uniform(self.flags, self.frame)
            && other.flags.Keys == OtherRoots(d, m, other.frame) && Uniform(other.flags, other.frame)
  {
    var m := d.events[h].msg;
    FlagTableIsReachability(d, m.selfParent);
    if m.otherParent != 0 { FlagTableIsReachability(d, m.otherParent); }
  }

  lemma RisingQuorum(d: Dag, h: Hash)
    requires Closed(d) && Rises(d) && h in d.events && !IsLeaf(d.events[h])
    requires EventClosed(d, h) && AllPlaced(d) && d.events[h].root
    requires var m := d.events[h].msg; var self, other := Lookup(d, m.selfParent), Lookup(d, m.otherParent);
             && self.frame == other.frame
             && self.flags.Keys == RootsSeen(d, m.selfParent, self.frame) && Uniform(self.flags, self.frame)
             && other.flags.Keys == OtherRoots(d, m, other.frame) && Uniform(other.flags, other.frame)
    ensures QuorumTable(d, h, d.events[h].rootTable)
  {
    var m, e := d.events[h].msg, d.events[h];
    var self, other := Lookup(d, m.selfParent), Lookup(d, m.otherParent);
    assert EventPlaced(d, h);
    assert PlacementOf(e) == Rise(self.frame, Merge(self.flags, other.flags, self.frame), h, d.quorum);
    RisingRootTable(ViewOf(self), ViewOf(other), h, d.quorum);
    assert e.frame - 1 == self.frame;
    RootsStep(d, h, e.frame - 1);
    StrictRoots(d, h, e.frame - 1);
  }

  /** The table of a root that jumps to its other parent's frame contains that frame's inherited one. */
  lemma JumpedTable(d: Dag, h: Hash, t: FlagTable)
    requires h in d.events && !IsLeaf(d.events[h]) && EventClosed(d, h) && EventPlaced(d, h) && Jumps(d, h)
    requires var m := d.events[h].msg; var self, other := Lookup(d, m.selfParent), Lookup(d, m.otherParent);
             && Uniform(self.flags, self.frame) && OtherRootTable(d, self, other) == t
             && Uniform(t, other.frame - 1) && |t.Keys| >= d.quorum
    ensures var e := d.events[h]; var self, other := Lookup(d, e.msg.selfParent), Lookup(d, e.msg.otherParent);
            && e.frame == other.frame && Uniform(e.rootTable, e.frame - 1) && |e.rootTable.Keys| >= d.quorum
            && e.rootTable.Keys == If(self.frame == e.frame - 1, self.flags.Keys) + t.Keys
  {
    var e := d.events[h];
    var self, other := Lookup(d, e.msg.selfParent), Lookup(d, e.msg.otherParent);
    JumpIs(d, h, t);
    MergeKeys(self.flags, self.frame, t, other.frame - 1);
    Enough(e.rootTable.Keys, If(self.frame == e.frame - 1, self.flags.Keys), t.Keys, d.quorum);
  }

  lemma JumpIs(d: Dag, h: Hash, t: FlagTable)
    requires h in d.events && !IsLeaf(d.events[h]) && EventPlaced(d, h) && Jumps(d, h)
    requires var m := d.events[h].msg; OtherRootTable(d, Lookup(d, m.selfParent), Lookup(d, m.otherParent)) == t
    ensures var e := d.events[h]; var self, other := Lookup(d, e.msg.selfParent), Lookup(d, e.msg.otherParent);
            e.frame == other.frame && e.rootTable == Merge(self.flags, t, other.frame - 1)
  {}

  lemma JumpingQuorum(d: Dag, h: Hash, t: FlagTable)
    requires Closed(d) && Rises(d) && h in d.events && !IsLeaf(d.events[h])
    requires EventClosed(d, h) && AllPlaced(d) && Jumps(d, h)
    requires var m := d.events[h].msg; var self, other := Lookup(d, m.selfParent), Lookup(d, m.otherParent);
             && self.flags.Keys == RootsSeen(d, m.selfParent, self.frame) && Uniform(self.flags, self.frame)
             && OtherRootTable(d, self, other) == t && Uniform(t, other.frame - 1)
             && |t.Keys| >= d.quorum && t.Keys <= OtherRoots(d, m, other.frame - 1)
    ensures QuorumTable(d, h, d.events[h].rootTable)
  {
    assert EventPlaced(d, h);
    JumpedTable(d, h, t);
    var f := d.events[h].frame - 1;
    RootsStep(d, h, f);
    StrictRoots(d, h, f);
  }

  /** What a root inherited, every event above it has among its ancestors. */
  lemma InheritedTable(d: Dag, m: Message, r: Hash)
    requires Closed(d) && m.otherParent in d.events && m.otherParent != 0 && r in d.events && r in Anc(d, m.otherParent)
    requires d.events[r].frame == d.events[m.otherParent].frame
    requires QuorumTable(d, r, d.events[r].rootTable)
    ensures var rt := d.events[r].rootTable; var f := Lookup(d, m.otherParent).frame - 1;
            rt.Keys <= OtherRoots(d, m, f)
  {
    forall x | x in d.events[r].rootTable
      ensures x in Anc(d, m.otherParent)
    {
      AncTransitive(d, m.otherParent, r, x);
    }
  }

  lemma StrictRoots(d: Dag, h: Hash, f: int)
    requires Closed(d) && Rises(d) && h in d.events && EventClosed(d, h) && !IsLeaf(d.events[h])
    ensures var m := d.events[h].msg;
            h !in RootsSeen(d, m.selfParent, f) && h !in OtherRoots(d, m, f)
  {
    var m := d.events[h].msg;
    if h in Anc(d, m.selfParent) { AncBelow(d, m.selfParent, h); }
    if m.otherParent != 0 && h in Anc(d, m.otherParent) { AncBelow(d, m.otherParent, h); }
  }

  /** The registered root consulted for the other parent is one of its ancestors-or-self. */
  lemma OtherRootBelow(d: Dag, m: Message) returns (r: Hash)
    requires Inv(d) && m.otherParent in d.events && d.events[m.otherParent].frame >= 1
    ensures var o := d.events[m.otherParent];
            && (o.frame, o.msg.creator) in d.creatorRoots && r == d.creatorRoots[(o.frame, o.msg.creator)]
            && IsRootAt(d, r, o.frame) && r in Anc(d, m.otherParent)
            && d.events[r].topo <= o.topo && d.events[r].msg.creator == o.msg.creator
  {
    assert EventRooted(d, m.otherParent);
    var o := d.events[m.otherParent];
    r := d.creatorRoots[(o.frame, o.msg.creator)];
    assert EventChained(d, r) && EventChained(d, m.otherParent);
    ChainAnc(d, o.msg.creator, d.events[r].msg.index, o.msg.index);
    FramesRise(d);
    AncBelow(d, m.otherParent, r);
  }

  // ------------------------------------------------------------------------------------------
  // Quorum intersection
  // ------------------------------------------------------------------------------------------

  /** A creator has at most one root per frame. */
  lemma OneRootPerCreator(d: Dag, a: Hash, b: Hash)
    requires Inv(d) && a in d.events && b in d.events
    requires d.events[a].root && d.events[b].root && d.events[a].frame == d.events[b].frame
    requires d.events[a].msg.creator == d.events[b].msg.creator
    ensures a == b
  {
    assert EventRooted(d, a) && EventRooted(d, b);
    FramesRise(d);
    if d.events[a].frame == 0 {
      LowestRoot(d, a);
      LowestRoot(d, b);
      assert EventChained(d, a) && EventChained(d, b);
    }
  }

  lemma LowestRoot(d: Dag, a: Hash)
    requires Inv(d) && Rises(d) && a in d.events && d.events[a].root && d.events[a].frame == 0
    ensures d.events[a].msg.index == 0
  {
    assert EventClosed(d, a) && EventRises(d, a);
    assert !IsLeaf(d.events[a]) ==> EventRooted(d, d.events[a].msg.selfParent);
  }

  /** Roots of one frame are no more than participants. */
  lemma {:induction false} RootsPerFrame(d: Dag, s: set<Hash>, f: int, cs: set<Creator>)
    requires Inv(d)
    requires forall r :: r in s ==> IsRootAt(d, r, f) && d.events[r].msg.creator in cs
    ensures |s| <= |cs|
  {
    if s != {} {
      var r :| r in s;
      var c := d.events[r].msg.creator;
      forall x | x in s - {r}
        ensures d.events[x].msg.creator in cs - {c}
      {
        assert IsRootAt(d, x, f);
        if d.events[x].msg.creator == c { OneRootPerCreator(d, x, r); }
      }
      RootsPerFrame(d, s - {r}, f, cs - {c});
    }
  }

  /** With unit weights, two roots of one frame share a previous-frame root among their strict ancestors. */
  lemma QuorumsIntersect(d: Dag, a: Hash, b: Hash) returns (r: Hash)
    requires Inv(d) && d.quorum == 2 * |d.chains| / 3 + 1
    requires a in d.events && b in d.events && d.events[a].root && d.events[b].root
    requires d.events[a].frame == d.events[b].frame >= 1
    ensures r in d.events[a].rootTable && r in d.events[b].rootTable
    ensures IsRootAt(d, r, d.events[a].frame - 1)
    ensures r != a && r != b && r in Anc(d, a) && r in Anc(d, b)
  {
    RootTableIsQuorum(d, a);
    RootTableIsQuorum(d, b);
    r := Common(d, a, b);
  }

  lemma Common(d: Dag, a: Hash, b: Hash) returns (r: Hash)
    requires Inv(d) && d.quorum == 2 * |d.chains| / 3 + 1
    requires a in d.events && b in d.events && d.events[a].frame == d.events[b].frame
    requires QuorumTable(d, a, d.events[a].rootTable) && QuorumTable(d, b, d.events[b].rootTable)
    ensures r in d.events[a].rootTable && r in d.events[b].rootTable
  {
    var A, B, f := d.events[a].rootTable.Keys, d.events[b].rootTable.Keys, d.events[a].frame - 1;
    forall x | x in A + B ensures IsRootAt(d, x, f) {
      if x in A { assert x in RootsSeen(d, a, f); } else { assert x in RootsSeen(d, b, f); }
    }
    Overlap(d, A, B, f);
    r :| r in A * B;
  }

  lemma Overlap(d: Dag, A: set<Hash>, B: set<Hash>, f: int)
    requires Inv(d) && d.quorum == 2 * |d.chains| / 3 + 1 && |A| >= d.quorum && |B| >= d.quorum
    requires forall x :: x in A + B ==> IsRootAt(d, x, f)
    ensures A * B != {}
  {
    if A * B == {} { TooManyRoots(d, A, B, f); }
  }

  /** Disjoint sets of roots of one frame have together no more members than there are participants. */
  lemma TooManyRoots(d: Dag, A: set<Hash>, B: set<Hash>, f: int)
    requires Inv(d) && A * B == {}
    requires forall x :: x in A + B ==> IsRootAt(d, x, f)
    ensures |A| + |B| <= |d.chains|
  {
    forall x | x in A + B
      ensures d.events[x].msg.creator in d.chains.Keys
    {
      assert IsRootAt(d, x, f);
      assert EventChained(d, x);
    }
    RootsPerFrame(d, A + B, f, d.chains.Keys);
    assert |A + B| == |A| + |B|;
  }
}

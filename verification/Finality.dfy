/**
 Final timestamps: which events have one, which are listed in consensus order, and which loaded events are
 still waited for (src/poset/poset.go).
 */
module Finality {
  import opened EventDag
  import opened DagInvariant
  import opened DagReachability

  datatype Marks = Marks(clotho: bool, atropos: bool, atroposTimestamp: nat, frameReceived: int)

  /** Zero is the value of a timestamp that was never set. */
  predicate Assigned(marks: map<Hash, Marks>, h: Hash) {
    h in marks && marks[h].atroposTimestamp != 0
  }

  /** Zero is the value of a received frame that was never set, too. */
  predicate Received(marks: map<Hash, Marks>, h: Hash) {
    h in marks && marks[h].frameReceived != 0
  }

  /** The final timestamp of an event: its other parent's Lamport time, or its own without one. */
  function FinalTime(d: Dag, h: Hash): nat
    requires h in d.events
  {
    var o := d.events[h].msg.otherParent;
    if o in d.events then d.events[o].lamport else d.events[h].lamport
  }

  predicate ParentsAssigned(d: Dag, marks: map<Hash, Marks>, h: Hash)
    requires h in d.events
  {
    var m := d.events[h].msg;
    && (m.selfParent in d.events ==> Assigned(marks, m.selfParent) && Received(marks, m.selfParent))
    && (m.otherParent in d.events ==> Assigned(marks, m.otherParent) && Received(marks, m.otherParent))
  }

  /**
   A final timestamp is the right one, and comes after those of both parents. An event other than a leaf has a received
   frame exactly when it is final, and a confirmed one has its own.
   */
  predicate MarkOk(d: Dag, marks: map<Hash, Marks>, h: Hash)
    requires h in d.events
  {
    && (IsLeaf(d.events[h]) ==> Assigned(marks, h) && marks[h].atropos)
    && (Assigned(marks, h) ==> marks[h].atroposTimestamp == FinalTime(d, h) && ParentsAssigned(d, marks, h))
    && (h in marks && marks[h].atropos ==> Assigned(marks, h))
    && (!IsLeaf(d.events[h]) ==> (Received(marks, h) <==> Assigned(marks, h)))
    && (!IsLeaf(d.events[h]) && h in marks && marks[h].atropos ==> marks[h].frameReceived == d.events[h].frame)
  }

  ghost predicate MarksOk(d: Dag, marks: map<Hash, Marks>) {
    && marks.Keys == d.events.Keys
    && forall h {:trigger MarkOk(d, marks, h)} :: h in d.events ==> MarkOk(d, marks, h)
  }

  predicate Counted(d: Dag, marks: map<Hash, Marks>, early: set<Hash>, h: Hash) {
    h in d.events && !IsLeaf(d.events[h]) && (Assigned(marks, h) || h in early)
  }

  ghost predicate Distinct(s: seq<Hash>) {
    forall i, j :: 0 <= i < j < |s| ==> s[i] != s[j]
  }

  /**
   The consensus list holds each non-leaf event with a final timestamp exactly once; `early` are events
   already listed whose timestamp is about to be set.
   */
  ghost predicate ListOk(d: Dag, marks: map<Hash, Marks>, early: set<Hash>, consensus: seq<Hash>) {
    && Distinct(consensus)
    && forall h {:trigger h in consensus} :: h in consensus <==> Counted(d, marks, early, h)
  }

  /** Loaded events that have no final timestamp and are not accounted for yet. */
  ghost function Waiting(d: Dag, marks: map<Hash, Marks>, early: set<Hash>): set<Hash> {
    set h | h in d.events && d.events[h].msg.loaded && !Assigned(marks, h) && h !in early
  }

  /** What a walk for a confirmed event of `frame` may do to a record. */
  predicate Walked(a: Marks, b: Marks, frame: int) {
    && b.clotho == a.clotho && b.atropos == a.atropos
    && (a.atroposTimestamp != 0 ==> b.atroposTimestamp == a.atroposTimestamp)
    && (b.frameReceived == a.frameReceived || (a.frameReceived == 0 && b.frameReceived == frame))
  }

  /** Outside the given set nothing changed, and inside it only timestamps and received frames that were not set. */
  ghost predicate OnlyWithin(d: Dag, old_: map<Hash, Marks>, new_: map<Hash, Marks>, s: set<Hash>, frame: int) {
    && old_.Keys == new_.Keys == d.events.Keys
    && forall h {:trigger new_[h]} :: h in old_ ==>
         (h !in s ==> new_[h] == old_[h]) && Walked(old_[h], new_[h], frame)
  }

  lemma WithinTwice(d: Dag, a: map<Hash, Marks>, b: map<Hash, Marks>, c: map<Hash, Marks>, s: set<Hash>, t: set<Hash>,
                    u: set<Hash>, frame: int)
    requires OnlyWithin(d, a, b, s, frame) && OnlyWithin(d, b, c, t, frame) && s <= u && t <= u
    ensures OnlyWithin(d, a, c, u, frame)
  {
    forall h {:trigger c[h]} | h in a
      ensures (h !in u ==> c[h] == a[h]) && Walked(a[h], c[h], frame)
    {
      assert h in b && Walked(a[h], b[h], frame);
    }
  }

  /** A parent's ancestors are strict ancestors of the child. */
  lemma ParentsBelow(d: Dag, h: Hash, p: Hash)
    requires Inv(d) && h in d.events && p in d.events && IsParent(d, h, p)
    ensures Anc(d, p) <= Anc(d, h) - {h}
  {
    FramesRise(d);
    assert EventClosed(d, h);
    forall a | a in Anc(d, p) ensures a in Anc(d, h) - {h} { AncBelow(d, p, a); }
  }

  lemma {:induction false} LamportPositive(d: Dag, h: Hash)
    requires Inv(d) && h in d.events
    ensures d.events[h].lamport > 0
    decreases d.events[h].topo
  {
    assert EventPlaced(d, h) && EventClosed(d, h);
    if !IsLeaf(d.events[h]) { LamportPositive(d, d.events[h].msg.selfParent); }
  }

  lemma FinalTimePositive(d: Dag, h: Hash)
    requires Inv(d) && h in d.events
    ensures FinalTime(d, h) > 0
  {
    LamportPositive(d, h);
    var o := d.events[h].msg.otherParent;
    if o in d.events { LamportPositive(d, o); }
  }

  /** Giving an event its final timestamp once its parents have theirs. */
  lemma AssignOne(d: Dag, marks: map<Hash, Marks>, h: Hash, m: Marks)
    requires Inv(d) && MarksOk(d, marks) && h in d.events && ParentsAssigned(d, marks, h)
    requires m.atroposTimestamp == FinalTime(d, h) && (marks[h].atropos ==> m.atropos) && m.frameReceived != 0
    requires m.atropos && !IsLeaf(d.events[h]) ==> m.frameReceived == d.events[h].frame
    ensures MarksOk(d, marks[h := m])
  {
    FinalTimePositive(d, h);
    var marks' := marks[h := m];
    forall x | x in d.events
      ensures MarkOk(d, marks', x)
    {
      assert MarkOk(d, marks, x);
    }
  }

  /** Visiting an event that is final already: at most a leaf is given its received frame. */
  lemma TouchOne(d: Dag, marks: map<Hash, Marks>, h: Hash, m: Marks, early: set<Hash>, consensus: seq<Hash>)
    requires MarksOk(d, marks) && h in d.events && m.atroposTimestamp == marks[h].atroposTimestamp
    requires m.atropos == marks[h].atropos && (m == marks[h] || (IsLeaf(d.events[h]) && m.frameReceived != 0))
    requires ListOk(d, marks, early, consensus)
    ensures MarksOk(d, marks[h := m]) && ListOk(d, marks[h := m], early, consensus)
    ensures Waiting(d, marks[h := m], early) == Waiting(d, marks, early)
  {
    var marks' := marks[h := m];
    forall x ensures Assigned(marks', x) == Assigned(marks, x) {}
    forall x ensures Counted(d, marks', early, x) <==> Counted(d, marks, early, x) {}
    forall x | x in d.events
      ensures MarkOk(d, marks', x)
    {
      assert MarkOk(d, marks, x);
    }
  }

  /** Writing back one record after a walk below it. */
  lemma WriteBack(d: Dag, old_: map<Hash, Marks>, marks: map<Hash, Marks>, s: set<Hash>, p: Hash, m: Marks, frame: int)
    requires p in d.events && p in s && OnlyWithin(d, old_, marks, s - {p}, frame) && Walked(old_[p], m, frame)
    ensures OnlyWithin(d, old_, marks[p := m], s, frame)
  {}

  /** Listing an event that was not counted yet. */
  lemma ListOne(d: Dag, marks: map<Hash, Marks>, early: set<Hash>, consensus: seq<Hash>, h: Hash)
    requires ListOk(d, marks, early, consensus)
    requires h in d.events && !IsLeaf(d.events[h]) && !Assigned(marks, h) && h !in early
    ensures ListOk(d, marks, early + {h}, consensus + [h])
    ensures Waiting(d, marks, early + {h}) == Waiting(d, marks, early) - {h}
    ensures |Waiting(d, marks, early + {h})| == |Waiting(d, marks, early)| - (if d.events[h].msg.loaded then 1 else 0)
  {
    assert h !in consensus;
    var c' := consensus + [h];
    forall x ensures x in c' <==> Counted(d, marks, early + {h}, x) {
      assert x in c' <==> x in consensus || x == h;
    }
  }

  /** Setting the timestamp of an event listed early. */
  lemma SettleOne(d: Dag, marks: map<Hash, Marks>, early: set<Hash>, consensus: seq<Hash>, h: Hash, m: Marks)
    requires marks.Keys == d.events.Keys && h in d.events && !IsLeaf(d.events[h]) && m.atroposTimestamp != 0
    requires ListOk(d, marks, early + {h}, consensus)
    ensures ListOk(d, marks[h := m], early, consensus)
    ensures Waiting(d, marks[h := m], early) == Waiting(d, marks, early + {h})
  {
    var marks' := marks[h := m];
    forall x ensures Counted(d, marks', early, x) <==> Counted(d, marks, early + {h}, x) {}
  }

  /** Writing the record of an event that has its final timestamp already. */
  lemma RewriteOne(d: Dag, marks: map<Hash, Marks>, early: set<Hash>, consensus: seq<Hash>, h: Hash, m: Marks)
    requires Assigned(marks, h) && m.atroposTimestamp != 0 && ListOk(d, marks, early, consensus)
    ensures ListOk(d, marks[h := m], early, consensus)
    ensures Waiting(d, marks[h := m], early) == Waiting(d, marks, early)
  {
    var marks' := marks[h := m];
    forall x ensures Counted(d, marks', early, x) <==> Counted(d, marks, early, x) {}
  }

  const NEW_MARKS := Marks(false, false, 0, 0)

  /** A newly stored event has no final timestamp and is waited for if it is loaded. */
  lemma StoreFresh(d: Dag, m: Message, marks: map<Hash, Marks>, consensus: seq<Hash>)
    requires Inv(d) && Honest(d, m) && Insert(d, m).Ok?
    requires MarksOk(d, marks) && ListOk(d, marks, {}, consensus)
    ensures var d', marks' := Insert(d, m).value, marks[m.hash := NEW_MARKS];
            && MarksOk(d', marks') && ListOk(d', marks', {}, consensus)
            && |Waiting(d', marks', {})| == |Waiting(d, marks, {})| + (if m.loaded then 1 else 0)
  {
    FreshHash(d, m);
    FreshMarks(d, m, marks);
    var d', marks' := Insert(d, m).value, marks[m.hash := NEW_MARKS];
    forall h ensures Counted(d', marks', {}, h) <==> Counted(d, marks, {}, h) {}
    FreshWaiting(d, d', m, marks);
  }

  lemma FreshMarks(d: Dag, m: Message, marks: map<Hash, Marks>)
    requires Inv(d) && Honest(d, m) && Insert(d, m).Ok? && MarksOk(d, marks) && m.hash !in d.events
    ensures MarksOk(Insert(d, m).value, marks[m.hash := NEW_MARKS])
  {
    NewestLink(d, m);
    var d', marks' := Insert(d, m).value, marks[m.hash := NEW_MARKS];
    forall h | h in d'.events ensures MarkOk(d', marks', h) {
      if h != m.hash {
        assert MarkOk(d, marks, h) && EventClosed(d, h);
        StillAssigned(d, m, marks, h);
      }
    }
  }

  lemma FreshWaiting(d: Dag, d': Dag, m: Message, marks: map<Hash, Marks>)
    requires marks.Keys == d.events.Keys && m.hash !in d.events
    requires d'.events.Keys == d.events.Keys + {m.hash} && d'.events[m.hash].msg == m
    requires forall h :: h in d.events ==> d'.events[h] == d.events[h]
    ensures |Waiting(d', marks[m.hash := NEW_MARKS], {})| == |Waiting(d, marks, {})| + (if m.loaded then 1 else 0)
  {
    var more: set<Hash> := if m.loaded then {m.hash} else {};
    assert Waiting(d', marks[m.hash := NEW_MARKS], {}) == Waiting(d, marks, {}) + more;
  }

  lemma StillAssigned(d: Dag, m: Message, marks: map<Hash, Marks>, h: Hash)
    requires Inv(d) && Insert(d, m).Ok? && m.hash !in d.events && m.hash != 0 && marks.Keys == d.events.Keys
    requires h in d.events && EventClosed(d, h)
    ensures var d', marks' := Insert(d, m).value, marks[m.hash := NEW_MARKS];
            (ParentsAssigned(d, marks, h) ==> ParentsAssigned(d', marks', h)) && FinalTime(d', h) == FinalTime(d, h)
  {}

  ghost predicate LeafMarks(d: Dag, marks: map<Hash, Marks>) {
    forall h {:trigger marks[h]} :: h in marks && h in d.events ==>
        marks[h] == Marks(true, true, d.events[h].lamport, 0)
  }

  lemma LeavesAreFinal(leaves: seq<Leaf>, quorum: nat, marks: map<Hash, Marks>)
    requires GenesisOk(leaves, quorum)
    requires var d := Genesis(leaves, quorum); marks.Keys == d.events.Keys && LeafMarks(d, marks)
    ensures var d := Genesis(leaves, quorum);
            MarksOk(d, marks) && ListOk(d, marks, {}, []) && Waiting(d, marks, {}) == {}
  {
    GenesisShape(leaves, quorum);
    var d := Genesis(leaves, quorum);
    forall h | h in d.events
      ensures IsLeaf(d.events[h]) && Assigned(marks, h) && MarkOk(d, marks, h)
    {
      var c :| IsLeafOf(d, leaves, h, c);
      GenesisInv(leaves, quorum);
      assert EventClosed(d, h);
    }
  }

  // ------------------------------------------------------------------------------------------
  // What is final
  // ------------------------------------------------------------------------------------------

  /** A confirmed event is `h` or descends from it. */
  ghost predicate BelowAtropos(d: Dag, marks: map<Hash, Marks>, h: Hash)
    requires Closed(d)
  {
    exists x :: x in d.events && x in marks && marks[x].atropos && h in Anc(d, x)
  }

  /** A confirmed event of frame `f` is `h` or descends from it. */
  ghost predicate BelowFrame(d: Dag, marks: map<Hash, Marks>, h: Hash, f: int)
    requires Closed(d)
  {
    exists x :: x in d.events && x in marks && marks[x].atropos && h in Anc(d, x) && d.events[x].frame == f
  }

  /** What is final is below a confirmed event, and a received frame is the frame of one. */
  ghost predicate FinalBelow(d: Dag, marks: map<Hash, Marks>)
    requires Closed(d)
  {
    && (forall h {:trigger Assigned(marks, h)} :: h in d.events && Assigned(marks, h) ==> BelowAtropos(d, marks, h))
    && (forall h {:trigger Received(marks, h)} :: h in d.events && Received(marks, h) ==>
          BelowFrame(d, marks, h, marks[h].frameReceived))
  }

  /** The walk below `x` and its confirmation make final only what is below `x`. */
  lemma ConfirmedBelow(d: Dag, old_: map<Hash, Marks>, marks: map<Hash, Marks>, x: Hash, m: Marks)
    requires Closed(d) && x in d.events && FinalBelow(d, old_) && m.atropos && m.frameReceived == d.events[x].frame
    requires OnlyWithin(d, old_, marks, Anc(d, x), d.events[x].frame)
    ensures FinalBelow(d, marks[x := m])
  {
    var new_ := marks[x := m];
    forall h | h in d.events && Assigned(new_, h) ensures BelowAtropos(d, new_, h) {
      if h in Anc(d, x) {
        assert new_[x].atropos;
      } else {
        assert marks[h] == old_[h] && Assigned(old_, h);
        var y :| y in d.events && y in old_ && old_[y].atropos && h in Anc(d, y);
        assert marks[y].atropos == old_[y].atropos;
        assert new_[y].atropos;
      }
    }
    forall h | h in d.events && Received(new_, h) ensures BelowFrame(d, new_, h, new_[h].frameReceived) {
      if h == x || marks[h].frameReceived != old_[h].frameReceived {
        assert x in Anc(d, x) && new_[x].atropos;
      } else {
        assert Received(old_, h);
        var y :| y in d.events && y in old_ && old_[y].atropos && h in Anc(d, y)
                 && d.events[y].frame == old_[h].frameReceived;
        assert marks[y].atropos == old_[y].atropos;
        assert new_[y].atropos;
      }
    }
  }

  /** Flags that are only raised, with timestamps as they are, keep final events below confirmed ones. */
  lemma StillBelow(d: Dag, old_: map<Hash, Marks>, new_: map<Hash, Marks>)
    requires Closed(d) && FinalBelow(d, old_) && old_.Keys == new_.Keys
    requires forall h {:trigger new_[h]} :: h in old_ ==>
               && new_[h].atroposTimestamp == old_[h].atroposTimestamp && (old_[h].atropos ==> new_[h].atropos)
               && new_[h].frameReceived == old_[h].frameReceived
    ensures FinalBelow(d, new_)
  {
    forall h | h in d.events && Assigned(new_, h) ensures BelowAtropos(d, new_, h) {
      assert new_[h].atroposTimestamp == old_[h].atroposTimestamp && Assigned(old_, h);
      var y :| y in d.events && y in old_ && old_[y].atropos && h in Anc(d, y);
      assert new_[y].atropos;
    }
    forall h | h in d.events && Received(new_, h) ensures BelowFrame(d, new_, h, new_[h].frameReceived) {
      assert new_[h].frameReceived == old_[h].frameReceived && Received(old_, h);
      var y :| y in d.events && y in old_ && old_[y].atropos && h in Anc(d, y)
               && d.events[y].frame == old_[h].frameReceived;
      assert new_[y].atropos;
    }
  }

  /** Ancestors do not change when the DAG grows. */
  lemma {:induction false} AncStays(d: Dag, d': Dag, h: Hash)
    requires Closed(d) && Closed(d') && Extends(d, d') && h in d.events
    ensures h in d'.events && Anc(d', h) == Anc(d, h)
    decreases d.events[h].topo
  {
    assert EventClosed(d, h) && EventClosed(d', h);
    var m := d.events[h].msg;
    if m.selfParent in d.events && d.events[m.selfParent].topo < d.events[h].topo { AncStays(d, d', m.selfParent); }
    if m.otherParent in d.events && d.events[m.otherParent].topo < d.events[h].topo { AncStays(d, d', m.otherParent); }
  }

  lemma StoreBelow(d: Dag, m: Message, marks: map<Hash, Marks>)
    requires Inv(d) && Honest(d, m) && Insert(d, m).Ok? && Inv(Insert(d, m).value)
    requires FinalBelow(d, marks) && marks.Keys == d.events.Keys
    ensures FinalBelow(Insert(d, m).value, marks[m.hash := NEW_MARKS])
  {
    var d', marks' := Insert(d, m).value, marks[m.hash := NEW_MARKS];
    assert Extends(d, d') by { InsertExtends(d, m); }
    FreshHash(d, m);
    forall h | h in d'.events && Assigned(marks', h) ensures BelowAtropos(d', marks', h) {
      assert h in d.events && Assigned(marks, h);
      var x :| x in d.events && x in marks && marks[x].atropos && h in Anc(d, x);
      AncStays(d, d', x);
      assert marks'[x].atropos;
    }
    forall h | h in d'.events && Received(marks', h) ensures BelowFrame(d', marks', h, marks'[h].frameReceived) {
      assert h in d.events && Received(marks, h);
      var x :| x in d.events && x in marks && marks[x].atropos && h in Anc(d, x)
               && d.events[x].frame == marks[h].frameReceived;
      AncStays(d, d', x);
      assert marks'[x].atropos;
    }
  }

  lemma LeavesBelow(d: Dag, marks: map<Hash, Marks>)
    requires Closed(d) && forall h :: h in d.events ==> h in marks && marks[h].atropos && marks[h].frameReceived == 0
    ensures FinalBelow(d, marks)
  {}

  /** Events with a final timestamp are closed under ancestry. */
  lemma {:induction false} FinalIsClosed(d: Dag, marks: map<Hash, Marks>, h: Hash, a: Hash)
    requires Closed(d) && MarksOk(d, marks) && h in d.events && Assigned(marks, h) && a in Anc(d, h)
    ensures Assigned(marks, a)
    decreases d.events[h].topo
  {
    if a != h {
      assert EventClosed(d, h) && MarkOk(d, marks, h);
      var m := d.events[h].msg;
      FinalIsClosed(d, marks, if a in Anc(d, m.selfParent) then m.selfParent else m.otherParent, a);
    }
  }

  /** An event is final exactly when it is confirmed or an ancestor of a confirmed event. */
  lemma FinalIff(d: Dag, marks: map<Hash, Marks>, h: Hash)
    requires Closed(d) && MarksOk(d, marks) && FinalBelow(d, marks) && h in d.events
    ensures Assigned(marks, h) <==> BelowAtropos(d, marks, h)
  {
    if BelowAtropos(d, marks, h) {
      var x :| x in d.events && x in marks && marks[x].atropos && h in Anc(d, x);
      assert MarkOk(d, marks, x);
      FinalIsClosed(d, marks, x, h);
    }
  }

  // ------------------------------------------------------------------------------------------
  // Received frames
  // ------------------------------------------------------------------------------------------

  /** Everything below an event whose parents are final has its received frame, leaves included. */
  lemma {:induction false} ReceivedIsClosed(d: Dag, marks: map<Hash, Marks>, h: Hash, a: Hash)
    requires Closed(d) && MarksOk(d, marks) && h in d.events && ParentsAssigned(d, marks, h)
    requires a in Anc(d, h) && a != h
    ensures Received(marks, a)
    decreases d.events[h].topo
  {
    assert EventClosed(d, h);
    var m := d.events[h].msg;
    var p := if a in Anc(d, m.selfParent) then m.selfParent else m.otherParent;
    if a != p {
      assert MarkOk(d, marks, p);
      ReceivedIsClosed(d, marks, p, a);
    }
  }

  /** The received frame after a walk for a confirmed event of `frame`: the first one stays. */
  function FirstFrame(old_: int, frame: int): int {
    if old_ == 0 then frame else old_
  }

  /** Every strict ancestor of `h` that had no received frame has `frame`, and all other events keep theirs. */
  ghost predicate ReceivedUnder(d: Dag, old_: map<Hash, Marks>, new_: map<Hash, Marks>, h: Hash, frame: int)
    requires Closed(d) && h in d.events
  {
    && old_.Keys == new_.Keys == d.events.Keys
    && forall a {:trigger new_[a]} :: a in d.events ==>
         new_[a].frameReceived ==
           if a in Anc(d, h) && a != h then FirstFrame(old_[a].frameReceived, frame) else old_[a].frameReceived
  }

  lemma WalkReceives(d: Dag, old_: map<Hash, Marks>, new_: map<Hash, Marks>, h: Hash, frame: int)
    requires Closed(d) && MarksOk(d, new_) && h in d.events && ParentsAssigned(d, new_, h)
    requires OnlyWithin(d, old_, new_, Anc(d, h) - {h}, frame)
    ensures ReceivedUnder(d, old_, new_, h, frame)
  {
    forall a {:trigger new_[a]} | a in d.events
      ensures new_[a].frameReceived ==
                if a in Anc(d, h) && a != h then FirstFrame(old_[a].frameReceived, frame) else old_[a].frameReceived
    {
      assert Walked(old_[a], new_[a], frame);
      if a in Anc(d, h) && a != h { ReceivedIsClosed(d, new_, h, a); }
    }
  }

  /** The confirmed event itself has its own frame, whatever it had before. */
  ghost predicate ReceivedAtUnder(d: Dag, old_: map<Hash, Marks>, new_: map<Hash, Marks>, x: Hash)
    requires Closed(d) && x in d.events
  {
    && old_.Keys == new_.Keys == d.events.Keys && new_[x].frameReceived == d.events[x].frame
    && forall a {:trigger new_[a]} :: a in d.events && a != x ==>
         new_[a].frameReceived ==
           if a in Anc(d, x) then FirstFrame(old_[a].frameReceived, d.events[x].frame) else old_[a].frameReceived
  }

  /**
   An event other than a leaf is final exactly when it has a received frame, and that is the frame of a confirmed
   event at or above it.
   */
  lemma ReceivedIff(d: Dag, marks: map<Hash, Marks>, h: Hash)
    requires Closed(d) && MarksOk(d, marks) && FinalBelow(d, marks) && h in d.events && !IsLeaf(d.events[h])
    ensures h in marks && (marks[h].frameReceived != 0 <==> Assigned(marks, h))
    ensures Assigned(marks, h) ==> BelowFrame(d, marks, h, marks[h].frameReceived)
  {
    assert MarkOk(d, marks, h);
    assert Received(marks, h) <==> Assigned(marks, h);
  }

  /** A final timestamp is the Lamport time of the other parent, and without one the event's own. */
  lemma FinalTimeIs(d: Dag, marks: map<Hash, Marks>, h: Hash)
    requires Closed(d) && MarksOk(d, marks) && h in d.events && Assigned(marks, h)
    ensures var o := d.events[h].msg.otherParent;
            && (o != 0 ==> o in d.events && marks[h].atroposTimestamp == d.events[o].lamport)
            && (o == 0 ==> marks[h].atroposTimestamp == d.events[h].lamport)
  {
    assert EventClosed(d, h) && MarkOk(d, marks, h);
  }
}

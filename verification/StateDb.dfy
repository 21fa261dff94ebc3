/**
 The state database of src/state/statedb.go with its journal: every operation records how to take it back, and
 reverting to a snapshot shows exactly what was there when the snapshot was taken.
 */
module StateDb {
  import opened Wrappers
  import opened TrieKeys
  import opened StateView

  datatype Revision = Revision(id: int, index: nat)

  /** Revisions are numbered in increasing order and lie in the journal one after the other. */
  ghost predicate Numbered(revs: seq<Revision>, next: int, n: nat) {
    && (forall i :: 0 <= i < |revs| ==> revs[i].id < next && revs[i].index <= n)
    && (forall i, j :: 0 <= i < j < |revs| ==> revs[i].id < revs[j].id && revs[i].index <= revs[j].index)
  }

  /** Taking back the journal down to a revision gives the view of that time. */
  ghost predicate Restores(v: View, es: seq<Entry>, revs: seq<Revision>, saved: seq<View>) {
    |saved| == |revs| && forall i :: 0 <= i < |revs| ==> Back(v, es, revs[i].index) == saved[i]
  }

  lemma AppendRestores(v: View, v': View, es: seq<Entry>, e: Entry, revs: seq<Revision>, saved: seq<View>, next: int)
    requires Restores(v, es, revs, saved) && Numbered(revs, next, |es|) && Reversible(v, es) && TakesBack(v', e, v)
    ensures Restores(v', es + [e], revs, saved) && Numbered(revs, next, |es| + 1) && Reversible(v', es + [e])
  {
    forall i | 0 <= i < |revs| ensures Back(v', es + [e], revs[i].index) == saved[i] {
      BackOne(v', es, e, revs[i].index);
    }
    assert (es + [e])[..|es|] == es;
  }

  lemma RevertRestores(v: View, es: seq<Entry>, revs: seq<Revision>, saved: seq<View>, next: int, k: nat)
    requires Restores(v, es, revs, saved) && Numbered(revs, next, |es|) && Reversible(v, es) && k < |revs|
    ensures Restores(saved[k], es[..revs[k].index], revs[..k], saved[..k]) && Numbered(revs[..k], next, revs[k].index)
    ensures Reversible(saved[k], es[..revs[k].index])
  {
    var m := revs[k].index;
    ReversibleBack(v, es, m);
    forall i | 0 <= i < k ensures Back(saved[k], es[..m], revs[i].index) == saved[i] {
      BackTwice(v, es, m, revs[i].index);
    }
  }

  /** Created accounts were not in the trie, and replaced objects were live. */
  ghost predicate EntriesOk(es: seq<Entry>, trie: map<Address, Account>) {
    forall i {:trigger es[i]} :: 0 <= i < |es| ==> EntryOk(es[i], trie)
  }

  ghost predicate EntryOk(e: Entry, trie: map<Address, Account>) {
    (e.CreateObject? ==> e.account !in trie) && (e.ResetObject? ==> Fit(e.prev))
  }

  ghost predicate AllFit(objects: Objects) {
    forall a {:trigger objects[a]} :: a in objects ==> Fit(objects[a])
  }

  ghost function SlotOf(storage: imap<Word, Word>, k: Word): Word {
    if k in storage then storage[k] else ZERO
  }

  ghost function Fresh(): Seen {
    SeenOf(NewObject(Account(0, map[])))
  }

  /** The account as it is, or a new one. */
  ghost function OrNew(v: View, a: Address): Seen {
    if a in v.accounts then v.accounts[a] else Fresh()
  }

  // ------------------------------------------------------------------------------------------
  // Each kind of change is undone by its entry
  // ------------------------------------------------------------------------------------------

  /** The view with another account under `a`. */
  ghost function Put(v: View, a: Address, x: Seen): View {
    v.(accounts := v.accounts[a := x])
  }

  lemma UndoCreate(v: View, a: Address, x: Seen)
    requires a !in v.accounts
    ensures TakesBack(Put(v, a, x), CreateObject(a), v)
  {
    AccountsEqual(Except(v.accounts[a := x], a), v.accounts);
  }

  lemma PutTwice(v: View, a: Address, x: Seen)
    requires a in v.accounts
    ensures Put(Put(v, a, x), a, v.accounts[a]) == v
  {
    AccountsEqual(v.accounts[a := x][a := v.accounts[a]], v.accounts);
  }

  lemma PutAgain(v: View, a: Address, x: Seen, y: Seen)
    ensures Put(Put(v, a, x), a, y) == Put(v, a, y)
  {
    AccountsEqual(v.accounts[a := x][a := y], v.accounts[a := y]);
  }

  lemma PutSame(v: View, a: Address)
    requires a in v.accounts
    ensures Put(v, a, v.accounts[a]) == v
  {
    AccountsEqual(v.accounts[a := v.accounts[a]], v.accounts);
  }

  /** Entry `e` leads from view `v` back to view `u`. */
  ghost predicate TakesBack(v: View, e: Entry, u: View) {
    Undo(v, e) == u && Applies(v, e)
  }

  lemma UndoReset(v: View, a: Address, x: Seen, prev: StateObject)
    requires a in v.accounts && v.accounts[a] == SeenOf(prev) && x.balance == prev.balance && Blank(x.storage)
    ensures TakesBack(Put(v, a, x), ResetObject(a, prev), v)
  {
    PutTwice(v, a, x);
  }

  lemma UndoMoney(v: View, a: Address, balance: nat)
    requires a in v.accounts
    ensures TakesBack(Put(v, a, v.accounts[a].(balance := balance)), BalanceChange(a, v.accounts[a].balance), v)
  {
    PutTwice(v, a, v.accounts[a].(balance := balance));
  }

  lemma UndoSuicide(v: View, a: Address)
    requires a in v.accounts
    ensures TakesBack(Put(v, a, v.accounts[a].(balance := 0, suicided := true)),
                      SuicideChange(a, v.accounts[a].suicided, v.accounts[a].balance), v)
  {
    PutTwice(v, a, v.accounts[a].(balance := 0, suicided := true));
  }

  lemma UndoStorage(v: View, a: Address, k: Word, value: Word)
    requires a in v.accounts && k in v.accounts[a].storage
    ensures TakesBack(Put(v, a, v.accounts[a].(storage := v.accounts[a].storage[k := value])),
                      StorageChange(a, k, v.accounts[a].storage[k]), v)
  {
    var s := v.accounts[a].storage;
    assert s[k := value][k := s[k]] == s;
    PutTwice(v, a, v.accounts[a].(storage := s[k := value]));
  }

  lemma UndoPreimage(v: View, h: Word, b: Bytes)
    requires h !in v.preimages
    ensures TakesBack(v.(preimages := v.preimages[h := b]), StateView.AddPreimage(h), v)
  {
    assert v.preimages[h := b] - {h} == v.preimages;
  }

  // ------------------------------------------------------------------------------------------
  // Taking entries back in the live set
  // ------------------------------------------------------------------------------------------

  /** What `revert` of an entry does to an object that is found. */
  function Restored(o: StateObject, e: Entry): StateObject {
    match e
    case SuicideChange(_, flag, balance) => o.(suicided := flag, balance := balance)
    case BalanceChange(_, balance) => o.(balance := balance)
    case StorageChange(_, k, value) => o.(dirty := o.dirty[k := value])
    case _ => o
  }

  /** What `revert` of an entry does to the live set. */
  function Reverted(objects: Objects, trie: map<Address, Account>, e: Entry): Objects {
    match e
    case CreateObject(a) => objects - {a}
    case ResetObject(a, prev) => objects[a := prev]
    case AddPreimage(_) => objects
    case Touch(_) => objects
    case _ =>
      match Find(objects, trie, e.account)
      case None => objects
      case Some(o) => objects[e.account := Restored(o, e)]
  }

  /** A slot whose write is taken back has been read. */
  ghost predicate Undoable(objects: Objects, e: Entry) {
    e.StorageChange? ==> e.account in objects && e.key in objects[e.account].origin
  }

  /** This holds for every entry of the journal in turn. */
  ghost predicate Trailed(objects: Objects, trie: map<Address, Account>, es: seq<Entry>)
    decreases |es|
  {
    es == [] || (Undoable(objects, es[|es| - 1])
        && Trailed(Reverted(objects, trie, es[|es| - 1]), trie, es[..|es| - 1]))
  }

  /** Every object is still there and has read no less. */
  ghost predicate Wider(p: Objects, q: Objects) {
    forall a {:trigger a in p} {:trigger a in q} :: a in p ==> a in q && p[a].origin.Keys <= q[a].origin.Keys
  }

  lemma WiderBack(p: Objects, q: Objects, trie: map<Address, Account>, e: Entry)
    requires Wider(p, q)
    ensures Wider(Reverted(p, trie, e), Reverted(q, trie, e))
  {
    if e.SuicideChange? || e.BalanceChange? || e.StorageChange? {
      RestoredIn(p, trie, e);
      RestoredIn(q, trie, e);
    }
  }

  /** Restoring an object changes no other one, and nothing that was read. */
  lemma RestoredIn(objects: Objects, trie: map<Address, Account>, e: Entry)
    requires e.SuicideChange? || e.BalanceChange? || e.StorageChange?
    ensures var r := Reverted(objects, trie, e);
            && (forall x :: x != e.account ==> (x in r <==> x in objects) && (x in r ==> r[x] == objects[x]))
            && (e.account in objects ==> e.account in r && r[e.account].origin == objects[e.account].origin)
            && (e.account !in objects && e.account in r ==> r[e.account].origin == map[])
            && (e.account !in objects ==> (e.account in r <==> e.account in trie))
  {
    if Find(objects, trie, e.account).Some? {
      var o := Find(objects, trie, e.account).value;
      assert Restored(o, e).origin == o.origin;
    }
  }

  lemma {:induction false} WiderTrail(p: Objects, q: Objects, trie: map<Address, Account>, es: seq<Entry>)
    requires Wider(p, q) && Trailed(p, trie, es)
    ensures Trailed(q, trie, es)
    decreases |es|
  {
    if es != [] {
      var n := |es| - 1;
      WiderBack(p, q, trie, es[n]);
      WiderTrail(Reverted(p, trie, es[n]), Reverted(q, trie, es[n]), trie, es[..n]);
    }
  }

  lemma TrailMore(p: Objects, q: Objects, trie: map<Address, Account>, es: seq<Entry>, e: Entry)
    requires Trailed(p, trie, es) && Undoable(q, e) && Wider(p, Reverted(q, trie, e))
    ensures Trailed(q, trie, es + [e])
  {
    assert (es + [e])[..|es|] == es;
    WiderTrail(p, Reverted(q, trie, e), trie, es);
  }

  lemma RevertedFit(objects: Objects, trie: map<Address, Account>, e: Entry)
    requires AllFit(objects) && EntryOk(e, trie) && Undoable(objects, e)
    ensures AllFit(Reverted(objects, trie, e))
  {
    match e
    case CreateObject(a) =>
    case ResetObject(a, prev) =>
    case AddPreimage(_) =>
    case Touch(_) =>
    case _ =>
      match Find(objects, trie, e.account)
      case None =>
      case Some(o) => RestoredFit(o, e);
  }

  lemma RestoredFit(o: StateObject, e: Entry)
    requires Fit(o) && (e.StorageChange? ==> e.key in o.origin)
    ensures Fit(Restored(o, e))
  {
    var p := Restored(o, e);
    forall k | k in p.origin ensures p.origin[k] == p.Stored(k) { assert o.origin[k] == o.Stored(k); }
  }

  /** A change that entry `e` takes back, as far as the live set goes. */
  ghost predicate Fitting(objects: Objects, trie: map<Address, Account>, e: Entry, a: Address, o: StateObject) {
    Fit(o) && Undoable(objects[a := o], e) && Wider(objects, Reverted(objects[a := o], trie, e))
  }

  lemma FittingCreate(objects: Objects, trie: map<Address, Account>, a: Address, o: StateObject)
    requires a !in objects && Fit(o)
    ensures Fitting(objects, trie, CreateObject(a), a, o)
  {}

  lemma FittingReset(objects: Objects, trie: map<Address, Account>, a: Address, o: StateObject)
    requires a in objects && Fit(o)
    ensures Fitting(objects, trie, ResetObject(a, objects[a]), a, o)
  {}

  lemma FittingChange(objects: Objects, trie: map<Address, Account>, e: Entry, a: Address, o: StateObject)
    requires a in objects && Fit(o) && o.origin == objects[a].origin
    requires (e.SuicideChange? || e.BalanceChange? || e.StorageChange?) && e.account == a
    requires e.StorageChange? ==> e.key in o.origin
    ensures Fitting(objects, trie, e, a, o)
  {
    assert Find(objects[a := o], trie, a) == Some(o);
    assert Restored(o, e).origin == o.origin;
  }

  // ------------------------------------------------------------------------------------------
  // The invariant
  // ------------------------------------------------------------------------------------------

  /**
   The whole database; `sight` is what it shows, `saved` are the views at the snapshots, `extra` the lasting marks on
   one account.
   */
  datatype Books = Books(objects: Objects, trie: map<Address, Account>, preimages: map<Word, Bytes>,
                         entries: seq<Entry>, dirties: map<Address, nat>, revs: seq<Revision>, next: int,
                         sight: View, saved: seq<View>, extra: nat)

  datatype Clause = Shows | Start | Undoing | Saved | Numbers | Dirt | Entries | Objects_ | Trail

  ghost predicate Holds(x: Clause, b: Books) {
    match x
    case Shows => Agrees(b.sight.accounts, b.objects, b.trie) && b.sight.preimages == b.preimages
    case Start => Back(b.sight, b.entries, 0) == View(Look(b.trie), map[])
    case Undoing => Reversible(b.sight, b.entries)
    case Saved => Restores(b.sight, b.entries, b.revs, b.saved)
    case Numbers => Numbered(b.revs, b.next, |b.entries|)
    case Dirt => CountsMatch(b.dirties, b.entries, b.extra)
    case Entries => EntriesOk(b.entries, b.trie)
    case Objects_ => AllFit(b.objects)
    case Trail => Trailed(b.objects, b.trie, b.entries)
  }

  ghost predicate Inv(b: Books) {
    forall x :: Holds(x, b)
  }

  /** `append` to the journal: the dirty counts. */
  function Marked(dirties: map<Address, nat>, e: Entry): map<Address, nat> {
    match Dirtied(e)
    case None => dirties
    case Some(a) => dirties[a := (if a in dirties then dirties[a] else 0) + 1]
  }

  /** `a` is dirty, and of other accounts what was so before. */
  ghost predicate Soils(old_: map<Address, nat>, new_: map<Address, nat>, a: Address) {
    a in new_ && forall x {:trigger x in new_} :: x != a ==> (x in new_ <==> x in old_)
  }

  /** Taking an entry back: the dirty counts. */
  function Unmarked(dirties: map<Address, nat>, e: Entry): map<Address, nat> {
    match Dirtied(e)
    case None => dirties
    case Some(a) => if a in dirties && dirties[a] > 1 then dirties[a := dirties[a] - 1] else dirties - {a}
  }

  lemma MarkedMatch(dirties: map<Address, nat>, es: seq<Entry>, e: Entry, extra: nat)
    requires CountsMatch(dirties, es, extra)
    ensures CountsMatch(Marked(dirties, e), es + [e], extra)
  {
    forall a ensures CountFor(es + [e], a) == CountFor(es, a) + if Dirtied(e) == Some(a) then 1 else 0 {
      CountMore(es, e, a);
    }
  }

  lemma UnmarkedMatch(dirties: map<Address, nat>, es: seq<Entry>, extra: nat)
    requires es != [] && CountsMatch(dirties, es, extra)
    ensures CountsMatch(Unmarked(dirties, es[|es| - 1]), es[..|es| - 1], extra)
  {
    var e, rest := es[|es| - 1], es[..|es| - 1];
    forall a ensures CountFor(es, a) == CountFor(rest, a) + if Dirtied(e) == Some(a) then 1 else 0 {}
  }

  /** A change of what is shown, together with its journal entry. */
  ghost function Recorded(b: Books, sight: View, e: Entry): Books {
    b.(sight := sight, entries := b.entries + [e], dirties := Marked(b.dirties, e))
  }

  /** Such a change, with the objects and preimages that show it. */
  ghost function Stepped(b: Books, e: Entry, sight: View, objects: Objects): Books {
    Recorded(b, sight, e).(objects := objects, preimages := sight.preimages)
  }

  lemma BackTaken(v: View, v': View, es: seq<Entry>, e: Entry, n: nat)
    requires n <= |es| && TakesBack(v', e, v)
    ensures Back(v', es + [e], n) == Back(v, es, n)
  {
    BackOne(v', es, e, n);
  }

  /** The history is still there after one more entry. */
  lemma RecordHistory(b: Books, e: Entry, sight: View, objects: Objects)
    requires Inv(b) && TakesBack(sight, e, b.sight)
    ensures var c := Stepped(b, e, sight, objects);
            Holds(Start, c) && Holds(Undoing, c) && Holds(Saved, c) && Holds(Numbers, c)
  {
    assert Holds(Saved, b) && Holds(Numbers, b) && Holds(Undoing, b) && Holds(Start, b);
    AppendRestores(b.sight, sight, b.entries, e, b.revs, b.saved, b.next);
    BackTaken(b.sight, sight, b.entries, e, 0);
  }

  lemma RecordDirt(b: Books, e: Entry, sight: View, objects: Objects)
    requires Inv(b) && EntryOk(e, b.trie)
    ensures var c := Stepped(b, e, sight, objects);
            Holds(Dirt, c) && Holds(Entries, c)
  {
    assert Holds(Dirt, b) && Holds(Entries, b);
    MarkedMatch(b.dirties, b.entries, e, b.extra);
  }

  lemma RecordKeeps(b: Books, e: Entry, sight: View, objects: Objects)
    requires Inv(b) && EntryOk(e, b.trie) && TakesBack(sight, e, b.sight)
    requires Agrees(sight.accounts, objects, b.trie) && AllFit(objects)
    requires Undoable(objects, e) && Wider(b.objects, Reverted(objects, b.trie, e))
    ensures Inv(Stepped(b, e, sight, objects))
  {
    RecordHistory(b, e, sight, objects);
    RecordDirt(b, e, sight, objects);
    RecordTrail(b, e, sight, objects);
    forall x ensures Holds(x, Stepped(b, e, sight, objects)) {
      match x
      case Shows =>
      case Objects_ =>
      case _ =>
    }
  }

  lemma RecordTrail(b: Books, e: Entry, sight: View, objects: Objects)
    requires Inv(b) && Undoable(objects, e) && Wider(b.objects, Reverted(objects, b.trie, e))
    ensures Holds(Trail, Stepped(b, e, sight, objects))
  {
    assert Holds(Trail, b);
    TrailMore(b.objects, objects, b.trie, b.entries, e);
  }

  /** An object is replaced, and entry `e` takes that back. */
  ghost function Changed(b: Books, e: Entry, a: Address, o: StateObject): Books {
    Stepped(b, e, Put(b.sight, a, SeenOf(o)), b.objects[a := o])
  }

  lemma ChangeKeeps(b: Books, e: Entry, a: Address, o: StateObject)
    requires Inv(b) && EntryOk(e, b.trie) && TakesBack(Put(b.sight, a, SeenOf(o)), e, b.sight)
    requires Fitting(b.objects, b.trie, e, a, o)
    ensures b.sight.preimages == b.preimages && Inv(Changed(b, e, a, o))
  {
    Basics(b);
    AgreesAt(b.sight.accounts, b.objects, b.trie, a, o);
    FitAt(b.objects, a, o);
    RecordKeeps(b, e, Put(b.sight, a, SeenOf(o)), b.objects[a := o]);
  }

  lemma FitAt(objects: Objects, a: Address, o: StateObject)
    requires AllFit(objects) && Fit(o)
    ensures AllFit(objects[a := o])
  {}

  lemma Basics(b: Books)
    requires Inv(b)
    ensures Agrees(b.sight.accounts, b.objects, b.trie) && b.sight.preimages == b.preimages && AllFit(b.objects)
  {
    assert Holds(Shows, b) && Holds(Objects_, b);
  }

  /** A live object takes the place of one that shows the same and has read no more. */
  lemma QuietKeeps(b: Books, a: Address, o: StateObject)
    requires Inv(b) && Fit(o) && Find(b.objects, b.trie, a).Some?
               && SeenOf(Find(b.objects, b.trie, a).value) == SeenOf(o)
    requires a in b.objects ==> b.objects[a].origin.Keys <= o.origin.Keys
    ensures Inv(b.(objects := b.objects[a := o]))
  {
    var c := b.(objects := b.objects[a := o]);
    forall x ensures Holds(x, c) {
      assert Holds(x, b);
      match x
      case Shows => AgreesQuietly(b.sight.accounts, b.objects, b.trie, a, o);
      case Trail => WiderTrail(b.objects, c.objects, b.trie, b.entries);
      case Objects_ => FitAt(b.objects, a, o);
      case _ =>
    }
  }

  /** A live object remembers what it has read. */
  lemma ReadKeeps(b: Books, a: Address, k: Word)
    requires Inv(b) && a in b.objects && k !in b.objects[a].origin
    ensures var p := b.objects[a].(origin := b.objects[a].origin[k := b.objects[a].Stored(k)]);
            SeenOf(p) == SeenOf(b.objects[a]) && Inv(b.(objects := b.objects[a := p]))
  {
    var o := b.objects[a];
    var p := o.(origin := o.origin[k := o.Stored(k)]);
    Basics(b);
    assert Fit(o) && o.Stored(k) == o.Committed(k);
    SeenRead(o, k);
    forall j | j in p.origin ensures p.origin[j] == p.Stored(j) {
      if j != k { assert o.origin[j] == o.Stored(j); }
    }
    QuietKeeps(b, a, p);
  }

  /** What is shown of an account is what is found. */
  lemma FoundIsShown(b: Books, a: Address)
    requires Inv(b)
    ensures a in b.sight.accounts <==> Find(b.objects, b.trie, a).Some?
    ensures a in b.sight.accounts ==> b.sight.accounts[a] == SeenOf(Find(b.objects, b.trie, a).value)
    ensures a !in b.sight.accounts ==> a !in b.trie
    ensures b.sight.preimages == b.preimages
    ensures a in b.objects ==> Fit(b.objects[a])
  {
    assert Holds(Shows, b) && Holds(Objects_, b);
  }

  lemma SnapshotKeeps(b: Books)
    requires Inv(b)
    ensures Inv(b.(revs := b.revs + [Revision(b.next, |b.entries|)], next := b.next + 1, saved := b.saved + [b.sight]))
  {
    var c := b.(revs := b.revs + [Revision(b.next, |b.entries|)], next := b.next + 1, saved := b.saved + [b.sight]);
    forall x ensures Holds(x, c) { assert Holds(x, b); }
  }

  /** The journal has been taken back to revision `k`. */
  lemma RevertKeeps(b: Books, c: Books, k: nat)
    requires Inv(b) && k < |b.revs| && b.revs[k].index <= |b.entries| && |b.saved| == |b.revs|
    requires c == b.(objects := c.objects, preimages := c.preimages, dirties := c.dirties, sight := c.sight,
                     entries := b.entries[..b.revs[k].index], revs := b.revs[..k], saved := b.saved[..k])
    requires c.sight == Back(b.sight, b.entries, b.revs[k].index)
    requires Holds(Shows, c) && Holds(Objects_, c) && Holds(Dirt, c) && Holds(Trail, c)
    ensures Inv(c) && c.sight == b.saved[k]
  {
    assert Holds(Saved, b) && Holds(Numbers, b) && Holds(Undoing, b);
    RevertRestores(b.sight, b.entries, b.revs, b.saved, b.next, k);
    BackTwice(b.sight, b.entries, b.revs[k].index, 0);
    forall x ensures Holds(x, c) { assert Holds(x, b); }
  }

  lemma TouchKeeps(b: Books, a: Address)
    requires Inv(b)
    ensures Inv(Recorded(b, b.sight, Touch(a)))
  {
    Basics(b);
    RecordKeeps(b, Touch(a), b.sight, b.objects);
  }

  lemma MarkKeeps(b: Books)
    requires Inv(b)
    ensures Inv(b.(dirties := b.dirties[RIPEMD := (if RIPEMD in b.dirties then b.dirties[RIPEMD] else 0) + 1],
              extra := b.extra + 1))
  {
    var c := b.(dirties := b.dirties[RIPEMD := (if RIPEMD in b.dirties then b.dirties[RIPEMD] else 0) + 1],
        extra := b.extra + 1);
    forall x ensures Holds(x, c) { assert Holds(x, b); }
  }

  lemma PreimageKeeps(b: Books, h: Word, p: Bytes)
    requires Inv(b) && h !in b.preimages && b.sight.preimages == b.preimages
    ensures Inv(Recorded(b, b.sight.(preimages := b.preimages[h := p]),
              StateView.AddPreimage(h)).(preimages := b.preimages[h := p]))
  {
    Basics(b);
    UndoPreimage(b.sight, h, p);
    RecordKeeps(b, StateView.AddPreimage(h), b.sight.(preimages := b.preimages[h := p]), b.objects);
  }

  lemma BackLast(v: View, es: seq<Entry>, i: nat, n: nat)
    requires n < i <= |es|
    ensures Back(v, es[..i], n) == Back(Undo(v, es[i - 1]), es[..i - 1], n)
  {
    assert es[..i][..i - 1] == es[..i - 1];
  }

  /** How dirty an account is: once for every journal entry about it, and more for one account that was touched. */
  lemma DirtyIsCount(b: Books, a: Address)
    requires Inv(b)
    ensures a !in b.dirties <==> CountFor(b.entries, a) == 0 && (a == RIPEMD ==> b.extra == 0)
    ensures a in b.dirties ==> b.dirties[a] == CountFor(b.entries, a) + if a == RIPEMD then b.extra else 0
  {
    assert Holds(Dirt, b);
  }

  // ------------------------------------------------------------------------------------------
  // Writing the accounts
  // ------------------------------------------------------------------------------------------

  /** `updateTrie` on one slot: a write of the value that was read is skipped. */
  function Updated(o: StateObject, k: Word): Word {
    if k in o.dirty && o.dirty[k] != (if k in o.origin then o.origin[k] else ZERO) then o.dirty[k] else o.Stored(k)
  }

  /** The storage trie of an object after its writes: slots with the value zero are not there. */
  function Flushed(o: StateObject): map<Word, Word> {
    map k | k in o.base.Keys + o.dirty.Keys && Updated(o, k) != ZERO :: Updated(o, k)
  }

  function SlotAt(storage: map<Word, Word>, k: Word): Word {
    if k in storage then storage[k] else ZERO
  }

  /** What is written is what is shown. */
  lemma FlushedShown(o: StateObject, k: Word)
    requires Fit(o)
    ensures SlotAt(Flushed(o), k) == o.Slot(k)
  {
    assert k in o.origin ==> o.origin[k] == o.Stored(k);
  }

  /** What `Commit` does with one live object. */
  function CommitOne(t: map<Address, Account>, a: Address, o: StateObject, dirty: bool, deleteEmpty: bool)
    : map<Address, Account>
  {
    if Goes(o.suicided, o.balance, dirty, deleteEmpty) then t - {a}
    else if dirty then t[a := Account(o.balance, Flushed(o))]
    else t
  }

  function BalanceAt(t: map<Address, Account>, a: Address): nat {
    if a in t then t[a].balance else 0
  }

  /** The balance shown, except that an account marked as suicided is going to be removed. */
  ghost function Lasting(v: View, a: Address): nat {
    if a in v.accounts && v.accounts[a].suicided then 0 else BalanceIn(v, a)
  }

  /** A clean account is there and has the balance that is in the trie. */
  lemma CleanAtTrie(b: Books, a: Address)
    requires Inv(b) && a !in b.dirties
    ensures BalanceIn(b.sight, a) == BalanceAt(b.trie, a) && (a in b.sight.accounts <==> a in b.trie)
  {
    assert Holds(Start, b) && Holds(Undoing, b);
    DirtyIsCount(b, a);
    CleanBalance(b.sight, b.entries, a);
    CleanAccount(b.sight, b.entries, a);
  }

  /** `Commit` deletes a live account. */
  predicate Goes(suicided: bool, balance: nat, dirty: bool, deleteEmpty: bool) {
    suicided || (dirty && deleteEmpty && balance == 0)
  }

  /** The account in the trie shows the same slots. */
  ghost predicate SameSlots(acc: Account, x: Seen) {
    forall k {:trigger SlotAt(acc.storage, k)} :: SlotAt(acc.storage, k) == SlotOf(x.storage, k)
  }

  ghost predicate NoSlots(acc: Account) {
    forall k {:trigger SlotAt(acc.storage, k)} :: SlotAt(acc.storage, k) == ZERO
  }

  /** What `Commit` leaves in the trie for an account that is not live: what was there, which is what is shown. */
  ghost predicate Untouched(b: Books, t: map<Address, Account>, a: Address) {
    (a in t <==> a in b.trie) && (a in t ==> t[a] == b.trie[a])
  }

  ghost predicate Deleted(b: Books, a: Address, deleteEmpty: bool)
    requires a in b.sight.accounts
  {
    a in b.objects && Goes(b.sight.accounts[a].suicided, b.sight.accounts[a].balance, a in b.dirties, deleteEmpty)
  }

  /** What `Commit` leaves in the trie for a live account. */
  ghost predicate Settled(b: Books, t: map<Address, Account>, a: Address, deleteEmpty: bool)
    requires a in b.objects
  {
    && BalanceAt(t, a) == Lasting(b.sight, a) && a in b.sight.accounts
    && (a in t <==> !Deleted(b, a, deleteEmpty))
    && (a in t && a in b.dirties ==> SameSlots(t[a], b.sight.accounts[a]))
    && (a in t && a !in b.dirties ==> a in b.trie && t[a] == b.trie[a])
  }

  lemma CommitSettles(b: Books, t: map<Address, Account>, a: Address, deleteEmpty: bool)
    requires Inv(b) && Untouched(b, t, a) && a in b.objects
    ensures Settled(b, CommitOne(t, a, b.objects[a], a in b.dirties, deleteEmpty), a, deleteEmpty)
  {
    var o := b.objects[a];
    FoundIsShown(b, a);
    if a !in b.dirties { CleanAtTrie(b, a); }
    forall k ensures SlotAt(Flushed(o), k) == SlotOf(SeenOf(o).storage, k) { FlushedShown(o, k); }
  }

  lemma NotLive(b: Books, a: Address)
    requires Inv(b) && a !in b.objects
    ensures BalanceAt(b.trie, a) == Lasting(b.sight, a) && (a in b.sight.accounts <==> a in b.trie)
    ensures a in b.trie ==> SameSlots(b.trie[a], b.sight.accounts[a])
  {
    FoundIsShown(b, a);
    if a in b.trie {
      forall k ensures SlotAt(b.trie[a].storage, k) == SlotOf(b.sight.accounts[a].storage, k) {
        assert SlotAt(b.trie[a].storage, k) == NewObject(b.trie[a]).Slot(k);
      }
    }
  }

  /** Storage of an account that is not dirty: it is the one in the trie, unless the account was replaced. */
  lemma CleanSlots(b: Books, a: Address)
    requires Inv(b) && a !in b.dirties && a in b.sight.accounts && a in b.trie
    ensures SameSlots(b.trie[a], b.sight.accounts[a]) <==> !Replaced(b.entries, a) || NoSlots(b.trie[a])
  {
    assert Holds(Start, b) && Holds(Undoing, b);
    DirtyIsCount(b, a);
    CleanAccount(b.sight, b.entries, a);
    var acc, x := b.trie[a], b.sight.accounts[a];
    forall k ensures SlotAt(acc.storage, k) == SlotOf(SeenOf(NewObject(acc)).storage, k) {
      assert SlotAt(acc.storage, k) == NewObject(acc).Slot(k);
    }
    if Replaced(b.entries, a) {
      forall k ensures SlotOf(x.storage, k) == ZERO { assert k in x.storage; }
    }
  }

  /** The slots in the trie after `Commit` are those shown. */
  ghost predicate SlotsLast(b: Books, a: Address) {
    a !in b.objects || a in b.dirties || !Replaced(b.entries, a) || (a in b.trie && NoSlots(b.trie[a]))
  }

  lemma SlotsExact(b: Books, t: map<Address, Account>, a: Address, deleteEmpty: bool)
    requires Inv(b) && a in t
    requires if a in b.objects then Settled(b, t, a, deleteEmpty) else Untouched(b, t, a)
    ensures a in b.sight.accounts && (SameSlots(t[a], b.sight.accounts[a]) <==> SlotsLast(b, a))
  {
    if a !in b.objects {
      NotLive(b, a);
    } else if a !in b.dirties {
      CleanSlots(b, a);
    }
  }

  /** The other accounts are as they were. */
  lemma OnlyOne(b: Books, t: map<Address, Account>, t': map<Address, Account>, a: Address, deleteEmpty: bool)
    requires a in b.objects && t' == CommitOne(t, a, b.objects[a], a in b.dirties, deleteEmpty)
    ensures forall x {:trigger Untouched(b, t', x)} :: x != a && Untouched(b, t, x) ==> Untouched(b, t', x)
    ensures forall x :: x in b.objects && x != a && Settled(b, t, x, deleteEmpty) ==> Settled(b, t', x, deleteEmpty)
  {
    forall x | x != a ensures (x in t' <==> x in t) && (x in t ==> t'[x] == t[x]) {}
  }

  /** Everything that `Commit` promises of one account. */
  ghost predicate Written(b: Books, t: map<Address, Account>, a: Address, deleteEmpty: bool) {
    && BalanceAt(t, a) == Lasting(b.sight, a)
    && (a in t <==> a in b.sight.accounts && !Deleted(b, a, deleteEmpty))
    && (a in t ==> (SameSlots(t[a], b.sight.accounts[a]) <==> SlotsLast(b, a)))
    && (a in t && a !in b.dirties ==> a in b.trie && t[a] == b.trie[a])
  }

  lemma AllWritten(b: Books, t: map<Address, Account>, a: Address, deleteEmpty: bool)
    requires Inv(b) && if a in b.objects then Settled(b, t, a, deleteEmpty) else Untouched(b, t, a)
    ensures Written(b, t, a, deleteEmpty)
  {
    if a in t { SlotsExact(b, t, a, deleteEmpty); }
    if a !in b.objects { NotLive(b, a); }
  }

  // ------------------------------------------------------------------------------------------
  // Taking entries back
  // ------------------------------------------------------------------------------------------

  function ForgetPreimage(preimages: map<Word, Bytes>, e: Entry): map<Word, Bytes> {
    if e.AddPreimage? then preimages - {e.hash} else preimages
  }

  lemma RestoredSeen(v: View, o: StateObject, e: Entry)
    requires (e.SuicideChange? || e.BalanceChange? || e.StorageChange?) && e.account in v.accounts
               && v.accounts[e.account] == SeenOf(o)
    ensures Undo(v, e) == Put(v, e.account, SeenOf(Restored(o, e)))
  {
    match e
    case SuicideChange(_, flag, balance) => SeenMoney(o, balance, flag);
    case BalanceChange(_, balance) => SeenMoney(o, balance, o.suicided);
    case StorageChange(_, k, value) => SeenState(o, k, value);
  }

  lemma NotFound(v: View, objects: Objects, trie: map<Address, Account>, e: Entry)
    requires Agrees(v.accounts, objects, trie) && (e.SuicideChange? || e.BalanceChange? || e.StorageChange?)
    requires Find(objects, trie, e.account).None?
    ensures Undo(v, e) == v && Reverted(objects, trie, e) == objects
  {}

  lemma FoundRestored(v: View, objects: Objects, trie: map<Address, Account>, e: Entry, o: StateObject)
    requires Agrees(v.accounts, objects, trie) && (e.SuicideChange? || e.BalanceChange? || e.StorageChange?)
    requires Find(objects, trie, e.account) == Some(o)
    ensures Undo(v, e) == Put(v, e.account, SeenOf(Restored(o, e)))
    ensures Reverted(objects, trie, e) == objects[e.account := Restored(o, e)]
  {
    assert e.account in v.accounts && v.accounts[e.account] == SeenOf(o);
    RestoredSeen(v, o, e);
    RevertedFound(objects, trie, e, o);
  }

  lemma RevertedFound(objects: Objects, trie: map<Address, Account>, e: Entry, o: StateObject)
    requires (e.SuicideChange? || e.BalanceChange? || e.StorageChange?) && Find(objects, trie, e.account) == Some(o)
    ensures Reverted(objects, trie, e) == objects[e.account := Restored(o, e)]
  {}

  lemma RestoredShows(v: View, objects: Objects, trie: map<Address, Account>, e: Entry)
    requires Agrees(v.accounts, objects, trie) && (e.SuicideChange? || e.BalanceChange? || e.StorageChange?)
    ensures Agrees(Undo(v, e).accounts, Reverted(objects, trie, e), trie) && Undo(v, e).preimages == v.preimages
  {
    match Find(objects, trie, e.account)
    case None => NotFound(v, objects, trie, e);
    case Some(o) =>
      FoundRestored(v, objects, trie, e, o);
      AgreesAt(v.accounts, objects, trie, e.account, Restored(o, e));
  }

  /** The live set shows what the view shows, after an entry is taken back from both. */
  lemma RevertedShows(b: Books, e: Entry)
    requires Holds(Shows, b) && EntryOk(e, b.trie)
    ensures Agrees(Undo(b.sight, e).accounts, Reverted(b.objects, b.trie, e), b.trie)
    ensures Undo(b.sight, e).preimages == ForgetPreimage(b.preimages, e)
  {
    match e
    case CreateObject(a) => AgreesWithout(b.sight.accounts, b.objects, b.trie, a);
    case ResetObject(a, prev) => AgreesAt(b.sight.accounts, b.objects, b.trie, a, prev);
    case AddPreimage(_) =>
    case Touch(_) =>
    case _ => RestoredShows(b.sight, b.objects, b.trie, e);
  }

  /** The state after the last entry of the journal is taken back, with no snapshot in between. */
  ghost function OneBack(b: Books): Books
    requires b.entries != []
  {
    var n := |b.entries| - 1;
    var e := b.entries[n];
    b.(objects := Reverted(b.objects, b.trie, e), preimages := ForgetPreimage(b.preimages, e),
       sight := Undo(b.sight, e), entries := b.entries[..n], dirties := Unmarked(b.dirties, e))
  }

  lemma OneBackKeeps(b: Books)
    requires Inv(b) && b.entries != [] && b.revs == [] && b.saved == []
    ensures Inv(OneBack(b))
  {
    var c, e := OneBack(b), b.entries[|b.entries| - 1];
    assert Holds(Entries, b) && Holds(Trail, b) && EntryOk(e, b.trie);
    forall x ensures Holds(x, c) {
      assert Holds(x, b);
      match x
      case Shows => RevertedShows(b, e);
      case Objects_ => RevertedFit(b.objects, b.trie, e);
      case Dirt => UnmarkedMatch(b.dirties, b.entries, b.extra);
      case _ =>
    }
  }

  /** Forgetting the snapshots. */
  lemma BareKeeps(b: Books)
    requires Inv(b)
    ensures Inv(b.(revs := [], saved := []))
  {
    forall x ensures Holds(x, b.(revs := [], saved := [])) { assert Holds(x, b); }
  }

  /** The binary search of `sort.Search` for a revision. */
  method Search(revs: seq<Revision>, id: int) returns (k: nat)
    requires forall i, j :: 0 <= i < j < |revs| ==> revs[i].id < revs[j].id
    ensures k <= |revs| && (forall i :: 0 <= i < k ==> revs[i].id < id)
              && (forall i :: k <= i < |revs| ==> revs[i].id >= id)
  {
    var lo: nat, hi: nat := 0, |revs|;
    while lo < hi
      invariant lo <= hi <= |revs|
      invariant (forall i :: 0 <= i < lo ==> revs[i].id < id) && (forall i :: hi <= i < |revs| ==> revs[i].id >= id)
    {
      var mid := (lo + hi) / 2;
      if revs[mid].id >= id {
        hi := mid;
      } else {
        lo := mid + 1;
      }
    }
    k := lo;
  }

  class DB {
    var stateObjects: Objects
    const trie: map<Address, Account>
    var preimages: map<Word, Bytes>
    var entries: seq<Entry>
    var dirties: map<Address, nat>
    var validRevisions: seq<Revision>
    var nextRevisionId: int
    ghost var sight: View
    ghost var saved: seq<View>
    ghost var extra: nat

    ghost function Now(): Books
      reads this
    {
      Books(stateObjects, trie, preimages, entries, dirties, validRevisions, nextRevisionId, sight, saved, extra)
    }

    ghost predicate Valid()
      reads this
    {
      Inv(Now())
    }

    /** `New`. */
    constructor (accounts: map<Address, Account>)
      ensures Valid() && trie == accounts && entries == [] && dirties == map[] && validRevisions == [] && saved == []
      ensures sight == View(Look(accounts), map[])
    {
      trie := accounts;
      stateObjects, preimages, entries, dirties, validRevisions, nextRevisionId := map[], map[], [], map[], [], 0;
      sight, saved, extra := View(Look(accounts), map[]), [], 0;
      new;
      forall x ensures Holds(x, Now()) {}
    }

    /** `getStateObject`: an object that is only in the trie joins the live set. */
    method GetObject(a: Address) returns (o: Option<StateObject>)
      requires Valid()
      modifies this`stateObjects
      ensures Valid() && (o.Some? <==> a in sight.accounts)
      ensures o.Some? ==> Live(a) && stateObjects[a] == o.value && sight.accounts[a] == SeenOf(o.value)
    {
      FoundIsShown(Now(), a);
      if a in stateObjects {
        return if stateObjects[a].deleted then None else Some(stateObjects[a]);
      }
      if a !in trie {
        return None;
      }
      QuietKeeps(Now(), a, NewObject(trie[a]));
      o := Some(NewObject(trie[a]));
      stateObjects := stateObjects[a := o.value];
    }

    /** There is a live object under `a`. */
    predicate Live(a: Address)
      reads this
    {
      a in stateObjects && !stateObjects[a].deleted
    }

    // ------------------------------------------------------------------------------------------
    // Asking
    // ------------------------------------------------------------------------------------------

    /** `Exist`. */
    method Exist(a: Address) returns (r: bool)
      requires Valid()
      modifies this`stateObjects
      ensures Valid() && r == (a in sight.accounts)
    {
      var o := GetObject(a);
      r := o.Some?;
    }

    /** `GetBalance`. */
    method GetBalance(a: Address) returns (r: nat)
      requires Valid()
      modifies this`stateObjects
      ensures Valid() && r == if a in sight.accounts then sight.accounts[a].balance else 0
    {
      var o := GetObject(a);
      r := if o.Some? then o.value.balance else 0;
    }

    /** `HasSuicided`. */
    method HasSuicided(a: Address) returns (r: bool)
      requires Valid()
      modifies this`stateObjects
      ensures Valid() && (r <==> a in sight.accounts && sight.accounts[a].suicided)
    {
      var o := GetObject(a);
      r := o.Some? && o.value.suicided;
    }

    /** `GetCommittedState` of a live object, which remembers what it has read. */
    method ReadSlot(a: Address, k: Word) returns (r: Word)
      requires Valid() && Live(a)
      modifies this`stateObjects
      ensures Valid() && r == old(stateObjects)[a].Committed(k)
      ensures Live(a) && k in stateObjects[a].origin && SeenOf(stateObjects[a]) == SeenOf(old(stateObjects)[a])
    {
      var o := stateObjects[a];
      if k in o.origin {
        return o.origin[k];
      }
      r := if k in o.base then o.base[k] else ZERO;
      ReadKeeps(Now(), a, k);
      stateObjects := stateObjects[a := o.(origin := o.origin[k := r])];
    }

    /** `GetState` of a live object. */
    method ObjectState(a: Address, k: Word) returns (r: Word)
      requires Valid() && Live(a)
      modifies this`stateObjects
      ensures Valid() && r == old(stateObjects)[a].Slot(k) && Live(a) && r == stateObjects[a].Slot(k)
      ensures k in stateObjects[a].origin
      ensures SeenOf(stateObjects[a]) == SeenOf(old(stateObjects)[a])
    {
      FoundIsShown(Now(), a);
      if k in stateObjects[a].dirty {
        return stateObjects[a].dirty[k];
      }
      r := ReadSlot(a, k);
      assert SeenOf(stateObjects[a]).storage[k] == stateObjects[a].Slot(k);
    }

    /** `GetState`. */
    method GetState(a: Address, k: Word) returns (r: Word)
      requires Valid()
      modifies this`stateObjects
      ensures Valid() && r == if a in sight.accounts then SlotOf(sight.accounts[a].storage, k) else ZERO
    {
      var o := GetObject(a);
      if o.None? {
        return ZERO;
      }
      r := ObjectState(a, k);
    }

    /** `GetCommittedState`. */
    method GetCommittedState(a: Address, k: Word) returns (r: Word)
      requires Valid()
      modifies this`stateObjects
      ensures Valid() && r == if a in sight.accounts then SlotOf(sight.accounts[a].committed, k) else ZERO
    {
      var o := GetObject(a);
      if o.None? {
        return ZERO;
      }
      r := ReadSlot(a, k);
    }

    // ------------------------------------------------------------------------------------------
    // Changing
    // ------------------------------------------------------------------------------------------

    /** Put object `o` under `a` and record entry `e`, which takes the change back. */
    method Change(e: Entry, a: Address, o: StateObject)
      requires Valid() && EntryOk(e, trie) && TakesBack(Put(sight, a, SeenOf(o)), e, sight)
      requires Fitting(stateObjects, trie, e, a, o)
      modifies this`stateObjects, this`entries, this`dirties, this`sight
      ensures Valid() && sight == Put(old(sight), a, SeenOf(o)) && Live(a) && stateObjects[a] == o
      ensures entries == old(entries) + [e] && dirties == Marked(old(dirties), e)
    {
      ChangeKeeps(Now(), e, a, o);
      entries := entries + [e];
      dirties := Marked(dirties, e);
      stateObjects := stateObjects[a := o];
      sight := Put(sight, a, SeenOf(o));
    }

    /** `createObject`; a replaced account passes its balance on, as `CreateAccount` has it. */
    method CreateAccount(a: Address)
      requires Valid()
      modifies this`stateObjects, this`entries, this`dirties, this`sight
      ensures Valid() && Live(a) && sight == Put(old(sight), a, SeenOf(stateObjects[a]))
      ensures a in old(sight).accounts ==> dirties == old(dirties)
      ensures a !in old(sight).accounts ==> Soils(old(dirties), dirties, a)
      ensures SeenOf(stateObjects[a]) == Fresh().(balance := OrNew(old(sight), a).balance)
    {
      var prev := GetObject(a);
      var o := NewObject(Account(0, map[]));
      if prev.Some? {
        var p := o.(balance := prev.value.balance);
        SeenMoney(o, p.balance, false);
        FoundIsShown(Now(), a);
        UndoReset(sight, a, SeenOf(p), prev.value);
        FittingReset(stateObjects, trie, a, p);
        Change(ResetObject(a, prev.value), a, p);
      } else {
        FoundIsShown(Now(), a);
        UndoCreate(sight, a, SeenOf(o));
        FittingCreate(stateObjects, trie, a, o);
        Change(StateView.CreateObject(a), a, o);
      }
    }

    /** `GetOrNewStateObject`. */
    method GetOrNew(a: Address)
      requires Valid()
      modifies this`stateObjects, this`entries, this`dirties, this`sight
      ensures Valid() && Live(a) && SeenOf(stateObjects[a]) == OrNew(old(sight), a)
                && sight == Put(old(sight), a, OrNew(old(sight), a))
      ensures if a in old(sight).accounts then dirties == old(dirties) else Soils(old(dirties), dirties, a)
    {
      var o := GetObject(a);
      if o.None? {
        CreateAccount(a);
      } else {
        PutSame(sight, a);
      }
    }

    /** `SetBalance` of a live object. */
    method PutBalance(a: Address, amount: nat)
      requires Valid() && Live(a)
      modifies this`stateObjects, this`entries, this`dirties, this`sight
      ensures Valid() && sight == Put(old(sight), a, SeenOf(old(stateObjects)[a]).(balance := amount))
      ensures Soils(old(dirties), dirties, a)
    {
      var o := stateObjects[a];
      FoundIsShown(Now(), a);
      SeenMoney(o, amount, o.suicided);
      UndoMoney(sight, a, amount);
      FittingChange(stateObjects, trie, BalanceChange(a, o.balance), a, o.(balance := amount));
      Change(BalanceChange(a, o.balance), a, o.(balance := amount));
    }

    /** `SetBalance`. */
    method SetBalance(a: Address, amount: nat)
      requires Valid()
      modifies this`stateObjects, this`entries, this`dirties, this`sight
      ensures Valid() && sight == Put(old(sight), a, OrNew(old(sight), a).(balance := amount))
      ensures Soils(old(dirties), dirties, a)
    {
      ghost var v, seen := sight, OrNew(sight, a);
      GetOrNew(a);
      PutAgain(v, a, seen, seen.(balance := amount));
      PutBalance(a, amount);
    }

    /** `touch`: the entry changes nothing; on one account it leaves a mark that is never taken back. */
    method TouchAccount(a: Address)
      requires Valid()
      modifies this`entries, this`dirties, this`extra
      ensures Valid() && Soils(old(dirties), dirties, a)
    {
      TouchKeeps(Now(), a);
      entries := entries + [Touch(a)];
      dirties := Marked(dirties, Touch(a));
      if a == RIPEMD {
        MarkKeeps(Now());
        dirties := dirties[a := (if a in dirties then dirties[a] else 0) + 1];
        extra := extra + 1;
      }
    }

    /** `AddBalance`, in 64 bits. */
    method AddBalance(a: Address, amount: nat)
      requires Valid() && amount < UINT64_RANGE
      modifies this`stateObjects, this`entries, this`dirties, this`extra, this`sight
      ensures Valid()
      ensures amount == 0 ==> sight == Put(old(sight), a, OrNew(old(sight), a))
      ensures amount != 0 ==>
                var seen := OrNew(old(sight), a);
                sight == Put(old(sight), a, seen.(balance := (seen.balance + amount) % UINT64_RANGE))
      ensures if amount != 0 || OrNew(old(sight), a).balance == 0 then Soils(old(dirties), dirties, a)
              else dirties == old(dirties)
    {
      ghost var v, seen := sight, OrNew(sight, a);
      GetOrNew(a);
      var o := stateObjects[a];
      if amount != 0 {
        var sum := (o.balance + amount) % UINT64_RANGE;
        PutAgain(v, a, seen, seen.(balance := sum));
        PutBalance(a, sum);
      } else if o.balance == 0 {
        TouchAccount(a);
      }
    }

    /** `SubBalance`, which must not be asked for more than there is. */
    method SubBalance(a: Address, amount: nat)
      requires Valid() && (amount == 0 || OrNew(sight, a).balance >= amount)
      modifies this`stateObjects, this`entries, this`dirties, this`sight
      ensures Valid() && sight == Put(old(sight), a,
                OrNew(old(sight), a).(balance := OrNew(old(sight), a).balance - amount))
      ensures if amount != 0 || a !in old(sight).accounts then Soils(old(dirties), dirties, a)
              else dirties == old(dirties)
    {
      ghost var v, seen := sight, OrNew(sight, a);
      GetOrNew(a);
      if amount != 0 {
        var left := stateObjects[a].balance - amount;
        PutAgain(v, a, seen, seen.(balance := left));
        PutBalance(a, left);
      }
    }

    /** `SetState`: nothing is recorded when the value is the same. */
    method SetState(a: Address, k: Word, value: Word)
      requires Valid()
      modifies this`stateObjects, this`entries, this`dirties, this`sight
      ensures Valid()
      ensures sight == Put(old(sight), a, OrNew(old(sight), a).(storage := OrNew(old(sight), a).storage[k := value]))
      ensures if a !in old(sight).accounts || SlotOf(old(sight).accounts[a].storage, k) != value
              then Soils(old(dirties), dirties, a) else dirties == old(dirties)
    {
      ghost var v, seen := sight, OrNew(sight, a);
      GetOrNew(a);
      var prev := ObjectState(a, k);
      if prev == value {
        assert seen.storage[k := value] == seen.storage;
      } else {
        PutAgain(v, a, seen, seen.(storage := seen.storage[k := value]));
        PutState(a, k, prev, value);
      }
    }

    /** `SetState` of a live object, when the value is a new one. */
    method PutState(a: Address, k: Word, prev: Word, value: Word)
      requires Valid() && Live(a) && prev == stateObjects[a].Slot(k) && k in stateObjects[a].origin
      modifies this`stateObjects, this`entries, this`dirties, this`sight
      ensures Valid()
      ensures var seen := SeenOf(old(stateObjects)[a]);
              sight == Put(old(sight), a, seen.(storage := seen.storage[k := value]))
      ensures Soils(old(dirties), dirties, a)
    {
      var o := stateObjects[a];
      FoundIsShown(Now(), a);
      SeenState(o, k, value);
      UndoStorage(sight, a, k, value);
      FittingChange(stateObjects, trie, StorageChange(a, k, prev), a, o.(dirty := o.dirty[k := value]));
      Change(StorageChange(a, k, prev), a, o.(dirty := o.dirty[k := value]));
    }

    /** `Suicide`. */
    method Suicide(a: Address) returns (r: bool)
      requires Valid()
      modifies this`stateObjects, this`entries, this`dirties, this`sight
      ensures Valid() && r == (a in old(sight).accounts) && (!r ==> sight == old(sight))
      ensures r ==> sight == Put(old(sight), a, old(sight).accounts[a].(balance := 0, suicided := true))
      ensures if r then Soils(old(dirties), dirties, a) else dirties == old(dirties)
    {
      var o := GetObject(a);
      if o.None? {
        return false;
      }
      SeenMoney(o.value, 0, true);
      UndoSuicide(sight, a);
      FoundIsShown(Now(), a);
      FittingChange(stateObjects, trie, SuicideChange(a, o.value.suicided, o.value.balance), a,
                    o.value.(balance := 0, suicided := true));
      Change(SuicideChange(a, o.value.suicided, o.value.balance), a, o.value.(balance := 0, suicided := true));
      r := true;
    }

    /** `AddPreimage`. */
    method AddPreimage(h: Word, b: Bytes)
      requires Valid()
      modifies this`preimages, this`entries, this`dirties, this`sight
      ensures Valid()
      ensures sight == if h in old(sight).preimages then old(sight)
                else old(sight).(preimages := old(sight).preimages[h := b])
    {
      FoundIsShown(Now(), RIPEMD);
      if h in preimages {
        return;
      }
      PreimageKeeps(Now(), h, b);
      entries := entries + [StateView.AddPreimage(h)];
      dirties := Marked(dirties, StateView.AddPreimage(h));
      preimages := preimages[h := b];
      sight := sight.(preimages := preimages);
    }

    // ------------------------------------------------------------------------------------------
    // Snapshots
    // ------------------------------------------------------------------------------------------

    /** `Snapshot`. */
    method Snapshot() returns (id: int)
      requires Valid()
      modifies this`validRevisions, this`nextRevisionId, this`saved
      ensures Valid() && id == old(nextRevisionId) && nextRevisionId == id + 1
      ensures validRevisions == old(validRevisions) + [Revision(id, |entries|)] && saved == old(saved) + [sight]
    {
      SnapshotKeeps(Now());
      id := nextRevisionId;
      nextRevisionId := nextRevisionId + 1;
      validRevisions := validRevisions + [Revision(id, |entries|)];
      saved := saved + [sight];
    }

    /** The journal as far as entry `i`, without snapshots. */
    ghost function Upto(i: nat): Books
      reads this
      requires i <= |entries|
    {
      Now().(entries := entries[..i], revs := [], saved := [])
    }

    /** `journal.revert`: take back the entries from the last down to `n`. */
    method RevertJournal(n: nat)
      requires Valid() && n <= |entries|
      modifies this`stateObjects, this`preimages, this`dirties, this`entries, this`sight
      ensures Inv(Now().(revs := [], saved := [])) && sight == Back(old(sight), old(entries), n)
                && entries == old(entries)[..n]
    {
      BareKeeps(Now());
      assert entries[..|entries|] == entries;
      UndoDown(n);
      entries := entries[..n];
    }

    /** Its loop: everything but the list of entries itself. */
    method UndoDown(n: nat)
      requires n <= |entries| && Inv(Upto(|entries|))
      modifies this`stateObjects, this`preimages, this`dirties, this`sight
      ensures Inv(Upto(n)) && sight == Back(old(sight), entries, n)
    {
      var i := |entries|;
      assert entries[..i] == entries;
      while i > n
        invariant n <= i <= |entries|
        invariant Inv(Upto(i)) && Back(old(sight), entries, n) == Back(sight, entries[..i], n)
      {
        i := i - 1;
        UndoNext(i, n);
      }
    }

    method UndoNext(i: nat, ghost n: nat)
      requires n <= i < |entries| && Inv(Upto(i + 1))
      modifies this`stateObjects, this`preimages, this`dirties, this`sight
      ensures Inv(Upto(i)) && Back(sight, entries[..i], n) == Back(old(sight), entries[..i + 1], n)
    {
      BackLast(sight, entries, i + 1, n);
      RevertOne(i);
    }

    /** One round of the loop above. */
    method RevertOne(i: nat)
      requires i < |entries| && Inv(Upto(i + 1))
      modifies this`stateObjects, this`preimages, this`dirties, this`sight
      ensures Inv(Upto(i)) && sight == Undo(old(sight), entries[i])
    {
      OneBackKeeps(Upto(i + 1));
      assert entries[..i + 1][..i] == entries[..i];
      var e := entries[i];
      stateObjects := Reverted(stateObjects, trie, e);
      preimages := ForgetPreimage(preimages, e);
      dirties := Unmarked(dirties, e);
      sight := Undo(sight, e);
    }

    /** `RevertToSnapshot`: refused, without any effect, for a revision that is not valid. */
    method RevertToSnapshot(id: int) returns (ok: bool, ghost k: nat)
      requires Valid()
      modifies this`stateObjects, this`preimages, this`dirties, this`entries, this`sight, this`validRevisions,
          this`saved
      ensures Valid() && |old(saved)| == |old(validRevisions)|
      ensures ok <==> exists i :: 0 <= i < |old(validRevisions)| && old(validRevisions)[i].id == id
      ensures ok ==> k < |old(saved)| && old(validRevisions)[k].id == id
      ensures ok ==> sight == old(saved)[k] && validRevisions == old(validRevisions)[..k] && saved == old(saved)[..k]
      ensures !ok ==> unchanged(this)
    {
      assert Holds(Numbers, Now()) && Holds(Saved, Now());
      var idx := Search(validRevisions, id);
      k := idx;
      if idx == |validRevisions| || validRevisions[idx].id != id {
        return false, 0;
      }
      Rewind(idx);
      ok := true;
    }

    /** Back to a valid revision. */
    method Rewind(idx: nat)
      requires Valid() && idx < |validRevisions| && |saved| == |validRevisions|
                 && validRevisions[idx].index <= |entries|
      modifies this`stateObjects, this`preimages, this`dirties, this`entries, this`sight, this`validRevisions,
          this`saved
      ensures Valid() && sight == old(saved)[idx]
      ensures validRevisions == old(validRevisions)[..idx] && saved == old(saved)[..idx]
    {
      ghost var b := Now();
      RevertJournal(validRevisions[idx].index);
      ghost var c := Now().(revs := [], saved := []);
      assert Holds(Shows, c) && Holds(Objects_, c) && Holds(Dirt, c) && Holds(Trail, c);
      validRevisions := validRevisions[..idx];
      saved := saved[..idx];
      RevertKeeps(b, Now(), idx);
    }

    /**
     `Commit`: the accounts that are in the trie afterwards. Live objects come in the arbitrary order of a map. Balances
     are those shown; a live account goes when it is suicided, or dirty and empty; and the slots of an account are those
     shown unless it was replaced over storage and is not dirty.
     */
    method Commit(deleteEmpty: bool) returns (t: map<Address, Account>)
      requires Valid()
      ensures forall a :: BalanceAt(t, a) == Lasting(sight, a)
      ensures forall a {:trigger a in t} :: a in t <==>
                a in sight.accounts && (a in stateObjects ==> !sight.accounts[a].suicided)
                && (a in stateObjects && a in dirties && deleteEmpty ==> sight.accounts[a].balance > 0)
      ensures forall a {:trigger a in t} :: a in t ==>
                (SameSlots(t[a], sight.accounts[a]) <==> SlotsLast(Now(), a))
      ensures forall a {:trigger a in t} :: a in t && a !in dirties ==> a in trie && t[a] == trie[a]
    {
      t := trie;
      var keys := stateObjects.Keys;
      ghost var b := Now();
      forall a ensures Untouched(b, t, a) {}
      while keys != {}
        invariant keys <= stateObjects.Keys
        invariant forall a {:trigger a in keys} :: a in stateObjects && a !in keys ==> Settled(b, t, a, deleteEmpty)
        invariant forall a {:trigger a in keys} :: a !in stateObjects || a in keys ==> Untouched(b, t, a)
        decreases keys
      {
        var a :| a in keys;
        CommitSettles(b, t, a, deleteEmpty);
        ghost var before := t;
        t := CommitOne(t, a, stateObjects[a], a in dirties, deleteEmpty);
        OnlyOne(b, before, t, a, deleteEmpty);
        keys := keys - {a};
      }
      forall a {:trigger a in t} {:trigger BalanceAt(t, a)} ensures Written(b, t, a, deleteEmpty) {
        assert a !in keys;
        AllWritten(b, t, a, deleteEmpty);
      }
    }
  }

  /**
   Such an account: it has one slot, and is created anew. The slot shows nothing, and `Commit` leaves it as it was,
       because
   replacing an account makes nothing dirty.
   */
  method ReplacedSlotReturns(a: Address, k: Word, w: Word) returns (shown: Word, t: map<Address, Account>)
    requires w != ZERO
    ensures shown == ZERO && a in t && SlotAt(t[a].storage, k) == w
  {
    var db := new DB(map[a := Account(5, map[k := w])]);
    db.CreateAccount(a);
    shown := db.GetState(a, k);
    t := db.Commit(true);
  }
}

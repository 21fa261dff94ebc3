/**
 Accounts as src/state shows them, and the journal that takes changes back (src/state/journal.go,
 src/state/statedb.go, src/state/state_object.go).
 */
module StateView {
  import opened Wrappers
  import opened TrieKeys

  datatype Address = Address(id: nat)

  datatype Word = Word(value: nat)

  const RIPEMD: Address := Address(3)
  const ZERO: Word := Word(0)
  const UINT64_RANGE: nat := 0x1_0000_0000_0000_0000

  /** An account in the state trie, with the contents of its storage trie. */
  datatype Account = Account(balance: nat, storage: map<Word, Word>)

  /** `stateObject`: `base` is its storage trie, `origin` the part of it that was read, `dirty` what was written. */
  datatype StateObject = StateObject(balance: nat, base: map<Word, Word>, origin: map<Word, Word>,
                                     dirty: map<Word, Word>, suicided: bool, deleted: bool) {
    function Committed(k: Word): Word {
      if k in origin then origin[k] else if k in base then base[k] else ZERO
    }

    function Slot(k: Word): Word {
      if k in dirty then dirty[k] else Committed(k)
    }

    /** The slot in the storage trie. */
    function Stored(k: Word): Word {
      if k in base then base[k] else ZERO
    }
  }

  /** A live object: it has read what is in its storage trie, and has read every slot that it has written. */
  ghost predicate Fit(o: StateObject) {
    !o.deleted && o.dirty.Keys <= o.origin.Keys && forall k {:trigger o.origin[k]} :: k in o.origin ==>
        o.origin[k] == o.Stored(k)
  }

  function NewObject(a: Account): StateObject {
    StateObject(a.balance, a.storage, map[], map[], false, false)
  }

  type Objects = map<Address, StateObject>

  /** `getStateObject`: the live object, or else the one in the trie. */
  function Find(objects: Objects, trie: map<Address, Account>, a: Address): Option<StateObject> {
    if a in objects then if objects[a].deleted then None else Some(objects[a])
    else if a in trie then Some(NewObject(trie[a]))
    else None
  }

  /** What can be asked of an account. */
  datatype Seen = Seen(balance: nat, suicided: bool, storage: imap<Word, Word>, committed: imap<Word, Word>)

  ghost function SeenOf(o: StateObject): Seen {
    Seen(o.balance, o.suicided, imap k: Word :: o.Slot(k), imap k: Word :: o.Committed(k))
  }

  lemma SeenState(o: StateObject, k: Word, value: Word)
    ensures SeenOf(o.(dirty := o.dirty[k := value])) == SeenOf(o).(storage := SeenOf(o).storage[k := value])
  {
    var p := o.(dirty := o.dirty[k := value]);
    assert SeenOf(p).storage == SeenOf(o).storage[k := value];
    assert SeenOf(p).committed == SeenOf(o).committed;
  }

  lemma SeenRead(o: StateObject, k: Word)
    ensures SeenOf(o.(origin := o.origin[k := o.Committed(k)])) == SeenOf(o)
  {
    var p := o.(origin := o.origin[k := o.Committed(k)]);
    assert SeenOf(p).storage == SeenOf(o).storage;
    assert SeenOf(p).committed == SeenOf(o).committed;
  }

  /** Balance and flag are shown as they are; the rest of the object shows the same. */
  lemma SeenMoney(o: StateObject, balance: nat, flag: bool)
    ensures SeenOf(o.(balance := balance, suicided := flag)) == SeenOf(o).(balance := balance, suicided := flag)
  {
    var p := o.(balance := balance, suicided := flag);
    assert SeenOf(p).storage == SeenOf(o).storage;
    assert SeenOf(p).committed == SeenOf(o).committed;
  }

  /** What can be asked of the state. */
  datatype View = View(accounts: imap<Address, Seen>, preimages: map<Word, Bytes>)

  /** The accounts shown are those that can be found. */
  ghost predicate Agrees(accounts: imap<Address, Seen>, objects: Objects, trie: map<Address, Account>) {
    forall a {:trigger Find(objects, trie, a)} {:trigger a in accounts} ::
      && (a in accounts <==> Find(objects, trie, a).Some?)
      && (a in accounts ==> accounts[a] == SeenOf(Find(objects, trie, a).value))
  }

  ghost function Look(trie: map<Address, Account>): (v: imap<Address, Seen>)
    ensures Agrees(v, map[], trie)
  {
    imap a: Address | a in trie :: SeenOf(NewObject(trie[a]))
  }

  ghost function Except(accounts: imap<Address, Seen>, a: Address): imap<Address, Seen> {
    imap x | x in accounts && x != a :: accounts[x]
  }

  lemma AccountsEqual(l: imap<Address, Seen>, r: imap<Address, Seen>)
    requires forall x: Address {:trigger l[x]} {:trigger r[x]} :: (x in l <==> x in r) && (x in l ==> l[x] == r[x])
    ensures l == r
  {}

  lemma FindAt(objects: Objects, trie: map<Address, Account>, a: Address, o: StateObject, x: Address)
    requires !o.deleted
    ensures Find(objects[a := o], trie, x) == if x == a then Some(o) else Find(objects, trie, x)
  {}

  lemma AgreesAt(accounts: imap<Address, Seen>, objects: Objects, trie: map<Address, Account>, a: Address,
          o: StateObject)
    requires Agrees(accounts, objects, trie) && !o.deleted
    ensures Agrees(accounts[a := SeenOf(o)], objects[a := o], trie)
  {
    forall x {:trigger Find(objects[a := o], trie, x)}
      ensures Find(objects[a := o], trie, x) == if x == a then Some(o) else Find(objects, trie, x)
    {
      FindAt(objects, trie, a, o, x);
    }
  }

  lemma FindWithout(objects: Objects, trie: map<Address, Account>, a: Address, x: Address)
    requires a !in trie
    ensures Find(objects - {a}, trie, x) == if x == a then None else Find(objects, trie, x)
  {}

  lemma AgreesWithout(accounts: imap<Address, Seen>, objects: Objects, trie: map<Address, Account>, a: Address)
    requires Agrees(accounts, objects, trie) && a !in trie
    ensures Agrees(Except(accounts, a), objects - {a}, trie)
  {
    forall x {:trigger Find(objects - {a}, trie, x)}
      ensures Find(objects - {a}, trie, x) == if x == a then None else Find(objects, trie, x)
    {
      FindWithout(objects, trie, a, x);
    }
  }

  /** An object that shows the same as what was found before. */
  lemma AgreesQuietly(accounts: imap<Address, Seen>, objects: Objects, trie: map<Address, Account>, a: Address,
          o: StateObject)
    requires Agrees(accounts, objects, trie) && !o.deleted && Find(objects, trie, a).Some?
               && SeenOf(Find(objects, trie, a).value) == SeenOf(o)
    ensures Agrees(accounts, objects[a := o], trie)
  {
    AgreesAt(accounts, objects, trie, a, o);
    AccountsEqual(accounts[a := SeenOf(o)], accounts);
  }

  // ------------------------------------------------------------------------------------------
  // Journal entries
  // ------------------------------------------------------------------------------------------

  datatype Entry =
    | CreateObject(account: Address)
    | ResetObject(account: Address, prev: StateObject)
    | SuicideChange(account: Address, flag: bool, balance: nat)
    | BalanceChange(account: Address, balance: nat)
    | StorageChange(account: Address, key: Word, value: Word)
    | AddPreimage(hash: Word)
    | Touch(account: Address)

  /** `dirtied`. */
  function Dirtied(e: Entry): Option<Address> {
    match e
    case ResetObject(_, _) => None
    case AddPreimage(_) => None
    case _ => Some(e.account)
  }

  /** What taking back an entry does to the view. */
  ghost function Undo(v: View, e: Entry): View {
    match e
    case CreateObject(a) => v.(accounts := Except(v.accounts, a))
    case ResetObject(a, prev) => v.(accounts := v.accounts[a := SeenOf(prev)])
    case SuicideChange(a, flag, balance) =>
      if a in v.accounts then v.(accounts := v.accounts[a := v.accounts[a].(suicided := flag, balance := balance)])
          else v
    case BalanceChange(a, balance) =>
      if a in v.accounts then v.(accounts := v.accounts[a := v.accounts[a].(balance := balance)]) else v
    case StorageChange(a, k, value) =>
      if a in v.accounts
      then v.(accounts := v.accounts[a := v.accounts[a].(storage := v.accounts[a].storage[k := value])])
      else v
    case AddPreimage(h) => v.(preimages := v.preimages - {h})
    case Touch(_) => v
  }

  ghost predicate Blank(storage: imap<Word, Word>) {
    forall k {:trigger k in storage} :: k in storage && storage[k] == ZERO
  }

  /**
   The account that an entry is about is there when the entry is taken back; one that has just replaced another has the
   same balance and no storage.
   */
  ghost predicate Applies(v: View, e: Entry) {
    match e
    case BalanceChange(a, _) => a in v.accounts
    case StorageChange(a, _, _) => a in v.accounts
    case ResetObject(a, prev) =>
      a in v.accounts && v.accounts[a].balance == prev.balance && Blank(v.accounts[a].storage)
    case _ => true
  }

  /** The view after taking back all entries but the first `n`. */
  ghost function Back(v: View, es: seq<Entry>, n: nat): View
    decreases |es|
  {
    if |es| <= n then v else Back(Undo(v, es[|es| - 1]), es[..|es| - 1], n)
  }

  /** All entries can be taken back, one by one. */
  ghost predicate Reversible(v: View, es: seq<Entry>)
    decreases |es|
  {
    es == [] || (Applies(v, es[|es| - 1]) && Reversible(Undo(v, es[|es| - 1]), es[..|es| - 1]))
  }

  lemma BackOne(v: View, es: seq<Entry>, e: Entry, n: nat)
    requires n <= |es|
    ensures Back(v, es + [e], n) == Back(Undo(v, e), es, n)
  {
    assert (es + [e])[..|es|] == es;
  }

  /** Going back further from where one has gone back to. */
  lemma {:induction false} BackTwice(v: View, es: seq<Entry>, m: nat, n: nat)
    requires n <= m <= |es|
    ensures Back(v, es, n) == Back(Back(v, es, m), es[..m], n)
    decreases |es|
  {
    if m == |es| {
      assert es[..m] == es;
    } else {
      var k := |es| - 1;
      BackTwice(Undo(v, es[k]), es[..k], m, n);
      assert es[..k][..m] == es[..m];
    }
  }

  lemma {:induction false} ReversibleBack(v: View, es: seq<Entry>, m: nat)
    requires Reversible(v, es) && m <= |es|
    ensures Reversible(Back(v, es, m), es[..m])
    decreases |es|
  {
    if m == |es| {
      assert es[..m] == es;
    } else {
      var k := |es| - 1;
      ReversibleBack(Undo(v, es[k]), es[..k], m);
      assert es[..k][..m] == es[..m];
    }
  }

  ghost function BalanceIn(v: View, a: Address): nat {
    if a in v.accounts then v.accounts[a].balance else 0
  }

  lemma UndoElsewhere(v: View, e: Entry, a: Address)
    requires Applies(v, e) && Dirtied(e) != Some(a)
    ensures BalanceIn(Undo(v, e), a) == BalanceIn(v, a)
  {}

  /** An account without journal entries has the balance that it started with. */
  lemma {:induction false} CleanBalance(v: View, es: seq<Entry>, a: Address)
    requires Reversible(v, es) && CountFor(es, a) == 0
    ensures BalanceIn(Back(v, es, 0), a) == BalanceIn(v, a)
    decreases |es|
  {
    if es != [] {
      var n := |es| - 1;
      UndoElsewhere(v, es[n], a);
      CleanBalance(Undo(v, es[n]), es[..n], a);
    }
  }

  // ------------------------------------------------------------------------------------------
  // Dirty counts
  // ------------------------------------------------------------------------------------------

  function CountFor(es: seq<Entry>, a: Address): nat {
    if es == [] then 0
    else CountFor(es[..|es| - 1], a) + if Dirtied(es[|es| - 1]) == Some(a) then 1 else 0
  }

  /** Accounts are dirty as often as the journal has entries for them; touching one account leaves `extra` marks. */
  ghost predicate CountsMatch(dirties: map<Address, nat>, es: seq<Entry>, extra: nat) {
    forall a {:trigger CountFor(es, a)} {:trigger a in dirties} ::
      (if a in dirties then dirties[a] else 0) == CountFor(es, a) + (if a == RIPEMD then extra else 0)
      && (a in dirties ==> dirties[a] > 0)
  }

  lemma CountMore(es: seq<Entry>, e: Entry, a: Address)
    ensures CountFor(es + [e], a) == CountFor(es, a) + if Dirtied(e) == Some(a) then 1 else 0
  {
    assert (es + [e])[..|es|] == es;
  }

  // ------------------------------------------------------------------------------------------
  // Storage of accounts that are not dirty
  // ------------------------------------------------------------------------------------------

  /** The journal has replaced the account by a new one. */
  ghost predicate Replaced(es: seq<Entry>, a: Address) {
    exists i :: 0 <= i < |es| && es[i].ResetObject? && es[i].account == a
  }

  lemma ReplacedBefore(es: seq<Entry>, a: Address)
    requires es != [] && !(es[|es| - 1].ResetObject? && es[|es| - 1].account == a)
    ensures Replaced(es, a) <==> Replaced(es[..|es| - 1], a)
  {
    var n := |es| - 1;
    if Replaced(es, a) {
      var i :| 0 <= i < |es| && es[i].ResetObject? && es[i].account == a;
      assert es[..n][i] == es[i];
    }
    if Replaced(es[..n], a) {
      var i :| 0 <= i < n && es[..n][i].ResetObject? && es[..n][i].account == a;
      assert es[i] == es[..n][i];
    }
  }

  /** What is shown of an account that no entry is about does not change when an entry is taken back. */
  lemma UndoApart(v: View, e: Entry, a: Address)
    requires Dirtied(e) != Some(a) && !(e.ResetObject? && e.account == a)
    ensures a in Undo(v, e).accounts <==> a in v.accounts
    ensures a in v.accounts ==> Undo(v, e).accounts[a] == v.accounts[a]
  {}

  /** An account that is not dirty was there from the start, and has its first storage or, once replaced, none. */
  lemma {:induction false} CleanAccount(v: View, es: seq<Entry>, a: Address)
    requires Reversible(v, es) && CountFor(es, a) == 0
    ensures a in v.accounts <==> a in Back(v, es, 0).accounts
    ensures a in v.accounts && Replaced(es, a) ==> Blank(v.accounts[a].storage)
    ensures a in v.accounts && !Replaced(es, a) ==> v.accounts[a] == Back(v, es, 0).accounts[a]
    decreases |es|
  {
    if es != [] {
      var n, e := |es| - 1, es[|es| - 1];
      CleanAccount(Undo(v, e), es[..n], a);
      if e.ResetObject? && e.account == a {
        assert Replaced(es, a);
      } else {
        UndoApart(v, e, a);
        ReplacedBefore(es, a);
      }
    }
  }
}

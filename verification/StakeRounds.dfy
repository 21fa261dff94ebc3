/**
 The stake ledger: genesis balances (src/pos/genesis.go) and the transfers of each round
 (`ApplyInternalTransactions` in src/poset/poset.go), over the state database.
 */
module StakeRounds {
  import opened Wrappers
  import opened StateView
  import opened StateDb
  import opened Funds

  type Accounts = map<Address, Account>

  function FundsOf(t: Accounts): Funds {
    map a | a in t :: t[a].balance
  }

  lemma FundsAt(t: Accounts, a: Address)
    ensures At(FundsOf(t), a) == BalanceAt(t, a)
  {}

  /** The view shows these balances, and no account on its way out. */
  ghost predicate Mirrors(v: View, f: Funds) {
    forall a {:trigger At(f, a)} {:trigger BalanceIn(v, a)} {:trigger v.accounts[a]} ::
      BalanceIn(v, a) == At(f, a) && (a in v.accounts ==> !v.accounts[a].suicided)
  }

  lemma PutMirrors(v: View, f: Funds, a: Address, x: Seen)
    requires Mirrors(v, f) && !x.suicided
    ensures Mirrors(Put(v, a, x), f[a := x.balance])
  {
    forall y ensures BalanceIn(Put(v, a, x), y) == At(f[a := x.balance], y) { assert BalanceIn(v, y) == At(f, y); }
  }

  lemma OrNewMirrors(v: View, f: Funds, a: Address)
    requires Mirrors(v, f)
    ensures OrNew(v, a).balance == At(f, a) && !OrNew(v, a).suicided
  {
    assert BalanceIn(v, a) == At(f, a);
  }

  lemma SameMirrors(v: View, f: Funds, g: Funds)
    requires Mirrors(v, f) && forall a {:trigger At(f, a)} {:trigger At(g, a)} :: At(f, a) == At(g, a)
    ensures Mirrors(v, g)
  {
    forall a ensures BalanceIn(v, a) == At(g, a) && (a in v.accounts ==> !v.accounts[a].suicided) {
      assert BalanceIn(v, a) == At(f, a);
    }
  }

  lemma NewMirrors(t: Accounts)
    ensures Mirrors(View(Look(t), map[]), FundsOf(t))
  {}

  /** What is received still fits in 64 bits when all money does. */
  lemma NoOverflow(f: Funds, from: Address, to: Address, amount: nat)
    requires At(f, from) >= amount
    ensures At(f[from := At(f, from) - amount], to) + amount <= Total(f)
  {
    MoveTotal(f, from, to, amount);
    TotalAtLeast(Move(f, from, to, amount), to);
  }

  /** The balances shown before and after a transfer. */
  ghost predicate Transfers(v: View, v': View, from: Address, tx: Transfer) {
    forall a {:trigger BalanceIn(v', a)} ::
      BalanceIn(v', a) == AfterTransfer(BalanceIn(v, a), BalanceIn(v, from), from, tx, a)
  }

  lemma MirroredTransfer(v: View, v': View, f: Funds, from: Address, tx: Transfer)
    requires Mirrors(v, f) && Mirrors(v', Paid(f, from, tx))
    ensures Transfers(v, v', from, tx)
  {
    forall a {:trigger BalanceIn(v', a)}
      ensures BalanceIn(v', a) == AfterTransfer(BalanceIn(v, a), BalanceIn(v, from), from, tx, a)
    {
      PaidAt(f, from, tx, a);
      assert BalanceIn(v, a) == At(f, a) && BalanceIn(v, from) == At(f, from);
      assert BalanceIn(v', a) == At(Paid(f, from, tx), a);
    }
  }

  /** One internal transaction. */
  method Apply(db: DB, from: Address, tx: Transfer, ghost f: Funds)
    requires db.Valid() && Mirrors(db.sight, f) && Total(f) < UINT64_RANGE
    modifies db
    ensures db.Valid() && Mirrors(db.sight, Paid(f, from, tx)) && Transfers(old(db.sight), db.sight, from, tx)
  {
    TransferOne(db, from, tx, f);
    MirroredTransfer(old(db.sight), db.sight, f, from, tx);
  }

  method TransferOne(db: DB, from: Address, tx: Transfer, ghost f: Funds)
    requires db.Valid() && Mirrors(db.sight, f) && Total(f) < UINT64_RANGE
    modifies db
    ensures db.Valid() && Mirrors(db.sight, Paid(f, from, tx))
  {
    if !tx.isTransfer {
      return;
    }
    var balance := db.GetBalance(from);
    assert BalanceIn(db.sight, from) == At(f, from);
    if balance < tx.amount {
      return;
    }
    Transact(db, from, tx.to, tx.amount, f);
  }

  /** The transfer itself, once the sender is known to have enough. */
  method Transact(db: DB, from: Address, to: Address, amount: nat, ghost f: Funds)
    requires db.Valid() && Mirrors(db.sight, f) && Total(f) < UINT64_RANGE && At(f, from) >= amount
    modifies db
    ensures db.Valid() && Mirrors(db.sight, Move(f, from, to, amount))
  {
    NoOverflow(f, from, to, amount);
    ghost var g := f[from := At(f, from) - amount];
    Pay(db, from, amount, f);
    EnsureAccount(db, to, g);
    Grant(db, to, amount, g);
  }

  method Pay(db: DB, a: Address, amount: nat, ghost f: Funds)
    requires db.Valid() && Mirrors(db.sight, f) && At(f, a) >= amount
    modifies db
    ensures db.Valid() && Mirrors(db.sight, f[a := At(f, a) - amount])
  {
    OrNewMirrors(db.sight, f, a);
    PutMirrors(db.sight, f, a, OrNew(db.sight, a).(balance := At(f, a) - amount));
    db.SubBalance(a, amount);
  }

  /** The receiving account is created when it is not there. */
  method EnsureAccount(db: DB, a: Address, ghost f: Funds)
    requires db.Valid() && Mirrors(db.sight, f)
    modifies db
    ensures db.Valid() && Mirrors(db.sight, f)
  {
    var there := db.Exist(a);
    if !there {
      OrNewMirrors(db.sight, f, a);
      PutMirrors(db.sight, f, a, Fresh().(balance := OrNew(db.sight, a).balance));
      db.CreateAccount(a);
      SameMirrors(db.sight, f[a := At(f, a)], f);
    }
  }

  method Grant(db: DB, a: Address, amount: nat, ghost f: Funds)
    requires db.Valid() && Mirrors(db.sight, f) && At(f, a) + amount < UINT64_RANGE
    modifies db
    ensures db.Valid() && Mirrors(db.sight, f[a := At(f, a) + amount])
  {
    OrNewMirrors(db.sight, f, a);
    PutMirrors(db.sight, f, a, OrNew(db.sight, a).(balance := At(f, a) + amount));
    db.AddBalance(a, amount);
  }

  /** `ApplyInternalTransactions` on the accounts of the previous round. */
  method ApplyEvents(accounts: Accounts, es: seq<RoundEvent>) returns (t: Accounts)
    requires Total(FundsOf(accounts)) < UINT64_RANGE
    ensures Balances(FundsOf(accounts), Orders(es), FundsOf(t))
    ensures Total(FundsOf(t)) == Total(FundsOf(accounts))
  {
    var db := new DB(accounts);
    NewMirrors(accounts);
    ghost var f := FundsOf(accounts);
    ApplyAll(db, es, f);
    t := db.Commit(true);
    CommitFunds(t, db.sight, PaidRound(f, es));
    PaidRoundTotal(f, es);
    RoundBalances(f, es);
    SameBalances(f, Orders(es), PaidRound(f, es), FundsOf(t));
  }

  lemma SameBalances(f: Funds, os: seq<Order>, g: Funds, g': Funds)
    requires Balances(f, os, g) && forall a :: At(g', a) == At(g, a)
    ensures Balances(f, os, g')
  {
    forall a {:trigger At(g', a)} {:trigger Balance(f, os, a)} ensures At(g', a) == Balance(f, os, a) {
      assert At(g, a) == Balance(f, os, a);
      assert At(g', a) == At(g, a);
    }
  }

  /** The loop over the events of the round; those of unknown participants are skipped. */
  method ApplyAll(db: DB, es: seq<RoundEvent>, ghost f: Funds)
    requires db.Valid() && Mirrors(db.sight, f) && Total(f) < UINT64_RANGE
    modifies db
    ensures db.Valid() && Mirrors(db.sight, PaidRound(f, es))
  {
    for i := 0 to |es|
      invariant db.Valid() && Mirrors(db.sight, PaidRound(f, es[..i]))
    {
      assert es[..i + 1][..i] == es[..i];
      if es[i].sender.Some? {
        ApplyOne(db, es[i].sender.value, es[i].transfers, f, es[..i]);
      }
    }
    assert es[..|es|] == es;
  }

  /** What is committed is what was shown. */
  lemma CommitFunds(t: Accounts, v: View, f: Funds)
    requires Mirrors(v, f) && forall a :: BalanceAt(t, a) == Lasting(v, a)
    ensures (forall a :: At(FundsOf(t), a) == At(f, a)) && Total(FundsOf(t)) == Total(f)
  {
    forall a {:trigger At(FundsOf(t), a)} {:trigger At(f, a)} ensures At(FundsOf(t), a) == At(f, a) {
      FundsAt(t, a);
      assert BalanceIn(v, a) == At(f, a);
    }
    TotalSame(FundsOf(t), f);
  }

  /** The transactions of one event. */
  method ApplyOne(db: DB, from: Address, txs: seq<Transfer>, ghost f: Funds, ghost before: seq<RoundEvent>)
    requires db.Valid() && Mirrors(db.sight, PaidRound(f, before)) && Total(f) < UINT64_RANGE
    modifies db
    ensures db.Valid() && Mirrors(db.sight, PaidAll(PaidRound(f, before), from, txs))
  {
    ghost var g := PaidRound(f, before);
    PaidRoundTotal(f, before);
    for i := 0 to |txs|
      invariant db.Valid() && Mirrors(db.sight, PaidAll(g, from, txs[..i]))
    {
      assert txs[..i + 1][..i] == txs[..i];
      PaidAllTotal(g, from, txs[..i]);
      Apply(db, from, txs[i], PaidAll(g, from, txs[..i]));
    }
    assert txs[..|txs|] == txs;
  }

  // ------------------------------------------------------------------------------------------
  // Genesis and rounds
  // ------------------------------------------------------------------------------------------

  /** Every participant in turn gets `amount`. */
  function Granted(ps: seq<Address>, amount: nat): Funds {
    if ps == [] then map[]
    else
      var f := Granted(ps[..|ps| - 1], amount);
      f[ps[|ps| - 1] := At(f, ps[|ps| - 1]) + amount]
  }

  lemma {:induction false} GrantedTotal(ps: seq<Address>, amount: nat)
    ensures Total(Granted(ps, amount)) == |ps| * amount
  {
    if ps != [] {
      var n := |ps| - 1;
      var f := Granted(ps[..n], amount);
      GrantedTotal(ps[..n], amount);
      TotalWith(f, ps[n], At(f, ps[n]) + amount);
      OneMoreShare(n, amount);
    }
  }

  /** Each participant has one share for every time it is listed. */
  lemma {:induction false} GrantedAt(ps: seq<Address>, amount: nat, a: Address)
    ensures At(Granted(ps, amount), a) == multiset(ps)[a] * amount
  {
    if ps != [] {
      var n := |ps| - 1;
      GrantedAt(ps[..n], amount, a);
      assert ps == ps[..n] + [ps[n]];
      OneMoreShare(multiset(ps[..n])[a], amount);
    }
  }

  lemma OneMoreShare(n: nat, amount: nat)
    ensures (n + 1) * amount == n * amount + amount
  {}

  /** Sharing rounds down: no more than the supply is handed out at any point. */
  lemma SharesFit(supply: nat, n: nat, i: nat)
    requires 0 < n && i <= n
    ensures i * (supply / n) <= supply
  {
    var share := supply / n;
    assert n * share <= supply;
    assert i * share <= n * share;
  }

  /** The next share is within the supply. */
  lemma ShareFits(ps: seq<Address>, supply: nat, i: nat)
    requires i < |ps|
    ensures var share := supply / |ps|;
            var f := Granted(ps[..i], share);
            Granted(ps[..i + 1], share) == f[ps[i] := At(f, ps[i]) + share] && At(f, ps[i]) + share <= supply
  {
    var share := supply / |ps|;
    assert ps[..i + 1][..i] == ps[..i];
    SharesFit(supply, |ps|, i + 1);
    GrantedTotal(ps[..i + 1], share);
    TotalAtLeast(Granted(ps[..i + 1], share), ps[i]);
  }

  /** `FakeGenesis`: the supply, shared evenly among the participants. */
  method Genesis(participants: seq<Address>, supply: nat) returns (t: Accounts)
    requires participants != [] && supply < UINT64_RANGE
    ensures forall a :: At(FundsOf(t), a) == multiset(participants)[a] * (supply / |participants|)
    ensures Total(FundsOf(t)) == |participants| * (supply / |participants|) <= supply
  {
    var share := supply / |participants|;
    var db := new DB(map[]);
    NewMirrors(map[]);
    assert FundsOf(map[]) == map[];
    for i := 0 to |participants|
      invariant db.Valid() && Mirrors(db.sight, Granted(participants[..i], share))
    {
      var a := participants[i];
      ghost var f := Granted(participants[..i], share);
      ShareFits(participants, supply, i);
      Grant(db, a, share, f);
    }
    assert participants[..|participants|] == participants;
    t := db.Commit(true);
    CommitFunds(t, db.sight, Granted(participants, share));
    forall a ensures At(FundsOf(t), a) == multiset(participants)[a] * share { GrantedAt(participants, share, a); }
    GrantedTotal(participants, share);
    SharesFit(supply, |participants|, |participants|);
  }

  datatype RoundError = EmptyRound | NoFrame

  /** The accounts after each round that has a frame. */
  class Rounds {
    const stateRoot: Accounts
    var frames: map<int, Accounts>

    /** No round has made or lost money, and all of it fits in 64 bits. */
    ghost predicate Valid()
      reads this
    {
      && Total(FundsOf(stateRoot)) < UINT64_RANGE
      && forall r {:trigger frames[r]} :: r in frames ==> Total(FundsOf(frames[r])) == Total(FundsOf(stateRoot))
    }

    constructor (participants: seq<Address>, supply: nat)
      requires participants != [] && supply < UINT64_RANGE
      ensures Valid() && frames == map[]
                && Total(FundsOf(stateRoot)) == |participants| * (supply / |participants|) <= supply
      ensures forall a :: At(FundsOf(stateRoot), a) == multiset(participants)[a] * (supply / |participants|)
    {
      var t := Genesis(participants, supply);
      stateRoot, frames := t, map[];
    }

    /** The accounts that a round starts from. */
    function Before(round: int): Result<Accounts, RoundError>
      reads this
    {
      if round <= 0 then Err(EmptyRound)
      else if round == 1 then Ok(stateRoot)
      else if round - 1 in frames then Ok(frames[round - 1])
      else Err(NoFrame)
    }

    /** Apply the events of a round to the accounts of the one before, and keep the result in the round's frame. */
    method ProcessRound(round: int, es: seq<RoundEvent>) returns (r: Result<Accounts, RoundError>)
      requires Valid()
      modifies this`frames
      ensures Valid() && (r.Err? ==> unchanged(this))
      ensures r.Err? <==> round <= 0 || (round > 1 && round - 1 !in old(frames))
      ensures r.Err? ==> r.error == if round <= 0 then EmptyRound else NoFrame
      ensures r.Ok? ==> frames == old(frames)[round := r.value] && Total(FundsOf(r.value)) == Total(FundsOf(stateRoot))
      ensures r.Ok? ==> Balances(FundsOf(if round == 1 then stateRoot else old(frames)[round - 1]), Orders(es),
                              FundsOf(r.value))
    {
      r := Before(round);
      if r.Ok? {
        var t := ApplyEvents(r.value, es);
        frames := frames[round := t];
        r := Ok(t);
      }
    }
  }
}

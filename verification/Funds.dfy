/** Sums of balances, and what a transfer does to them. */
module Funds {
  import opened Wrappers
  import opened StateView

  /** Balances of the accounts that are there. */
  type Funds = map<Address, nat>

  function At(f: Funds, a: Address): nat {
    if a in f then f[a] else 0
  }

  ghost function Total(f: Funds): nat {
    if f == map[] then 0
    else
      var a :| a in f;
      f[a] + Total(f - {a})
  }

  lemma {:induction false} TotalSplit(f: Funds, a: Address)
    requires a in f
    ensures Total(f) == f[a] + Total(f - {a})
    decreases f
  {
    var b :| b in f && Total(f) == f[b] + Total(f - {b});
    if a != b {
      TotalSplit(f - {b}, a);
      TotalSplit(f - {a}, b);
      assert (f - {b}) - {a} == (f - {a}) - {b};
    }
  }

  lemma TotalWith(f: Funds, a: Address, n: nat)
    ensures Total(f[a := n]) + At(f, a) == Total(f) + n
  {
    TotalSplit(f[a := n], a);
    if a in f {
      TotalSplit(f, a);
      assert f[a := n] - {a} == f - {a};
    } else {
      assert f[a := n] - {a} == f;
    }
  }

  lemma TotalAtLeast(f: Funds, a: Address)
    ensures At(f, a) <= Total(f)
  {
    if a in f { TotalSplit(f, a); }
  }

  lemma TotalMinus(f: Funds, a: Address)
    ensures Total(f) == At(f, a) + Total(f - {a})
  {
    if a in f { TotalSplit(f, a); } else { assert f - {a} == f; }
  }

  lemma {:induction false} TotalZero(f: Funds)
    requires forall a {:trigger At(f, a)} :: At(f, a) == 0
    ensures Total(f) == 0
    decreases f
  {
    if f != map[] {
      var a :| a in f;
      TotalMinus(f, a);
      forall x {:trigger At(f - {a}, x)} ensures At(f - {a}, x) == 0 { assert At(f, x) == 0; }
      TotalZero(f - {a});
    }
  }

  /** Accounts with nothing in them do not matter. */
  lemma {:induction false} TotalSame(f: Funds, g: Funds)
    requires forall a {:trigger At(f, a)} {:trigger At(g, a)} :: At(f, a) == At(g, a)
    ensures Total(f) == Total(g)
    decreases f
  {
    if f == map[] {
      TotalZero(g);
    } else {
      var a :| a in f;
      TotalMinus(f, a);
      TotalMinus(g, a);
      forall x {:trigger At(f - {a}, x)} {:trigger At(g - {a}, x)} ensures At(f - {a}, x) == At(g - {a}, x) {
        assert At(f, x) == At(g, x);
      }
      TotalSame(f - {a}, g - {a});
    }
  }

  // ------------------------------------------------------------------------------------------
  // Transfers
  // ------------------------------------------------------------------------------------------

  datatype Transfer = Transfer(to: Address, amount: nat, isTransfer: bool)

  /** An event of a round: its creator, if that is a participant, and the internal transactions in it. */
  datatype RoundEvent = RoundEvent(sender: Option<Address>, transfers: seq<Transfer>)

  function Move(f: Funds, from: Address, to: Address, amount: nat): Funds
    requires At(f, from) >= amount
  {
    var g := f[from := At(f, from) - amount];
    g[to := At(g, to) + amount]
  }

  /** A transfer happens when the sender can pay it. */
  function Paid(f: Funds, from: Address, tx: Transfer): Funds {
    if tx.isTransfer && At(f, from) >= tx.amount then Move(f, from, tx.to, tx.amount) else f
  }

  function PaidAll(f: Funds, from: Address, txs: seq<Transfer>): Funds {
    if txs == [] then f else Paid(PaidAll(f, from, txs[..|txs| - 1]), from, txs[|txs| - 1])
  }

  function PaidEvent(f: Funds, e: RoundEvent): Funds {
    match e.sender
    case None => f
    case Some(a) => PaidAll(f, a, e.transfers)
  }

  function PaidRound(f: Funds, es: seq<RoundEvent>): Funds {
    if es == [] then f else PaidEvent(PaidRound(f, es[..|es| - 1]), es[|es| - 1])
  }

  /** Moving money, also to oneself, changes no total. */
  lemma MoveTotal(f: Funds, from: Address, to: Address, amount: nat)
    requires At(f, from) >= amount
    ensures Total(Move(f, from, to, amount)) == Total(f)
  {
    var g := f[from := At(f, from) - amount];
    TotalWith(f, from, At(f, from) - amount);
    TotalWith(g, to, At(g, to) + amount);
  }

  lemma {:induction false} PaidAllTotal(f: Funds, from: Address, txs: seq<Transfer>)
    ensures Total(PaidAll(f, from, txs)) == Total(f)
    decreases |txs|
  {
    if txs != [] {
      var n := |txs| - 1;
      PaidAllTotal(f, from, txs[..n]);
      var g := PaidAll(f, from, txs[..n]);
      if txs[n].isTransfer && At(g, from) >= txs[n].amount { MoveTotal(g, from, txs[n].to, txs[n].amount); }
    }
  }

  /** A round of transfers changes no total. */
  lemma {:induction false} PaidRoundTotal(f: Funds, es: seq<RoundEvent>)
    ensures Total(PaidRound(f, es)) == Total(f)
    decreases |es|
  {
    if es != [] {
      var n := |es| - 1;
      PaidRoundTotal(f, es[..n]);
      match es[n].sender
      case None =>
      case Some(a) => PaidAllTotal(PaidRound(f, es[..n]), a, es[n].transfers);
    }
  }

  // ------------------------------------------------------------------------------------------
  // Who gets the money
  // ------------------------------------------------------------------------------------------

  /** The money of account `a` after a transfer, when it had `mine` and the sender had `theirs`. */
  function AfterTransfer(mine: nat, theirs: nat, from: Address, tx: Transfer, a: Address): int {
    if !tx.isTransfer || theirs < tx.amount || from == tx.to then mine
    else if a == from then mine - tx.amount
    else if a == tx.to then mine + tx.amount
    else mine
  }

  /**
   A covered transfer to somebody else lowers the sender by the amount, raises the receiver by it and leaves all others
   alone; anything else changes nothing.
   */
  lemma PaidAt(f: Funds, from: Address, tx: Transfer, a: Address)
    ensures At(Paid(f, from, tx), a) == AfterTransfer(At(f, a), At(f, from), from, tx, a)
  {}

  /** A transfer with its sender. */
  datatype Order = Order(from: Address, to: Address, amount: nat)

  function OrdersOf(from: Address, txs: seq<Transfer>): seq<Order> {
    if txs == [] then []
    else
      var tx := txs[|txs| - 1];
      OrdersOf(from, txs[..|txs| - 1]) + if tx.isTransfer then [Order(from, tx.to, tx.amount)] else []
  }

  /** The transfers of a round in their order, without those of unknown participants. */
  function Orders(es: seq<RoundEvent>): seq<Order> {
    if es == [] then []
    else
      var e := es[|es| - 1];
      Orders(es[..|es| - 1]) + if e.sender.Some? then OrdersOf(e.sender.value, e.transfers) else []
  }

  /** What `a` has received from orders that were covered when their turn came. */
  function Received(f: Funds, os: seq<Order>, a: Address): nat
    decreases |os|, 0
  {
    if os == [] then 0
    else
      var before, o := os[..|os| - 1], os[|os| - 1];
      Received(f, before, a) + if o.to == a && Covered(f, before, o) then o.amount else 0
  }

  /** What `a` has paid for orders that were covered when their turn came. */
  function Spent(f: Funds, os: seq<Order>, a: Address): nat
    decreases |os|, 0
  {
    if os == [] then 0
    else
      var before, o := os[..|os| - 1], os[|os| - 1];
      Spent(f, before, a) + if o.from == a && Covered(f, before, o) then o.amount else 0
  }

  /** After the orders before it, the sender has the amount. */
  predicate Covered(f: Funds, before: seq<Order>, o: Order)
    decreases |before|, 2
  {
    Balance(f, before, o.from) >= o.amount
  }

  /** What was there, and what came in less what went out. */
  function Balance(f: Funds, os: seq<Order>, a: Address): int
    decreases |os|, 1
  {
    At(f, a) + Received(f, os, a) - Spent(f, os, a)
  }

  ghost predicate Balances(f: Funds, os: seq<Order>, g: Funds) {
    forall a {:trigger At(g, a)} {:trigger Balance(f, os, a)} :: At(g, a) == Balance(f, os, a)
  }

  lemma OneOrder(f: Funds, os: seq<Order>, o: Order, a: Address)
    ensures Balance(f, os + [o], a) ==
            Balance(f, os, a) + (if Covered(f, os, o) then (if o.to == a then o.amount else 0)
                - (if o.from == a then o.amount else 0) else 0)
  {
    assert (os + [o])[..|os + [o]| - 1] == os;
  }

  lemma BalancesOne(f: Funds, os: seq<Order>, g: Funds, from: Address, tx: Transfer)
    requires Balances(f, os, g)
    ensures Balances(f, os + if tx.isTransfer then [Order(from, tx.to, tx.amount)] else [], Paid(g, from, tx))
  {
    var o := Order(from, tx.to, tx.amount);
    assert os + [] == os;
    assert At(g, from) == Balance(f, os, from);
    forall a
      ensures At(Paid(g, from, tx), a) == Balance(f, os + if tx.isTransfer then [o] else [], a)
    {
      assert At(g, a) == Balance(f, os, a);
      PaidAt(g, from, tx, a);
      OneOrder(f, os, o, a);
    }
  }

  lemma {:induction false} BalancesAll(f: Funds, os: seq<Order>, g: Funds, from: Address, txs: seq<Transfer>)
    requires Balances(f, os, g)
    ensures Balances(f, os + OrdersOf(from, txs), PaidAll(g, from, txs))
    decreases |txs|
  {
    if txs == [] {
      assert os + [] == os;
    } else {
      var n := |txs| - 1;
      var more := if txs[n].isTransfer then [Order(from, txs[n].to, txs[n].amount)] else [];
      BalancesAll(f, os, g, from, txs[..n]);
      BalancesOne(f, os + OrdersOf(from, txs[..n]), PaidAll(g, from, txs[..n]), from, txs[n]);
      assert os + (OrdersOf(from, txs[..n]) + more) == os + OrdersOf(from, txs[..n]) + more;
    }
  }

  /**
   After a round, each account has what it had, and what it received less what it paid, over the transfers that were
   covered when their turn came.
   */
  lemma {:induction false} RoundBalances(f: Funds, es: seq<RoundEvent>)
    ensures Balances(f, Orders(es), PaidRound(f, es))
    decreases |es|
  {
    if es != [] {
      var n := |es| - 1;
      RoundBalances(f, es[..n]);
      if es[n].sender.Some? {
        BalancesAll(f, Orders(es[..n]), PaidRound(f, es[..n]), es[n].sender.value, es[n].transfers);
      } else {
        assert Orders(es[..n]) + [] == Orders(es[..n]);
      }
    }
  }
}

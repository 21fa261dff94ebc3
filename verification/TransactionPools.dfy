/**
 The pools from which a node fills its own events (`AddTransactions` and `AddSelfEventBlock` in src/node/core.go). What
 is submitted is in the pool or in one own event, in the order of submission, whatever fails in between.
 */
module TransactionPools {
  import opened Wrappers
  import opened EventDag
  import opened GossipWire
  import opened Gossip

  const MAX_EVENTS_PAYLOAD_SIZE: nat := 100 * 1024 * 1024

  /** A submitted transaction and its size in bytes. */
  type Sizes = nat -> nat

  function TotalSize(size: Sizes, txs: seq<nat>): nat {
    if txs == [] then 0 else TotalSize(size, txs[..|txs| - 1]) + size(txs[|txs| - 1])
  }

  /**
   The first `n` transactions make a batch: one at least, no more than fit below the limit unless it is a single one,
   and either all or so many that the next one does not fit.
   */
  ghost predicate IsBatch(size: Sizes, pool: seq<nat>, n: nat) {
    && n <= |pool| && (pool != [] ==> n > 0)
    && (n > 1 ==> TotalSize(size, pool[..n]) < MAX_EVENTS_PAYLOAD_SIZE)
    && (n < |pool| ==> TotalSize(size, pool[..n]) + size(pool[n]) >= MAX_EVENTS_PAYLOAD_SIZE)
  }

  /** The loop that counts the batch. */
  method BatchSize(size: Sizes, pool: seq<nat>) returns (n: nat)
    ensures IsBatch(size, pool, n)
  {
    var payloadSize := 0;
    n := 0;
    while n < |pool|
      invariant n <= |pool| && payloadSize == TotalSize(size, pool[..n])
      invariant n > 1 ==> payloadSize < MAX_EVENTS_PAYLOAD_SIZE
    {
      var txSize := size(pool[n]);
      if n > 0 && payloadSize >= MAX_EVENTS_PAYLOAD_SIZE - txSize {
        break;
      }
      assert pool[..n + 1][..n] == pool[..n];
      payloadSize, n := payloadSize + txSize, n + 1;
    }
  }

  /** There is one batch only. */
  lemma OneBatch(size: Sizes, pool: seq<nat>, m: nat, n: nat)
    requires IsBatch(size, pool, m) && IsBatch(size, pool, n)
    ensures m == n
  {
    NotShorter(size, pool, m, n);
    NotShorter(size, pool, n, m);
  }

  lemma NotShorter(size: Sizes, pool: seq<nat>, m: nat, n: nat)
    requires IsBatch(size, pool, m) && IsBatch(size, pool, n)
    ensures m >= n
  {
    if m < n {
      OneMoreSize(size, pool, m);
      MoreIsLarger(size, pool, m + 1, n);
    }
  }

  lemma OneMoreSize(size: Sizes, pool: seq<nat>, m: nat)
    requires m < |pool|
    ensures TotalSize(size, pool[..m + 1]) == TotalSize(size, pool[..m]) + size(pool[m])
  {
    assert pool[..m + 1][..m] == pool[..m];
  }

  lemma {:induction false} MoreIsLarger(size: Sizes, pool: seq<nat>, m: nat, n: nat)
    requires m <= n <= |pool|
    ensures TotalSize(size, pool[..m]) <= TotalSize(size, pool[..n])
    decreases n
  {
    if m < n {
      assert pool[..n][..n - 1] == pool[..n - 1];
      MoreIsLarger(size, pool, m, n - 1);
    }
  }

  class Pools {
    const core: Core
    const size: Sizes
    var transactionPool: seq<nat>
    var internalTransactionPool: seq<nat>
    var blockSignaturePool: seq<BlockSignature>
    ghost var submitted: seq<nat>
    ghost var submittedInternal: seq<nat>
    ghost var packed: seq<nat>
    ghost var packedInternal: seq<nat>

    /** What was submitted is what went into events, and then what still waits. */
    ghost predicate Valid()
      reads this
    {
      submitted == packed + transactionPool && submittedInternal == packedInternal + internalTransactionPool
    }

    constructor (core: Core, size: Sizes)
      ensures Valid() && this.core == core && this.size == size && submitted == [] && submittedInternal == []
    {
      this.core, this.size := core, size;
      transactionPool, internalTransactionPool, blockSignaturePool := [], [], [];
      submitted, submittedInternal, packed, packedInternal := [], [], [], [];
    }

    /** `AddTransactions`: all of them or, when one is too large, none. */
    method AddTransactions(txs: seq<nat>) returns (ok: bool)
      requires Valid()
      modifies this`transactionPool, this`submitted
      ensures Valid() && (ok <==> forall i :: 0 <= i < |txs| ==> size(txs[i]) <= MAX_EVENTS_PAYLOAD_SIZE)
      ensures submitted == old(submitted) + if ok then txs else []
    {
      for i := 0 to |txs|
        invariant forall j :: 0 <= j < i ==> size(txs[j]) <= MAX_EVENTS_PAYLOAD_SIZE
      {
        if size(txs[i]) > MAX_EVENTS_PAYLOAD_SIZE {
          assert old(submitted) + [] == old(submitted);
          return false;
        }
      }
      transactionPool, submitted := transactionPool + txs, submitted + txs;
      ok := true;
    }

    /** `AddInternalTransactions`. */
    method AddInternalTransactions(txs: seq<nat>)
      requires Valid()
      modifies this`internalTransactionPool, this`submittedInternal
      ensures Valid() && submittedInternal == old(submittedInternal) + txs
    {
      internalTransactionPool, submittedInternal := internalTransactionPool + txs, submittedInternal + txs;
    }

    /** `AddBlockSignature`. */
    method AddBlockSignature(bs: BlockSignature)
      requires Valid()
      modifies this`blockSignaturePool
      ensures Valid() && blockSignaturePool == old(blockSignaturePool) + [bs]
    {
      blockSignaturePool := blockSignaturePool + [bs];
    }

    /** `SignAndInsertSelfEvent`. */
    method Make(other: Hash, x: Payload) returns (failure: Option<Failure>)
      modifies core`dag, core`packets, core`heights, core`head
      ensures failure.None? ==> OwnEventMade(core.party, old(core.State()), core.State(), other, x)
      ensures failure.Some? ==> core.dag == old(core.dag) && core.packets == old(core.packets)
    {
      failure := core.AddSelfEvent(other, x);
    }

    method TakeBatch() returns (batch: seq<nat>)
      modifies this`transactionPool
      ensures old(transactionPool) == batch + transactionPool && IsBatch(size, old(transactionPool), |batch|)
    {
      var n := BatchSize(size, transactionPool);
      batch := transactionPool[..n];
      transactionPool := transactionPool[n..];
    }

    /** After a success the internal transactions are gone, and so are the signatures once no transaction is left. */
    method Settle(batch: seq<nat>)
      requires submitted == packed + (batch + transactionPool)
                 && submittedInternal == packedInternal + internalTransactionPool
      modifies this`internalTransactionPool, this`blockSignaturePool, this`packed, this`packedInternal
      ensures Valid() && packed == old(packed) + batch
      ensures packedInternal == old(packedInternal) + old(internalTransactionPool)
      ensures blockSignaturePool == if transactionPool == [] then [] else old(blockSignaturePool)
    {
      assert packed + (batch + transactionPool) == packed + batch + transactionPool;
      packed, packedInternal := packed + batch, packedInternal + internalTransactionPool;
      internalTransactionPool := [];
      if transactionPool == [] {
        blockSignaturePool := [];
      }
    }

    /**
     `AddSelfEventBlock`: a batch of transactions and all of the other two pools go into the event. When it fails
     everything is back in its pool. Block signatures are kept as long as transactions are left, so that the next event
     carries them again.
     */
    method AddSelfEventBlock(other: Hash) returns (failure: Option<Failure>, batch: seq<nat>)
      requires Valid()
      modifies this, core`dag, core`packets, core`heights, core`head
      ensures Valid() && submitted == old(submitted) && submittedInternal == old(submittedInternal)
      ensures batch <= old(transactionPool) && IsBatch(size, old(transactionPool), |batch|)
      ensures failure.Some? ==> unchanged(this) && core.dag == old(core.dag) && core.packets == old(core.packets)
      ensures failure.None? ==>
                OwnEventMade(core.party, old(core.State()), core.State(), other,
                             Payload(Slice(batch), old(internalTransactionPool), old(blockSignaturePool)))
      ensures failure.None? ==>
                && packed == old(packed) + batch && packedInternal == old(packedInternal) + old(internalTransactionPool)
                && blockSignaturePool == if transactionPool == [] then [] else old(blockSignaturePool)
    {
      batch := TakeBatch();
      failure := Make(other, Payload(Slice(batch), internalTransactionPool, blockSignaturePool));
      if failure.Some? {
        transactionPool := batch + transactionPool;
        return;
      }
      Settle(batch);
    }
  }
}

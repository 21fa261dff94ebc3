# dag1, modelled and verified in Dafny

dag1 is a ledger node written in Go. Nodes gossip signed events, each event with two parents, and every node grows its
own copy of the event DAG. Frames, roots, clothos and final timestamps are derived from that DAG alone. Account state
lives in a Merkle Patricia trie over a reference-counted node store, serialised with RLP.

This project models five parts of the node and proves what they are for:

1. **Consensus** (`src/poset`): `EventDag`, `DagInvariant`, `DagReachability`, `DagFrames`, `DagOrder`, `Finality`,
   `TimeVotes`, `ClothoCount`, `AtroposVote`, `ClothoOrder`, `AtroposOrder`, `Posets`, `FinalFrames`,
   `FrozenFrames`.
2. **Trie** (`src/trie`): `TrieKeys`, `Tries`, `TrieRuns`, `CompactKeys`, `TrieNodes`, `LazyTrie`, `TrieHasher`,
   `TrieObject`, `TrieProof`.
3. **Node store and download scheduler** (`src/trie/database.go`, `src/trie/sync.go`): `NodeGraph`, `NodeDatabase`,
   `SyncState`, `SyncChildren`, `SyncValues`, `TrieSync`.
4. **RLP** (`src/rlp`, Appendix B of the Ethereum Yellow Paper): `Rlp`, `RlpHeads`, `RlpEncoder`, `RlpDecoder`.
5. **Account state and gossip** (`src/state`, `src/pos`, `src/node`): `StateView`, `StateDb`, `Funds`, `StakeRounds`,
   `GossipWire`, `Gossip`, `GossipNetwork`, `TransactionPools`.

Code that changes state is modelled by classes and methods (`Posets.Poset`, `NodeDatabase.Database`, `TrieSync.Sync`,
`TrieObject.Trie`, `RlpEncoder.EncBuf`, `RlpEncoder.EncReader`, `RlpDecoder.Stream`, `StateDb.DB`,
`StakeRounds.Rounds`, `Gossip.Core`, `TransactionPools.Pools`, `FinalFrames.Output`); what they compute is given by functions, and the theorems are about those.
`dafny verify dfyconfig.toml` checks the whole project. Each file holds the module of its name.

## Assumptions

- **Hashes and signatures.** Hash functions are parameters. None is assumed to be injective: where collisions matter,
  `NoCollision` says that the finitely many encodings in play do not collide. The signature check is an oracle.
- **Honest events** (`EventDag.Honest`). An event's index continues its creator's chain, and no stored event has its
  hash with another body. `DagInvariant.ForkFreeIffNextIndex` shows that the index is exactly what is needed.
- **Leaves and quorum** (`EventDag.GenesisOk`). Leaf timestamps are positive, because zero means "not set"; the quorum
  is a constant of at least one. Unit weights are assumed only where two quorums must meet
  (`DagReachability.QuorumsIntersect`).
- **Gossip.** Two nodes that exchange events are `Kin`: same participants, one message per hash, chains of which one
  is a prefix of the other. `GossipNetwork.NetworkRuns` derives this for whole networks from a common start, given
  that a new event's hash is new to every node. Participant identifiers are distinct and not zero.
- **Node store.** A node's children are inserted before it; `rank` orders hashes so that children come below parents.
  `Dereference` is paired with an earlier `Reference`. The 32-bit count of parents and the 16-bit count of external
  references do not overflow.
- **Scheduler** (`SyncState.Consistent`). Every hash is used as one kind of entry: raw, plain trie or trie with
  reported leaves. Delivered data matches its hash, and the leaf callback does not fail.
- **Stores** are unbounded maps. A clotho-check key that is missing means "skip", and a missing time table is empty, as
  in the Badger store. A missing frame is an error, as in the in-memory store: `BadgerStore.dbGetFrame` returns an
  empty frame instead, and a round after a missing one would then start from the empty state.

## Findings

Properties that the code does not keep on all inputs, each with an input and the exact condition.

- **Forks.** `InsertEvent` checks the self-parent but not the index; `RollingIndex.Set` overwrites. An accepted event
  leaves the creator's chain unforked if and only if its index is the next one (`DagInvariant.ForkFreeIffNextIndex`,
  input in `DagInvariant.ForkAccepted`).
- **Cache size.** `insert` adds `32 + size` in 16 bits. A blob is charged its length plus 32 if and only if it is
  shorter than 65504 bytes (`NodeGraph.ChargeExactIff`, input in `NodeGraph.ChargeWraps`), and the running size is
  exact if and only if no sum has wrapped (`NodeGraph.SizeExactIff`).
- **Block signatures on the wire** carry no validator and come back under the event's creator. They survive if and only
  if all of them are the creator's (`GossipWire.SignaturesSurvive`, input in `GossipWire.ForeignSignatureChanges`).
- **A node's own height.** `NextHeight` is taken before the event is inserted and is not given back, and the height
  does not move when the node's own event comes from a peer. A node makes a proper event of its own if and only if its
  height is the index of its last event and the other parent is stored (`Gossip.OwnEventExact`); after one failure
  every later attempt fails (`Gossip.AheadIsStuck`, input through `Sync` in `Gossip.StuckAfterReplay`). An exchange
  succeeds and brings everything if and only if that height is right, or the peer has nothing of this node's that it
  lacks and nothing above that height (`Gossip.ExchangeExact`, input in `Gossip.OwnEventComesBack`).
- **Values inside embedded nodes.** The scheduler reports to the leaf callback only values that are children of the node
  itself. All values of a stored node are reported if and only if each of its children that is a node is stored by its
  hash (`SyncValues.AllReportedIffLarge`; for any decoded node `SyncValues.AllReportedIff`; input in
  `SyncValues.NothingReported`). A value of 32 bytes or more is never missed (`SyncValues.EmbeddedValuesShort`).
- **Storage of replaced accounts.** `resetObjectChange` makes nothing dirty, so `Commit` does not write an account that
  was only replaced. The slots it leaves are those shown if and only if the account is not live, is dirty, was not
  replaced, or had no storage (`StateDb.SlotsExact` and `StateDb.DB.Commit`, input in `StateDb.ReplacedSlotReturns`).
- **Frames that are put out.** `CheckFrameFinality` looks at the events of a frame that are there, but a participant that
  lags behind can still add to it, and such an event is in no block of a node that has put the frame out before. What a
  frame puts out is settled for good if and only if every participant's last event lies above it
  (`FrozenFrames.SettledIff`; for any state in which one does not, `FrozenFrames.CanJoin` gives the event). Two nodes that
  have finished a frame put out the same block for it if and only if they hold the same loaded events of it
  (`FinalFrames.BlocksAgree`), and they do when everybody has passed it at both (`FrozenFrames.PassedBlocksAgree`).

## Model

| member | source | states |
|---|---|---|
| `DagInvariant.FramesRise` | src/poset/poset.go:868-933 | In every reachable DAG frames never fall from parent to child, and an event is a root exactly when its frame exceeds its self-parent's |
| `DagInvariant.ChainOrder` | src/poset/poset.go:599-623 | Along a creator's chain insertion order is strictly increasing and frames never fall |
| `DagInvariant.NewRootKey` | src/poset/poset.go:997-1001 | A new root never displaces an entry of the per-creator root index, and its frame is at least one |
| `DagInvariant.InsertExtends` | src/poset/poset.go:825-1027 | An accepted insertion changes no stored event and no entry of the root index |
| `DagInvariant.ForkFreeIffNextIndex` | src/common/rolling_index.go:75-108 | An accepted message keeps the chains unforked if and only if its index is the next one |
| `DagInvariant.ForkAccepted` | src/common/rolling_index.go:94-105 | A concrete accepted message after which the creator's chain has lost its leaf |
| `DagInvariant.InsertKeepsInv` | src/poset/poset.go:825-1001 | Every accepted honest insertion keeps closure under parents, unforked chains, placements and both root indexes |
| `DagInvariant.LookupNeverFails` | src/poset/poset.go:913-918 | The per-creator root lookup never fails in a reachable DAG |
| `DagInvariant.GenesisInv` | src/node/core.go:97-136 | The leaves alone satisfy the invariant |
| `DagInvariant.RunInv` | src/poset/poset.go:825-1027 | Every run keeps the invariant and everything stored before it |
| `DagReachability.AncIsReachability` | src/poset/poset.go:868-944 | The recursive ancestor sets are exactly the events reachable along parent links |
| `DagReachability.FlagTableIsReachability` | src/poset/poset.go:868-944 | An event's flag table is exactly the roots of its own frame among its ancestors and itself, each with that frame |
| `DagReachability.RootTableIsQuorum` | src/poset/poset.go:891-933 | A root of frame one or more has a root table of at least a quorum of strict-ancestor roots of the previous frame |
| `DagReachability.OneRootPerCreator` | src/poset/poset.go:891-944 | A creator has at most one root in a frame |
| `DagReachability.QuorumsIntersect` | src/peers/peers.go:90-91 | With unit weights and a two-thirds quorum any two roots of one frame share a previous-frame root in both root tables |
| `DagFrames.RootIffQuorum` | src/poset/poset.go:868-933 | With both parents in one frame an event is a root of the next frame exactly when at least a quorum of that frame's roots lies below it, and stays in the frame otherwise; with parents in different frames it is in the higher one, as a root exactly when that is the other parent's |
| `DagFrames.RisingTable` | src/poset/poset.go:891-901 | A root that rises lists exactly the roots of the frame below it; an event that is no root lists nothing |
| `DagFrames.JumpingTable` | src/poset/poset.go:910-939 | A root that jumps lists what the other parent's creator lists with its root of the frame, and what its self-parent sees one frame below |
| `DagFrames.LamportIsLongest` | src/poset/poset.go:947-961 | An event's Lamport time is the largest, over all walks down to a leaf, of the leaf's time plus the number of steps |
| `DagFrames.LamportAbove` | src/poset/poset.go:949-954 | Every strict ancestor has a smaller Lamport time |
| `DagFrames.AcceptedIff` | src/poset/poset.go:825-866 | A message is accepted exactly when it is signed, continues the newest event of a participant, names no unknown other parent and leaves no gap in the index |
| `DagFrames.RefusedFor` | src/poset/poset.go:825-866 | A refusal names the first check that fails; the root lookup never does |
| `DagFrames.AcceptedIsStored` | src/poset/poset.go:981-1001 | An accepted message is stored as it came, behind everything else and at the end of its creator's chain; nothing else changes |
| `DagOrder.SameEvent` | src/poset/poset.go:859-961 | Any two reachable nodes derive the same frame, root flag, tables and Lamport time for every event they share |
| `DagOrder.OrderIndependence` | src/poset/poset.go:859-961 | Any two runs from the same leaves derive the same fields for every shared event |
| `DagOrder.ReorderingAccepted` | src/poset/poset.go:825-1001 | Any order that keeps parents first is accepted, stores the same events and derives the same fields |
| `Finality.FinalIsClosed` | src/poset/poset.go:2263-2310 | Events with a final timestamp are closed under ancestry |
| `Finality.FinalIff` | src/poset/poset.go:2223-2310 | An event is final exactly when it is confirmed or an ancestor of a confirmed event |
| `Finality.FinalTimeIs` | src/poset/poset.go:2263-2310 | A final timestamp is the Lamport time of the other parent, and without one the event's own |
| `Finality.ReceivedIsClosed` | src/poset/poset.go:2270-2293 | Everything below an event whose parents are final has a received frame, leaves included |
| `Finality.ReceivedIff` | src/poset/poset.go:2226-2293 | An event other than a leaf has a received frame exactly when it is final, and it is the frame of a confirmed event at or above it |
| `TimeVotes.CountTimes` | src/poset/poset.go:2161-2177 | The nested count gives, for every clotho and time, the number of previous roots that recorded it |
| `TimeVotes.EarliestTime` | src/poset/poset.go:2199-2208 | The earliest time recorded |
| `TimeVotes.MajorityTime` | src/poset/poset.go:2209-2217 | The largest count, and the earliest time that has it |
| `ClothoCount.BestDecides` | src/poset/poset.go:2031-2053 | The best count of a root reaches the quorum exactly when some previous root has a quorum of voters for it |
| `ClothoCount.ClothosSpelledOut` | src/poset/poset.go:2062-2157 | A root's arrival leaves as clothos exactly those that were, and those that some listed root sees a quorum of listed roots list under their own frame |
| `AtroposVote.SelectionSpelledOut` | src/poset/poset.go:2161-2260 | Confirmed are exactly those that were, and those on whose time a quorum agrees in a frame not a multiple of four above; recorded is, a multiple of four above, the earliest time, and otherwise the most frequent and of several the earliest, unless a quorum agrees |
| `ClothoOrder.SameVerdict` | src/poset/poset.go:2062-2157 | Whether a root makes another one a clotho is the same at any two nodes that hold it |
| `ClothoOrder.SameClothos` | src/poset/poset.go:2062-2157 | Nodes with the same events have the same clotho flags |
| `ClothoOrder.SameFinalTime` | src/poset/poset.go:2263-2310 | An event that is final at two nodes has the same final timestamp at both |
| `AtroposOrder.VotesAreIdeal` | src/poset/poset.go:2161-2177 | For a clotho that is still open, the votes a new root counts are those of a vote in which no clotho is ever left out |
| `AtroposOrder.SameDecides` | src/poset/poset.go:2161-2260 | Whether a root decides a clotho in that vote is the same at any two nodes that hold both |
| `AtroposOrder.AtroposIff` | src/poset/poset.go:2190-2239 | A clotho is confirmed at a node exactly when some root of its DAG decides it in that vote |
| `AtroposOrder.ArrivalExact` | src/poset/poset.go:2055-2260 | The arrival of an event keeps confirmations and records what the DAG makes them |
| `AtroposOrder.SameConsensus` | src/poset/poset.go:2055-2310 | Nodes with the same events agree on clothos, on confirmed clothos, on what is final and on every final timestamp |
| `AtroposOrder.ReorderedConsensus` | src/poset/poset.go:2055-2310 | After any two parent-respecting orders of the same messages all flags and final timestamps agree |
| `Posets.Poset.constructor` | src/node/core.go:97-136 | One leaf per participant; the state is valid and nothing is listed |
| `Posets.Poset.AccountEvent` | src/poset/poset.go:2372-2386 | The event is listed once, and waited for no longer if it is loaded |
| `Posets.Poset.AssignAtroposTime` | src/poset/poset.go:2263-2310 | Every strict ancestor gets its final timestamp and, where it has none, the received frame; each is listed once, and nothing else changes; the result is the other parent's Lamport time, or the event's own without one |
| `Posets.Poset.AddVotes` | src/poset/poset.go:2099-2113 | One vote more for exactly the registered roots that the voter lists |
| `Posets.Poset.CountVotes` | src/poset/poset.go:2079-2114 | Each count is the number of registered voters in the root table |
| `Posets.Poset.KeepLarger` | src/poset/poset.go:2042-2053 | Entry by entry the larger of two counts |
| `Posets.Poset.ClothoChecking` | src/poset/poset.go:2055-2159 | Exactly the roots that a listed root sees a quorum of listed roots list are marked, and their times recorded; no mark is withdrawn |
| `Posets.Poset.ConfirmAtropos` | src/poset/poset.go:2223-2239 | The clotho is confirmed and nothing else is; it and its ancestors are final, and everything final is below a confirmed event; its received frame is its own, and its ancestors without one get it |
| `Posets.Poset.AtroposTimeSelection` | src/poset/poset.go:2161-2260 | Exactly the clothos on whose time a quorum of previous roots agree are confirmed, except in every fourth frame; for every other open clotho exactly the earliest or leading time is recorded, and no other record changes |
| `Posets.Poset.RootArrived` | src/poset/poset.go:997-1010 | Counting and selection together: flags, confirmations and records of the new root as the votes before it make them |
| `Posets.Poset.MergeFlagTable` | src/poset/event.go:432-453 | The entries of either table that carry the frame |
| `Posets.Poset.PlaceNew` | src/poset/poset.go:868-933 | The three placement branches, with the lookup error; what they come to is DagFrames.RootIffQuorum |
| `Posets.Poset.Check` | src/poset/poset.go:825-933 | The checks in order, with the error of the first that fails |
| `Posets.Poset.InsertEvent` | src/poset/poset.go:825-1027 | Refusal without effect, or the event with its derived fields; the state stays valid: final events are exactly those below confirmed ones and listed once, pending loaded events are counted exactly, clothos and confirmed clothos are those the DAG makes so; no final timestamp changes and no flag is withdrawn |
| `Posets.Poset.ValidIsExact` | src/poset/poset.go:825-1027 | A valid node's consensus state is the one its DAG determines, so that AtroposOrder.SameConsensus applies to any two nodes |
| `FinalFrames.ClothoLag` | src/poset/poset.go:2062-2157 | A root makes clothos only of roots three frames below it |
| `FinalFrames.ClothoIsSeen` | src/poset/poset.go:2062-2157 | Behind every clotho stands a quorum of next-frame roots that descend from it, all below one root two frames above it |
| `FinalFrames.DecideLag` | src/poset/poset.go:2190-2260 | A root that confirms a clotho is at least five frames above it |
| `FinalFrames.FinalityLag` | src/poset/poset.go:2190-2310 | Five frames above every event with a received frame there is an event |
| `FinalFrames.FrameFinalIff` | src/poset/badger_store.go:929-936 | A frame is finished exactly when each of its events is at or below a confirmed event other than a leaf |
| `FinalFrames.LastFramesOpen` | src/poset/poset.go:1377-1398 | The five highest frames are never finished |
| `FinalFrames.SameBlocks` | src/poset/poset.go:1377-1398 | Nodes with the same events have finished the same frames and put out the same blocks in the same order |
| `FinalFrames.BlocksAgree` | src/poset/badger_store.go:938-965 | Two nodes that have finished a frame put out the same block exactly when they hold the same loaded events of it |
| `FinalFrames.JoinsIff` | src/poset/badger_store.go:948-957 | An accepted event changes what a frame puts out exactly when it is loaded and of that frame |
| `FinalFrames.CheckFrameFinality` | src/poset/badger_store.go:929-936 | Whether every event of the frame has a received frame |
| `FinalFrames.ProcessOutFrame` | src/poset/badger_store.go:938-965 | The loaded events of a frame, each once, by Lamport time, then final timestamp, then hash |
| `FinalFrames.PutOut` | src/poset/poset.go:1377-1398 | The loop: one block for each finished frame in turn up to the first that is not finished, and it ends |
| `FinalFrames.Output.constructor` | src/poset/poset.go:47 | Nothing is put out yet |
| `FinalFrames.Output.ProcessDecidedRounds` | src/poset/poset.go:1372-1398 | On every valid node: the blocks of all finished frames from the next one on, no frame twice, none skipped |
| `FrozenFrames.PassedForGood` | src/poset/poset.go:868-933 | Once every participant's last event lies above a frame, no run changes what the frame holds |
| `FrozenFrames.CanJoin` | src/poset/poset.go:1377-1398 | Otherwise there is an accepted loaded event of that frame |
| `FrozenFrames.SettledIff` | src/poset/poset.go:1377-1398 | No run changes what a frame puts out if and only if every participant's last event lies above it |
| `FrozenFrames.PassedBlocksAgree` | src/poset/poset.go:1377-1398 | Nodes that have finished a frame and seen everybody pass it put out the same block for it, whatever else they hold |
| `GossipWire.StripValidators` | src/poset/event.go:369-379 | Block signatures without their validators, one by one |
| `GossipWire.AddValidators` | src/poset/event.go:526-539 | Block signatures under one validator, one by one |
| `GossipWire.SignaturesSurvive` | src/poset/event.go:526-539 | Signatures survive the wire if and only if all are the creator's |
| `GossipWire.ForeignSignatureChanges` | src/poset/event.go:526-539 | A signature of another validator comes back changed |
| `GossipWire.InternalCounts` | src/poset/event.go:256-265 | Internal transactions make an event loaded exactly when there is a transaction slice, be it empty |
| `GossipWire.MakeWire` | src/poset/event.go:382-403 | The wire form of a message, field by field |
| `GossipWire.ReadWireInfo` | src/poset/poset.go:1898-2010 | The message a wire event stands for here, contents as sent and parents looked up by creator and index, or the first lookup that fails |
| `GossipWire.WireRoundTrip` | src/poset/poset.go:1898-2010 | A node that has the parents rebuilds exactly the message that was sent |
| `Gossip.EarlierHere` | src/node/core.go:391-434 | Whatever the sender inserted before the next listed event is at the receiver by then |
| `Gossip.NextAccepted` | src/node/core.go:391-434 | The next listed event is new to the receiver and passes every check |
| `Gossip.SortByTopo` | src/node/core.go:385-387 | The same events in insertion order, each once |
| `Gossip.ExchangeDelivers` | src/node/core.go:351-434 | When the receiver's own height serves, no listed event fails, and the receiver holds all that either node had, with bodies as sent and the same derived fields, and no stored message changes |
| `Gossip.ExchangeExact` | src/node/core.go:351-434 | The exchange fails nowhere and brings every chain as far as the sender had it if and only if the receiver's own height serves for it |
| `Gossip.LaggingFails` | src/node/core.go:285-310 | With an own height behind both chains the exchange fails at the self-parent check |
| `Gossip.OwnChainStays` | src/node/core.go:391-434 | With an own height ahead of its chain a node takes in none of its own events, whatever it is sent |
| `Gossip.PeerHeadStored` | src/node/core.go:429-434 | The other parent picked for the node's own event is stored by then |
| `Gossip.PeerHeadIsLast` | src/node/core.go:402-434 | The other parent picked for the node's own event is the last event of the peer that the node holds by then |
| `Gossip.SentAsStored` | src/node/core.go:351-388 | What is sent for an event, leaves included, has the creator, index and parents that are stored |
| `Gossip.OwnEventCarries` | src/node/core.go:531-545 | An own event that does not fail becomes the head, is stored and signed, and carries exactly the transactions, internal transactions and signatures it was given, the old head and the other head as parents and the next index; no other stored message changes |
| `Gossip.OwnEventExact` | src/node/core.go:491-564 | An own event is made properly if and only if the height is right and the other parent stored; a failure leaves the height one higher |
| `Gossip.OwnForks` | src/poset/poset.go:599-623 | An own event with an index already taken, when accepted, forks the chain |
| `Gossip.AheadIsStuck` | src/peers/peer.go:117-123 | A node whose height is ahead of its chain never makes another event |
| `Gossip.StuckAfterReplay` | src/node/core.go:391-445 | A peer's event at a known index with another body: the exchange fails on the node's own event, and so does the next, proper exchange |
| `Gossip.OwnEventComesBack` | src/node/core.go:297-303 | A node that got its own event from a peer keeps its old height, and fails when the event is sent again |
| `Gossip.Core.constructor` | src/node/core.go:57-139 | Only the leaves; heights, head and stored messages are in order |
| `Gossip.Core.EventDiff` | src/node/core.go:351-388 | Exactly the events above the given heights, once each, in insertion order, on the wire; an error exactly for a height below the leaves |
| `Gossip.Core.InsertEvent` | src/node/core.go:285-310 | The node after one insertion, or the refusal without effect |
| `Gossip.Core.AddSelfEvent` | src/node/core.go:491-564 | The node after an event of its own that carries exactly what it was given, including the height taken on failure |
| `Gossip.Core.Sync` | src/node/core.go:391-445 | The node after the received events up to the first failure, and its own event on top |
| `GossipNetwork.MergedChain` | src/node/core.go:391-434 | After an exchange every chain is the receiver's or the sender's |
| `GossipNetwork.MoveKeeps` | src/node/core.go:351-445 | A pull between any two nodes of a healthy network succeeds, brings everything, and leaves the network healthy |
| `GossipNetwork.NetworkRuns` | src/node/core.go:351-445 | In any sequence of pulls and own events no exchange ever fails and all nodes stay in order with each other |
| `GossipNetwork.NetworkSafe` | src/node/core.go:351-445 | From common leaves, after any such sequence, any two nodes have the same derived fields and the same contents for every event they share |
| `GossipNetwork.PullMakes` | src/node/core.go:402-445 | A pull with a payload makes an event that carries it, with the sender's last known event as other parent, under a hash that nobody held |
| `GossipNetwork.NetworkAlike` | src/node/core.go:391-445 | Over any run no stored message is lost or changed, and any two nodes that hold an event hold it with the same contents |
| `GossipNetwork.PayloadSpreads` | src/node/core.go:391-445 | After any run, whoever holds an event holds it with the payload its creator put in |
| `GossipNetwork.Pull` | src/node/node.go:301-316 | The two-node exchange on objects: it never fails, and the receiver ends up with everything |
| `TransactionPools.BatchSize` | src/node/core.go:518-526 | At least one transaction, as many as stay below the size limit, and either all or so many that the next does not fit |
| `TransactionPools.OneBatch` | src/node/core.go:518-526 | There is exactly one such batch |
| `TransactionPools.Pools.constructor` | src/node/core.go:84-92 | Empty pools |
| `TransactionPools.Pools.AddTransactions` | src/node/core.go:640-650 | All of the transactions at the end of the pool, or none when one is too large |
| `TransactionPools.Pools.AddInternalTransactions` | src/node/core.go:653-657 | All at the end of the pool |
| `TransactionPools.Pools.AddBlockSignature` | src/node/core.go:660-664 | One more at the end of the pool |
| `TransactionPools.Pools.AddSelfEventBlock` | src/node/core.go:491-564 | What was submitted is at all times what went into own events and then what waits, each once and in order; the event carries one batch and all of the other two pools; a failure leaves the pools as they were; signatures stay exactly while transactions are left |
| `TrieKeys.PrefixLen` | src/trie/encoding.go:81-92 | The length of the longest common prefix |
| `TrieKeys.KeybytesToHex` | src/trie/encoding.go:49-58 | The nibbles of every byte, the high one first, and the terminator |
| `TrieKeys.KeyHexInjective` | src/trie/encoding.go:49-58 | Different keys have different nibbles |
| `Tries.InsertGet` | src/trie/trie.go:181-248 | After an insertion the key has the value and every other key what it had |
| `Tries.DeleteGet` | src/trie/trie.go:272-379 | After a deletion the key is gone and every other key has what it had |
| `Tries.InsertNF` | src/trie/trie.go:181-248 | Insertion keeps normal form: no short node under a short node, full nodes with at least two children |
| `Tries.DeleteNF` | src/trie/trie.go:272-379 | Deletion keeps normal form |
| `Tries.Canonical` | src/trie/trie.go:181-379 | Normal forms with the same contents are equal |
| `TrieRuns.RunHolds` | src/trie/trie.go:163-179 | After any run of updates and deletions the trie answers like the finite map they build |
| `TrieRuns.RunExists` | src/trie/trie.go:163-179 | Every history of updates can be run |
| `TrieRuns.HistoryIndependent` | src/trie/trie.go:163-379 | Histories that build the same map end in the same tree |
| `CompactKeys.CompactRoundTrip` | src/trie/encoding.go:21-47 | Expanding the compact form of a key fragment gives the fragment back |
| `CompactKeys.CompactInjective` | src/trie/encoding.go:21-36 | Different fragments have different compact forms |
| `CompactKeys.CompactPacks` | src/trie/encoding.go:11-36 | The compact form is the hex prefix encoding, byte by byte |
| `CompactKeys.CanonicalIff` | src/trie/encoding.go:11-47 | A byte string is the compact form of its own expansion exactly when its flag is one of the four and an even fragment has nothing in the low nibble |
| `CompactKeys.DecodeNibbles` | src/trie/encoding.go:74-78 | Pairs of nibbles as bytes, the first one high, in place |
| `CompactKeys.HexToCompact` | src/trie/encoding.go:21-36 | Byte by byte: the flag nibble tells terminator and odd length, the low nibble is the first nibble of an odd fragment and otherwise zero, every further byte is a pair |
| `CompactKeys.CompactToHex` | src/trie/encoding.go:38-47 | Nibble by nibble, for every byte string that is not empty |
| `CompactKeys.HexToKeybytes` | src/trie/encoding.go:62-72 | The key with these nibbles, refused exactly when there is an odd number of them |
| `TrieNodes.DecodeEncode` | src/trie/node.go:113-199 | Decoding the encoding of a tree gives its top node, large subtrees as hashes and small ones in place |
| `TrieNodes.DecodeFullLoop` | src/trie/node.go:155-172 | The loop over sixteen references and a value |
| `TrieNodes.RefForm` | src/trie/hasher.go:149-193 | In its parent a node is its own encoding when that is shorter than 32 bytes, and its 32-byte hash otherwise |
| `TrieNodes.ShortForm` | src/trie/hasher.go:107-125 | A short node is a list of its compact key and its child |
| `TrieNodes.FullForm` | src/trie/node.go:39-50 | A full node is a list of its children in order |
| `TrieNodes.OneKeyBlob` | src/trie/encoding.go:11-36 | The bytes of a trie with one key and one value |
| `TrieNodes.CollapsedItem` | src/trie/database.go:174-196 | The collapsed form of a tree serialises to the encoding of the tree |
| `TrieNodes.ExpandIsDecode` | src/trie/database.go:200-234 | Expanding the collapsed node kept in memory agrees with decoding its encoding |
| `LazyTrie.ResolveRep` | src/trie/trie.go:395-401 | Loading a node by its hash gives the top of the tree it stands for |
| `LazyTrie.GetRefines` | src/trie/trie.go:105-141 | Lookup with loading finds what the plain tree has, and leaves a node for the same tree |
| `LazyTrie.InsertRefines` | src/trie/trie.go:181-248 | Insertion with loading gives a node for the plain tree's result, and is reported unchanged only if it is |
| `LazyTrie.FindOnly` | src/trie/trie.go:321-331 | The one child left, or that there are several |
| `LazyTrie.DeleteRefines` | src/trie/trie.go:272-379 | Deletion with loading gives a node for the plain tree's result |
| `LazyTrie.GetMissing` | src/trie/trie.go:105-141 | With nodes missing, lookup gives the same or names a missing node |
| `LazyTrie.InsertMissing` | src/trie/trie.go:181-248 | The same for insertion |
| `LazyTrie.DeleteMissing` | src/trie/trie.go:272-379 | The same for deletion |
| `LazyTrie.InsertRenews` | src/trie/trie.go:181-252 | A node that an insertion changes is marked dirty in the current generation and forgets its hash |
| `LazyTrie.DeleteRenews` | src/trie/trie.go:272-379 | A node that a deletion changes is gone or is marked dirty in the current generation and forgets its hash |
| `TrieHasher.HashRefines` | src/trie/hasher.go:61-193 | Hashing gives the hash of the tree from scratch, whatever hashes are cached, and the same tree; storing puts all of it in the database |
| `TrieHasher.HashIgnoresDb` | src/trie/hasher.go:61-193 | Without storing, the database is neither read nor changed |
| `TrieHasher.CollapseRefines` | src/trie/hasher.go:107-144 | The collapsed children of a node serialise to the encoding of its tree |
| `TrieHasher.UnloadsIff` | src/trie/node.go:62-65 | A node leaves memory exactly when hashes are stored, its hash is known, it is clean and it is old enough in 16-bit generations |
| `TrieObject.ReopenGet` | src/trie/trie.go:60-75 | A stored tree opened by its hash has the same value for every key |
| `TrieObject.Trie.constructor` | src/trie/trie.go:60-75 | The empty trie over a database |
| `TrieObject.Trie.Open` | src/trie/trie.go:60-75 | The trie with that root hash, or the missing node and no effect |
| `TrieObject.Trie.Lookup` | src/trie/trie.go:96-103 | What the tree has, or a node that is missing |
| `TrieObject.Trie.Put` | src/trie/trie.go:163-179 | The tree after the update, an empty value deleting; or a missing node and no effect |
| `TrieObject.Trie.Remove` | src/trie/trie.go:259-267 | The tree after the deletion, or a missing node and no effect |
| `TrieObject.Trie.Hash` | src/trie/trie.go:409-413 | The hash of the tree from scratch; nothing is written |
| `TrieObject.Trie.Commit` | src/trie/trie.go:417-428 | The same hash, with the whole tree in the database under it |
| `TrieProof.WalkDown` | src/trie/proof.go:121-143 | Where following a key through one decoded node ends |
| `TrieProof.VerifyProof` | src/trie/proof.go:95-119 | The verifier's verdict and the number of nodes it used |
| `TrieProof.ProofIsSound` | src/trie/proof.go:95-119 | No set of nodes filed under their hashes verifies to anything but what the tree has; at worst a node is missing |
| `TrieProof.ProofIsComplete` | src/trie/proof.go:95-119 | A set that has the nodes on the way verifies to what the tree has, also when that is nothing |
| `TrieProof.CountIsProof` | src/trie/proof.go:95-119 | The count returned is the number of nodes of the proof for a key that is there, and one less for one that is not |
| `TrieProof.ProveVerifies` | src/trie/proof.go:22-79 | The proof of a key verifies to what the trie has under it |
| `TrieProof.Collect` | src/trie/proof.go:22-52 | The nodes on the way to the key, or a missing node |
| `TrieProof.WriteProof` | src/trie/proof.go:53-79 | Their encodings from the given level on, each under its hash |
| `TrieProof.Prove` | src/trie/proof.go:22-79 | From level zero a proof that verifies to what the trie has; of the empty trie, nothing |
| `NodeGraph.NoDangling` | src/trie/database.go:285-310 | From a cached or stored node references never lead to a missing one, however far they are followed |
| `NodeGraph.DiskNoDangling` | src/trie/database.go:681-703 | The same on disk alone |
| `NodeGraph.ListEnumerates` | src/trie/database.go:291-309 | The flush-list has every cached node but the meta-root exactly once, in insertion order |
| `NodeGraph.ListRemains` | src/trie/database.go:495-514 | When nodes only leave the cache, the flush-list is the old one without them |
| `NodeGraph.PrevUndoesNext` | src/trie/database.go:594-603 | Going back undoes going on, except at the oldest node |
| `NodeGraph.SizeExactIff` | src/trie/database.go:309-309 | The running size is the sum of 32 plus node size if and only if no charge has wrapped around |
| `NodeGraph.ChargeExactIff` | src/trie/database.go:293-309 | A blob is charged its length plus 32 if and only if it is shorter than 65504 bytes |
| `NodeGraph.ChargeWraps` | src/trie/database.go:293-309 | A blob of 65504 bytes in an empty cache is charged at nothing |
| `NodeGraph.CountIsReferences` | src/trie/database.go:296-300 | The parent count of a node that is only cached is the number of references to it |
| `NodeDatabase.Descendents` | src/trie/database.go:140-149 | External references once each and inner references with repetition |
| `NodeDatabase.Database.constructor` | src/trie/database.go:239-263 | An empty cache over a disk that is closed under children |
| `NodeDatabase.Database.Insert` | src/trie/database.go:285-310 | One more node at the end of the list, no other body changed, the invariant kept; nothing for a cached node |
| `NodeDatabase.Database.Reference` | src/trie/database.go:434-448 | One more reference, unless it is already held; the invariant kept |
| `NodeDatabase.Database.DereferenceFrom` | src/trie/database.go:472-515 | The removal below a node that is going: only unreferenced nodes leave, and it ends |
| `NodeDatabase.Database.Dereference` | src/trie/database.go:451-469 | The meta-root holds one reference less; nodes only leave, none that is still referenced, and the list is the old one without them; the invariant kept |
| `NodeDatabase.Database.Cap` | src/trie/database.go:519-612 | Exactly as many of the oldest nodes go as the limit needs, every lookup answers as before, and a refused write leaves the cache as it was |
| `NodeDatabase.Database.CommitFrom` | src/trie/database.go:681-703 | Everything cached below the node is written, children first, and it ends |
| `NodeDatabase.Database.Uncache` | src/trie/database.go:709-733 | Everything cached below the node leaves the cache, and every lookup answers as before |
| `NodeDatabase.Database.Commit` | src/trie/database.go:618-678 | The trie below the root is on disk and out of the cache, the list is the old one without it, every lookup answers as before, and a refused write leaves the cache as it was |
| `SyncChildren.EmbeddedHasNoRefs` | src/trie/node.go:176-199 | A node accepted inside its parent has no hash reference in it |
| `SyncChildren.OneLevelIsEnough` | src/trie/sync.go:241-298 | Every hash anywhere in a node that decodes is a child of the node itself |
| `SyncChildren.NeedsEverything` | src/trie/sync.go:241-298 | The scheduler waits for every hash anywhere in a node before it takes the node for complete |
| `SyncChildren.DepthIsNibbles` | src/trie/sync.go:250-268 | A reference lies deeper by the nibbles of a short node's key, or by one in a full node |
| `SyncValues.CallbackSees` | src/trie/sync.go:269-277 | The leaf callback is called for exactly the values that are children of the node itself, in order |
| `SyncValues.AllReportedIff` | src/trie/sync.go:241-298 | All values of a node are reported if and only if no node embedded in it holds one |
| `SyncValues.AllReportedIffLarge` | src/trie/sync.go:241-298 | All values of a stored node are reported if and only if each child that is a node is stored by its hash |
| `SyncValues.EmbeddedValuesShort` | src/trie/node.go:176-199 | Values inside an embedded node are shorter than a hash |
| `SyncValues.NothingReported` | src/trie/sync.go:241-298 | A stored node with two small leaves decodes, holds two values and reports neither |
| `SyncState.WritesClosed` | src/trie/sync.go:206-218 | Every prefix of the writes leaves the database closed under children |
| `SyncState.NothingMissing` | src/trie/sync.go:303-320 | A request that waits for nothing lacks nothing |
| `SyncState.KnownBelow` | src/trie/sync.go:154-320 | What is known is known all the way down |
| `SyncState.NothingPendingIsComplete` | src/trie/sync.go:221-223 | With nothing pending, everything below what was asked for is present |
| `SyncState.DepsAreLinks` | src/trie/sync.go:228-320 | A request's dependency count is how often it is a parent among the pending requests |
| `TrieSync.Sync.constructor` | src/trie/sync.go:66-75 | The scheduler for one root over a closed database |
| `TrieSync.Sync.Schedule` | src/trie/sync.go:228-237 | The entry is pending with these parents and queued at its depth, or merged with a request that is already there |
| `TrieSync.Sync.AddSubTrie` | src/trie/sync.go:78-107 | The trie is known, or pending with the parent waiting for it and queued at the given depth |
| `TrieSync.Sync.AddRawEntry` | src/trie/sync.go:113-140 | The same for a raw entry |
| `TrieSync.Sync.Gather` | src/trie/sync.go:241-298 | Every child is known, waited for or listed for scheduling, deeper than its parent by the nibbles on the way |
| `TrieSync.Sync.CommitRequest` | src/trie/sync.go:303-320 | The request goes to the batch after all it needs, and so do parents that then wait for nothing; it ends |
| `TrieSync.Sync.Process` | src/trie/sync.go:154-202 | Deliveries are taken in order up to the first that is refused, for exactly the reasons the code has |
| `TrieSync.Sync.Missing` | src/trie/sync.go:143-149 | The deepest scheduled hashes, at most as many as asked for, each removed from the queue |
| `TrieSync.Sync.Commit` | src/trie/sync.go:206-218 | The batch in order of completion; the database is closed after every write, also when one fails |
| `Rlp.ParseEncode` | src/rlp/raw.go:23-109 | Parsing an encoding gives the value and what follows it |
| `Rlp.ParseSound` | src/rlp/raw.go:23-140 | Whatever parses is the encoding of the result: one encoding per value |
| `Rlp.PrefixFree` | src/rlp/raw.go:23-29 | Encodings are self-delimiting |
| `Rlp.StringForm` | src/rlp/encode.go:119-192 | A byte below 128 stands for itself; any other string is announced from 0x80 on, by its length or by the length of its big-endian length |
| `Rlp.ListForm` | src/rlp/encode.go:119-206 | A list is announced from 0xC0 on in the same way, its payload being its members in turn |
| `Rlp.Examples` | src/rlp/encode_test.go:64-154 | Encodings that the tests list |
| `Rlp.CountValues` | src/rlp/raw.go:58-68 | The number of values, by their headers |
| `Rlp.CountEncodeAll` | src/rlp/raw.go:58-68 | The count of an encoded sequence is its length |
| `RlpEncoder.PutIntIsBigEndian` | src/rlp/encode.go:569-624 | The shifted bytes are the shortest big-endian form |
| `RlpEncoder.IntSize` | src/rlp/encode.go:627-633 | The number of bytes of that form |
| `RlpHeads.AppendsList` | src/rlp/encode.go:201-208 | A header placed before the items of a list announces their rendered size |
| `RlpEncoder.EncBuf.EncodeString` | src/rlp/encode.go:185-193 | Adds exactly the string's encoding to the output |
| `RlpEncoder.EncBuf.ListEnd` | src/rlp/encode.go:201-208 | The header's size is data plus nested headers since it was opened |
| `RlpEncoder.EncBuf.EncodeItem` | src/rlp/encode.go:165-208 | Walking a value adds exactly its encoding to the output, whatever came before |
| `RlpEncoder.EncBuf.ToBytes` | src/rlp/encode.go:214-230 | The data with every header in its place |
| `RlpEncoder.EncBuf.ToWriter` | src/rlp/encode.go:232-254 | The same, written piece by piece |
| `RlpEncoder.EncodeToBytes` | src/rlp/encode.go:81-89 | The plain recursive encoding |
| `RlpEncoder.EncodeToWriter` | src/rlp/encode.go:64-77 | The plain recursive encoding |
| `RlpEncoder.EncodeToReader` | src/rlp/encode.go:96-103 | A reader whose whole output is the plain recursive encoding, and its size |
| `RlpEncoder.EncReader.Read` | src/rlp/encode.go:265-286 | Under any sequence of sizes the reads continue each other, and the end is reported exactly when everything has been read |
| `RlpDecoder.LooseIsSplit` | src/rlp/decode.go:890-950 | The stream's headers are the splitter's, up to the check of single bytes |
| `RlpDecoder.Stream.GetKind` | src/rlp/decode.go:857-888 | The next header, kept until it is used; every open list stays within its size and its enclosing list |
| `RlpDecoder.Stream.ReadUint` | src/rlp/decode.go:952-976 | A big-endian number without leading zeros, or an error |
| `RlpDecoder.Stream.OpenList` | src/rlp/decode.go:745-757 | A list is entered |
| `RlpDecoder.Stream.ListEnd` | src/rlp/decode.go:761-776 | A list is left exactly at its end, and the enclosing one has advanced by its size |
| `RlpDecoder.Stream.DecodeItem` | src/rlp/decode.go:497-519 | One value exactly as the parser reads it |
| `RlpDecoder.Stream.DecodeItems` | src/rlp/decode.go:309-351 | All values of a list exactly as the parser reads them |
| `RlpDecoder.DecodeBytes` | src/rlp/decode.go:122-132 | An accepted input is the encoding of the result; a refused one is no value's encoding; trailing bytes are refused as such |
| `StateView.BackTwice` | src/state/journal.go:42-55 | Going back in two stages is going back at once |
| `StateView.CleanBalance` | src/state/statedb.go:483-506 | An account without journal entries shows the balance it started with |
| `StateView.CleanAccount` | src/state/journal.go:102-162 | An account that is not dirty was there from the start, with its first storage or, once replaced, none |
| `StateDb.RevertRestores` | src/state/journal.go:42-55 | Earlier snapshots still restore after a revert |
| `StateDb.DirtyIsCount` | src/state/journal.go:33-62 | An account's dirty count is the number of its journal entries, and more only for the ripemd address |
| `StateDb.FlushedShown` | src/state/state_object.go:185-205 | Writing the storage of a live object leaves exactly the slots shown |
| `StateDb.CommitSettles` | src/state/statedb.go:483-506 | What a commit does with one live object: balance and slots shown if dirty, as before if not, gone if suicided or dirty and empty |
| `StateDb.SlotsExact` | src/state/statedb.go:483-506 | The slots a commit leaves are those shown if and only if the account is not live, is dirty, was not replaced, or had no storage |
| `StateDb.ReplacedSlotReturns` | src/state/journal.go:111-117 | An account with one slot, replaced and committed: the slot shows nothing and is still in the trie |
| `StateDb.Search` | src/state/statedb.go:421-424 | The first revision with at least the given identifier |
| `StateDb.DB.constructor` | src/state/statedb.go:65-78 | The state shows what the trie has |
| `StateDb.DB.GetObject` | src/state/statedb.go:286-310 | The live or loaded object; nothing shown changes |
| `StateDb.DB.GetBalance` | src/state/statedb.go:139-145 | The balance shown |
| `StateDb.DB.HasSuicided` | src/state/statedb.go:200-206 | The flag shown |
| `StateDb.DB.Exist` | src/state/statedb.go:127-129 | Whether the account is shown |
| `StateDb.DB.GetState` | src/state/statedb.go:148-154 | The slot value shown |
| `StateDb.DB.GetCommittedState` | src/state/statedb.go:175-181 | The slot value without pending writes |
| `StateDb.DB.CreateAccount` | src/state/statedb.go:327-354 | A fresh account that keeps the balance, journaled |
| `StateDb.DB.SetBalance` | src/state/state_object.go:254-264 | The balance is set, journaled, and the account is dirty |
| `StateDb.DB.AddBalance` | src/state/state_object.go:229-240 | The sum modulo 64 bits, journaled; the account is dirty exactly when the amount is not zero or the balance is, so that a touched empty account goes at the next commit; no other account is affected |
| `StateDb.DB.SubBalance` | src/state/state_object.go:244-252 | The difference, journaled, for an amount that is there; the account is dirty unless nothing changes |
| `StateDb.DB.SetState` | src/state/state_object.go:165-182 | The slot is set, journaled, and the account is dirty; nothing when it has the value |
| `StateDb.DB.Suicide` | src/state/statedb.go:248-262 | Flag raised and balance zero, journaled, and the account is dirty; false for an account that is not there |
| `StateDb.DB.AddPreimage` | src/state/statedb.go:111-118 | The first preimage of a hash stays, journaled |
| `StateDb.DB.Snapshot` | src/state/statedb.go:411-416 | A new revision with the next identifier, above all earlier ones |
| `StateDb.DB.RevertJournal` | src/state/journal.go:42-55 | The entries down to the mark are taken back |
| `StateDb.DB.RevertToSnapshot` | src/state/statedb.go:419-432 | Every account, flag, slot and preimage shows what it showed at the snapshot, after any operations in between; refused without effect exactly for a revision that is not valid |
| `StateDb.DB.Commit` | src/state/statedb.go:483-520 | Balances are those shown, zero for suicided accounts; an account is there exactly when it is shown and not a live one that is suicided or dirty and empty; slots are those shown exactly as SlotsExact says; what is not dirty stays as it was; whatever the order of the live objects |
| `Funds.MoveTotal` | src/poset/poset.go:1670-1680 | A transfer keeps the sum, also to oneself |
| `Funds.PaidRoundTotal` | src/poset/poset.go:1659-1683 | A whole round keeps the sum |
| `Funds.PaidAt` | src/poset/poset.go:1666-1681 | A covered transfer to somebody else lowers the sender, raises the receiver by the same amount and leaves all others alone; anything else changes nothing |
| `Funds.RoundBalances` | src/poset/poset.go:1659-1684 | After a round each account has what it had, and what it received less what it paid, over the transfers that were covered when their turn came |
| `StakeRounds.GrantedAt` | src/pos/genesis.go:16-22 | Each participant has one share for every time it is listed |
| `StakeRounds.NoOverflow` | src/state/state_object.go:229-240 | What is received fits in 64 bits when the sum does |
| `StakeRounds.Apply` | src/poset/poset.go:1665-1680 | One internal transaction on the balances shown: a covered transfer to somebody else lowers the sender and raises the receiver, all else changes nothing, and nothing is out of range |
| `StakeRounds.ApplyEvents` | src/poset/poset.go:1635-1688 | The accounts after a round: each has what it had, and what it received less what it paid over the covered transfers; the sum is the same |
| `StakeRounds.Genesis` | src/pos/genesis.go:10-23 | One share of the supply, rounded down, for every listing of a participant, and nothing for anybody else |
| `StakeRounds.Rounds.constructor` | src/pos/genesis.go:10-23 | The first state: one share for every listing of a participant |
| `StakeRounds.Rounds.ProcessRound` | src/poset/poset.go:1635-1688 | The round's transfers on the accounts of the round before, kept in its frame; every round in any order keeps the sum of genesis; a round below one or without its predecessor is refused |

## Left out

- Networking, proxies, services, timers, peer selection and command line: no logic of the parts above.
- Round-based consensus (`DivideRounds`, `DecideAtropos`, `DecideRoundReceived`): no longer called.
- Hashes, signatures and anchors of blocks, and the rest of `ProcessDecidedRounds` over rounds that are never pending. A
  block is the list of its events. The in-memory store answers every `CheckFrameFinality` with yes and is not modelled.
- Fast-forward: events below a root's placeholder are not modelled.
- LRU eviction in stores and the window of `RollingIndex`: stores are unbounded, so "too late" arises only below the leaf.
- The event creation rate and in-degrees: the decision to make an event is a parameter.
- Wire encoding of messages: a nil slice of transactions stays nil, as it does in memory.
- `UndeterminedEvents` and the signature pool: lists that the modelled code only appends to.
- Which of the confirmed events above an event gave it its received frame depends on the order of arrival; whether it has one does not (`FinalFrames.SameBlocks`).
- Trie iterators, the secure trie, leaf callbacks while hashing and external references from storage tries.
- The clean cache, preimages, metrics and batch sizes of the node store; every batched write is one write that may fail.
- `Finalise`, `Reset`, `Copy`, logs of errors and storage proofs of the state database; `deleted` is never set, and trimming of stored slot values is not modelled.
- RLP of Go types other than nested byte strings and lists.
- DagInvariant.ForkAccepted: one input, the simplest; the general statement is ForkFreeIffNextIndex.
- TrieNodes.DecodeEncode: the decoder of the model refuses an empty compact key, where the code would index out of range, and a key that expands to nothing, which the code accepts; neither is ever written.
- TrieProof.ProofIsSound: about sets of nodes filed under their hashes, as a proof database is keyed; the empty trie has an empty proof, for which the verifier reports a missing node.
- TrieHasher.HashRefines: the hasher writes to a plain map; the reference counts that its writes cause are the subject of NodeDatabase.
- TrieObject.Trie.Commit: for a database that has all nodes of the tree; Lookup, Put, Remove and Hash also for one with nodes missing.
- TrieSync.Sync.Process: deliveries carry the data of their hash; the zero hash, which marks "no parent", is never delivered.
- NodeDatabase.Database.Insert: parent counts and external counts are unbounded numbers, not 32 and 16 bits.
- StateDb.DB.SubBalance: requires the amount to be there, as the code panics otherwise; StakeRounds.Apply never breaks that.
- StateDb.DB.Commit: returns the contents of the new trie and leaves the object as it is.
- StakeRounds.Genesis: requires at least one participant, as the code divides by their number.
- StakeRounds.Rounds.ProcessRound: a state hash is identified with the accounts it stands for.
- Gossip.Core.EventDiff: requires a DAG in order; the error of a missing event block cannot arise there.

/** Events on the wire: parents named by creator and index instead of hash (src/poset/event.go, src/poset/poset.go). */
module GossipWire {
  import opened Wrappers
  import opened EventDag

  datatype BlockSignature = BlockSignature(validator: Creator, index: int, signature: nat)

  /** A slice of transactions, which may be nil. */
  datatype Slice = NilSlice | Slice(items: seq<nat>)

  /** What is hashed and signed. */
  datatype Body = Body(transactions: Slice, internalTransactions: seq<nat>, selfParent: Hash, otherParent: Hash,
                       creator: Creator, index: int, signatures: seq<BlockSignature>)

  /** Parents named by creator and index; identifier 0 stands for no creator, and index -1 for no event. */
  datatype WireInfo = WireInfo(selfParentIndex: int, otherParentCreatorId: nat, otherParentIndex: int, creatorId: nat)

  /** An event message: body, signature and the names of its parents. */
  datatype Packet = Packet(body: Body, signature: nat, info: WireInfo)

  datatype WireSignature = WireSignature(index: int, signature: nat)

  datatype Wire = Wire(transactions: Slice, internalTransactions: seq<nat>, info: WireInfo, index: int,
                       signatures: seq<WireSignature>, signature: nat)

  datatype WireError = UnknownCreatorId | NoSelfParent | NoOtherParent

  /** Participant identifiers are never zero. */
  function IdOf(c: Creator): nat {
    c + 1
  }

  function WireSignatures(ss: seq<BlockSignature>): seq<WireSignature> {
    seq(|ss|, i requires 0 <= i < |ss| => WireSignature(ss[i].index, ss[i].signature))
  }

  function FullSignatures(ws: seq<WireSignature>, validator: Creator): seq<BlockSignature> {
    seq(|ws|, i requires 0 <= i < |ws| => BlockSignature(validator, ws[i].index, ws[i].signature))
  }

  /** `WireBlockSignatures`. */
  method StripValidators(ss: seq<BlockSignature>) returns (ws: seq<WireSignature>)
    ensures ws == WireSignatures(ss)
    ensures |ws| == |ss| && forall i :: 0 <= i < |ss| ==>
              ws[i].index == ss[i].index && ws[i].signature == ss[i].signature
  {
    ws := [];
    for i := 0 to |ss|
      invariant ws == WireSignatures(ss)[..i]
    {
      ws := ws + [WireSignature(ss[i].index, ss[i].signature)];
    }
  }

  /** `WireEvent.BlockSignatures`. */
  method AddValidators(ws: seq<WireSignature>, validator: Creator) returns (ss: seq<BlockSignature>)
    ensures ss == FullSignatures(ws, validator)
    ensures |ss| == |ws| && forall i :: 0 <= i < |ws| ==>
              ss[i].validator == validator && ss[i].index == ws[i].index && ss[i].signature == ws[i].signature
  {
    ss := [];
    for i := 0 to |ws|
      invariant ss == FullSignatures(ws, validator)[..i]
    {
      ss := ss + [BlockSignature(validator, ws[i].index, ws[i].signature)];
    }
  }

  /** Signatures survive the journey if and only if all of them are the creator's own. */
  lemma SignaturesSurvive(ss: seq<BlockSignature>, creator: Creator)
    ensures FullSignatures(WireSignatures(ss), creator) == ss <==>
              forall i :: 0 <= i < |ss| ==> ss[i].validator == creator
  {
    var back := FullSignatures(WireSignatures(ss), creator);
    assert forall i :: 0 <= i < |ss| ==> back[i] == BlockSignature(creator, ss[i].index, ss[i].signature);
    if back == ss {
      forall i | 0 <= i < |ss| ensures ss[i].validator == creator { assert back[i] == ss[i]; }
    }
  }

  /** One block signature of another validator: it comes back under the creator's name. */
  lemma ForeignSignatureChanges()
    ensures var ss := [BlockSignature(1, 0, 5)];
            FullSignatures(WireSignatures(ss), 0) == [BlockSignature(0, 0, 5)] != ss
  {
    var ss := [BlockSignature(1, 0, 5)];
    SignaturesSurvive(ss, 0);
    assert ss[0].validator == 1;
  }

  function ToWire(p: Packet): Wire {
    Wire(p.body.transactions, p.body.internalTransactions, p.info, p.body.index, WireSignatures(p.body.signatures),
         p.signature)
  }

  /** `ToWire`. */
  method MakeWire(p: Packet) returns (w: Wire)
    ensures w == ToWire(p)
    ensures w.transactions == p.body.transactions && w.internalTransactions == p.body.internalTransactions
    ensures w.info == p.info && w.index == p.body.index && w.signature == p.signature
    ensures |w.signatures| == |p.body.signatures| && forall i :: 0 <= i < |w.signatures| ==>
              w.signatures[i] == WireSignature(p.body.signatures[i].index, p.body.signatures[i].signature)
  {
    var signatures := StripValidators(p.body.signatures);
    w := Wire(p.body.transactions, p.body.internalTransactions, p.info, p.body.index, signatures, p.signature);
  }

  /** `ParticipantEvent`. */
  function EventAt(d: Dag, c: Creator, index: int): Result<Hash, WireError> {
    if c in d.chains && 0 <= index < |d.chains[c]| then Ok(d.chains[c][index]) else Err(NoSelfParent)
  }

  function CreatorOf(d: Dag, id: nat): Result<Creator, WireError> {
    if id > 0 && id - 1 in d.chains then Ok(id - 1) else Err(UnknownCreatorId)
  }

  /** `ReadWireInfo`; `rootParent` gives the placeholder hash above a creator's first event. */
  function ReadWire(d: Dag, w: Wire, rootParent: nat -> Hash): Result<Packet, WireError> {
    match CreatorOf(d, w.info.creatorId)
    case Err(e) => Err(e)
    case Ok(c) =>
      var self := SelfParent(d, c, w.info, rootParent);
      if self.Err? then Err(self.error)
      else
        var other := OtherParent(d, w.info, rootParent);
        if other.Err? then Err(other.error)
        else
          Ok(Packet(Body(w.transactions, w.internalTransactions, self.value, other.value, c, w.index,
                           FullSignatures(w.signatures, c)), w.signature, w.info))
  }

  function SelfParent(d: Dag, c: Creator, info: WireInfo, rootParent: nat -> Hash): Result<Hash, WireError> {
    if info.selfParentIndex >= 0 then EventAt(d, c, info.selfParentIndex) else Ok(rootParent(info.creatorId))
  }

  function OtherParent(d: Dag, info: WireInfo, rootParent: nat -> Hash): Result<Hash, WireError> {
    if info.otherParentIndex >= 0 then
      match CreatorOf(d, info.otherParentCreatorId)
      case Err(e) => Err(e)
      case Ok(c) =>
        if EventAt(d, c, info.otherParentIndex).Ok? then EventAt(d, c, info.otherParentIndex)
            else Err(NoOtherParent)
    else if info.otherParentCreatorId != 0 then Ok(rootParent(info.otherParentCreatorId))
    else Ok(0)
  }

  /** Hashing and signature checking. */
  datatype Crypto = Crypto(hash: Body -> Hash, verify: (Body, nat) -> bool)

  /** `IsLoaded`: without a transaction slice, internal transactions do not count. */
  predicate Loaded(b: Body) {
    b.index == 0 || (b.transactions.Slice? && (b.transactions.items != [] || b.internalTransactions != []))
  }

  /** Internal transactions make an event loaded exactly when there is a transaction slice, be it empty. */
  lemma InternalCounts(b: Body)
    requires b.index != 0 && (b.transactions.NilSlice? || b.transactions.items == [])
    ensures Loaded(b) <==> b.transactions.Slice? && b.internalTransactions != []
    ensures Loaded(b.(index := 0)) && forall tx :: Loaded(b.(transactions := Slice([tx])))
  {}

  function MessageOf(k: Crypto, p: Packet): Message {
    Message(k.hash(p.body), p.body.creator, p.body.index, p.body.selfParent, p.body.otherParent, Loaded(p.body),
            k.verify(p.body, p.signature))
  }

  /** The names of the parents are right in this DAG, and block signatures are the creator's. */
  ghost predicate Named(d: Dag, p: Packet) {
    var b := p.body;
    && p.info.creatorId == IdOf(b.creator)
    && b.selfParent in d.events && d.events[b.selfParent].msg.creator == b.creator
    && p.info.selfParentIndex == d.events[b.selfParent].msg.index
    && (if b.otherParent == 0 then p.info.otherParentCreatorId == 0 && p.info.otherParentIndex < 0
        else b.otherParent in d.events
             && p.info.otherParentCreatorId == IdOf(d.events[b.otherParent].msg.creator)
             && p.info.otherParentIndex == d.events[b.otherParent].msg.index)
    && forall i :: 0 <= i < |b.signatures| ==> b.signatures[i].validator == b.creator
  }

  /** The hash that a creator identifier and an index stand for, a negative index being the one before the first. */
  ghost predicate StandsFor(d: Dag, id: nat, index: int, rootParent: nat -> Hash, h: Hash) {
    if index < 0 then h == rootParent(id)
    else id >= 1 && id - 1 in d.chains && index < |d.chains[id - 1]| && h == d.chains[id - 1][index]
  }

  /** What a message that could be read says of the packet: contents as sent, and parents looked up by their names. */
  ghost predicate Rebuilt(d: Dag, w: Wire, rootParent: nat -> Hash, p: Packet) {
    var b := p.body;
    && b.transactions == w.transactions && b.internalTransactions == w.internalTransactions && b.index == w.index
    && p.signature == w.signature && p.info == w.info && w.info.creatorId == IdOf(b.creator) && b.creator in d.chains
    && StandsFor(d, w.info.creatorId, w.info.selfParentIndex, rootParent, b.selfParent)
    && (if w.info.otherParentCreatorId == 0 && w.info.otherParentIndex < 0 then b.otherParent == 0
        else StandsFor(d, w.info.otherParentCreatorId, w.info.otherParentIndex, rootParent, b.otherParent))
    && |b.signatures| == |w.signatures| && forall i :: 0 <= i < |w.signatures| ==>
         b.signatures[i] == BlockSignature(b.creator, w.signatures[i].index, w.signatures[i].signature)
  }

  /** `ReadWireInfo` with its loop over the block signatures. */
  method ReadWireInfo(d: Dag, w: Wire, rootParent: nat -> Hash) returns (r: Result<Packet, WireError>)
    ensures r == ReadWire(d, w, rootParent)
    ensures r.Ok? ==> Rebuilt(d, w, rootParent, r.value)
  {
    var creator := CreatorOf(d, w.info.creatorId);
    if creator.Err? {
      return Err(creator.error);
    }
    var self := SelfParent(d, creator.value, w.info, rootParent);
    if self.Err? {
      return Err(self.error);
    }
    var other := OtherParent(d, w.info, rootParent);
    if other.Err? {
      return Err(other.error);
    }
    var signatures := AddValidators(w.signatures, creator.value);
    r := Ok(Packet(Body(w.transactions, w.internalTransactions, self.value, other.value, creator.value, w.index,
                          signatures), w.signature, w.info));
  }

  /** A node that has the parents rebuilds exactly what was sent. */
  lemma WireRoundTrip(d: Dag, p: Packet, rootParent: nat -> Hash)
    requires Closed(d) && Chained(d) && Named(d, p)
    ensures ReadWire(d, ToWire(p), rootParent) == Ok(p)
  {
    var b := p.body;
    assert EventChained(d, b.selfParent) && EventClosed(d, b.selfParent);
    if b.otherParent != 0 { assert EventChained(d, b.otherParent) && EventClosed(d, b.otherParent); }
    SignaturesSurvive(b.signatures, b.creator);
  }
}

/**
 Hashing and committing a trie (src/trie/hasher.go): nodes are collapsed from the leaves up, large ones are put
 in the database under their hash, and hashes are kept in the nodes.
 */
module TrieHasher {
  import opened Wrappers
  import opened TrieKeys
  import opened Tries
  import opened CompactKeys
  import opened TrieNodes
  import opened LazyTrie
  import Rlp

  // ------------------------------------------------------------------------------------------
  // The algorithm
  // ------------------------------------------------------------------------------------------

  /** `canUnload`; generations are 16 bits wide. */
  predicate CanUnload(f: Flag, gen: nat, limit: nat) {
    !f.dirty && (gen + 0x1_0000 - f.gen % 0x1_0000) % 0x1_0000 >= limit
  }

  /** What a hasher works with: whether it writes to the database, and which nodes it may drop from memory. */
  datatype Mode = Mode(store: bool, gen: nat, limit: nat)

  /** What stands for the node in its parent, the node with its hash, and the database. */
  datatype Hashed = Hashed(ref: Collapsed, node: Node, db: Db)

  /** `store`: hash the encoding of a collapsed node, unless it is to stay inside its parent. */
  function StoreNode(H: Hasher, c: Collapsed, known: Option<Bytes>, db: Db, mode: Mode, force: bool): (Collapsed, Db) {
    if c.CNil? || c.CHash? || !Rlp.Encodable(RawItem(c)) then (c, db)
    else
      var enc := Rlp.Encode(RawItem(c));
      if |enc| < HASH_LENGTH && !force then (c, db)
      else
        var h := if known.Some? then known.value else H(enc);
        (CHash(h), if mode.store && h !in db then db[h := enc] else db)
  }

  function WithHash(n: Node, ref: Collapsed, store: bool): Node {
    var hash := if ref.CHash? then Some(ref.h) else None;
    match n
    case ShortNode(k, val, f) => ShortNode(k, val, Flag(hash, f.gen, f.dirty && !store))
    case FullNode(ch, f) => FullNode(ch, Flag(hash, f.gen, f.dirty && !store))
    case _ => n
  }

  function FlagOf(n: Node): Flag {
    match n
    case ShortNode(_, _, f) => f
    case FullNode(_, f) => f
    case _ => Flag(None, 0, true)
  }

  /** `hash`: use the cached hash when that is enough, or else go through the children. */
  function HashTree(H: Hasher, n: Node, db: Db, mode: Mode, force: bool): Hashed
    decreases n, 1
  {
    var f := FlagOf(n);
    if f.hash.Some? && !mode.store then Hashed(CHash(f.hash.value), n, db)
    else if f.hash.Some? && CanUnload(f, mode.gen, mode.limit)
        then Hashed(CHash(f.hash.value), HashNode(f.hash.value), db)
    else if f.hash.Some? && !f.dirty then Hashed(CHash(f.hash.value), n, db)
    else Finish(H, HashChildren(H, n, db, mode), f.hash, mode, force)
  }

  /** Once the children are hashed: store the collapsed node, and keep its hash in the node. */
  function Finish(H: Hasher, kids: Hashed, known: Option<Bytes>, mode: Mode, force: bool): Hashed {
    var (ref, db') := StoreNode(H, kids.ref, known, kids.db, mode, force);
    Hashed(ref, WithHash(kids.node, ref, mode.store), db')
  }

  /** `hashChildren`: the collapsed node, and the node with hashes cached below it. */
  function HashChildren(H: Hasher, n: Node, db: Db, mode: Mode): Hashed
    decreases n, 0
  {
    match n
    case NilNode => Hashed(CNil, n, db)
    case ValueNode(v) => Hashed(CValue(v), n, db)
    case HashNode(h) => Hashed(CHash(h), n, db)
    case ShortNode(k, val, f) =>
      var r := if val.ValueNode? then Hashed(CValue(val.v), val, db) else HashTree(H, val, db, mode, false);
      Hashed(CShort(if KeyLike(k) then Compact(k) else [], r.ref), ShortNode(k, r.node, f), r.db)
    case FullNode(ch, f) =>
      var r := HashKids(H, ch, 0, db, mode);
      Hashed(CFull(r.0), FullNode(r.1, f), r.2)
  }

  /** The first sixteen children in turn; the value at the end stays as it is. */
  function HashKids(H: Hasher, ch: seq<Node>, i: nat, db: Db, mode: Mode): (r: (seq<Collapsed>, seq<Node>, Db))
    requires i <= |ch|
    ensures |r.0| == |r.1| == |ch| - i
    decreases ch, |ch| - i
  {
    if i == |ch| then ([], [], db)
    else if ch[i].NilNode? || i >= 16 then
      var rest := HashKids(H, ch, i + 1, db, mode);
      ([if ch[i].ValueNode? then CValue(ch[i].v) else CNil] + rest.0, [ch[i]] + rest.1, rest.2)
    else
      var one := HashTree(H, ch[i], db, mode, false);
      var rest := HashKids(H, ch, i + 1, one.db, mode);
      ([one.ref] + rest.0, [one.node] + rest.1, rest.2)
  }

  /**
   A node is dropped from memory exactly when the hasher writes, and the node's hash is known, it has not changed since
   the last commit, and it is at least `limit` generations old, counted in 16 bits.
   */
  lemma UnloadsIff(H: Hasher, n: Node, db: Db, mode: Mode, force: bool)
    requires (n.ShortNode? || n.FullNode?) && mode.gen < 0x1_0000 && n.flag.gen < 0x1_0000
    ensures var age := if mode.gen >= n.flag.gen then mode.gen - n.flag.gen else mode.gen + 0x1_0000 - n.flag.gen;
            HashTree(H, n, db, mode, force).node.HashNode? <==>
              mode.store && n.flag.hash.Some? && !n.flag.dirty && age >= mode.limit
  {}

  // ------------------------------------------------------------------------------------------
  // Growing databases
  // ------------------------------------------------------------------------------------------

  lemma {:induction false} StoredGrows(H: Hasher, db: Db, db': Db, t: Tree)
    requires Grows(db, db')
    ensures (Below(H, db, t) ==> Below(H, db', t)) && (Stored(H, db, t) ==> Stored(H, db', t))
              && (InDb(H, db, t) ==> InDb(H, db', t))
    decreases t
  {
    match t
    case Nil =>
    case Value(_) =>
    case Short(_, val) => StoredGrows(H, db, db', val);
    case Full(ch) => forall i | 0 <= i < |ch| { StoredGrows(H, db, db', ch[i]); }
  }

  lemma {:induction false} RepGrows(H: Hasher, db: Db, db': Db, n: Node, t: Tree, top: bool)
    requires Rep(H, db, n, t, top) && Grows(db, db')
    ensures Rep(H, db', n, t, top)
    decreases t
  {
    StoredGrows(H, db, db', t);
    match n
    case NilNode =>
    case ValueNode(_) =>
    case HashNode(_) =>
    case ShortNode(_, val, _) => RepGrows(H, db, db', val, t.val, false);
    case FullNode(ch, _) =>
      forall i | 0 <= i < |ch| ensures Rep(H, db', ch[i], t.children[i], false) {
        RepGrows(H, db, db', ch[i], t.children[i], false);
      }
  }

  // ------------------------------------------------------------------------------------------
  // No collisions among the encodings in play
  // ------------------------------------------------------------------------------------------

  ghost predicate NoCollision(H: Hasher, blobs: set<Bytes>) {
    forall a, b {:trigger H(a), H(b)} :: a in blobs && b in blobs && H(a) == H(b) ==> a == b
  }

  /** Every node of the tree is among the encodings in play. */
  ghost predicate InPlay(H: Hasher, blobs: set<Bytes>, t: Tree)
    decreases t
  {
    && (IsNode(t) ==> Rlp.Encodable(ItemOf(H, t)) && Blob(H, t) in blobs)
    && (t.Short? ==> InPlay(H, blobs, t.val))
    && (t.Full? ==> forall i {:trigger t.children[i]} :: 0 <= i < |t.children| ==> InPlay(H, blobs, t.children[i]))
  }

  /** The database holds only such encodings, each under its hash. */
  ghost predicate Filed(H: Hasher, blobs: set<Bytes>, db: Db) {
    forall h {:trigger h in db} :: h in db ==> db[h] in blobs && H(db[h]) == h
  }

  // ------------------------------------------------------------------------------------------
  // The algorithm is right
  // ------------------------------------------------------------------------------------------

  /** How the result of hashing relates to the tree. */
  ghost predicate HashedOk(H: Hasher, blobs: set<Bytes>, db: Db, t: Tree, mode: Mode, force: bool, r: Hashed) {
    && r.ref == (if force && IsNode(t) && Rlp.Encodable(ItemOf(H, t)) then CHash(HashOf(H, t)) else CollapsedRef(H, t))
    && Grows(db, r.db) && Filed(H, blobs, r.db) && Rep(H, r.db, r.node, t, force)
    && (mode.store && IsNode(t) ==> if force then Stored(H, r.db, t) else InDb(H, r.db, t))
    && (!mode.store ==> r.db == db)
  }

  /** The same for the children of a node. */
  ghost predicate KidsOk(H: Hasher, blobs: set<Bytes>, db: Db, t: Tree, mode: Mode, top: bool, r: Hashed) {
    && r.ref == Collapse(H, t)
    && Grows(db, r.db) && Filed(H, blobs, r.db) && Rep(H, r.db, r.node, t, top)
    && (mode.store ==> Below(H, r.db, t)) && (!mode.store ==> r.db == db)
  }

  lemma StoreBlob(H: Hasher, blobs: set<Bytes>, db: Db, t: Tree)
    requires NoCollision(H, blobs) && Filed(H, blobs, db) && Rlp.Encodable(ItemOf(H, t)) && Blob(H, t) in blobs
    ensures var h := HashOf(H, t);
            var db' := if h !in db then db[h := Blob(H, t)] else db;
            h in db' && db'[h] == Blob(H, t) && Grows(db, db') && Filed(H, blobs, db')
  {}

  /** Storing a collapsed node whose children are in the database. */
  lemma StoreRefines(H: Hasher, blobs: set<Bytes>, db: Db, t: Tree, known: Option<Bytes>, mode: Mode, force: bool)
    requires Proper(H, t) && IsNode(t) && InPlay(H, blobs, t) && NoCollision(H, blobs) && Filed(H, blobs, db)
    requires known.Some? ==> Rlp.Encodable(ItemOf(H, t)) && known.value == HashOf(H, t)
    requires mode.store ==> Below(H, db, t)
    ensures var (ref, db') := StoreNode(H, Collapse(H, t), known, db, mode, force);
            && ref == (if force then CHash(HashOf(H, t)) else CollapsedRef(H, t))
            && Grows(db, db') && Filed(H, blobs, db') && (!mode.store ==> db' == db)
            && (mode.store ==> if force then Stored(H, db', t) else InDb(H, db', t))
  {
    CollapsedItem(H, t);
    StoreBlob(H, blobs, db, t);
    var db' := StoreNode(H, Collapse(H, t), known, db, mode, force).1;
    StoredGrows(H, db, db', t);
  }

  /** A node that has just been hashed. */
  lemma WithHashRep(H: Hasher, db: Db, n: Node, t: Tree, ref: Collapsed, store: bool, top: bool)
    requires Rep(H, db, n, t, top) && (n.ShortNode? || n.FullNode?) && Proper(H, t)
               && (store || FlagOf(n).dirty || !(top || Large(H, t)))
    requires Rlp.Encodable(ItemOf(H, t)) && ref == if top then CHash(HashOf(H, t)) else CollapsedRef(H, t)
    requires store ==> if top then Stored(H, db, t) else InDb(H, db, t)
    ensures Rep(H, db, WithHash(n, ref, store), t, top)
  {}

  ghost predicate Ready(H: Hasher, blobs: set<Bytes>, db: Db, t: Tree) {
    Proper(H, t) && InPlay(H, blobs, t) && NoCollision(H, blobs) && Filed(H, blobs, db)
  }

  lemma FinishOk(H: Hasher, blobs: set<Bytes>, db: Db, kids: Hashed, t: Tree, mode: Mode, force: bool)
    requires Ready(H, blobs, db, t) && IsNode(t) && (kids.node.ShortNode? || kids.node.FullNode?)
    requires FlagOf(kids.node).hash.Some? ==> FlagOf(kids.node).dirty && mode.store
    requires KidsOk(H, blobs, db, t, mode, force, kids)
    ensures HashedOk(H, blobs, db, t, mode, force, Finish(H, kids, FlagOf(kids.node).hash, mode, force))
  {
    var f := FlagOf(kids.node);
    StoreRefines(H, blobs, kids.db, t, f.hash, mode, force);
    var (ref, db') := StoreNode(H, kids.ref, f.hash, kids.db, mode, force);
    RepGrows(H, kids.db, db', kids.node, t, force);
    WithHashRep(H, db', kids.node, t, ref, mode.store, force);
  }

  /** A node with children, none of whose hashes can be used. */
  lemma HashFresh(H: Hasher, blobs: set<Bytes>, db: Db, n: Node, t: Tree, mode: Mode, force: bool)
    requires Ready(H, blobs, db, t) && Rep(H, db, n, t, force) && (n.ShortNode? || n.FullNode?)
    requires FlagOf(n).hash.Some? ==> FlagOf(n).dirty && mode.store
    requires KidsOk(H, blobs, db, t, mode, force, HashChildren(H, n, db, mode))
    ensures HashedOk(H, blobs, db, t, mode, force, HashTree(H, n, db, mode, force))
  {
    var kids := HashChildren(H, n, db, mode);
    assert FlagOf(kids.node) == FlagOf(n) && (kids.node.ShortNode? || kids.node.FullNode?);
    FinishOk(H, blobs, db, kids, t, mode, force);
  }

  /** A node whose cached hash is enough. */
  lemma HashCached(H: Hasher, blobs: set<Bytes>, db: Db, n: Node, t: Tree, mode: Mode, force: bool)
    requires Ready(H, blobs, db, t) && Rep(H, db, n, t, force) && (n.ShortNode? || n.FullNode?)
    requires FlagOf(n).hash.Some? && !(FlagOf(n).dirty && mode.store)
    ensures HashedOk(H, blobs, db, t, mode, force, HashTree(H, n, db, mode, force))
  {}

  lemma HashPlain(H: Hasher, blobs: set<Bytes>, db: Db, n: Node, t: Tree, mode: Mode, force: bool)
    requires Ready(H, blobs, db, t) && Rep(H, db, n, t, force) && (n.NilNode? || n.HashNode?)
    ensures HashedOk(H, blobs, db, t, mode, force, HashTree(H, n, db, mode, force))
  {
    if n.HashNode? { CollapsedItem(H, t); }
  }

  /** Hashing gives the hash of the tree from scratch and the same tree back, and storing puts it in the database. */
  lemma {:induction false} HashRefines(H: Hasher, blobs: set<Bytes>, db: Db, n: Node, t: Tree, mode: Mode, force: bool)
    requires Ready(H, blobs, db, t) && Rep(H, db, n, t, force) && !t.Value?
    ensures HashedOk(H, blobs, db, t, mode, force, HashTree(H, n, db, mode, force))
    decreases t, 2
  {
    match n
    case NilNode => HashPlain(H, blobs, db, n, t, mode, force);
    case HashNode(_) => HashPlain(H, blobs, db, n, t, mode, force);
    case ValueNode(_) =>
    case ShortNode(_, _, f) =>
      if f.hash.Some? && !(f.dirty && mode.store) {
        HashCached(H, blobs, db, n, t, mode, force);
      } else {
        HashShort(H, blobs, db, n, t, mode, force);
        HashFresh(H, blobs, db, n, t, mode, force);
      }
    case FullNode(_, f) =>
      if f.hash.Some? && !(f.dirty && mode.store) {
        HashCached(H, blobs, db, n, t, mode, force);
      } else {
        HashFull(H, blobs, db, n, t, mode, force);
        HashFresh(H, blobs, db, n, t, mode, force);
      }
  }

  lemma FlatInDb(H: Hasher, db: Db, t: Tree)
    requires t.Nil? || t.Value?
    ensures InDb(H, db, t) && CollapsedRef(H, t) == if t.Value? then CValue(t.v) else CNil
  {}

  lemma {:induction false} HashShort(H: Hasher, blobs: set<Bytes>, db: Db, n: Node, t: Tree, mode: Mode, top: bool)
    requires Ready(H, blobs, db, t) && Rep(H, db, n, t, top) && n.ShortNode?
    ensures KidsOk(H, blobs, db, t, mode, top, HashChildren(H, n, db, mode))
    decreases t, 1
  {
    ShortParts(H, t);
    FragmentKeyLike(t.key);
    if t.val.Value? {
      FlatInDb(H, db, t.val);
    } else {
      HashRefines(H, blobs, db, n.val, t.val, mode, false);
      var r := HashTree(H, n.val, db, mode, false);
      StoredGrows(H, db, r.db, t);
    }
  }

  lemma {:induction false} HashFull(H: Hasher, blobs: set<Bytes>, db: Db, n: Node, t: Tree, mode: Mode, top: bool)
    requires Ready(H, blobs, db, t) && Rep(H, db, n, t, top) && n.FullNode?
    ensures KidsOk(H, blobs, db, t, mode, top, HashChildren(H, n, db, mode))
    decreases t, 1
  {
    FullParts(H, t);
    HashAll(H, blobs, db, n.children, t.children, 0, mode);
    FullOfList(H, blobs, db, n, t, mode, top, HashKids(H, n.children, 0, db, mode));
  }

  lemma FullOfList(H: Hasher, blobs: set<Bytes>, db: Db, n: Node, t: Tree, mode: Mode, top: bool,
          r: (seq<Collapsed>, seq<Node>, Db))
    requires n.FullNode? && t.Full? && |t.children| == 17 && FlagOk(H, db, n.flag, t, top)
               && ListOk(H, blobs, db, t.children, 0, mode, r)
    ensures KidsOk(H, blobs, db, t, mode, top, Hashed(CFull(r.0), FullNode(r.1, n.flag), r.2))
  {
    StoredGrows(H, db, r.2, t);
    forall i {:trigger r.1[i]} | 0 <= i < 17 ensures Rep(H, r.2, r.1[i], t.children[i], false) {
      assert r.1[i] == r.1[i - 0];
    }
  }

  ghost predicate ListOk(H: Hasher, blobs: set<Bytes>, db: Db, trees: seq<Tree>, i: nat, mode: Mode,
          r: (seq<Collapsed>, seq<Node>, Db))
    requires i <= |trees|
  {
    && r.0 == CollapsedRefs(H, trees, i) && |r.1| == |trees| - i
    && Grows(db, r.2) && Filed(H, blobs, r.2) && (!mode.store ==> r.2 == db)
    && (forall j {:trigger trees[j]} :: i <= j < |trees| ==> Rep(H, r.2, r.1[j - i], trees[j], false))
    && (mode.store ==> forall j {:trigger trees[j]} :: i <= j < |trees| ==> InDb(H, r.2, trees[j]))
  }

  /** The children of a full node: nodes and empty places, and at the end possibly a value. */
  ghost predicate TreesOk(H: Hasher, blobs: set<Bytes>, trees: seq<Tree>) {
    && |trees| == 17 && (trees[16].Nil? || trees[16].Value?)
    && forall j {:trigger trees[j]} :: 0 <= j < 17 ==>
         Proper(H, trees[j]) && InPlay(H, blobs, trees[j]) && (j < 16 ==> !trees[j].Value?)
  }

  lemma {:induction false} HashOne(H: Hasher, blobs: set<Bytes>, db: Db, ch: seq<Node>, trees: seq<Tree>, i: nat,
          mode: Mode)
    requires NoCollision(H, blobs) && Filed(H, blobs, db) && RepAll(H, db, ch, trees) && TreesOk(H, blobs, trees)
    requires i < 16 && |ch| == 17 && !ch[i].NilNode?
    ensures var one := HashTree(H, ch[i], db, mode, false);
            HashedOk(H, blobs, db, trees[i], mode, false, one) && IsNode(trees[i]) && RepAll(H, one.db, ch, trees)
    decreases trees, 17 - i, 0
  {
    assert Rep(H, db, ch[i], trees[i], false);
    HashRefines(H, blobs, db, ch[i], trees[i], mode, false);
    RepAllGrows(H, db, HashTree(H, ch[i], db, mode, false).db, ch, trees);
  }

  lemma {:induction false} HashAll(H: Hasher, blobs: set<Bytes>, db: Db, ch: seq<Node>, trees: seq<Tree>, i: nat,
          mode: Mode)
    requires NoCollision(H, blobs) && Filed(H, blobs, db) && RepAll(H, db, ch, trees) && |ch| == 17 && i <= 17
    requires TreesOk(H, blobs, trees)
    ensures ListOk(H, blobs, db, trees, i, mode, HashKids(H, ch, i, db, mode))
    decreases trees, 17 - i, 1
  {
    if i < 17 {
      if ch[i].NilNode? || i == 16 {
        assert Rep(H, db, ch[i], trees[i], false);
        HashAll(H, blobs, db, ch, trees, i + 1, mode);
        ListSkip(H, blobs, db, ch, trees, i, mode);
      } else {
        HashOne(H, blobs, db, ch, trees, i, mode);
        var one := HashTree(H, ch[i], db, mode, false);
        HashAll(H, blobs, one.db, ch, trees, i + 1, mode);
        ListStep(H, blobs, db, ch, trees, i, mode, one);
      }
    }
  }

  lemma RepAllGrows(H: Hasher, db: Db, db': Db, ch: seq<Node>, trees: seq<Tree>)
    requires RepAll(H, db, ch, trees) && Grows(db, db')
    ensures RepAll(H, db', ch, trees)
  {
    forall i {:trigger ch[i]} {:trigger trees[i]} | 0 <= i < |ch| ensures Rep(H, db', ch[i], trees[i], false) {
      RepGrows(H, db, db', ch[i], trees[i], false);
    }
  }

  lemma ListSkip(H: Hasher, blobs: set<Bytes>, db: Db, ch: seq<Node>, trees: seq<Tree>, i: nat, mode: Mode)
    requires |ch| == |trees| == 17 && i < 17 && Rep(H, db, ch[i], trees[i], false) && (ch[i].NilNode? || i == 16)
    requires trees[i].Nil? || trees[i].Value?
    requires ListOk(H, blobs, db, trees, i + 1, mode, HashKids(H, ch, i + 1, db, mode))
    ensures ListOk(H, blobs, db, trees, i, mode, HashKids(H, ch, i, db, mode))
  {
    var rest, r := HashKids(H, ch, i + 1, db, mode), HashKids(H, ch, i, db, mode);
    RepGrows(H, db, rest.2, ch[i], trees[i], false);
    FlatInDb(H, rest.2, trees[i]);
    forall j {:trigger trees[j]} | i <= j < 17 ensures Rep(H, r.2, r.1[j - i], trees[j], false) {
      if j > i { assert r.1[j - i] == rest.1[j - (i + 1)]; }
    }
  }

  lemma ListStep(H: Hasher, blobs: set<Bytes>, db: Db, ch: seq<Node>, trees: seq<Tree>, i: nat, mode: Mode, one: Hashed)
    requires |ch| == |trees| == 17 && i < 16 && !ch[i].NilNode? && one == HashTree(H, ch[i], db, mode, false)
    requires HashedOk(H, blobs, db, trees[i], mode, false, one) && IsNode(trees[i])
    requires ListOk(H, blobs, one.db, trees, i + 1, mode, HashKids(H, ch, i + 1, one.db, mode))
    ensures ListOk(H, blobs, db, trees, i, mode, HashKids(H, ch, i, db, mode))
  {
    var rest, r := HashKids(H, ch, i + 1, one.db, mode), HashKids(H, ch, i, db, mode);
    RepGrows(H, one.db, rest.2, one.node, trees[i], false);
    StoredGrows(H, one.db, rest.2, trees[i]);
    forall j {:trigger trees[j]} | i <= j < 17 ensures Rep(H, r.2, r.1[j - i], trees[j], false) {
      if j > i { assert r.1[j - i] == rest.1[j - (i + 1)]; }
    }
  }

  /** Without writing, hashing does not look at the database. */
  lemma {:induction false} HashIgnoresDb(H: Hasher, n: Node, db: Db, full: Db, mode: Mode, force: bool)
    requires !mode.store
    ensures HashTree(H, n, db, mode, force) == HashTree(H, n, full, mode, force).(db := db)
    decreases n, 1
  {
    ChildrenIgnoreDb(H, n, db, full, mode);
    FinishIgnoresDb(H, HashChildren(H, n, db, mode), HashChildren(H, n, full, mode), FlagOf(n).hash, mode, force);
  }

  lemma FinishIgnoresDb(H: Hasher, a: Hashed, b: Hashed, known: Option<Bytes>, mode: Mode, force: bool)
    requires !mode.store && a == b.(db := a.db)
    ensures Finish(H, a, known, mode, force) == Finish(H, b, known, mode, force).(db := a.db)
  {}

  lemma {:induction false} KidsIgnoreDb(H: Hasher, ch: seq<Node>, i: nat, db: Db, full: Db, mode: Mode)
    requires !mode.store && i <= |ch|
    ensures HashKids(H, ch, i, db, mode).0 == HashKids(H, ch, i, full, mode).0
    ensures HashKids(H, ch, i, db, mode).1 == HashKids(H, ch, i, full, mode).1
    ensures HashKids(H, ch, i, db, mode).2 == db && HashKids(H, ch, i, full, mode).2 == full
    decreases ch, |ch| - i
  {
    if i < |ch| {
      KidsIgnoreDb(H, ch, i + 1, db, full, mode);
      HashIgnoresDb(H, ch[i], db, full, mode, false);
      HashIgnoresDb(H, ch[i], full, full, mode, false);
    }
  }

  lemma {:induction false} ChildrenIgnoreDb(H: Hasher, n: Node, db: Db, full: Db, mode: Mode)
    requires !mode.store
    ensures HashChildren(H, n, db, mode) == HashChildren(H, n, full, mode).(db := db)
    decreases n, 0
  {
    match n
    case ShortNode(_, val, _) => if !val.ValueNode? { HashIgnoresDb(H, val, db, full, mode, false); }
    case FullNode(ch, _) => KidsIgnoreDb(H, ch, 0, db, full, mode);
    case _ =>
  }

  /** The collapsed form of a node, and whether its parent refers to it by hash. */
  lemma CollapseRefines(H: Hasher, blobs: set<Bytes>, db: Db, n: Node, t: Tree, mode: Mode, top: bool)
    requires Ready(H, blobs, db, t) && Rep(H, db, n, t, top) && (n.ShortNode? || n.FullNode?) && !mode.store
    ensures HashChildren(H, n, map[], mode).ref == Collapse(H, t) && RawItem(Collapse(H, t)) == ItemOf(H, t)
              && Rlp.Encodable(ItemOf(H, t))
    ensures StoreNode(H, Collapse(H, t), FlagOf(n).hash, map[], mode, false).0 == CollapsedRef(H, t)
  {
    if n.ShortNode? { HashShort(H, blobs, db, n, t, mode, top); } else { HashFull(H, blobs, db, n, t, mode, top); }
    ChildrenIgnoreDb(H, n, map[], db, mode);
    CollapsedItem(H, t);
    StoreRefines(H, blobs, db, t, FlagOf(n).hash, mode, false);
  }
}

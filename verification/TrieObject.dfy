/**
 The trie as an object (src/trie/trie.go): its root and its database change, and the tree it stands for is what
 the updates so far make of the empty tree.
 */
module TrieObject {
  import opened Wrappers
  import opened TrieKeys
  import opened Tries
  import opened TrieRuns
  import opened TrieNodes
  import opened LazyTrie
  import opened TrieHasher
  import Rlp

  /** Opening a committed tree by its hash: every key has its value again. */
  lemma ReopenGet(H: Hasher, db: Db, t: Tree, key: Bytes, gen: nat)
    requires Proper(H, t) && IsNode(t) && Stored(H, db, t)
    ensures var r := Resolve(db, HashOf(H, t), gen);
            && r.Ok? && Rep(H, db, r.value, t, true)
            && TryGet(db, r.value, KeyHex(key), gen).Ok?
            && TryGet(db, r.value, KeyHex(key), gen).value.value == Get(t, KeyHex(key))
  {
    KeyHexFull(key);
    ResolveRep(H, db, HashOf(H, t), t, gen, true);
    GetRefines(H, db, Loaded(H, t, Some(HashOf(H, t)), gen), t, KeyHex(key), gen, true);
  }

  /** A hashed trie: its hash, or nothing for the empty one; the same tree; and all of it in a larger database. */
  ghost predicate Committed(H: Hasher, blobs: set<Bytes>, db: Db, t: Tree, h: Hashed) {
    && Rlp.Encodable(ItemOf(H, t)) && h.ref == (if t.Nil? then CNil else CHash(HashOf(H, t)))
    && Rep(H, h.db, h.node, t, true) && Grows(db, h.db) && Filed(H, blobs, h.db)
    && (!t.Nil? ==> Stored(H, h.db, t) && Rep(H, h.db, HashNode(HashOf(H, t)), t, true))
  }

  /** What hashing with a database leaves of a whole trie. */
  lemma CommitHashes(H: Hasher, blobs: set<Bytes>, db: Db, root: Node, t: Tree, mode: Mode)
    requires Ready(H, blobs, db, t) && Rep(H, db, root, t, true) && !t.Value? && mode.store
    ensures Committed(H, blobs, db, t, HashTree(H, root, db, mode, true))
  {
    HashRefines(H, blobs, db, root, t, mode, true);
    if t.Nil? { assert CollapsedRef(H, t) == CNil; }
  }

  class Trie {
    const H: Hasher
    const emptyRoot: Bytes
    var db: Db
    var root: Node
    var cachegen: nat
    var cachelimit: nat
    ghost var tree: Tree
    ghost var full: Db

    /** The root stands for a tree in `full`; the database may be missing some of its nodes. */
    ghost predicate Valid()
      reads this
    {
      Root(tree) && Rep(H, full, root, tree, true) && Grows(db, full)
    }

    /** The empty trie over a database. */
    constructor (H: Hasher, emptyRoot: Bytes, db: Db, ghost full: Db)
      requires Grows(db, full)
      ensures Valid() && this.H == H && this.emptyRoot == emptyRoot && this.db == db && this.full == full && tree == Nil
                && cachegen == 0
    {
      this.H, this.emptyRoot, this.db, this.full := H, emptyRoot, db, full;
      root, cachegen, cachelimit, tree := NilNode, 0, 0, Nil;
    }

    /** An operation fails only for a node that is missing. */
    ghost predicate Lacks(e: TrieNodes.Error)
      reads this
    {
      e.Missing? && e.hash !in db
    }

    /** `New`: load the root node, unless the hash is that of the empty trie. */
    method Open(hash: Bytes, zero: Bytes, ghost t: Tree) returns (r: Result<(), TrieNodes.Error>)
      requires Valid() && tree == Nil
      requires hash != zero && hash != emptyRoot ==> Root(t) && Rep(H, full, HashNode(hash), t, true)
      modifies this`root, this`tree
      ensures Valid()
      ensures hash == zero || hash == emptyRoot ==> r.Ok? && tree == Nil
      ensures hash != zero && hash != emptyRoot ==>
                if hash in db then r.Ok? && tree == t else r == Err(Missing(hash)) && unchanged(this)
    {
      if hash == zero || hash == emptyRoot {
        return Ok(());
      }
      ResolveRep(H, full, hash, t, cachegen, true);
      var node := Resolve(db, hash, cachegen);
      if node.Err? {
        return Err(node.error);
      }
      root := node.value;
      tree := t;
      r := Ok(());
    }

    /** `TryGet`. */
    method Lookup(key: Bytes) returns (r: Result<Option<Bytes>, TrieNodes.Error>)
      requires Valid()
      modifies this`root
      ensures Valid() && if r.Ok? then r.value == Get(tree, KeyHex(key)) else Lacks(r.error) && unchanged(this)
    {
      var k := KeybytesToHex(key);
      KeyHexFull(key);
      GetRefines(H, full, root, tree, k, cachegen, true);
      GetMissing(db, full, root, k, cachegen);
      var found := TryGet(db, root, k, cachegen);
      if found.Err? {
        return Err(found.error);
      }
      if found.value.resolved {
        root := found.value.node;
      }
      r := Ok(found.value.value);
    }

    /** `TryUpdate`: an empty value deletes. */
    method Put(key: Bytes, value: Bytes) returns (r: Result<(), TrieNodes.Error>)
      requires Valid()
      modifies this`root, this`tree
      ensures Valid() && if r.Ok? then tree == Update(old(tree), Op(key, value)) else Lacks(r.error) && unchanged(this)
    {
      var k := KeybytesToHex(key);
      KeyHexFull(key);
      UpdateRoot(tree, Op(key, value));
      var changed;
      if |value| != 0 {
        InsertRefines(H, full, root, tree, k, value, cachegen, true);
        InsertMissing(db, full, root, k, value, cachegen);
        changed := TryInsert(db, root, k, value, cachegen);
      } else {
        DeleteRefines(H, full, root, tree, k, cachegen, true);
        DeleteMissing(db, full, root, k, cachegen);
        changed := LazyTrie.TryDelete(db, root, k, cachegen);
      }
      if changed.Err? {
        return Err(changed.error);
      }
      root := changed.value.node;
      tree := Update(tree, Op(key, value));
      r := Ok(());
    }

    /** `TryDelete`. */
    method Remove(key: Bytes) returns (r: Result<(), TrieNodes.Error>)
      requires Valid()
      modifies this`root, this`tree
      ensures Valid() && if r.Ok? then tree == Update(old(tree), Op(key, [])) else Lacks(r.error) && unchanged(this)
    {
      r := Put(key, []);
    }

    /** The hash of the trie, from scratch. */
    ghost function RootHash(): Bytes
      reads this
      requires Rlp.Encodable(ItemOf(H, tree))
    {
      if tree.Nil? then emptyRoot else HashOf(H, tree)
    }

    /** The hash that a collapsed root is. */
    function HashIn(c: Collapsed): Bytes {
      if c.CHash? then c.h else emptyRoot
    }

    /** `Hash`: nothing is written. */
    method Hash(ghost blobs: set<Bytes>) returns (hash: Bytes)
      requires Valid() && Ready(H, blobs, full, tree)
      modifies this`root
      ensures Valid() && Rlp.Encodable(ItemOf(H, tree)) && hash == RootHash()
    {
      ghost var mode := Mode(false, cachegen, cachelimit);
      HashRefines(H, blobs, full, root, tree, mode, true);
      HashIgnoresDb(H, root, db, full, mode, true);
      var h := HashTree(H, root, db, Mode(false, cachegen, cachelimit), true);
      root := h.node;
      hash := HashIn(h.ref);
    }

    /** `Commit`: everything is written, and the trie can be opened again by the hash. */
    method Commit(ghost blobs: set<Bytes>) returns (hash: Bytes)
      requires Valid() && db == full && Ready(H, blobs, db, tree)
      modifies this`root, this`db, this`full, this`cachegen
      ensures Valid() && db == full && Rlp.Encodable(ItemOf(H, tree)) && hash == RootHash()
                && cachegen == (old(cachegen) + 1) % 0x1_0000
      ensures Grows(old(db), db) && Filed(H, blobs, db)
      ensures !tree.Nil? ==> Stored(H, db, tree) && Rep(H, db, HashNode(hash), tree, true)
    {
      CommitHashes(H, blobs, db, root, tree, Mode(true, cachegen, cachelimit));
      var h := HashTree(H, root, db, Mode(true, cachegen, cachelimit), true);
      hash := Keep(h, blobs);
    }

    /** Take over what the hasher returned. */
    method Keep(h: Hashed, ghost blobs: set<Bytes>) returns (hash: Bytes)
      requires Root(tree) && Committed(H, blobs, db, tree, h)
      modifies this`root, this`db, this`full, this`cachegen
      ensures Valid() && db == full && Rlp.Encodable(ItemOf(H, tree)) && hash == RootHash()
                && cachegen == (old(cachegen) + 1) % 0x1_0000
      ensures Grows(old(db), db) && Filed(H, blobs, db)
      ensures !tree.Nil? ==> Stored(H, db, tree) && Rep(H, db, HashNode(hash), tree, true)
    {
      root := h.node;
      db := h.db;
      full := db;
      cachegen := (cachegen + 1) % 0x1_0000;
      hash := HashIn(h.ref);
    }
  }
}

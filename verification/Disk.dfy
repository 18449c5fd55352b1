/** A file tree, as far as restoring needs one, with operations that may fail part-way. */
module Disk {
  import opened Bytes

  /** An absolute path by its components; the empty path is the root. */
  type Path = seq<bytes>

  datatype Node = Dir | File(data: bytes)

  type Tree = map<Path, Node>

  /** Every node lies in a directory. */
  ghost predicate Closed(t: Tree) {
    && [] in t && t[[]] == Dir
    && forall p :: p in t && p != [] ==> p[..|p| - 1] in t && t[p[..|p| - 1]] == Dir
  }

  lemma {:induction false} AncestorsPresent(t: Tree, p: Path, n: nat)
    requires Closed(t) && p in t && n < |p|
    ensures p[..n] in t && t[p[..n]] == Dir
    decreases |p|
  {
    var up := p[..|p| - 1];
    if n < |up| {
      AncestorsPresent(t, up, n);
      assert up[..n] == p[..n];
    }
  }

  /** What is above a node is there too. */
  lemma AboveIsPresent(t: Tree, p: Path, q: Path)
    requires Closed(t) && q <= p
    ensures p in t ==> q in t && (q != p ==> t[q] == Dir)
  {
    assert q == p[..|q|] && p[..|p|] == p;
    if p in t && |q| < |p| {
      AncestorsPresent(t, p, |q|);
    }
  }

  function Outside(t: Tree, root: Path): Tree {
    map p | p in t && !(root <= p) :: t[p]
  }

  function Prefixes(p: Path): set<Path> {
    set n | 0 <= n <= |p| :: p[..n]
  }

  /** The tree with p and everything above it made into directories where nothing was. */
  function WithDirs(t: Tree, p: Path): Tree {
    t + map q | q in Prefixes(p) && q !in t :: Dir
  }

  ghost predicate Blocked(t: Tree, p: Path) {
    exists q :: q in Prefixes(p) && q in t && t[q] != Dir
  }

  lemma PrefixesExact(p: Path, q: Path)
    ensures q in Prefixes(p) <==> q <= p
  {
    if q <= p {
      assert p[..|q|] == q;
    }
  }

  lemma WithDirsClosed(t: Tree, p: Path)
    requires Closed(t) && !Blocked(t, p)
    ensures Closed(WithDirs(t, p)) && p in WithDirs(t, p) && WithDirs(t, p)[p] == Dir
    ensures forall q :: q in WithDirs(t, p) <==> q in t || q <= p
    ensures forall q :: q in WithDirs(t, p) ==> WithDirs(t, p)[q] == if q in t then t[q] else Dir
  {
    var u := WithDirs(t, p);
    forall q
      ensures q in Prefixes(p) <==> q <= p
    {
      PrefixesExact(p, q);
    }
    forall q | q in u && q != []
      ensures q[..|q| - 1] in u && u[q[..|q| - 1]] == Dir
    {
      var up := q[..|q| - 1];
      if q !in t {
        assert up <= p && up in Prefixes(p);
      }
    }
  }

  /** Everything under a, moved to the same place under b. */
  function Moved(t: Tree, a: Path, b: Path): Tree {
    var there := set p | p in t && a <= p :: b + p[|a|..];
    map q | q in there && b <= q && a + q[|b|..] in t :: t[a + q[|b|..]]
  }

  lemma MovedExact(t: Tree, a: Path, b: Path, rel: Path)
    ensures b + rel in Moved(t, a, b) <==> a + rel in t
    ensures a + rel in t ==> Moved(t, a, b)[b + rel] == t[a + rel]
  {
    assert (b + rel)[|b|..] == rel && (a + rel)[|a|..] == rel;
  }

  lemma MovedOnlyThere(t: Tree, a: Path, b: Path)
    ensures forall q :: q in Moved(t, a, b) ==> b <= q
  {
  }

  function Renamed(t: Tree, a: Path, b: Path): Tree {
    Outside(t, a) + Moved(t, a, b)
  }

  /** At most some directories were added, all of them on the way to p. */
  ghost predicate Grown(t: Tree, u: Tree, p: Path) {
    && (forall q :: q in t ==> q in u && u[q] == t[q])
    && (forall q :: q in u && q !in t ==> q <= p && u[q] == Dir)
  }

  /** What can be said about one call that is not told whether the device works. */
  class Volume {
    var tree: Tree
    /** A reliable volume refuses only what the tree itself makes impossible. */
    const reliable: bool

    constructor (tree: Tree, reliable: bool)
      ensures this.tree == tree && this.reliable == reliable
    {
      this.tree, this.reliable := tree, reliable;
    }

    /** Lstat: present, absent, or no answer. */
    method Look(p: Path) returns (answered: bool, present: bool)
      ensures answered ==> (present <==> p in tree)
      ensures reliable ==> answered
    {
      answered := *;
      answered := answered || reliable;
      present := p in tree;
    }

    method MkdirAll(p: Path) returns (ok: bool)
      requires Closed(tree)
      modifies this
      ensures Closed(tree)
      ensures ok ==> !Blocked(old(tree), p) && tree == WithDirs(old(tree), p)
      ensures Grown(old(tree), tree, p)
      ensures reliable && !Blocked(old(tree), p) ==> ok
    {
      var fault: bool := *;
      if (fault && !reliable) || !FreeWay(p) {
        var half: bool := *;
        if half && p != [] && FreeWay(p[..|p| - 1]) {
          ghost var up := p[..|p| - 1];
          WithDirsClosed(tree, up);
          tree := WithDirs(tree, p[..|p| - 1]);
        }
        return false;
      }
      WithDirsClosed(tree, p);
      tree := WithDirs(tree, p);
      ok := true;
    }

    predicate FreeWay(p: Path)
      reads this
      ensures FreeWay(p) <==> !Blocked(tree, p)
    {
      forall q | q in Prefixes(p) :: q in tree ==> tree[q] == Dir
    }

    /** Mkdir of a directory that must be new. */
    method MkdirNew(p: Path) returns (ok: bool)
      requires Closed(tree) && p != []
      modifies this
      ensures Closed(tree)
      ensures ok ==> p !in old(tree) && tree == old(tree)[p := Dir]
      ensures !ok ==> tree == old(tree)
      ensures reliable && p !in old(tree) && p[..|p| - 1] in old(tree) && old(tree)[p[..|p| - 1]] == Dir ==> ok
    {
      ok := TakePlace(p, Dir);
    }

    /** O_CREATE | O_EXCL. */
    method CreateNew(p: Path) returns (ok: bool)
      requires Closed(tree) && p != []
      modifies this
      ensures Closed(tree)
      ensures ok ==> p !in old(tree) && tree == old(tree)[p := File([])]
      ensures !ok ==> tree == old(tree)
      ensures reliable && p !in old(tree) && p[..|p| - 1] in old(tree) && old(tree)[p[..|p| - 1]] == Dir ==> ok
    {
      ok := TakePlace(p, File([]));
    }

    method TakePlace(p: Path, node: Node) returns (ok: bool)
      requires Closed(tree) && p != []
      modifies this
      ensures Closed(tree)
      ensures ok ==> p !in old(tree) && tree == old(tree)[p := node]
      ensures !ok ==> tree == old(tree)
      ensures reliable && p !in old(tree) && p[..|p| - 1] in old(tree) && old(tree)[p[..|p| - 1]] == Dir ==> ok
    {
      var fault: bool := *;
      var up := p[..|p| - 1];
      ok := !(fault && !reliable) && p !in tree && up in tree && tree[up] == Dir;
      if ok {
        tree := tree[p := node];
      }
    }

    /** A write through an open handle; a failed one may have written a part. */
    method Append(p: Path, data: bytes) returns (ok: bool)
      requires Closed(tree) && p in tree && tree[p].File?
      modifies this
      ensures Closed(tree)
      ensures ok ==> tree == old(tree)[p := File(old(tree)[p].data + data)]
      ensures !ok ==> p in tree && tree[p].File? && tree == old(tree)[p := tree[p]]
      ensures reliable ==> ok
    {
      ok := *;
      ok := ok || reliable;
      if ok {
        tree := tree[p := File(tree[p].data + data)];
      } else {
        var n :| 0 <= n <= |data|;
        tree := tree[p := File(tree[p].data + data[..n])];
      }
    }

    /** RemoveAll; when it fails, some of what was under p may still be there, and nothing else changed. */
    method RemoveAll(p: Path) returns (ok: bool)
      modifies this
      ensures Outside(tree, p) == Outside(old(tree), p)
      ensures ok ==> tree == Outside(old(tree), p)
      ensures reliable ==> ok
    {
      ok := *;
      ok := ok || reliable;
      if ok {
        tree := Outside(tree, p);
      } else {
        var some: set<Path> := *;
        tree := tree - set q | q in some && p <= q;
      }
    }

    /** Rename, atomic: all of it or none. A target that holds something is refused. */
    method Rename(a: Path, b: Path) returns (ok: bool)
      modifies this
      ensures ok ==> tree == Renamed(old(tree), a, b)
      ensures !ok ==> tree == old(tree)
      ensures reliable && a in old(tree) && (a == b || b !in old(tree)) ==> ok
    {
      var fault: bool := *;
      ok := !(fault && !reliable) && a in tree && (a == b || b !in tree);
      if ok {
        tree := Renamed(tree, a, b);
      }
    }
  }
}

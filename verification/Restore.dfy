/**
 Restoring into a directory: files go to a stage next to the destination, and the
 stage becomes the destination in one rename, or disappears.
 */
module Restore {
  import opened Bytes
  import opened Wrappers
  import opened EntryPath
  import opened Disk

  /** The files of a backup by the components of their names. */
  type FileMap = map<Path, bytes>

  ghost predicate NodeFor(files: FileMap, rel: Path, node: Node) {
    if rel in files then node == File(files[rel])
    else node == Dir && (rel == [] || exists f :: f in files && rel <= f)
  }

  /** Under root there are exactly these files and the directories they need. */
  ghost predicate TreeAt(t: Tree, root: Path, files: FileMap) {
    && root in t
    && (forall f :: f in files ==> f != [] && root + f in t)
    && (forall rel :: root + rel in t ==> NodeFor(files, rel, t[root + rel]))
  }

  /** One of the two names would have to be a directory above the other. */
  predicate Clash(a: Path, b: Path) {
    a <= b || b <= a
  }

  lemma NothingUnder(t: Tree, root: Path)
    requires Closed(t) && root !in t
    ensures forall p :: root <= p ==> p !in t
    ensures Outside(t, root) == t
  {
    forall p | root <= p
      ensures p !in t
    {
      AboveIsPresent(t, p, root);
    }
  }

  lemma PrefixUnder(root: Path, a: Path, b: Path)
    ensures root + a <= root + b <==> a <= b
  {
    if a <= b {
      assert root + b == root + a + b[|a|..];
    }
    if root + a <= root + b {
      assert forall i :: 0 <= i < |a| ==> a[i] == (root + a)[|root| + i] == (root + b)[|root| + i] == b[i];
    }
  }

  /** A path on the way to a place under the stage is above the stage, and there, or under it. */
  lemma AboveOrUnder(t: Tree, stage: Path, p: Path, q: Path)
    requires Closed(t) && stage in t && stage <= p && q <= p
    ensures q in t || stage <= q
  {
    if |q| <= |stage| {
      assert q == p[..|q|] == stage[..|q|];
      AboveIsPresent(t, stage, q);
    } else {
      assert stage == p[..|stage|] == q[..|stage|];
    }
  }

  lemma GrownInside(t: Tree, u: Tree, stage: Path, p: Path)
    requires Closed(t) && stage in t && stage <= p && Grown(t, u, p)
    ensures Outside(u, stage) == Outside(t, stage)
  {
    forall q | q in u && q !in t
      ensures stage <= q
    {
      AboveOrUnder(t, stage, p, q);
    }
  }

  /** Directories added on the way to a file that is about to be made, and the file itself. */
  lemma NewFileInTree(t: Tree, u: Tree, root: Path, files: FileMap, f: Path)
    requires TreeAt(t, root, files) && f != []
    requires Grown(t, u, root + f[..|f| - 1]) && root + f !in u
    ensures f !in files && TreeAt(u[root + f := File([])], root, files[f := []])
  {
    var dir := f[..|f| - 1];
    var v, files' := u[root + f := File([])], files[f := []];
    forall rel | root + rel in v
      ensures NodeFor(files', rel, v[root + rel])
    {
      PrefixUnder(root, rel, dir);
      NodeAfterNewFile(t, u, root, files, f, rel);
    }
  }

  lemma NodeAfterNewFile(t: Tree, u: Tree, root: Path, files: FileMap, f: Path, rel: Path)
    requires TreeAt(t, root, files) && f != []
    requires Grown(t, u, root + f[..|f| - 1]) && root + f !in u
    requires root + rel <= root + f[..|f| - 1] <==> rel <= f[..|f| - 1]
    requires root + rel in u[root + f := File([])]
    ensures NodeFor(files[f := []], rel, u[root + f := File([])][root + rel])
  {
    var files' := files[f := []];
    if root + rel == root + f {
      assert rel == (root + rel)[|root|..] == (root + f)[|root|..] == f;
    } else if root + rel in t {
      assert NodeFor(files, rel, t[root + rel]);
      assert forall g :: g in files ==> g in files';
    } else {
      assert rel <= f && f in files';
    }
  }

  lemma GrowFileInTree(t: Tree, root: Path, files: FileMap, f: Path, data: bytes)
    requires TreeAt(t, root, files) && f in files
    ensures t[root + f] == File(files[f])
    ensures TreeAt(t[root + f := File(data)], root, files[f := data])
  {
    assert NodeFor(files, f, t[root + f]);
    var v, files' := t[root + f := File(data)], files[f := data];
    assert files'.Keys == files.Keys;
    forall rel | root + rel in v
      ensures NodeFor(files', rel, v[root + rel])
    {
      assert NodeFor(files, rel, t[root + rel]);
      if root + rel == root + f {
        assert rel == (root + rel)[|root|..] == (root + f)[|root|..] == f;
      } else if rel !in files && rel != [] {
        var g :| g in files && rel <= g;
        assert g in files';
      }
    }
  }

  lemma DirsAboveRoot(t: Tree, root: Path, files: FileMap, q: Path)
    requires Closed(t) && TreeAt(t, root, files) && q <= root
    ensures q in t && t[q] == Dir
  {
    assert root + [] == root;
    assert NodeFor(files, [], t[root + []]);
    AboveIsPresent(t, root, q);
  }

  lemma Comparable(a: Path, b: Path, c: Path)
    requires a <= c && b <= c
    ensures a <= b || b <= a
  {
    if |a| <= |b| {
      assert a == c[..|a|] == b[..|a|];
    } else {
      assert b == c[..|b|] == a[..|b|];
    }
  }

  lemma RestOfPath(root: Path, f: Path, q: Path)
    requires q <= root + f && !(q <= root)
    ensures root + q[|root|..] == q && q[|root|..] <= f
  {
    Comparable(q, root, root + f);
    PrefixUnder(root, q[|root|..], f);
  }

  /** On a tree that is as it should be, a directory can only be refused for a clash of names. */
  lemma BlockedMeansClash(t: Tree, root: Path, files: FileMap, f: Path)
    requires Closed(t) && TreeAt(t, root, files) && Blocked(t, root + f)
    ensures exists g :: g in files && g <= f
  {
    var q :| q in Prefixes(root + f) && q in t && t[q] != Dir;
    PrefixesExact(root + f, q);
    if q <= root {
      DirsAboveRoot(t, root, files, q);
    } else {
      RestOfPath(root, f, q);
      var rel := q[|root|..];
      assert NodeFor(files, rel, t[root + rel]);
      assert rel in files && rel <= f;
    }
  }

  lemma TakenMeansClash(t: Tree, root: Path, files: FileMap, f: Path)
    requires TreeAt(t, root, files) && root + f in t && f != []
    ensures exists g :: g in files && Clash(g, f)
  {
    assert NodeFor(files, f, t[root + f]);
    if f in files {
      assert Clash(f, f);
    } else {
      var g :| g in files && f <= g;
      assert Clash(g, f);
    }
  }

  /** Why a new file is refused on a volume that works: its name clashes with one already there. */
  lemma RefusedMeansClash(t: Tree, root: Path, files: FileMap, f: Path)
    requires Closed(t) && TreeAt(t, root, files) && f != []
    requires var dir := root + f[..|f| - 1]; Blocked(t, dir) || root + f in WithDirs(t, dir)
    ensures exists g :: g in files && Clash(g, f)
  {
    var up := f[..|f| - 1];
    if Blocked(t, root + up) {
      BlockedMeansClash(t, root, files, up);
      var g :| g in files && g <= up;
      assert Clash(g, f);
    } else {
      WithDirsClosed(t, root + up);
      TakenMeansClash(t, root, files, f);
    }
  }

  lemma RefusedMeansClashIf(t: Tree, root: Path, files: FileMap, f: Path)
    requires Closed(t) && TreeAt(t, root, files) && f != []
    ensures var dir := root + f[..|f| - 1];
      Blocked(t, dir) || root + f in WithDirs(t, dir) ==> exists g :: g in files && Clash(g, f)
  {
    var dir := root + f[..|f| - 1];
    if Blocked(t, dir) || root + f in WithDirs(t, dir) {
      RefusedMeansClash(t, root, files, f);
    }
  }

  /** After the rename the destination holds what the stage held, and all else is as before. */
  lemma RenamedTree(t: Tree, stage: Path, dest: Path, files: FileMap)
    requires Closed(t) && TreeAt(t, stage, files)
    requires dest == stage || (dest !in t && !(dest <= stage))
    ensures TreeAt(Renamed(t, stage, dest), dest, files)
  {
    var u, m := Renamed(t, stage, dest), Moved(t, stage, dest);
    forall rel
      ensures dest + rel in u <==> stage + rel in t
      ensures stage + rel in t ==> u[dest + rel] == t[stage + rel]
    {
      MovedExact(t, stage, dest, rel);
      if dest != stage {
        NothingUnder(t, dest);
        assert dest <= dest + rel;
      } else {
        assert stage <= stage + rel;
      }
    }
    assert dest + [] == dest && stage + [] == stage;
    forall rel | dest + rel in u
      ensures NodeFor(files, rel, u[dest + rel])
    {
      assert NodeFor(files, rel, t[stage + rel]);
    }
  }

  lemma RenamedOutside(t: Tree, stage: Path, dest: Path)
    requires Closed(t) && (dest == stage || dest !in t)
    ensures Outside(Renamed(t, stage, dest), dest) == Outside(t, stage)
  {
    MovedOnlyThere(t, stage, dest);
    if dest != stage {
      NothingUnder(t, dest);
    }
  }

  /** The tree is still one after the rename: the destination lies where the stage lay. */
  lemma RenamedClosed(t: Tree, stage: Path, dest: Path)
    requires Closed(t) && stage in t && dest != [] && stage != [] && dest[..|dest| - 1] == stage[..|stage| - 1]
    requires dest == stage || dest !in t
    ensures Closed(Renamed(t, stage, dest))
  {
    var u := Renamed(t, stage, dest);
    assert |dest| == |stage|;
    if dest != stage {
      NothingUnder(t, dest);
    }
    forall q | q in u && q != []
      ensures q[..|q| - 1] in u && u[q[..|q| - 1]] == Dir
    {
      if q in Moved(t, stage, dest) {
        MovedNodeHasDir(t, stage, dest, q);
      } else {
        OutsideNodeHasDir(t, stage, dest, q);
      }
    }
    RootStays(t, stage, dest);
  }

  lemma RootStays(t: Tree, stage: Path, dest: Path)
    requires Closed(t) && dest != [] && stage != []
    ensures [] in Renamed(t, stage, dest) && Renamed(t, stage, dest)[[]] == Dir
  {
    assert !(stage <= []);
    assert [] in Outside(t, stage) && [] !in Moved(t, stage, dest);
  }

  lemma OutsideNodeHasDir(t: Tree, stage: Path, dest: Path, q: Path)
    requires Closed(t) && q != [] && q in Renamed(t, stage, dest) && q !in Moved(t, stage, dest)
    requires dest == stage || forall p :: dest <= p ==> p !in t
    ensures var up := q[..|q| - 1];
      up in Renamed(t, stage, dest) && Renamed(t, stage, dest)[up] == Dir
  {
    var up := q[..|q| - 1];
    assert q in Outside(t, stage);
    assert up <= q;
    assert !(stage <= up);
    assert up in Outside(t, stage) && Outside(t, stage)[up] == Dir;
    MovedOnlyThere(t, stage, dest);
    assert up !in Moved(t, stage, dest);
  }

  lemma MovedNodeHasDir(t: Tree, stage: Path, dest: Path, q: Path)
    requires Closed(t) && dest != [] && stage != [] && dest[..|dest| - 1] == stage[..|stage| - 1] && stage in t
    requires q in Moved(t, stage, dest)
    ensures var up := q[..|q| - 1];
      q != [] && up in Renamed(t, stage, dest) && Renamed(t, stage, dest)[up] == Dir
  {
    MovedOnlyThere(t, stage, dest);
    var rel := q[|dest|..];
    assert q == dest + rel;
    if rel == [] {
      assert q == dest;
      TopHasDir(t, stage, dest);
    } else {
      var above := rel[..|rel| - 1];
      MovedExact(t, stage, dest, rel);
      BelowHasDir(t, stage, dest, rel);
      assert q[..|q| - 1] == dest + above;
    }
  }

  lemma TopHasDir(t: Tree, stage: Path, dest: Path)
    requires Closed(t) && dest != [] && stage != [] && dest[..|dest| - 1] == stage[..|stage| - 1] && stage in t
    ensures var up := dest[..|dest| - 1];
      up in Renamed(t, stage, dest) && Renamed(t, stage, dest)[up] == Dir
  {
    var up := dest[..|dest| - 1];
    MovedOnlyThere(t, stage, dest);
    assert up in Outside(t, stage) && t[up] == Dir;
    assert up !in Moved(t, stage, dest);
  }

  lemma BelowHasDir(t: Tree, stage: Path, dest: Path, rel: Path)
    requires Closed(t) && rel != [] && stage + rel in t
    ensures var up := dest + rel[..|rel| - 1];
      up in Renamed(t, stage, dest) && Renamed(t, stage, dest)[up] == Dir
  {
    var above := rel[..|rel| - 1];
    assert (stage + rel)[..|stage + rel| - 1] == stage + above;
    MovedExact(t, stage, dest, above);
  }

  /** In a tree no file lies under another: a file has no children. */
  lemma FilesAreLeaves(t: Tree, root: Path, files: FileMap, f: Path, g: Path)
    requires Closed(t) && TreeAt(t, root, files) && f in files && g in files && f <= g
    ensures f == g
  {
    assert NodeFor(files, f, t[root + f]);
    PrefixUnder(root, f, g);
    AboveIsPresent(t, root + g, root + f);
    if root + f == root + g {
      assert f == (root + f)[|root|..] == (root + g)[|root|..] == g;
    }
  }

  /** Nothing but what is under the stage differs from the base, which has no destination yet. */
  ghost predicate Safe(t: Tree, stage: Path, dest: Path, base: Tree) {
    && Closed(t) && Outside(t, stage) == base
    && dest != [] && stage != [] && dest[..|dest| - 1] == stage[..|stage| - 1]
    && (forall part :: part in stage ==> Proper(part))
    && (dest != stage ==> dest !in base)
  }

  lemma SafeAfterDirs(t: Tree, u: Tree, stage: Path, dest: Path, base: Tree, p: Path)
    requires Safe(t, stage, dest, base) && stage in t && stage <= p && Grown(t, u, p) && Closed(u)
    ensures Safe(u, stage, dest, base)
  {
    GrownInside(t, u, stage, p);
  }

  lemma SafeAfterNode(t: Tree, stage: Path, dest: Path, base: Tree, p: Path, node: Node)
    requires Safe(t, stage, dest, base) && stage <= p && Closed(t[p := node])
    ensures Safe(t[p := node], stage, dest, base)
  {
  }

  lemma SafeAfterRename(t: Tree, stage: Path, dest: Path, base: Tree, files: FileMap)
    requires Safe(t, stage, dest, base) && TreeAt(t, stage, files)
    ensures stage in t && (stage == dest || dest !in t)
    ensures TreeAt(Renamed(t, stage, dest), dest, files) && Outside(Renamed(t, stage, dest), dest) == base
    ensures Closed(Renamed(t, stage, dest))
  {
    assert |dest| == |stage|;
    RenamedTree(t, stage, dest, files);
    RenamedClosed(t, stage, dest);
    RenamedOutside(t, stage, dest);
  }

  class DirSink {
    const vol: Volume
    const dest: Path
    const stage: Path
    var handles: seq<Path>
    /** The tree without the stage, which nothing here changes; and what has arrived. */
    ghost var base: Tree
    ghost var files: FileMap
    ghost var commits: nat
    ghost var aborts: nat

    /** Holds in every state: only what is under the stage may differ from the start. */
    ghost predicate Confined()
      reads this, vol
    {
      Safe(vol.tree, stage, dest, base)
    }

    /** Holds as long as no call failed: the stage is the tree of what arrived. */
    ghost predicate Exact()
      reads this, vol
    {
      Confined() && TreeAt(vol.tree, stage, files)
    }

    constructor (vol: Volume, dest: Path, stage: Path)
      requires Closed(vol.tree) && stage in vol.tree
      requires dest != [] && stage != [] && dest[..|dest| - 1] == stage[..|stage| - 1]
      requires forall part :: part in stage ==> Proper(part)
      requires dest != stage ==> dest !in vol.tree
      requires TreeAt(vol.tree, stage, map[])
      ensures Exact() && files == map[] && commits == aborts == 0
      ensures this.vol == vol && this.dest == dest && this.stage == stage && base == Outside(vol.tree, stage)
    {
      this.vol, this.dest, this.stage, handles := vol, dest, stage, [];
      base, files, commits, aborts := Outside(vol.tree, stage), map[], 0, 0;
    }

    /** A new file below the stage, open for writing; None is a refusal or a fault of the volume. */
    method Begin(name: bytes) returns (handle: Option<Path>)
      requires Exact()
      modifies this`handles, this`files, vol
      ensures Confined()
      ensures handle.Some? ==> ValidEntryPath(name) && handle.value == stage + Split(name) && Split(name) !in old(files)
      ensures handle.Some? ==> Exact() && files == old(files)[Split(name) := []]
      ensures handle.None? && vol.reliable && ValidEntryPath(name) ==> exists g :: g in old(files) && Clash(g, Split(name))
    {
      if !ValidEntryPath(name) {
        return None;
      }
      var target := JoinUnder(stage, name);
      ValidStaysInside(stage, name);
      if !(stage <= target) {
        return None;
      }
      handle := BeginAt(target, Split(name));
    }

    method BeginAt(target: Path, ghost f: Path) returns (handle: Option<Path>)
      requires Exact() && f != [] && target == stage + f
      modifies this`handles, this`files, vol
      ensures Confined()
      ensures handle.Some? ==> handle.value == target && f !in old(files)
      ensures handle.Some? ==> Exact() && files == old(files)[f := []]
      ensures handle.None? && vol.reliable ==> exists g :: g in old(files) && Clash(g, f)
    {
      ghost var t := vol.tree;
      if vol.reliable {
        RefusedMeansClashIf(t, stage, files, f);
      }
      var ok := MakeDirs(target, f);
      if ok {
        ok := MakeFile(t, target, f);
      }
      handle := if ok then Some(target) else None;
    }

    /** MkdirAll of the directory a file goes into. */
    method MakeDirs(target: Path, ghost f: Path) returns (ok: bool)
      requires Exact() && f != [] && target == stage + f
      modifies vol
      ensures Confined()
      ensures ok ==> DirsMade(old(vol.tree), vol.tree, f)
      ensures !ok && vol.reliable ==> Blocked(old(vol.tree), stage + f[..|f| - 1])
    {
      var dir := target[..|target| - 1];
      assert dir == stage + f[..|f| - 1];
      ghost var t := vol.tree;
      ok := vol.MkdirAll(dir);
      SafeAfterDirs(t, vol.tree, stage, dest, base, dir);
      WithDirsThere(t, dir);
    }

    ghost predicate DirsMade(t: Tree, u: Tree, f: Path)
      requires f != []
    {
      var dir := stage + f[..|f| - 1];
      && u == WithDirs(t, dir) && Grown(t, u, dir)
      && dir in u && u[dir] == Dir
    }

    /** The file itself, once the directories for it were made. */
    method MakeFile(ghost t: Tree, target: Path, ghost f: Path) returns (ok: bool)
      requires TreeAt(t, stage, files) && f != [] && target == stage + f && DirsMade(t, vol.tree, f)
      requires Confined()
      modifies this`handles, this`files, vol
      ensures Confined()
      ensures ok ==> f !in old(files) && Exact() && files == old(files)[f := []]
      ensures !ok ==> files == old(files) && (vol.reliable ==> target in WithDirs(t, stage + f[..|f| - 1]))
    {
      ghost var u := vol.tree;
      assert target[..|target| - 1] == stage + f[..|f| - 1];
      ok := vol.CreateNew(target);
      if ok {
        NewFileInTree(t, u, stage, files, f);
        SafeAfterNode(u, stage, dest, base, target, File([]));
        files := files[f := []];
        handles := handles + [target];
      }
    }

    /** The next bytes of an open file. */
    method WriteTo(handle: Path, ghost f: Path, data: bytes) returns (ok: bool)
      requires Exact() && f in files && handle == stage + f
      modifies this`files, vol
      ensures Confined()
      ensures ok ==> Exact() && files == old(files)[f := old(files)[f] + data]
      ensures vol.reliable ==> ok
    {
      GrowFileInTree(vol.tree, stage, files, f, files[f] + data);
      ok := vol.Append(handle, data);
      files := files[f := files[f] + data];
    }

    method CloseFile(handle: Path) returns (ok: bool)
      ensures vol.reliable ==> ok
    {
      ok := *;
      ok := ok || vol.reliable;
    }

    method Abort() returns (swept: bool)
      requires Confined()
      modifies this`aborts, vol
      ensures aborts == old(aborts) + 1
      ensures Outside(vol.tree, stage) == base
      ensures swept ==> vol.tree == base
      ensures vol.reliable ==> swept
    {
      aborts := aborts + 1;
      swept := vol.RemoveAll(stage);
    }

    /** The one step that makes the restored tree appear. */
    method Commit() returns (ok: bool, swept: bool)
      requires Exact()
      modifies this`commits, vol
      ensures commits == old(commits) + 1
      ensures ok ==> swept && Closed(vol.tree) && TreeAt(vol.tree, dest, files) && Outside(vol.tree, dest) == base
      ensures !ok ==> Outside(vol.tree, stage) == base && (swept ==> vol.tree == base)
      ensures vol.reliable ==> ok
    {
      commits := commits + 1;
      ghost var t := vol.tree;
      SafeAfterRename(t, stage, dest, base, files);
      ok := vol.Rename(stage, dest);
      swept := ok;
      if !ok {
        swept := vol.RemoveAll(stage);
      }
    }
  }

  lemma WithDirsThere(t: Tree, dir: Path)
    requires Closed(t)
    ensures !Blocked(t, dir) ==> dir in WithDirs(t, dir) && WithDirs(t, dir)[dir] == Dir
  {
    if !Blocked(t, dir) {
      WithDirsClosed(t, dir);
    }
  }

  lemma NewStage(t: Tree, stage: Path)
    requires Closed(t) && stage !in t && stage != []
    ensures TreeAt(t[stage := Dir], stage, map[])
    ensures Outside(t[stage := Dir], stage) == t
  {
    NothingUnder(t, stage);
    var u := t[stage := Dir];
    forall rel | stage + rel in u
      ensures NodeFor(map[], rel, u[stage + rel])
    {
      assert stage <= stage + rel;
      assert stage + rel == stage;
      assert rel == (stage + rel)[|stage|..] == [];
    }
  }

  /**
   Prepares a restore into dest, which must not exist; temp is the name drawn for the
   stage. Only the directories above the destination may be left behind.
   */
  method NewDirSink(vol: Volume, dest: Path, temp: bytes) returns (sink: DirSink?)
    requires Closed(vol.tree) && dest != [] && Proper(temp) && forall part :: part in dest ==> Proper(part)
    modifies vol
    ensures sink == null ==> Grown(old(vol.tree), vol.tree, dest[..|dest| - 1])
    ensures sink != null ==> fresh(sink) && sink.vol == vol && sink.dest == dest && dest !in old(vol.tree)
    ensures sink != null ==> sink.Exact() && sink.files == map[] && sink.commits == sink.aborts == 0
    ensures sink != null ==> sink.base == WithDirs(old(vol.tree), dest[..|dest| - 1]) && dest !in sink.base
    ensures sink == null && vol.reliable ==>
      var up := dest[..|dest| - 1];
      dest in old(vol.tree) || Blocked(old(vol.tree), up) || up + [temp] in old(vol.tree)
  {
    sink := null;
    var answered, present := vol.Look(dest);
    if !answered || present {
      return;
    }
    var parent := dest[..|dest| - 1];
    ghost var t := vol.tree;
    var ok := vol.MkdirAll(parent);
    if !ok {
      return;
    }
    WithDirsClosed(t, parent);
    var stage := parent + [temp];
    assert stage[..|stage| - 1] == parent;
    ghost var u := vol.tree;
    ok := vol.MkdirNew(stage);
    if !ok {
      return;
    }
    NewStage(u, stage);
    sink := new DirSink(vol, dest, stage);
  }
}

/** Names of files inside a backup: which are allowed, and why none of them leaves the target. */
module EntryPath {
  import opened Bytes

  const MAX_PATH_LENGTH := 1024
  const SLASH: byte := 47
  const BACKSLASH: byte := 92
  const DOT: bytes := [46]
  const DOTDOT: bytes := [46, 46]

  /** strings.Split(p, "/"): always at least one part, possibly empty ones. */
  function Split(p: bytes): (parts: seq<bytes>)
    ensures |parts| > 0
  {
    if p == [] then [[]]
    else if p[0] == SLASH then [[]] + Split(p[1..])
    else
      var rest := Split(p[1..]);
      [[p[0]] + rest[0]] + rest[1..]
  }

  function Join(parts: seq<bytes>): bytes {
    if parts == [] then []
    else if |parts| == 1 then parts[0]
    else parts[0] + [SLASH] + Join(parts[1..])
  }

  lemma {:induction false} JoinOfSplit(p: bytes)
    ensures Join(Split(p)) == p
  {
    if p != [] {
      JoinOfSplit(p[1..]);
      var rest := Split(p[1..]);
      if p[0] == SLASH {
        assert ([[]] + rest)[1..] == rest;
        assert p == [] + [SLASH] + p[1..];
      } else {
        var parts := [[p[0]] + rest[0]] + rest[1..];
        if |rest| > 1 {
          assert parts[1..] == rest[1..];
          assert Join(parts) == [p[0]] + Join(rest);
        }
        assert p == [p[0]] + p[1..];
      }
    }
  }

  lemma SplitInjective(p: bytes, q: bytes)
    requires Split(p) == Split(q)
    ensures p == q
  {
    JoinOfSplit(p);
    JoinOfSplit(q);
  }

  /** A component that names something below the current directory. */
  predicate Proper(part: bytes) {
    part != [] && part != DOT && part != DOTDOT
  }

  /**
   path.Clean on components: empty parts and "." vanish, ".." takes back the part
   before it; what cannot be taken back stays, or vanishes at the root.
   */
  function CleanParts(rooted: bool, parts: seq<bytes>, kept: seq<bytes>): seq<bytes>
    decreases |parts|
  {
    if parts == [] then kept
    else
      var part, rest := parts[0], parts[1..];
      if part == [] || part == DOT then CleanParts(rooted, rest, kept)
      else if part != DOTDOT then CleanParts(rooted, rest, kept + [part])
      else if kept != [] && kept[|kept| - 1] != DOTDOT then CleanParts(rooted, rest, kept[..|kept| - 1])
      else if rooted then CleanParts(rooted, rest, kept)
      else CleanParts(rooted, rest, kept + [part])
  }

  function IsAbs(p: bytes): bool {
    p != [] && p[0] == SLASH
  }

  function Clean(p: bytes): bytes {
    var kept := CleanParts(IsAbs(p), Split(p), []);
    if IsAbs(p) then [SLASH] + Join(kept)
    else if kept == [] then DOT
    else Join(kept)
  }

  predicate ValidEntryPath(p: bytes) {
    && p != [] && |p| <= MAX_PATH_LENGTH && 0 !in p && BACKSLASH !in p && !IsAbs(p)
    && Clean(p) == p
    && forall part :: part in Split(p) ==> Proper(part)
  }

  lemma {:induction false} CleanProper(rooted: bool, parts: seq<bytes>, kept: seq<bytes>)
    requires forall part :: part in parts ==> Proper(part)
    ensures CleanParts(rooted, parts, kept) == kept + parts
    decreases |parts|
  {
    if parts == [] {
      assert kept + parts == kept;
    } else {
      assert parts[0] in parts;
      CleanProper(rooted, parts[1..], kept + [parts[0]]);
      assert kept + parts == kept + [parts[0]] + parts[1..];
    }
  }

  lemma EmptyFirstPart(p: bytes)
    requires p == [] || IsAbs(p)
    ensures [] in Split(p)
  {
    assert Split(p)[0] == [];
  }

  /**
   The exact meaning of the test: only the length, the two forbidden bytes and the
   components decide. The comparison with path.Clean and the test for an absolute
   path refuse nothing that the components do not refuse.
   */
  lemma ValidEntryPathExact(p: bytes)
    ensures ValidEntryPath(p) <==>
      && |p| <= MAX_PATH_LENGTH && 0 !in p && BACKSLASH !in p
      && forall part :: part in Split(p) ==> Proper(part)
  {
    if p == [] || IsAbs(p) {
      EmptyFirstPart(p);
    } else if forall part :: part in Split(p) ==> Proper(part) {
      JoinOfSplit(p);
      CleanProper(false, Split(p), []);
      assert [] + Split(p) == Split(p);
    }
  }

  lemma {:induction false} SplitWhole(p: bytes)
    requires SLASH !in p
    ensures Split(p) == [p]
  {
    if p != [] {
      SplitWhole(p[1..]);
      assert [p[0]] + p[1..] == p;
    }
  }

  /** A first component before the rest of a name. */
  lemma {:induction false} SplitAfter(first: bytes, rest: bytes)
    requires SLASH !in first
    ensures Split(first + [SLASH] + rest) == [first] + Split(rest)
  {
    var p := first + [SLASH] + rest;
    if first == [] {
      assert p == [SLASH] + rest && p[1..] == rest;
    } else {
      assert p[1..] == first[1..] + [SLASH] + rest;
      SplitAfter(first[1..], rest);
      assert [first[0]] + first[1..] == first;
    }
  }

  /** A name of one component is valid unless it is empty, a dot or two, too long, or holds a forbidden byte. */
  lemma OnePartValid(p: bytes)
    requires SLASH !in p && 0 !in p && BACKSLASH !in p && Proper(p) && |p| <= MAX_PATH_LENGTH
    ensures ValidEntryPath(p)
  {
    SplitWhole(p);
    ValidEntryPathExact(p);
  }

  /** filepath.Join(dir, name) for an absolute dir given by its components. */
  function JoinUnder(dir: seq<bytes>, name: bytes): seq<bytes> {
    CleanParts(true, dir + Split(name), [])
  }

  /** A valid name stays below any directory, at exactly its own components. */
  lemma ValidStaysInside(dir: seq<bytes>, name: bytes)
    requires ValidEntryPath(name) && forall part :: part in dir ==> Proper(part)
    ensures JoinUnder(dir, name) == dir + Split(name) && |Split(name)| > 0
  {
    CleanProper(true, dir + Split(name), []);
    assert [] + (dir + Split(name)) == dir + Split(name);
  }
}

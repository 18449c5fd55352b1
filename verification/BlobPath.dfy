/** Paths of the store: which names are content addresses, and that each location has a path of its own. */
module BlobPath {
  import opened BlobStore

  const BLOB_ROOT := "blobs"
  const BLOB_STAGING := "staging"
  const ZST := ".zst"

  predicate LowerHexDigit(c: char) {
    '0' <= c <= '9' || 'a' <= c <= 'f'
  }

  /** What hex.DecodeString reads: either case. */
  predicate HexDigit(c: char) {
    LowerHexDigit(c) || 'A' <= c <= 'F'
  }

  predicate HexName(name: string, length: nat) {
    |name| == length && forall i :: 0 <= i < |name| ==> HexDigit(name[i])
  }

  function TrimSuffix(s: string, suffix: string): string {
    if |s| >= |suffix| && s[|s| - |suffix|..] == suffix then s[..|s| - |suffix|] else s
  }

  /** IsBlobPath, on the components of the path below the root of the store. */
  predicate IsBlobPath(parts: seq<string>) {
    if |parts| != 3 || parts[0] != BLOB_ROOT then false
    else
      var name := TrimSuffix(parts[2], ZST);
      if |name| != 64 || (parts[2] != name && parts[2] != name + ZST) || parts[1] != name[..2] then false
      else HexName(name, 64)
  }

  /** blobLocation and compressedBlobLocation, and the staged file. */
  function PathOf(at: Location): seq<string>
    requires LocationOk(at)
  {
    match at
    case Staging(name) => [BLOB_ROOT, BLOB_STAGING, name]
    case Plain(sum) => [BLOB_ROOT, sum[..2], sum]
    case Zst(sum) => [BLOB_ROOT, sum[..2], sum + ZST]
  }

  /** Random names are 32 hexadecimal digits, hashes 64, all in lower case. */
  predicate LocationOk(at: Location) {
    match at
    case Staging(name) => HexName(name, 32)
    case Plain(sum) => HexName(sum, 64) && Lower(sum)
    case Zst(sum) => HexName(sum, 64) && Lower(sum)
  }

  predicate Lower(s: string) {
    forall i :: 0 <= i < |s| ==> LowerHexDigit(s[i])
  }

  lemma TrimZst(name: string)
    requires HexName(name, |name|)
    ensures TrimSuffix(name + ZST, ZST) == name
    ensures TrimSuffix(name, ZST) == name
  {
    assert (name + ZST)[|name|..] == ZST && (name + ZST)[..|name|] == name;
    if |name| >= 4 {
      assert name[|name| - 4..][0] == name[|name| - 4] && HexDigit(name[|name| - 4]);
      assert ZST[0] == '.';
    }
  }

  /** A path is a content address exactly when it is a hash under its own first two digits, plain or compressed. */
  lemma BlobPathExact(parts: seq<string>)
    ensures IsBlobPath(parts) <==>
      exists name :: HexName(name, 64) && (parts == [BLOB_ROOT, name[..2], name] || parts == [BLOB_ROOT, name[..2], name + ZST])
  {
    if IsBlobPath(parts) {
      var name := TrimSuffix(parts[2], ZST);
      assert parts == [BLOB_ROOT, parts[1], parts[2]];
      assert HexName(name, 64);
    }
    forall name | HexName(name, 64) && (parts == [BLOB_ROOT, name[..2], name] || parts == [BLOB_ROOT, name[..2], name + ZST])
      ensures IsBlobPath(parts)
    {
      TrimZst(name);
    }
  }

  /** The locations of the model are told apart by their paths, and the blobs among them are the addresses. */
  lemma LocationsHavePaths(at: Location, other: Location)
    requires LocationOk(at) && LocationOk(other)
    ensures IsBlobPath(PathOf(at)) <==> Address(at)
    ensures PathOf(at) == PathOf(other) ==> at == other
  {
    if at.Staging? {
      assert |TrimSuffix(at.name, ZST)| <= 32;
    } else {
      TrimZst(at.sum);
    }
    if !other.Staging? {
      TrimZst(other.sum);
    }
    if PathOf(at) == PathOf(other) {
      assert PathOf(at)[2] == PathOf(other)[2];
      assert |PathOf(at)[2]| == |PathOf(other)[2]|;
      if at.Zst? && other.Zst? {
        assert (at.sum + ZST)[..64] == at.sum && (other.sum + ZST)[..64] == other.sum;
      }
    }
  }

  /** An upper-case hash passes for a content address, though nothing is ever stored there. */
  lemma UpperCasePasses(name: string)
    requires HexName(name, 64) && !Lower(name)
    ensures IsBlobPath([BLOB_ROOT, name[..2], name])
    ensures forall at :: LocationOk(at) ==> PathOf(at) != [BLOB_ROOT, name[..2], name]
  {
    TrimZst(name);
    forall at | LocationOk(at)
      ensures PathOf(at) != [BLOB_ROOT, name[..2], name]
    {
      assert |PathOf(at)[2]| == 64 ==> at.Plain?;
    }
  }
}

/**
 The assumptions about the cipher can be met together: a cipher that opens everything it
 seals, and a saved file of which nothing is forged.
 */
module Assumptions {
  import opened Bytes
  import opened Wrappers
  import opened SealedStream
  import opened OpenStream
  import opened Tamper
  import opened RecordGrammar

  const SALT: bytes := [0, 0, 0, 0, 0, 0, 0, 0, 0, 0, 0, 0, 0, 0, 0, 0]
  const HEADER := Header(SALT, MIN_ROUNDS, 1)
  const PASS := "correct horse battery"
  const GOOD_TAG: bytes := [0, 0, 0, 0, 0, 0, 0, 0, 0, 0, 0, 0, 0, 0, 0, 0]
  const OTHER_TAG: bytes := [255, 255, 255, 255, 255, 255, 255, 255, 255, 255, 255, 255, 255, 255, 255, 255]

  /** The one chunk of the one file that was saved: no data, under the first nonce, as the last. */
  predicate Genuine(nonce: bytes, plain: bytes, aad: bytes) {
    nonce == Nonce(0) && plain == [] && aad == Aad(HEADER, true)
  }

  function Tag(nonce: bytes, plain: bytes, aad: bytes): (t: bytes)
    ensures |t| == OVERHEAD
  {
    if Genuine(nonce, plain, aad) then GOOD_TAG else OTHER_TAG
  }

  function Derive(pass: string, salt: bytes, rounds: nat): bytes {
    []
  }

  function Seal(key: bytes, nonce: bytes, plain: bytes, aad: bytes): bytes {
    plain + Tag(nonce, plain, aad)
  }

  function Open(key: bytes, nonce: bytes, cipher: bytes, aad: bytes): Option<bytes> {
    if |cipher| < OVERHEAD then None
    else
      var plain := cipher[..|cipher| - OVERHEAD];
      if cipher[|cipher| - OVERHEAD..] == Tag(nonce, plain, aad) then Some(plain) else None
  }

  function Sha(data: bytes): bytes {
    SALT + SALT
  }

  /** A cipher whose tag is one for what was saved and another for everything else. */
  function Cipher(): Crypto {
    Crypto(Derive, Seal, Open, Sha)
  }

  const LEDGER: Ledger := map[HEADER := File(PASS, [])]

  function SavedFile(): bytes {
    Sealed(Cipher(), PASS, HEADER, [])
  }

  lemma CipherCorrect()
    ensures Correct(Cipher()) && HashOk(Cipher())
  {
    forall k, n, p, a
      ensures |Seal(k, n, p, a)| == |p| + OVERHEAD && Open(k, n, Seal(k, n, p, a), a) == Some(p)
    {
      var cipher := p + Tag(n, p, a);
      assert cipher[..|cipher| - OVERHEAD] == p && cipher[|cipher| - OVERHEAD..] == Tag(n, p, a);
    }
  }

  predicate Low(data: bytes) {
    255 !in data
  }

  lemma HeaderIsLow()
    ensures Low(Raw(HEADER))
  {
    assert Raw(HEADER) == MAGIC + SALT + BE4(MIN_ROUNDS) + BE4(1);
    assert BE4(MIN_ROUNDS) == [0, 1, 134, 160] && BE4(1) == [0, 0, 0, 1];
    assert Low(MAGIC) && Low(SALT) && Low(BE4(MIN_ROUNDS)) && Low(BE4(1));
  }

  lemma OneChunk()
    ensures Chunks([], 1) == [[]]
  {
    var empty: bytes := [];
    assert Chunks(empty, 1) == [empty];
  }

  lemma SavedBytes()
    ensures SavedFile() == Raw(HEADER) + (BE4(OVERHEAD) + GOOD_TAG)
  {
    OneChunk();
    var empty: bytes := [];
    assert Seal([], Nonce(0), empty, Aad(HEADER, true)) == empty + GOOD_TAG == GOOD_TAG;
    assert SealChunk(Cipher(), [], HEADER, 0, empty, true) == GOOD_TAG;
    assert Frame(Cipher(), [], HEADER, 0, empty, true) == BE4(OVERHEAD) + GOOD_TAG;
    assert Frames(Cipher(), [], HEADER, [empty], 0) == BE4(OVERHEAD) + GOOD_TAG + [];
  }

  lemma SavedIsLow()
    ensures Low(SavedFile())
  {
    SavedBytes();
    HeaderIsLow();
    assert BE4(OVERHEAD) == [0, 0, 0, 16];
    assert Low(BE4(OVERHEAD)) && Low(GOOD_TAG);
  }

  lemma LastIsLow(part: bytes, data: bytes)
    requires Within(part, data) && Low(data) && part != []
    ensures part[|part| - 1] != 255
  {
    var k :| 0 <= k <= |data| && part <= data[k..];
    assert part[|part| - 1] == data[k..][|part| - 1] == data[k + |part| - 1];
  }

  lemma NothingForged(i: nat, cipher: bytes, final: bool)
    requires i < TWO_64 && Within(cipher, SavedFile()) && Open([], Nonce(i), cipher, Aad(HEADER, final)).Some?
    ensures SealedAt(Cipher(), LEDGER, HEADER, 0, [], Nonce(i), Open([], Nonce(i), cipher, Aad(HEADER, final)).value,
                     cipher, Aad(HEADER, final))
  {
    SavedIsLow();
    LastIsLow(cipher, SavedFile());
    OneChunk();
    OnlyTheChunkOpens(Nonce(i), cipher, Aad(HEADER, final));
  }

  /** What opens and does not end in 255 is the one chunk that was saved. */
  lemma OnlyTheChunkOpens(nonce: bytes, cipher: bytes, aad: bytes)
    requires Open([], nonce, cipher, aad).Some? && cipher[|cipher| - 1] != 255
    ensures Genuine(nonce, Open([], nonce, cipher, aad).value, aad) && cipher == GOOD_TAG
  {
    assert cipher[|cipher| - OVERHEAD..][OVERHEAD - 1] == cipher[|cipher| - 1];
    assert cipher == cipher[..|cipher| - OVERHEAD] + cipher[|cipher| - OVERHEAD..];
  }

  /** Everything that the theorems about saving and about tampering ask of a cipher, in one example. */
  lemma AssumptionsMeet()
    ensures Correct(Cipher()) && HashOk(Cipher()) && LedgerOk(LEDGER) && HEADER in LEDGER
    ensures UnforgedInput(Cipher(), LEDGER, PASS, Input(SavedFile(), false))
    ensures DrainFile(Cipher(), PASS, Input(SavedFile(), false)) == Drained([], EndOfFile)
  {
    CipherCorrect();
    OneChunk();
    DrainFileOfSealed(Cipher(), PASS, HEADER, []);
    SavedBytes();
    var file := SavedFile();
    assert file[..HEADER_SIZE] == Raw(HEADER);
    ParseHeaderOfRaw(HEADER);
    var o := Opener(Cipher(), [], HEADER);
    forall i: nat, cipher, final | i < TWO_64 && Within(cipher, file) && Opens(o, i, cipher, final)
      ensures SealedAt(o.crypto, LEDGER, HEADER, 0, o.key, Nonce(i), OpenChunk(o, i, cipher, final).value,
                       cipher, Aad(HEADER, final))
    {
      NothingForged(i, cipher, final);
    }
    assert OpenFile(Cipher(), PASS, Input(file, false)).value.0 == o;
  }
}

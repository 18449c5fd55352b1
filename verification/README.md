# Proofs about backups, exchange packages, formulas, blobs and the directory table

This project models five parts of the system and proves what they are for. Each module is one component
of the program; functions say what a component computes, classes and methods follow the code that changes
state or runs a loop and are proved against those functions, and lemmas state the properties.

1. **The encrypted backup** (`SealedStream`, `Sealing`, `OpenStream`, `Opening`, `Tamper`, `EntryPath`,
   `Records`, `RecordGrammar`, `BundleCreate`, `Disk`, `Restore`, `BundleRead`, `BackupTheorems`,
   `CreatedBackups`, `Assumptions`). A chunked
   AEAD stream, a record framing on top of it, and a staged restore. The main theorems: what was created
   reads back if and only if the round count, the manifest size, the number of files and the names are what
   the reader accepts, and then as the same files in the same order; whatever bytes are offered, nothing but
   a sealed file is ever released or accepted; a restore is all or nothing, and succeeds if and only if the
   backup reads back and no name in it is a directory of another.
2. **The exchange package and reconciliation** (`Json`, `CanonicalJson`, `KeyOrder`, `CanonicalText`, `CanonicalWriter`, `Container`,
   `Manifests`, `Trust`, `MatchKey`, `FieldValues`, `KeyMeaning`, `Compare`, `ShownDifferences`, `Sorting`, `Classification`, `Reconciliation`, `DiffTheorems`,
   `SortedRecords`, `KeyIndex`, `Packages`, `Reimport`, `PackageTheorems`,
   `OpenedPackages`, `CleanDiff`). A canonical text that
   stands for one value whatever the order of its members, a container without slack, keys that identify records, a comparison that is an equality of
   meanings, a diff that does not depend on any order; and, put together, export, open and diff come out
   clean exactly when every compared float64 is worth its decimal text.
3. **The formula compiler** (`Formula`, `Calculation`, `Methodology`, `Breakdown`). A breakdown exists exactly when the
   amount does, evaluates to the same exact sum over inputs that are each used once, and its spreadsheet text,
   read with the usual precedence, means the same.
4. **The content-addressed store** (`BlobStore`, `BlobPath`). Any number of concurrent writers, with failures
   and crashes at every step, over one shared directory.
5. **The directory table** (`TableParser`, `TableNames`, `TableTheorems`). The parser loses nothing and inverts every
   permitted printing.

`Sequences`, `Bytes`, `Wrappers` and `Ordering` are shared helpers.

## What is taken as given

Cryptographic primitives are arbitrary functions. Where a theorem needs something of them it says so in its
`requires`: `SealedStream.Correct` (opening a seal gives the plaintext back, NIST SP 800-38D sections 7.1 and
7.2), `Tamper.UnforgedInput` (nothing that stands in the bytes offered opens as a chunk unless it was sealed as one),
`RecordGrammar.HashOk` (the length of a SHA-256 sum), `BlobStore.HashApart` (no other bytes with the hash of a
source are given to the store), `PackageTheorems.EngineOk` (the contract of the exchange engine),
`CleanDiff.OwnTexts` (the shortest text of a float64 is worth no other float64). What is asked of the cipher
can be had all at once: `Assumptions.AssumptionsMeet` gives a cipher, a saved file and a ledger. gzip, zstd, `encoding/json` of structures, `unicode`, `big.Rat.SetString` and `strconv` are
fields of records (`Packages.Packing`, `BlobStore.Codec`, `Manifests.Texts`, `MatchKey.Unicode`,
`MatchKey.Numbers`) with the few facts that are used stated as predicates. Clocks, random salts and names,
failing devices and what the operating system answers are parameters or unconstrained choices. JSON follows
sections 2 to 7 of RFC 8259.

Go strings and Python text are sequences of code points here; their byte order is then the order of code points,
as UTF-8 keeps it. Names inside a backup are bytes, because there invalid UTF-8 matters.

## Where the code does less than it says

- A backup can be created that cannot be read back: `BackupTheorems.BackupRoundTrip` gives the exact condition
  and `BackupTheorems.OneRoundIsLost` a concrete backup.
- A backup in which one name is a directory of another is created and reads back, and no restore accepts it:
  `BackupTheorems.RestoreInto` and `BackupTheorems.BackupThenRestore` give the exact condition and
  `BackupTheorems.NestedConfigIsLost` two concrete configuration files.
- `Reimport.TenthIsNotKept`: a record holding one tenth as a float64 differs from itself after an export;
  `CleanDiff.CleanExactly` gives the exact condition.
- `KeyMeaning.QualifiersRunTogether`: two documents of category `ood_rpd` of which one has the words of a document
  type at the end of its program's name, and the other in the field for it, have one key.
  `KeyMeaning.SameKeyExactly` says when two records have one key.
- `BlobStore.MissedPlainIsCopied`: a look for an old plain copy that fails for any reason is taken for absence,
  and the next rename makes a second copy. `BlobStore.NoSecondCopy` shows that nothing else does.
- `BlobStore.StoredTwice`: a blob over 20 MiB can be stored once; storing the same bytes again is reported as
  damage, because verification reads no more than the readers' limit.
- `BlobPath.UpperCasePasses`: an upper-case hash passes for a content address although nothing is stored there.
- `EntryPath.ValidEntryPathExact`: the comparison with `path.Clean` and the test for an absolute path refuse
  nothing that the test of the components does not refuse.
- The check for an open file after the loop of `read` can never fail (`RecordGrammar.NoOpenFileAtTheEnd`).

## Model

| member | source | states |
|---|---|---|
| SealedStream.ParseHeaderOfRaw | backend/internal/backup/crypt.go:58-89 | the header that was written is read back exactly when its rounds and chunk size are within the reader's bounds |
| SealedStream.RawInjective | backend/internal/backup/crypt.go:58-70 | different headers have different bytes, so authenticating the bytes authenticates the header |
| SealedStream.NonceInjective | backend/internal/backup/crypt.go:99-103 | chunks below 2^64 have different nonces |
| SealedStream.AadInjective | backend/internal/backup/crypt.go:105-111 | the additional data fix both the header and the last-chunk flag |
| SealedStream.ChunksShape | backend/internal/backup/crypt.go:145-165 | the chunks of any data join to it, all but the last are full, and the last is empty only for no data |
| SealedStream.ChunksCount | backend/internal/backup/crypt.go:145-188 | there are max(1, ceil(n / chunk)) chunks |
| SealedStream.ChunksUnique | backend/internal/backup/crypt.go:145-188 | there is no other way to cut data into such chunks |
| Sealing.SealWriter.Write | backend/internal/backup/crypt.go:145-165 | whatever the slicing of the writes, what is sent and held is the cut of their concatenation; the loop ends although a turn may consume nothing |
| Sealing.SealWriter.Flush | backend/internal/backup/crypt.go:167-180 | one frame of the held chunk under its number and flag goes out, or the device has failed |
| Sealing.SealWriter.Close | backend/internal/backup/crypt.go:182-188 | the device holds exactly the sealed file of everything written |
| Sealing.NewSealWriter | backend/internal/backup/crypt.go:123-143 | refuses short passphrases, writes the header, and starts with nothing held |
| OpenStream.ReadStepDrains | backend/internal/backup/crypt.go:236-277 | one Read into a buffer of any size takes its bytes from the front of what the stream will yield and leaves the rest |
| OpenStream.ReadStepFills | backend/internal/backup/crypt.go:236-277 | reading in parts adds up to what one long read would give |
| OpenStream.DrainSealed | backend/internal/backup/crypt.go:217-277 | reading a sealed file to its end gives the data and then a clean end |
| OpenStream.DrainFileOfSealed | backend/internal/backup/crypt.go:201-277 | so does opening it with the passphrase, exactly when the header is within the reader's bounds |
| Opening.OpenReader.ReadChunk | backend/internal/backup/crypt.go:217-234 | the cursor moves as the chunk function says, with its bounds and its errors for a cut length or body |
| Opening.OpenReader.Turn | backend/internal/backup/crypt.go:236-271 | one turn of the loop of Read: the chunk held back is opened with the flag that the look-ahead gives it |
| Opening.OpenReader.Read | backend/internal/backup/crypt.go:236-277 | fills the front of the caller's buffer with the next bytes, or reports the error, and moves the state as the function says |
| Opening.OpenReader.ReadFull | backend/internal/backup/crypt.go:236-277 | io.ReadFull over Read: the buffer is full of the next bytes, or the stream ended or failed |
| Opening.NewOpenReader | backend/internal/backup/crypt.go:201-215 | a reader at the first chunk, or the error of the header |
| Tamper.ReadsSafe | backend/internal/backup/crypt.go:236-277 | over every sequence of reads, errors included, what is released stays a prefix of the sealed data and a clean end means all of it |
| Tamper.NothingForgedIsReleased | backend/internal/backup/crypt.go:72-111 | so for every input whatever: chunks cut, dropped, repeated, reordered or altered, or another header |
| Tamper.DrainSafe | backend/internal/backup/crypt.go:217-277 | reading to the end releases a prefix of the sealed data, and all of it if the end is clean |
| Tamper.CleanEndIsExact | backend/internal/backup/crypt.go:217-277 | a clean end means that the remaining input is exactly the remaining frames |
| Tamper.AcceptedIsAuthentic | backend/internal/backup/crypt.go:201-277 | a file read to a clean end is byte for byte one that was sealed |
| Tamper.ProperPrefixIsRefused | backend/internal/backup/crypt.go:217-277 | every proper prefix of a sealed file ends in an error |
| Assumptions.AssumptionsMeet | backend/internal/backup/crypt.go:72-111 | a cipher that opens all it seals and a saved file of which nothing is forged: the assumptions of this part hold together, and the file reads back |
| EntryPath.ValidEntryPathExact | backend/internal/backup/bundle.go:87-100 | a name is valid if and only if it is short enough, has no NUL or backslash, and every component names something below |
| EntryPath.ValidStaysInside | backend/internal/backup/bundle.go:87-100 | joined to the target, a valid name stays under it |
| EntryPath.SplitInjective | backend/internal/backup/bundle.go:87-100 | different names have different components |
| RecordGrammar.ScanConsumes | backend/internal/backup/bundle.go:333-452 | at every point of the loop what has been read is exactly the encoding of what the state holds |
| RecordGrammar.AcceptedArchiveReads | backend/internal/backup/bundle.go:333-452 | an archive of distinct valid names with its manifest is read as those entries |
| RecordGrammar.ReadArchiveIsExact | backend/internal/backup/bundle.go:333-452 | what is accepted is the encoding of the entries and the manifest and nothing after it |
| RecordGrammar.ReadArchiveLanguage | backend/internal/backup/bundle.go:333-452 | acceptance if and only if the stream is that encoding, with database.dump among the entries and the manifest's files equal to them in order, size and hash |
| RecordGrammar.NoOpenFileAtTheEnd | backend/internal/backup/bundle.go:433-435 | after a clean end no file is open: the check is unreachable |
| BundleCreate.DataWriter.Write | backend/internal/backup/bundle.go:146-159 | a write of any length goes out in data records of at most 64 KiB, counted and hashed |
| BundleCreate.WriteRecord | backend/internal/backup/bundle.go:106-115 | a kind, the length as uint32 and the payload |
| BundleCreate.WriteFile | backend/internal/backup/bundle.go:118-138 | the records of one file and its manifest entry, or the first thing that went wrong |
| BundleCreate.WriteEntries | backend/internal/backup/bundle.go:162-294 | the dump, the uploads and the configuration in their order, with every refusal of the source |
| BundleCreate.Create | backend/internal/backup/bundle.go:162-219 | the device holds the sealed archive of the source's files and the manifest returned, or the error is the source's |
| BundleCreate.AllPiecesContent | backend/internal/backup/bundle.go:146-159 | the slicing of the writes leaves no trace in the content |
| Restore.DirSink.Begin | backend/internal/backup/restore.go:41-59 | a new empty file in the stage for a valid name, and nothing changed outside the stage |
| Restore.DirSink.WriteTo | backend/internal/backup/restore.go:41-59 | the bytes are appended to that file |
| Restore.DirSink.Abort | backend/internal/backup/restore.go:61-66 | the stage is gone and the rest of the tree is as it was |
| Restore.DirSink.Commit | backend/internal/backup/restore.go:68-77 | the destination is the stage's tree, or nothing is there and nothing else changed |
| Restore.NewDirSink | backend/internal/backup/restore.go:23-39 | refuses an existing destination; otherwise only the parents and an empty stage are new |
| BundleRead.OnRecord | backend/internal/backup/bundle.go:377-431 | one record of the switch: the variables and the sink move as the record machine says |
| BundleRead.ReadRecords | backend/internal/backup/bundle.go:346-432 | the loop over the records agrees with the scan of the decrypted stream, and the stage holds the files so far |
| BundleRead.CheckManifest | backend/internal/backup/bundle.go:433-451 | the final checks of the manifest against the files seen |
| BundleRead.FilesOfExact | backend/internal/backup/restore.go:41-59 | among entries with distinct names every name has its own content, and no other path has any |
| BundleRead.Read | backend/internal/backup/bundle.go:316-326 | exactly one of Commit and Abort is called; on a disk that works the destination appears if and only if the backup reads and no name in it is a directory of another, and then holds exactly its files in a tree |
| BackupTheorems.EntriesDeliver | backend/internal/backup/bundle.go:162-294 | the entries are the source's files, dump first, with distinct names, however their data was sliced |
| BackupTheorems.TooManyRefused | backend/internal/backup/bundle.go:377-390 | more files than the limit, the dump and the configuration counted, are refused |
| BackupTheorems.LongManifestRefused | backend/internal/backup/bundle.go:362-376 | a manifest over 16 MiB is refused, even when its length wraps around 32 bits |
| BackupTheorems.BackupRoundTrip | backend/internal/backup/bundle.go:162-452 | a created backup reads back if and only if rounds, manifest size, file count and names are within what the reader accepts, and then as the same files in the same order |
| BackupTheorems.OneRoundIsLost | backend/internal/backup/bundle.go:166-170 | a concrete backup that is created without an error and cannot be read |
| BackupTheorems.NestedConfigIsLost | backend/cmd/backupbundle/main.go:128-155 | a concrete backup of two configuration files, one named like a directory of the other, that is created, reads back if its manifest is within the limits, and that no restore accepts |
| BackupTheorems.OnlySealedBackupsRestore | backend/internal/backup/bundle.go:316-452 | whatever is offered, only a sealed file is accepted, and what is restored is what it holds |
| BackupTheorems.SavedOrRefused | backend/internal/backup/bundle.go:162-452 | both at once: a created backup reads back if and only if it is within the limits, and whatever else is offered is one of the sealed files or is refused |
| BackupTheorems.RestoreInto | backend/internal/backup/restore.go:23-77 | succeeds if and only if the input reads as a backup and no name in it is a directory of another; then the destination is that backup's tree, otherwise the tree is unchanged but for parent directories |
| BackupTheorems.BackupThenRestore | backend/internal/backup/bundle.go:162-326 | creating and then restoring: the source's files are at the destination if and only if the backup is within the reader's limits and no name in it is a directory of another, and otherwise nothing is restored |
| CreatedBackups.HeaderAsWritten | backend/internal/backup/bundle.go:162-174 | in the bytes of a created backup stand the salt, the rounds that were asked for, or some within the reader's bounds when none were, and a chunk size within its bounds |
| CreatedBackups.EntriesHold | backend/internal/backup/bundle.go:162-294 | the entries are the source's files by name and content, each once, the dump first, uploads before configuration and each directory in the order of its names |
| CreatedBackups.ManifestTells | backend/internal/backup/bundle.go:162-219 | the manifest carries the time, version and facts that were given, and a line with size and hash for every file of the source and no other |
| CreatedBackups.CreatedReadsBack | backend/internal/backup/bundle.go:162-452 | told from the source and the manifest alone: a created backup reads back if and only if the rounds asked for are none or in range, and manifest size, number and names of files are within limits; then as the source's files |
| CreatedBackups.CreatedExactly | backend/internal/backup/bundle.go:162-219 | a backup is created if and only if the passphrase is long enough, the dump is there and not empty, and every file can be read and saved under its name |
| Json.ParseCharsOfEscape | backend/internal/cryptoengine/policy.go:81-83 | an escaped string is read back as itself and ends at its quote |
| Json.NumberThenStop | backend/internal/cryptoengine/policy.go:84-88 | a valid number text is read in full before anything that stops it |
| CanonicalJson.PrintSpells | backend/internal/cryptoengine/policy.go:72-128 | wherever the canonical text of a value stands, the decoder reads that value and stops right after it |
| CanonicalJson.DecodeOfPrint | backend/internal/cryptoengine/policy.go:58-128 | decoding the canonical text gives the value back |
| CanonicalJson.ParsedIsWellFormed | backend/internal/cryptoengine/policy.go:58-63 | whatever the decoder produces can be printed and read again |
| CanonicalJson.CanonicalIsStable | backend/internal/cryptoengine/policy.go:58-70 | canonicalising twice is canonicalising once |
| CanonicalJson.CanonicalIsUnambiguous | backend/internal/cryptoengine/policy.go:58-128 | two inputs have one canonical text if and only if they decode to one value |
| CanonicalJson.KeyOrderNeverMatters | backend/internal/cryptoengine/policy.go:103-120 | at any depth two objects with the same keys for the same values, however ordered and however each member is spelled, are one value to the decoder |
| KeyOrder.CanonicalIgnoresOrder | backend/internal/cryptoengine/policy.go:58-128 | reordering the members of objects at every level of a text changes neither its value nor its canonical text |
| CanonicalText.CanonicalIsHarmless | backend/internal/cryptoengine/policy.go:72-128 | no canonical text holds a control character, '<', '>', '&' or a line separator |
| CanonicalText.PlainStaysPlain | backend/internal/cryptoengine/policy.go:81-83 | nothing else but quotes and backslashes is escaped |
| CanonicalText.MembersInKeyOrder | backend/internal/cryptoengine/policy.go:103-120 | the members of an object stand in the order of their keys |
| CanonicalWriter.WriteCanonical | backend/internal/cryptoengine/policy.go:72-128 | the recursion appends the canonical text to the buffer, or reports a number that does not fit |
| CanonicalWriter.WriteMembers | backend/internal/cryptoengine/policy.go:103-120 | the members in sorted order with commas between them, whatever order the map is walked in |
| CanonicalWriter.CanonicalJSON | backend/internal/cryptoengine/policy.go:58-70 | the canonical text of the input, or none if it does not decode or a number does not fit |
| Trust.ValidateCertificateChain | backend/internal/cryptoengine/policy.go:19-56 | the loop reports the first fault from the signer to the root, in the order of the checks |
| Trust.ChainExact | backend/internal/cryptoengine/policy.go:19-56 | accepted if and only if the chain is not empty, every certificate is in force and issued by the next, the signer's usage is allowed and the root is trusted |
| Trust.AcceptedSpeaks | backend/internal/cryptoengine/policy.go:19-56 | the same, field by field: which certificates, at which time, for which usage, and whom the metadata name |
| Container.Assemble | backend/internal/exchange/format.go:109-134 | the framed parts in a file of the size reckoned, or too large |
| Container.Reader.ReadBlock32 | backend/internal/exchange/format.go:193-210 | a block after its length, which is checked against the limit before anything is read |
| Container.ParseContainer | backend/internal/exchange/format.go:144-191 | the cursor code returns what the pure parse of the whole file says, errors included |
| Container.ParseIsExact | backend/internal/exchange/format.go:144-210 | accepted if and only if the file is magic, version and three length-prefixed blocks within their limits, with no slack |
| Container.AssembledParses | backend/internal/exchange/format.go:109-191 | an assembled file parses to its parts if and only if manifest and ciphertext are not empty |
| Manifests.OneTextPerManifest | backend/internal/exchange/format.go:215-241 | a manifest is accepted from exactly one byte string, its canonical text; a nil slice and an empty one are two manifests with two texts |
| Manifests.CanonicalManifestInjective | backend/internal/exchange/format.go:235-241 | different manifests have different bytes to sign |
| MatchKey.FoldText | backend/internal/exchange/record.go:183-203 | the loop with its builder and flag folds every maximal run of letters and digits and joins the runs with one space |
| MatchKey.FoldIsIdempotent | backend/internal/exchange/record.go:183-203 | folding twice is folding once |
| MatchKey.FoldCode | backend/internal/exchange/record.go:207-216 | letters, digits, points and dashes in lower case, nothing else |
| MatchKey.KeyOfHasNoBar | backend/internal/exchange/record.go:98-131 | no part of a key contains the separator's bar |
| MatchKey.KeyStringInjective | backend/internal/exchange/record.go:43-45 | keys of records are equal if their strings are |
| MatchKey.StandardRulesOk | backend/internal/exchange/record.go:54-94 | the built-in table of categories satisfies what the key proofs ask of it |
| FieldValues.TrimExact | backend/internal/exchange/record.go:144-149 | the trimmed text is the one that has no space at its ends and only spaces around it |
| KeyMeaning.WordsOfLaid | backend/internal/exchange/record.go:183-203 | words with any gaps between them are found again |
| KeyMeaning.FoldedAgrees | backend/internal/exchange/record.go:183-203 | two names fold to one text if and only if they have the same words, but for case and one letter |
| KeyMeaning.FieldTextExact | backend/internal/exchange/record.go:142-177 | the text of a field: nothing, the trimmed text, or the text of its number whatever type holds it |
| KeyMeaning.FirstTextExact | backend/internal/exchange/record.go:133-140 | the text of the first field that is filled in |
| KeyMeaning.KeyOfExact | backend/internal/exchange/record.go:98-142 | a record has a key if and only if its category has rules and it names a person or a subject; and each part of the key is told from its fields |
| KeyMeaning.SameKeyExactly | backend/internal/exchange/record.go:98-142 | two records have one key if and only if category, code of the specialty, words of the person, subject with qualifiers, and period agree |
| KeyMeaning.StandardKey | backend/internal/exchange/record.go:54-131 | the same for the built-in table, with the fields of each category by name |
| KeyMeaning.PersonsApart | backend/internal/exchange/record.go:54-131 | in the built-in table records that name different persons have different keys |
| KeyMeaning.QualifiersRunTogether | backend/internal/exchange/record.go:103-106 | two concrete records of different fields with one key |
| KeyIndex.IndexByKey | backend/internal/exchange/record.go:221-240 | every key with its first record, the repeated keys in order, and an error if and only if a key repeats |
| KeyIndex.NoneRepeated | backend/internal/exchange/record.go:221-240 | no duplicates are listed if and only if all records have keys of their own |
| Compare.CompareRecords | backend/internal/exchange/diff.go:165-199 | the differences of audience, amount and every compared field, in the order of the fields |
| Compare.SameValueMeans | backend/internal/exchange/diff.go:215-232 | values are the same if and only if they mean the same number, trimmed text or JSON |
| Compare.NoDifferences | backend/internal/exchange/diff.go:165-255 | no difference is found if and only if audience, amount and every compared field mean the same |
| Compare.IdenticalIsEquivalence | backend/internal/exchange/diff.go:165-255 | having no difference is reflexive, symmetric and transitive |
| Compare.DifferencesMirror | backend/internal/exchange/diff.go:165-199 | comparing the other way round gives the same differences with their sides exchanged |
| ShownDifferences.MeaningExact | backend/internal/exchange/diff.go:203-256 | what a field means: nothing, a number in any of its forms, a trimmed text, or other JSON |
| ShownDifferences.LocalOnlyExact | backend/internal/exchange/diff.go:53-58 | the fields left out are the organisation's name and those that end in _id |
| ShownDifferences.DifferencesShown | backend/internal/exchange/diff.go:165-199 | audience and amount if they differ, then exactly the compared fields whose meaning differs, in the order of their names, the local value on the local side |
| ShownDifferences.ShownOnce | backend/internal/exchange/diff.go:165-199 | there is only one such list |
| ShownDifferences.ItemShows | backend/internal/exchange/diff.go:97-115 | the item of a key that is once on either side shows those differences of its two records |
| Sorting.SortSlice | backend/internal/exchange/diff.go:117-122 | a permutation in which no later element is before an earlier one |
| Classification.IndexAllowingDuplicates | backend/internal/exchange/diff.go:137-162 | the records whose key is theirs alone, and every repeated key once, sorted, whatever order the map is walked in |
| Reconciliation.Classify | backend/internal/exchange/diff.go:97-115 | the status of one key that no side repeats |
| Reconciliation.Diff | backend/internal/exchange/diff.go:63-128 | one item for every key of either side in the order of the keys, whatever order the maps are walked in, with matching counters |
| DiffTheorems.EachKeyOnce | backend/internal/exchange/diff.go:63-128 | every key of either side is in exactly one item and no other key is, in increasing order |
| DiffTheorems.StatusMeans | backend/internal/exchange/diff.go:77-116 | each status if and only if the multiplicities on the two sides and identity are so |
| DiffTheorems.NoRecordLost | backend/internal/exchange/diff.go:63-128 | every record of either list is shown on its side of the item of its key unless the key is ambiguous |
| DiffTheorems.DetailMeans | backend/internal/exchange/diff.go:73-89 | an item carries its key, and of a repeated key it says on which side it repeats, the local side first, and nothing else |
| DiffTheorems.CountersSum | backend/internal/exchange/diff.go:123-127 | the counters of the statuses sum to the number of items |
| DiffTheorems.OrderIndependent | backend/internal/exchange/diff.go:63-162 | permuting either list changes nothing in the result |
| DiffTheorems.ErrorPermuted | backend/internal/exchange/diff.go:64-71 | permuting records does not turn an error into a result or a result into an error |
| DiffTheorems.MirrorSymmetric | backend/internal/exchange/diff.go:63-128 | swapping the lists mirrors every item and leaves everything but the detail text |
| SortedRecords.SortRecords | backend/internal/exchange/export.go:147-172 | refuses records without a key and repeated keys, and returns the rest in the order of their keys |
| SortedRecords.FitExact | backend/internal/exchange/export.go:153-163 | the loop accepts if and only if every record has a key of its own |
| SortedRecords.OneListPerSet | backend/internal/exchange/export.go:144-172 | the same records in another order give the same list |
| SortedRecords.InKeyOrderIsSorted | backend/internal/exchange/export.go:144-172 | that list holds the records, each once, in the order of their keys |
| Packages.ValidateExport | backend/internal/exchange/export.go:107-141 | no error if and only if the request is valid in every respect |
| Packages.Export | backend/internal/exchange/export.go:41-105 | the package of the sorted records for the recipients, or the error of the step that failed |
| Packages.Open | backend/internal/exchange/import.go:55-172 | the checks in their order, and the records only after all of them |
| Packages.ReadContent | backend/internal/exchange/import.go:125-171 | the recipient is searched, the content decrypted, decompressed within its limit, decoded, counted and keyed |
| Reimport.IdenticalAfter | backend/internal/exchange/diff.go:243-255 | a record is identical to itself come back from JSON if and only if its compared floats are worth their decimal text |
| Reimport.KeyKept | backend/internal/exchange/record.go:98-176 | such records keep their keys |
| Reimport.StandardKeysCompared | backend/internal/exchange/record.go:54-94 | the built-in table takes keys only from compared fields |
| Reimport.TenthIsNotKept | backend/internal/exchange/diff.go:244-246 | a concrete field that differs from itself come back |
| PackageTheorems.OpensAsExported | backend/internal/exchange/import.go:55-172 | every addressed recipient whose policy trusts the sender opens exactly the exported records, sorted by key |
| CleanDiff.CleanExactly | backend/internal/exchange/diff.go:63-255 | as long as every record that came back has a key, the originals against what came back are all identical if and only if every compared float is worth its decimal text |
| PackageTheorems.ExportOpenDiffIsClean | backend/internal/exchange/export.go:41-105 | export, open and diff together: every item identical |
| CleanDiff.ExportOpenDiff | backend/internal/exchange/export.go:41-105 | a package that opens is clean against its originals if and only if every compared float is worth its decimal text, and one whose floats are opens |
| PackageTheorems.OpenedIsSigned | backend/internal/exchange/import.go:55-172 | whatever is opened is the canonical manifest, signature and ciphertext and nothing else, signed by the accepted sender, with the signed ciphertext hash, addressed to the opener |
| OpenedPackages.OpensExactly | backend/internal/exchange/import.go:55-172 | a package opens if and only if format, version, schema, compression and counts are as fixed, both algorithms are allowed, year and period are the expected ones, the hash is the signed one, the sender's chain is accepted, and the ciphertext decrypts for the recipient to that many records with keys |
| OpenedPackages.NothingSecretBeforeTrust | backend/internal/exchange/import.go:49-122 | a package that is not trustworthy is refused in the same way whatever the recipient's key, the decryption and the content would be |
| OpenedPackages.OpenedTellsRequest | backend/internal/exchange/export.go:41-105 | what is opened carries the sender, year, period, time, number of records, hashes and recipients that were asked for |
| Calculation.CalculateAmountWith | backend/internal/calculators/exact.go:23-120 | the exact sum by the methodology, rounded once, or the error that the code reports |
| Calculation.Terms.Total | backend/internal/calculators/exact.go:65-108 | the sum over the closures' lookups, with failures noted if and only if a field or a rate is missing |
| Calculation.KopecksAreNearest | backend/internal/money/money.go:36-50 | rounding gives k if and only if the sum is in the half-open interval of half a kopeck around k |
| Methodology.ComesExactly | backend/internal/calculators/exact.go:65-108 | every kind of activity comes to its formula over the fields and rates by name, if and only if all of them are numbers |
| Methodology.AmountExactly | backend/internal/calculators/exact.go:23-120 | an amount is stored if and only if the checks passed and it is the whole number of kopecks nearest to that sum and fits the column |
| Methodology.SpentDecides | backend/internal/calculators/exact.go:76-84 | the amount of top_it does not depend on what was reported as transferred once what was spent is known |
| Breakdown.Builder.Root | backend/internal/calculators/breakdown.go:94-134 | the tree of an activity uses every input once, in order, and is worth the exact sum |
| Breakdown.BreakdownWith | backend/internal/calculators/breakdown.go:52-139 | a breakdown is built if and only if the amount is calculated, and it rounds to that amount |
| Breakdown.ExcelGivesAmount | backend/internal/calculators/breakdown.go:188-213 | its formula text, read by a spreadsheet, rounds to the amount |
| Formula.EvalTree | backend/internal/calculators/breakdown.go:163-184 | the recursion with accumulators gives the exact value of the tree |
| Formula.RenderTree | backend/internal/calculators/breakdown.go:188-213 | the recursion with joined parts gives the text of the tree |
| Formula.ExcelMeansEval | backend/internal/calculators/breakdown.go:163-213 | the text of any tree read with the usual precedence is worth the tree, and can be read if and only if no operator is without children |
| BlobStore.TurnOk | backend/internal/filestore/cas.go:81-174 | one step of one call keeps what is at addresses in order and touches nothing else but its own staged file |
| BlobStore.NextKeeps | backend/internal/filestore/cas.go:81-174 | every step, failure, crash or restart keeps the invariant of all calls |
| BlobStore.AddressesHold | backend/internal/filestore/cas.go:81-174 | in every run a file at a content address decodes to bytes with that hash |
| BlobStore.SuccessIsStored | backend/internal/filestore/cas.go:128-173 | a call that succeeded took its whole source, within the limit, and in every later state bytes with its hash are at the address it reported |
| BlobStore.SuccessReadsBack | backend/internal/filestore/cas.go:128-173 | those bytes are its source, in every later state, unless other bytes with the same hash were given to the store |
| BlobStore.OnlyCompleteBlobs | backend/internal/filestore/cas.go:81-174 | outside staging nothing disappears and all that appears is the complete source of a call that succeeded |
| BlobStore.NothingLeftBehind | backend/internal/filestore/cas.go:109-173 | while no call is cut off and every removal works, no staged file is left that no call is at work on, at whatever stage calls fail |
| BlobStore.LostRaceIsFound | backend/internal/filestore/cas.go:162-172 | a call whose rename is refused reports the blob that has come there meanwhile, and otherwise fails; its staged file goes |
| BlobStore.NoSecondCopy | backend/internal/filestore/cas.go:145-163 | a hash stored once never gains a second copy while no look for a plain copy misses one that is there |
| BlobStore.MissedPlainIsCopied | backend/internal/filestore/cas.go:147-163 | a look that misses it is one step from a second copy: the condition is exact |
| BlobStore.AloneOutcome | backend/internal/filestore/cas.go:81-174 | an undisturbed call succeeds if and only if limit, size and the readability of an existing copy allow it, and leaves no staged file |
| BlobStore.StoredTwice | backend/internal/filestore/store.go:43-81 | storing the same bytes again finds the first blob, or refuses it when it is over 20 MiB |
| BlobPath.BlobPathExact | backend/internal/filestore/cas.go:58-73 | a path is a content address if and only if it is a hash under its own first two digits, plain or compressed |
| BlobPath.LocationsHavePaths | backend/internal/filestore/cas.go:46-54 | every location has a path of its own, and the content addresses among them are the blobs |
| BlobPath.UpperCasePasses | backend/internal/filestore/cas.go:68-72 | an upper-case hash passes although no location has that path |
| TableParser.ConsumeTitle | scripts/parse-mincifry-education-directory.py:132-149 | the loop stops after the last character that the title needs, or reports a wrong or truncated title |
| TableParser.ReadCodes | scripts/parse-mincifry-education-directory.py:171-187 | the inner loop lists the run of codes and ends after its blanks |
| TableParser.ReadTitles | scripts/parse-mincifry-education-directory.py:189-192 | a title for every code, each after the blanks before it |
| TableParser.Parse | scripts/parse-mincifry-education-directory.py:152-195 | the nested loops terminate and return what the recursive reading of the table says |
| TableTheorems.TitleEndReads | scripts/parse-mincifry-education-directory.py:132-149 | a title broken anywhere by blanks and soft hyphens is consumed in full |
| TableNames.CollapseExact | scripts/parse-mincifry-education-directory.py:166 | a name is its words, however spaced, with one space between them, and has no other blank |
| TableNames.DedupExact | scripts/parse-mincifry-education-directory.py:190-195 | the codes of a record are those of its row, each where it first occurs |
| TableNames.NormalOfLines | scripts/parse-mincifry-education-directory.py:153 | lines ended in any of the three ways become the same lines ended by newlines |
| TableNames.CompactExact | scripts/parse-mincifry-education-directory.py:132-149 | titles are compared without blanks and soft hyphens and with one kind of dash |
| TableTheorems.NothingSkipped | scripts/parse-mincifry-education-directory.py:152-195 | from the table start an accepted text is rows of names, codes and titles, and blanks; the records are the words of those names and those codes |
| TableTheorems.TableRoundTrip | scripts/parse-mincifry-education-directory.py:152-195 | every permitted printing of a list of records, the words of each name in any spacing, is parsed back to it |

## Left out

- Error texts and which of several errors is wrapped: errors are constructors, compared by kind.
- `Verify`, which is the same read with a sink that discards everything.
- A disk that fails: contracts say what may be left behind then (`swept`, the parent directories), but not why a call failed.
- Context cancellation, logging, `pg_dump` and the walking of upload directories: a source is its files by name, and may refuse.
- Invalid UTF-8 and unpaired surrogates in JSON inputs: the decoder works on code points.
- The tables of the unicode package: classes and lower-casing are arbitrary functions with the facts named in `MatchKey.UnicodeOk`.
- Infinite and not-a-number float64 values, which `encoding/json` does not write: a float is its exact real value.
- The algorithm of `sort.Slice`: an insertion sort stands for it, and only the contract is used.
- The 96 titles of the directory table, which are a parameter that must satisfy `TableTheorems.ProgramsOk`; the regular expression for codes is written out, and the printing of `main` is not modelled.
- The randomness of the exchange engine: what it returns for one request is fixed, so two exports of one request are not compared.
- Durability of directories: a rename that has happened survives a restart of the machine.
- The float64 checks before an amount is calculated: whether they passed is a parameter.
- Protocols of disagreement, database code, the user interface, and everything else outside the five parts.

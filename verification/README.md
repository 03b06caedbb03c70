# Verified models of the snapshot format and the repository's text tools

Dafny models of the parts of this repository where several functions must agree with each other, with
proofs that they do.

* **Snapshots** (`robothor/snapshot.py`). The encrypted container (`Codec`), path names (`Paths`), what a
  workspace selection takes along (`Workspace`), the two archives and their manifest (`Archive`, `Manifest`),
  migration states (`Schema`), restoring in place (`Restore`), the three commands together (`Snapshot`),
  publishing by processes that run at once and crash (`Publish`), and retention (`Retention`).
* **The fleet rewriter** (`scripts/set-fleet-model.py`). Lines as `str.splitlines` sees them (`Lines`), the
  line machine that edits `fallbacks:` keys (`FleetRewriter`), which lines its patterns accept (`FleetLines`), how a
  rendered chain reads back (`FleetReader`), what the machine keeps and when a second pass is idle
  (`FleetRewriterLaws`), and the check on the parsed documents before anything is written (`FleetGate`).
* **Shared HTTP clients** (`robothor/http_clients.py`): the registry over every run of loops, calls and
  closes (`HttpClients`).
* **Release notes** (`scripts/changelog_fragments.py`): printing a block (`ReleaseNotes`), what a name, an entry and a
  heading are (`ReleaseLaws`), the page (`ReleasePage`), whole histories of fragments and releases (`ReleaseRuns`),
  and when a version can be released twice (`ReleasedTwice`).
* **Merging people** (`scripts/merge_operator_duplicates.py`): two committed phases over one connection on
  which any statement may fail (`MergeTransaction`).
* **Documentation checks**: the path index and link resolution (`DocLinks`), and extraction of a named
  fenced block (`DocCommands`).

`Wrappers`, `Sequences`, `Bytes`, `Json` and `Text` hold what these share. Loops and objects whose fields change are
methods and classes, each proved against a function or predicate that says what it computes; the lemmas are
about those. `dafny verify dfyconfig.toml` checks everything.

Functions of libraries are parameters, and the laws they are used under are stated where they are declared:
`Codec.Primitives.Lawful` (the cipher adds 16 bytes, decryption accepts exactly what encryption produces, JSON
and base64 read back), `Archive.Platform.Lawful` (digests are 64 hexadecimal digits, JSON reads back, a printed
time is a time with a zone) and `Snapshot.World.Lawful` (a packed archive reads back, is not empty and does not start
like an encrypted snapshot). The cipher laws hold of AES-GCM used as section 7.2 of NIST SP 800-38D prescribes;
`Laws.LawsHold` builds a world in which all of them hold. JSON floats are the binary64 numbers, each in one form
(`Json.FloatsDiffer`).

Where the code does something other than what its documentation or a reader would expect, the code is
followed, and the named members say when that happens:

* An empty plaintext is encrypted but refused by the reader (`Codec.EncryptThenDecrypt`).
* `.` passes for a safe relative path (`Paths.SafeExactly`).
* A name with a backslash, and an identity or vault key swept up by a configured state directory without
  secrets, are archived but refused at verification, and so is an oversized identity document
  (`Archive.FreshArchiveVerifies`, `Archive.BackslashFails`, `Archive.SweptIdentityFails`,
  `Archive.OversizedIdentityFails`, `Snapshot.CreatedVerifiesExactly`).
* The overlap test is made before the output's directory is created and looks below the directory roots of that
  moment: an output in the optional skills directory that does not exist yet is captured by its own snapshot, and so
  is one below a directory that stands where a state file is expected (`Workspace.CapturedDespiteTest`,
  `Workspace.AwaitedDirectoryCaptures`, `Workspace.FileRootCaptures`).
* A plan of a restore that reports no conflict does not say that files go in unforced: a file in a directory's place and
  targets below each other are found only by doing it (`Snapshot.PlanTells`, `Snapshot.PlanMisses`).
* An identity document can outgrow the size limit when it is relocated; relocating again is then refused
  (`Restore.RelocateTwice`, `Laws.OutgrowsExists`).
* The rewriter never settles on an inline list whose comment ends in a line break other than `\n` or `\r\n`
  (`FleetRewriterLaws.FixpointExactly`, `FleetRewriterLaws.NeverSettles`).
* A cancelled `close_shared_clients` loses the clients it had not come to (`HttpClients.AbandonsExactly`,
  `HttpClients.CancellingLosesClients`).
* A version is assembled at most once exactly if it ends in a letter, a digit or `_` and the text above the first block
  ends in a newline, or the page that was there mentions it (`ReleaseRuns.HeadingFoundExactly`,
  `ReleasedTwice.ReleasedTwiceExactly`).
* A failed audit insert aborts the transaction it is in; if it is the last of the merge phase, the commit
  discards the merges and the deletes still go ahead, and the program reports success
  (`MergeTransaction.OutcomeExactly`, `MergeTransaction.StrayRun`).
* A fence is closed only by one of exactly its length (`DocCommands.ClosesExactly`), where section 4.5 of
  CommonMark also accepts a longer one.

## Model

| member | source | states |
|---|---|---|
| `Codec.RecordsLength` | robothor/snapshot.py:299-311 | the record stream of n bytes has ceil(n / 1 MiB) records and n + 20 bytes per record |
| `Codec.StreamStarts` | robothor/snapshot.py:299-311 | a stream starts with the big-endian length and the next mebibyte, or what is left, sealed with its number in nonce and associated data; 20 bytes further comes the stream of the rest under the next number |
| `Codec.UnsealSound` | robothor/snapshot.py:383-410 | a record stream that is read to its end is, byte for byte, the one written for the plaintext returned, from any counter on |
| `Codec.UnsealExact` | robothor/snapshot.py:374-410 | a stream unseals to a plaintext if and only if it is that plaintext's record stream and the sizes agree |
| `Codec.AcceptsExactlyCanonical` | robothor/snapshot.py:321-416 | a file decrypts to a plaintext if and only if it is magic, header length, an acceptable header and the one record sequence for it, and nothing else |
| `Codec.NoAcceptedExtension` | robothor/snapshot.py:407-410 | no accepted file is a proper prefix of another accepted file |
| `Codec.AcceptedStarts` | robothor/snapshot.py:321-353 | every file that decrypts starts with the name, the version and the length of its header, and no passphrase of fewer than twelve characters decrypts one |
| `Codec.SameHeaderSamePlaintextSameFile` | robothor/snapshot.py:383-410 | under one header, files that decrypt alike are equal, so no reordered, repeated or re-cut records are accepted |
| `Codec.EncryptThenDecrypt` | robothor/snapshot.py:266-318 | what the writer produces has length 15 + header + n + 20 per record and decrypts to the plaintext, unless that is empty: then it is refused |
| `Codec.WriterAndReaderAgreeOnTheLimit` | robothor/snapshot.py:299-305 | the writer's 32-bit record counter and the reader's size limit stop at the same plaintext size, 2^52 bytes |
| `Codec.NoncesDistinct` | robothor/snapshot.py:305-309 | two records of one file never share a nonce |
| `Codec.WrittenHeaderReads` | robothor/snapshot.py:321-353 | the header the writer prints is accepted by the reader, with the same salt and nonce prefix, exactly for sizes from 1 up to the limit |
| `Codec.HeaderExactly` | robothor/snapshot.py:361-380 | which fields make an acceptable header, and which header they make |
| `Codec.EncryptArchive` | robothor/snapshot.py:266-318 | the writing loop over a destination file leaves exactly the container of the source; too large a header or a weak passphrase leaves the disk alone, and every later failure leaves no file at the destination, even one that was there |
| `Codec.DecryptArchive` | robothor/snapshot.py:356-416 | the reading loop accepts and writes exactly what the format definition accepts; a bad header leaves the disk alone, and every later failure leaves no file at the destination, even one that was there |
| `Codec.OpenReader` | robothor/snapshot.py:321-353 | the reader's header checks, in their order and with their errors |
| `Paths.SafeExactly` | robothor/snapshot.py:194-200 | a raw path is accepted exactly when it is `.` or the slash-joined names of a path without empty, `.`, `..` or backslash parts |
| `Paths.NameRoundTrip` | robothor/snapshot.py:194-200 | the archive name of a path parses back to it, and is accepted exactly when no part has a backslash |
| `Paths.SafeNamesDistinct` | robothor/snapshot.py:194-200 | two accepted names that differ lead to different paths |
| `Workspace.WorkspaceStatePaths` | robothor/snapshot.py:578-608 | the roots are the defaults plus every configured directory, and one setting that is not usable refuses all |
| `Workspace.ResolvesExactly` | robothor/snapshot.py:582-607 | a setting refuses the selection exactly if it names a directory outside that is there, the workspace itself, something that is no directory, or, unless it may be absent, nothing; it adds a root exactly if it names a directory below the workspace |
| `Workspace.OutsideRefuses` | robothor/snapshot.py:597-602 | a configured directory outside the workspace refuses every selection |
| `Workspace.DirectoryNames` | robothor/snapshot.py:61-85 | the default directories by their names |
| `Workspace.WorkspaceFiles` | robothor/snapshot.py:611-675 | succeeds exactly if every setting is usable, the secrets are if they are asked for, and no link or special file is at or below a root; then it lists, once each and in name order, exactly the regular files at or below a root |
| `Workspace.GatedCapturedExactly` | robothor/snapshot.py:578-608 | without asking for secrets the vault key is never captured, and an identity file exactly if a setting makes all of `.robothor` a root |
| `Workspace.SecretRootsExactly` | robothor/snapshot.py:613-643 | the secrets can be taken exactly if the vault key is a private file of 32 bytes and of the identity files there is neither, or both and the key is private and not empty |
| `Workspace.SecretsCaptured` | robothor/snapshot.py:613-643 | asking for the secrets captures the vault key, and both identity files or neither, the keys with owner-only modes |
| `Workspace.DestinationOverlaps` | robothor/snapshot.py:759-768 | the test is true exactly when the destination is a root or secret path, or lies below a directory root |
| `Workspace.CapturedDespiteTest` | robothor/snapshot.py:759-768 | over the tree of the test and the later tree of the selection: a destination that passed the test and was written is captured if and only if a state file's path or an optional setting's absent directory is above it, which can be told before the call |
| `Workspace.NoSelfCapture` | robothor/snapshot.py:812-816 | whatever is created or removed between the test and the selection, and however configured roots overlap, a destination that passed and is not so exposed is not captured |
| `Workspace.AwaitedDirectoryCaptures` | robothor/snapshot.py:812-851 | an input on which the output is captured: the optional skills directory does not exist until the output is put into it |
| `Workspace.FileRootCaptures` | robothor/snapshot.py:759-768 | another: a directory where a state file is expected |
| `Workspace.NoStagingCapture` | robothor/snapshot.py:821-832 | testing one made-up name in the staging parent sees every root that could capture the staging directory later made there: a file of it is captured if and only if it is exposed in the same two ways |
| `Archive.BuildWorkspaceArchive` | robothor/snapshot.py:678-714 | one member and one manifest entry per selected file, with its name, size, digest and permission bits |
| `Archive.WorkspaceManifestFiles` | robothor/snapshot.py:1075-1095 | reads exactly the well-formed lists of distinct, safe, sized, hashed entries, and refuses every other manifest |
| `Archive.EntryExactly` | robothor/snapshot.py:1075-1095 | which values are a manifest entry, field by field |
| `Archive.VerifyWorkspaceArchive` | robothor/snapshot.py:1098-1153 | passes exactly when entries and members correspond one to one in name, kind, mode, size and digest and the secrets are declared, paired and private |
| `Archive.AgreesExactly` | robothor/snapshot.py:1098-1153 | what that agreement is, spelled out: two flags that agree, the secrets listed exactly if the flags say so, the identity files both or neither, and the keys private |
| `Archive.IdentityExactly` | robothor/snapshot.py:1156-1168 | an identity document is exactly a JSON object of at most 1 MiB whose key reference is a text that is not blank |
| `Archive.FreshArchiveVerifies` | robothor/snapshot.py:1098-1153 | a freshly built archive passes that check if and only if, by tree and settings: no captured name has a backslash, no identity file lies under a `.robothor` root when secrets are not asked for, and the identity file is an identity document when they are |
| `Archive.FreshExists` | robothor/snapshot.py:678-714 | every workspace that can be selected has such an archive |
| `Archive.BackslashFails` | robothor/snapshot.py:194-200 | a workspace that is archived and then refused: a file name with a backslash |
| `Archive.SweptIdentityFails` | robothor/snapshot.py:1106-1115 | another: an identity document below a configured `.robothor` |
| `Archive.OversizedIdentityFails` | robothor/snapshot.py:1156-1168 | another: an identity document longer than the limit |
| `Manifest.ValidateManifest` | robothor/snapshot.py:961-1038 | passes exactly the manifests that spell out, field by field, a summary that makes sense: a time, names, secrets only if encrypted and in a workspace, and one artifact for each part and no other; tells an unknown version from a malformed manifest |
| `Manifest.ArtifactExactly` | robothor/snapshot.py:1002-1024 | which values are an artifact: one of the two names with the kind that belongs to it, a size and a digest |
| `Manifest.ShowsOnce` | robothor/snapshot.py:961-1038 | a manifest spells out at most one summary |
| `Manifest.InstanceMetadata` | robothor/snapshot.py:558-575 | for id and name the environment comes before the federation file and that before the host; what is blank does not count, and neither is ever empty |
| `Manifest.VerifyArtifacts` | robothor/snapshot.py:1041-1072 | passes exactly when the extracted files are the manifest and the artifacts it declares, in size and digest |
| `Manifest.ExtractOuterArchive` | robothor/snapshot.py:915-946 | succeeds exactly on archives of distinct, allowed, regular members with a manifest that parses to an object, and returns that manifest and their contents |
| `Manifest.FreshManifestValidates` | robothor/snapshot.py:845-880 | every accepted combination of flags makes a manifest that validates for the protection it was made with and no other, if and only if a database it includes has a name |
| `Manifest.ManifestSays` | robothor/snapshot.py:845-875 | what a manifest says beyond what is read back: the application, the name of the instance, the engine, and the workspace files |
| `Manifest.OuterRoundTrip` | robothor/snapshot.py:726-749 | extracting a written outer archive gives back the manifest and the files, nothing else, and they agree with the declared artifacts |
| `Schema.MigrationChecksums` | robothor/snapshot.py:1182-1195 | reads exactly the lists of distinct ids with well-formed checksums |
| `Schema.MigrationExactly` | robothor/snapshot.py:1182-1195 | which values are a migration with its checksum |
| `Schema.Compatibility` | robothor/snapshot.py:1198-1243 | compatible exactly when there is no warning; the warnings are exactly the reasons, and an applied migration is warned about exactly if its id with its checksum is not among the local ones; inconsistent schema sections are refused and no others |
| `Schema.FreshSchemaIsConsistent` | robothor/snapshot.py:515-555 | the state recorded at creation passes the verifier's checks of current, behind, drift and untracked |
| `Schema.SubMapBySize` | robothor/snapshot.py:545-552 | a ledger that is part of the local list equals it exactly when the counts agree, which is why comparing lengths tells current from behind |
| `Schema.StateExactly` | robothor/snapshot.py:543-549 | the state recorded, by maps: untracked exactly without a ledger, current exactly if the ledger's map equals the local one, behind exactly if it is a proper part of it, drift exactly if it is no part of it |
| `Schema.RecordedFields` | robothor/snapshot.py:543-555 | the schema section as it is recorded, field by field |
| `Schema.FreshSchemaFits` | robothor/snapshot.py:1225-1243 | on the installation that recorded it a schema fits exactly if there is a ledger and it is a part of the local list |
| `Publish.Directory.PublishAtomic` | robothor/snapshot.py:237-251 | one call moves the source to the destination, or without force refuses if something is there and changes nothing |
| `Publish.EveryRun` | robothor/snapshot.py:237-251 | with any number of publishers interleaved and crashing anywhere, a path published only without force keeps what it held or belongs to one winner, and every path shows a complete file |
| `Publish.NeverReplaced` | robothor/snapshot.py:247-251 | once visible, such a path stays unchanged in every continuation |
| `Publish.LinkThenCleanup` | robothor/snapshot.py:237-251 | the two system calls of a publisher that is not disturbed do what one call does |
| `Publish.WholePublication` | robothor/snapshot.py:882-896 | a publisher that is not disturbed, however its writes are cut, leaves its content at the destination and no source, or without force changes nothing but its source |
| `Restore.NoClobber` | robothor/snapshot.py:1314-1359 | without force a restore leaves every file that was there, even when it stops part way |
| `Restore.RestoreCompletes` | robothor/snapshot.py:1314-1359 | a restore that completes has written every entry, kept everything else, added only missing parents, and returns the number of entries |
| `Restore.SucceedsExactly` | robothor/snapshot.py:1305-1359 | with or without force, a restore completes exactly when no target lies below something that is not a directory or above another target, and nothing is at it, or with force neither a directory nor a link that leads out |
| `Restore.Target.RestoreFile` | robothor/snapshot.py:1330-1357 | one file is written by a temporary file and a link or rename, with the stated refusals; every state in between leaves the rest alone |
| `Restore.Target.RestoreWorkspace` | robothor/snapshot.py:1314-1359 | the loop equals the restore function, and at every step each earlier file is untouched or, with force, completely replaced |
| `Restore.Target.RelocateKeyReference` | robothor/snapshot.py:1362-1386 | the identity file is changed as the relocation function says, and no other file at any step |
| `Restore.RelocateTwice` | robothor/snapshot.py:1362-1386 | relocation changes the reference only; doing it again changes nothing, unless the document with the new reference, which can be printed before the first call, is longer than the limit: then it is refused |
| `Restore.RelocatedMode` | robothor/snapshot.py:1376-1382 | whatever the tree, a rewritten identity document has the permission bits its entry declares |
| `Restore.RelocationMoves` | robothor/snapshot.py:1362-1386 | after any restore, relocation changes nothing but the content of a restored identity document, and in that only the reference to the key |
| `Laws.OutgrowsExists` | robothor/snapshot.py:1362-1386 | a workspace, in a world where the laws hold, whose identity is relocated once and then refused |
| `Workspace.SelectionUnique` | robothor/snapshot.py:611-675 | tree, settings and flag leave no choice in what is selected, or in which order |
| `Snapshot.CreateSnapshot` | robothor/snapshot.py:771-897 | succeeds if and only if the flags go together, the workspace can be selected and the encryption finds nothing too large; returns the bytes of the snapshot of that selection and the dump; every failure is the general error |
| `Snapshot.CallRefusedExactly` | robothor/snapshot.py:788-801 | a call is refused for exactly four reasons, and what is not refused is what the finished request accepts |
| `Snapshot.CreatedOnce` | robothor/snapshot.py:771-897 | two creations from the same workspace, settings, request, dump and random draws give the same bytes |
| `Snapshot.VerifySnapshot` | robothor/snapshot.py:1246-1284 | accepts exactly the files that open to a manifest and contents that pass all checks, and calls them compatible exactly if the version fits and an included database is current or behind with every applied migration among the local ones, checksum included; tells an unknown version, a dump that cannot be listed, and damage from each other, in the order of the checks |
| `Snapshot.MaterializedExactly` | robothor/snapshot.py:900-912 | what is unpacked is the file itself or, if it starts like an encrypted one, its plaintext; a missing or weak passphrase is told from damage |
| `Snapshot.EncryptedExactly` | robothor/snapshot.py:419-421 | a file is taken for encrypted exactly if it starts with the format's name and version |
| `Snapshot.CreatedVerifiesExactly` | robothor/snapshot.py:771-897 | the whole way through creation, opening and all checks: a created snapshot verifies if and only if its database has a name and a dump that lists, and its workspace is presentable by tree and settings; no combination of flags, no time and no instance stands in the way |
| `Snapshot.SecretsAreProtected` | robothor/snapshot.py:961-1153 | across the stages of verification: a member that is a secret means an encrypted snapshot flagged in both places, private keys, a vault key, and for an identity its key |
| `Laws.LawsHold` | robothor/snapshot.py:254-416 | the laws asked of cipher, digest, JSON, base64, clock and archives hold together in some world |
| `Snapshot.CreateThenRestore` | robothor/snapshot.py:1314-1386 | from the created file: whatever it opens to, whatever its archive unpacks to and its manifest declares, restoring that into an empty workspace succeeds and reproduces exactly the selected files with content and mode (secret keys private), adds only their directories, returns their number, and the identity can then be relocated, keeping its mode |
| `Snapshot.RestoredIdentityRelocates` | robothor/snapshot.py:1362-1386 | in any copy of the selected files the identity document can be relocated, and then only its key reference differs from the original; its mode is the restored one |
| `Snapshot.WorkspaceConflicts` | robothor/snapshot.py:1287-1311 | lists exactly the entries with something at their path, a link inside the workspace included, and refuses exactly if a link is on the way to one or leads out from it |
| `Snapshot.ConflictsExactly` | robothor/snapshot.py:1305-1311 | a path is reported exactly if an entry declares it and something is there, and once |
| `Snapshot.PlanTells` | robothor/snapshot.py:1305-1359 | a plan without a link or conflict can be carried out unforced exactly if no file stands where a target needs a directory and no target lies below another; of these two the plan says nothing |
| `Snapshot.PlanMisses` | robothor/snapshot.py:1305-1359 | such a plan: no conflict is reported, and the restore fails |
| `Snapshot.VerifiedRelocates` | robothor/snapshot.py:1362-1386 | behind a verified archive relocation never fails: files go in and the identity is relocated exactly if the targets are clear |
| `Snapshot.ReplacedMeans` | robothor/snapshot.py:1314-1386 | what a restore leaves, without its functions: every entry written, the rest kept, and of a restored identity document only the reference replaced |
| `Snapshot.VerifiedIsRestorable` | robothor/snapshot.py:1404-1440 | what has been verified meets everything the restore loop relies on |
| `Snapshot.RestoreSnapshot` | robothor/snapshot.py:1404-1482 | succeeds if and only if the file verifies, what is asked for is in it, no link is on the way, and, when confirmed, it is forced or compatible without a database or conflict, the dump loads and the targets are clear; a success left exactly the restored and relocated tree, identity mode included, and its report; a failure carries the error of the first check that fails; nothing changes without confirmation; without force every earlier file survives every step |
| `Snapshot.RestoreIntoEmpty` | robothor/snapshot.py:1404-1482 | the command on a created and verifiable snapshot and an empty workspace succeeds if and only if the snapshot is compatible or the restore forced, reports every selected file and no conflict, and leaves the selected files with the identity relocated |
| `Retention.ListSnapshots` | robothor/snapshot.py:1485-1518 | lists exactly the regular, well-named files, newest first |
| `Retention.ListingUnique` | robothor/snapshot.py:1485-1518 | there is only one such listing |
| `Retention.CandidatesAreSuffix` | robothor/snapshot.py:1535-1545 | even with an age limit the candidates are the tail of the listing, behind the first `keep` |
| `Retention.CandidateExactly` | robothor/snapshot.py:1535-1541 | an entry is a candidate exactly if it is behind the first `keep` and, with a cutoff, older |
| `Retention.Repository.PruneSnapshots` | robothor/snapshot.py:1521-1552 | refuses bad arguments; otherwise a listed snapshot goes exactly if it is behind the first `keep` and, with a limit of n days, more than n * 24 * 60 * 60 seconds old; reports those it deleted itself |
| `Retention.PruneOnce` | robothor/snapshot.py:1521-1552 | what is left is a prefix of the listing of at least `keep`, other files stay, and pruning again finds nothing |
| `Retention.NewestSurvive` | robothor/snapshot.py:1521-1552 | with publishers and pruners interleaved over stale and partial listings, the k newest snapshots ever published are never deleted if no pruner keeps fewer than k |
| `Retention.NeverTooFew` | robothor/snapshot.py:1521-1552 | so the repository never holds fewer than the smaller of k and the number ever published |
| `Retention.PrunerAlone` | robothor/snapshot.py:1521-1552 | as steps of the run model, a pruner that is alone removes exactly the candidates of what is there |
| `Lines.SplitAfter` | scripts/set-fleet-model.py:145 | lines that are written one after the other are the lines that are read |
| `Lines.SplitExactly` | scripts/set-fleet-model.py:145 | the lines of any text are the only ones it can be cut into: each has its one break at its end, and `\r\n` stays together |
| `Lines.StripExactly` | scripts/set-fleet-model.py:185 | stripping takes the white space off both ends and nothing else |
| `FleetLines.OpensScalarExactly` | scripts/set-fleet-model.py:60-65 | a line opens a block scalar exactly if it is printed as indentation, an optional dash with blanks, a first character that is neither `#` nor white space, no colon up to the colon, blanks, a pipe or `>`, an optional sign, digits, blanks |
| `FleetLines.ProseIsLeftAlone` | scripts/set-fleet-model.py:122-162 | a text of such a line and lines that are blank or indented deeper is returned unchanged, with no key, and its matching lines counted as prose |
| `FleetLines.KeyExactly` | scripts/set-fleet-model.py:55 | a line matches the key pattern exactly if it is blanks, `fallbacks:` and the rest |
| `FleetLines.InlineExactly` | scripts/set-fleet-model.py:56 | an inline list with a comment is exactly white space, brackets without a `]` inside, white space, and the comment or nothing |
| `FleetLines.KindExactly` | scripts/set-fleet-model.py:156-193 | what a line is taken for: block scalar before inline list, and of the other keys those with nothing or a comment behind the colon |
| `FleetLines.InGroupExactly` | scripts/set-fleet-model.py:207-224 | a line belongs to a key's group exactly if it is an item or a comment indented deeper |
| `FleetLines.InScalarExactly` | scripts/set-fleet-model.py:122-136 | a line belongs to a block scalar exactly if it is blank or indented deeper |
| `FleetLines.GroupSplits` | scripts/set-fleet-model.py:204-223 | the comments before the first item stay before the new items, the others go behind them, in order |
| `FleetLines.ItemIndentExactly` | scripts/set-fleet-model.py:209-212 | new items have the indentation of the last item |
| `FleetLines.PlainExactly` | scripts/set-fleet-model.py:67-70 | a value stands unquoted exactly in a block sequence and if it is a plain model id, perhaps with a newline behind it |
| `FleetLines.EscapeExactly` | scripts/set-fleet-model.py:99-104 | quoting puts a backslash before each backslash and quote, and nothing else |
| `FleetRewriter.SkipBlockScalar` | scripts/set-fleet-model.py:122-136 | stops at the first line that is not blank and not indented deeper than the key |
| `FleetRewriter.RewriteFallbacksText` | scripts/set-fleet-model.py:139-233 | the loops compute the chunk-by-chunk rewrite, its change flag and its counts |
| `FleetRewriter.RewriteGroup` | scripts/set-fleet-model.py:200-231 | the inner loop keeps comments before and after the first item in order and puts the new items between them at the last item's indentation |
| `FleetReader.FlowReads` | scripts/set-fleet-model.py:99-104 | a rendered inline list reads back as the chain, quotes and backslashes included |
| `FleetReader.ItemReads` | scripts/set-fleet-model.py:99-104 | a rendered list item, quoted or plain, reads back as its value |
| `FleetRewriterLaws.InlineLineIs` | scripts/set-fleet-model.py:173-182 | a rewritten inline key is again an inline key with the same indentation, terminator and comment, and carries the chain |
| `FleetRewriterLaws.NewGroupStays` | scripts/set-fleet-model.py:195-231 | rewritten items and comments all stay below their key, the comments survive in order, the items read back as the chain, and grouping them again changes nothing |
| `FleetRewriterLaws.FixpointExactly` | scripts/set-fleet-model.py:139-233 | for texts of whole lines and chains without `]` or line breaks, a second pass reports no change if and only if no inline comment ends in a line break |
| `FleetRewriterLaws.RewriteKeepsTheRest` | scripts/set-fleet-model.py:139-233 | apart from the chains the rewritten text has the same lines in the same order, block-scalar bodies and comments included, and the same counts; behind each key whose comment ends in a line break there is one empty line more, and nowhere else |
| `FleetRewriterLaws.EveryKeyCarriesTheChain` | scripts/set-fleet-model.py:139-233 | afterwards each handled key carries exactly the chain, and there are as many as keys less unhandled ones |
| `FleetRewriterLaws.ChangeIsReal` | scripts/set-fleet-model.py:179-233 | a change is reported exactly when the text differs |
| `FleetRewriterLaws.EveryMatchAccounted` | scripts/set-fleet-model.py:145-233 | keys, prose lines and block scalars named `fallbacks` are together the lines that match the key pattern, for every text |
| `FleetRewriterLaws.NeverSettles` | scripts/set-fleet-model.py:173-182 | a family of one-line texts on which every pass finds something to change |
| `FleetGate.NormaliseTwice` | scripts/set-fleet-model.py:236-249 | normalising is idempotent |
| `FleetGate.GateExactly` | scripts/set-fleet-model.py:252-289 | where the original parses, an update is accepted if and only if it parses to the normalised original |
| `FleetGate.AcceptedMeans` | scripts/set-fleet-model.py:252-289 | path by path: accepted if and only if each `fallbacks` value is the chain and every node off those keys is the same |
| `FleetGate.Manifest.RewriteFallbacks` | scripts/set-fleet-model.py:329-354 | the result for one file and the file afterwards: written only when applied, changed and accepted |
| `FleetGate.AppliedCarriesTheChain` | scripts/set-fleet-model.py:318-354 | a file that counts as applied has a key, carries the chain at every key, and if it was rewritten differs from the parsed original in the chains alone |
| `FleetGate.SecondRunIsIdle` | scripts/set-fleet-model.py:329-354 | running the tool on what it has applied finds it correct if and only if no inline comment ends in a line break |
| `HttpClients.Registry.PruneClosedLoops` | robothor/http_clients.py:77-86 | drops exactly the entries of finished loops |
| `HttpClients.Registry.ClientFor` | robothor/http_clients.py:112-136 | one call returns the fitting client, or schedules the old one for closing and registers a new one; a failing constructor registers nothing |
| `HttpClients.Registry.CloseSharedClients` | robothor/http_clients.py:139-150 | an uninterrupted close takes this loop's clients out and tries each |
| `HttpClients.EveryReachableState` | robothor/http_clients.py:69-150 | in every run each client built is registered under its own name and loop, being closed, closed, of a finished loop, or dropped by a cancelled close; addresses of live loops differ; the closing set is the pending tasks |
| `HttpClients.AbandonsExactly` | robothor/http_clients.py:149-150 | over every run: no client is dropped if and only if no step cancels a close that has a client behind the one it is closing |
| `HttpClients.ListsOnce` | robothor/http_clients.py:139-150 | a close never has a client to close twice |
| `HttpClients.CancellingLosesClients` | robothor/http_clients.py:89-93 | a run in which a cancelled close loses an open client |
| `HttpClients.FinishAndCancel` | robothor/http_clients.py:89-150 | a cancelled close has tried the client it was at without closing it, dropped those behind it, and changed nothing else |
| `HttpClients.OnePerNameAndLoop` | robothor/http_clients.py:69-71 | at most one client per name and loop, and none registered twice |
| `HttpClients.NoCrossLoopEviction` | robothor/http_clients.py:112-150 | a call or close on one loop leaves every other live loop's entries as they are |
| `HttpClients.CallServes` | robothor/http_clients.py:112-136 | the client returned is open, of the caller's loop and name, built as asked, and registered |
| `HttpClients.CallAgain` | robothor/http_clients.py:121-123 | asking again returns the same client and registers nothing |
| `HttpClients.ClosedLoopIsClear` | robothor/http_clients.py:139-150 | after a close nothing is registered for the loop, each of its clients was tried, and other live loops keep theirs |
| `ReleaseNotes.RenderBlock` | scripts/changelog_fragments.py:516-527 | the lines joined and stripped are the heading and the sections, each entry as it is printed alone |
| `ReleaseNotes.EveryNoteIsPrinted` | scripts/changelog_fragments.py:470-527 | every fragment with a published audience is in the block word for word |
| `ReleaseNotes.InternalLeavesNoTrace` | scripts/changelog_fragments.py:507-527 | internal fragments do not change the block |
| `ReleaseLaws.NamedExactly` | scripts/changelog_fragments.py:78 | a file is the fragment of a pull request for an audience exactly if it is named number, dot, audience, `.md`, perhaps with a newline behind it |
| `ReleaseLaws.EntryExactly` | scripts/changelog_fragments.py:470-489 | an entry is the text without the newlines around it, then the link to its pull request, behind a blank for one plain paragraph and as a paragraph of its own otherwise |
| `ReleaseLaws.StructuredExactly` | scripts/changelog_fragments.py:492-505 | a text is more than one plain paragraph exactly if it has an empty line, or a line that starts a list, quote, heading, table row or numbered item |
| `ReleaseLaws.UnderItsHeading` | scripts/changelog_fragments.py:507-527 | each entry stands under the heading of its own audience, behind the earlier entries for it and nothing else |
| `ReleaseLaws.SectionsInOrder` | scripts/changelog_fragments.py:516-527 | the block is its dated heading and the sections for operators, admins and agent authors in this order, each exactly if a fragment is for it |
| `ReleasePage.IntroIs` | scripts/changelog_fragments.py:530-536 | the place found is the first line that starts a block |
| `ReleasePage.InsertStacks` | scripts/changelog_fragments.py:530-536 | however many blocks were inserted, the next goes on top of them and below what was above, and nothing else moves |
| `ReleaseRuns.Repo.Fragments` | scripts/changelog_fragments.py:165-184 | the pending fragments, once each, by pull request, audience and file name |
| `ReleaseRuns.Repo.Assemble` | scripts/changelog_fragments.py:539-599 | the result, the page and the files of one assembly, for every branch |
| `ReleaseRuns.DecideExactly` | scripts/changelog_fragments.py:548-590 | which of the branches is taken: a misnamed file, then a fragment that does not lint, then a version that is there refuse; without fragments nothing happens, and internal ones alone are consumed |
| `ReleaseRuns.ListingUnique` | scripts/changelog_fragments.py:184 | that order leaves only one listing |
| `ReleaseRuns.EveryHistory` | scripts/changelog_fragments.py:539-599 | over all histories the page is the first one with the blocks put in newest first, and each fragment added is in exactly one of waiting, one block, or consumed as internal |
| `ReleaseRuns.HistoryFromFound` | scripts/changelog_fragments.py:539-599 | the same for every history that starts from a tree as it is found, together with one block per version |
| `ReleaseRuns.AssembleTwice` | scripts/changelog_fragments.py:548-571 | a refused release changes nothing, and after one that is not refused another finds nothing to do |
| `ReleaseRuns.HeadingFoundExactly` | scripts/changelog_fragments.py:587 | the pattern finds a block's own heading exactly when the version ends in a word character |
| `ReleaseRuns.VersionExactly` | scripts/changelog_fragments.py:587 | the pattern matches exactly where a line starts with the heading of the version and a word ends, or starts, behind it |
| `ReleaseRuns.ReleasedIsRefused` | scripts/changelog_fragments.py:585-590 | a version whose block is on the page is not published again |
| `ReleasedTwice.ReleasedTwiceExactly` | scripts/changelog_fragments.py:530-590 | for every page and version: some history releases the version twice if and only if it does not end in a word character, or the text above the first block ends without a newline; and the version is not mentioned from the first block on |
| `ReleasedTwice.NewPage` | scripts/changelog_fragments.py:586-590 | without a page, some history releases a version twice if and only if it does not end in a word character, as `1.0-` |
| `ReleasedTwice.TabbedPage` | scripts/changelog_fragments.py:530-590 | a page, its first block behind a vertical tab, on which `1` is released twice |
| `MergeTransaction.MergePhase` | scripts/merge_operator_duplicates.py:187-193 | done, with all merges made in the open transaction, if and only if every loser is there and every statement goes through; ends with a missing person if and only if one is looked for and not found behind merges that went through; else a statement failed |
| `MergeTransaction.DeletePhase` | scripts/merge_operator_duplicates.py:202-219 | the same for the deletions, which also need that nobody is deleted twice and, outside a dry run, that nobody is referred to; it refuses, and rolls back, if and only if the first person who stops it is there and referred to |
| `MergeTransaction.Run` | scripts/merge_operator_duplicates.py:141-228 | the exit and what is left in the database, exactly, for every pattern of failing statements, commits and audit inserts |
| `MergeTransaction.UsageExactly` | scripts/merge_operator_duplicates.py:153-165 | a call is refused as unusable exactly if it names nobody, or somebody in two roles |
| `MergeTransaction.OutcomeExactly` | scripts/merge_operator_duplicates.py:159-228 | what a run leaves is one of the state before, all merged, and all merged and deleted, unless the audit insert of the last merge fails, everything behind it goes through, somebody is deleted and the merges would have changed something; then it is the deletions without the merges |
| `MergeTransaction.StrayRun` | scripts/merge_operator_duplicates.py:123-138 | such a run: it says it is done, and has deleted without merging |
| `MergeTransaction.DoneMeans` | scripts/merge_operator_duplicates.py:195-228 | what stands behind a run that ends without error: each phase's work, unless the audit insert of its last person failed |
| `MergeTransaction.RefusedMeans` | scripts/merge_operator_duplicates.py:206-216 | a refused deletion keeps the merges, with the same exception |
| `MergeTransaction.RunKeeps` | scripts/merge_operator_duplicates.py:159-228 | whatever fails, a dry run leaves everything as it was, and nobody is removed who is still referred to |
| `MergeTransaction.MergedRows` | scripts/merge_operator_duplicates.py:83-91 | after the merges no row points to a loser, the canonical person has its own rows and theirs, and nobody else's change |
| `MergeTransaction.MergeRepoints` | scripts/merge_operator_duplicates.py:83-91 | the rows stay the same rows in every table, and only those of the five tables that pointed to a loser are repointed |
| `MergeTransaction.MergedCount` | scripts/merge_operator_duplicates.py:94-103 | the canonical person's count becomes the sum of its own and the losers' counts |
| `MergeTransaction.MergeKeepsPeople` | scripts/merge_operator_duplicates.py:106-115 | merging removes nobody, marks the losers, and keeps an earlier date |
| `DocLinks.KnownPaths` | scripts/check_doc_links.py:110-139 | the index holds exactly the tracked paths and their directories, each with a slash |
| `DocLinks.IndexAgrees` | scripts/check_doc_links.py:186-194 | a candidate exists if and only if its components are the first components of a tracked path, and is a tracked file if and only if it is one |
| `DocLinks.SlashMakesNoDifference` | scripts/check_doc_links.py:186-189 | `d` and `d/` exist alike |
| `DocLinks.Resolve` | scripts/check_doc_links.py:165-183 | the stack loop returns the names that no later step up takes back, and nothing exactly when some prefix leaves the root or no name is left |
| `DocLinks.ReadFromItsDirectory` | scripts/check_doc_links.py:172-174 | a link is read from the document's directory: the document's own name is dropped, and only that |
| `DocLinks.DropsExactly` | scripts/check_doc_links.py:172-176 | of a document's path exactly the empty and `.` components vanish |
| `DocLinks.ResolvedComponents` | scripts/check_doc_links.py:174-183 | a resolved link has no empty, `.` or `..` component |
| `DocLinks.LinkExists` | scripts/check_doc_links.py:165-189 | a resolved link exists if and only if its names lead to a tracked file |
| `DocCommands.FindRegions` | scripts/extract_doc_commands.py:49-76 | the loop over the markers computes the region function, with its two errors |
| `DocCommands.FencedBlocks` | scripts/extract_doc_commands.py:79-99 | the loop over the fences computes the block function, an unclosed block included |
| `DocCommands.ExtractBlock` | scripts/extract_doc_commands.py:102-122 | the extraction of a text, with all its errors |
| `DocCommands.ExtractsExactly` | scripts/extract_doc_commands.py:49-122 | extraction succeeds if and only if the lines hold one region of the name with one fence in it, and then returns the lines inside |
| `DocCommands.ClosesExactly` | scripts/extract_doc_commands.py:42-94 | a fence is closed exactly by the same fence, no longer and no shorter, with white space behind it |
| `DocCommands.OpenLineOpens` | scripts/extract_doc_commands.py:40 | the opening marker as documented opens a region of any legal name, dashes included |
| `DocCommands.OpensExactly` | scripts/extract_doc_commands.py:40 | a line opens the region of a name exactly if it is the marker with that name, white space wherever the pattern allows it |
| `DocCommands.CloseExactly` | scripts/extract_doc_commands.py:41 | a line closes a region exactly if it is the closing marker, with white space where allowed |
| `DocCommands.FenceExactly` | scripts/extract_doc_commands.py:42 | a fence is exactly the whole run of three or more backticks, or tildes, at the start of its line |
| `DocCommands.RoundTrip` | scripts/extract_doc_commands.py:102-122 | a document written with one region of one block gives the block back as it was written |

## Left out

Below the modelled functions, taken as parameters or as one step:

* AES-GCM, scrypt, SHA-256, base64, JSON, clocks, tar and gzip: abstract functions with the laws named above; hard
  links in tar files and a member's other tar fields are not represented.
* `pg_dump`, `pg_restore`, `psql` and the database connection of the snapshot code: a dump is opaque bytes, and
  whether it lists or loads is a parameter.
* `fsync`, `chmod`, umask and disk-full errors in the snapshot code; a crash is a publisher that takes no more steps.
* Links to directories on the way to a path that is read: trees have real directories. As in the code, a link at a walked
  path refuses the selection, a link on the way to a target or one at it that leads out of the workspace refuses the
  restore, and a link at a target that stays inside is a conflict, which force replaces. Where a link leads is a
  property of the link.
* Files that change while they are archived, and other processes that write into the workspace during a restore.
* The order in which roots and directory entries are visited, where only an error message depends on it.
* Error message texts, log lines and printed reports.
* The default output name, and the size, instance and encryption fields of a listing entry
  (robothor/snapshot.py:752-756, 1485-1518).
* The microseconds of the clock at pruning: times are whole seconds, as in snapshot names.
* Universal newlines: texts are taken as `read_text` returns them.
* YAML parsing: the gate takes the parser as a function from text to trees; Python's equality of unlike scalars
  (`1 == True`) and errors other than a YAML error are not represented.
* The `\d`, `\w` and `isdigit` classes beyond ASCII.
* `rewrite_primary`, the choice of manifests and the exit status (scripts/set-fleet-model.py:83-96, 292-315, 357-428).
* HTTP itself, cookies and limits of a client (robothor/http_clients.py:33-57); a constructor builds a new client at
  each call, or fails.
* What `lint` looks for in the text of a fragment (scripts/changelog_fragments.py:223-395): one abstract predicate;
  the audience check is modelled. Pull-request titles, labels and the preview are left out.
* The contents of audit rows, foreign keys from tables outside the five, and other sessions on the same database
  (scripts/merge_operator_duplicates.py:123-138); a failing statement aborts its transaction as PostgreSQL does.
* Which texts in a document count as links, instance paths and skip markers (scripts/check_doc_links.py:142-162,
  197-265).

Contracts that say less than one might look for:

- HttpClients.Registry.CloseSharedClients: describes a close that is not interrupted; interleaved and cancelled closes
  are steps of the run model (`HttpClients.EveryReachableState`).
- FleetRewriterLaws.RewriteKeepsTheRest: a text that does not end in a newline is not covered, because a new line is
  then joined to the last one; the same holds of `FleetRewriterLaws.EveryKeyCarriesTheChain`,
  `FleetRewriterLaws.ChangeIsReal` and `FleetRewriterLaws.FixpointExactly`.
- FleetReader.FlowReads: reads back the quoting the rewriter itself uses, not every YAML scalar; that the value has the
  intended type is the gate's part.
- ReleaseRuns.EveryHistory: is about releases that delete the fragments they consume, the default; one step of an
  assembly that does not is covered by `ReleaseRuns.Repo.Assemble`.
- ReleasedTwice.ReleasedTwiceExactly: takes it that some note without a `#` passes the checks; the histories it exhibits
  give a blank date, which `--date` accepts.
- MergeTransaction.Run: a commit that fails is taken to have changed nothing.

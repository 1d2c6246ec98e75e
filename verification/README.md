# Verification of the Hybrid Agent Fabric's protocol and release code

This project models the parts of the Hybrid Agent Fabric whose correctness is an argument over many
steps, and proves what they promise. `dafny verify dfyconfig.toml` checks everything.

## What is modelled

**Release bundle** (`Json`, `JsonLaws`, `JsonLayout`, `Canonical`, `CanonicalLaws`, `UndefinedItems`, `Sorting`,
`Attestation`, `Manifest`, `ManifestLaws`, `ManifestContents`, `Lockfile`, `LockfileLaws`, `Release`, `ReleaseLines`,
`ReleaseLaws`, `ReleaseOrder`, `Documents`, `DocumentFields`, `ProvenanceFields`, `ReleaseContents`, `ReleaseChecks`,
`VerifyVerdicts`). The release tool lists the source tree, writes manifests and bills of materials, copies artifacts,
writes a checksum file and signs it; the verifier reads it all back. A directory is a map from relative paths to
contents. SHA-256 and Ed25519 (section 5.1 of RFC 8032) are unknown functions: digests are 64 hex digits, and what a
key signs verifies under its public key. `localeCompare` is an unknown total preorder; where a result needs that names
do not tie, it says so, and it is shown where that condition is exact. JSON is printed and parsed as section 7 of RFC
8259 and `JSON.stringify` lay it out.

**Event stream** (`EventWriter`, `Sse`, `SseLaws`, `SseContents`, `StreamLaws`, `Canvas`, `Subscriber`,
`SubscriberLaws`, `SubscriberEnds`). The Control API writes frames of the kind sections 9.2.5 and 9.2.6 of the WHATWG
HTML standard describe; two clients parse them incrementally, and one of them reconnects with a cursor. A chunk is the
text one read decodes to. What the network and the caller do is a script of attempts, each of which may fail, end
early or find the signal aborted; the signal counts as aborted when the script is over.

**Session tree** (`Forest`, `SessionSnapshot`, `TreePanel`). Hidden entries are removed in place from a
cloned tree whose objects a map still refers to; the Canvas groups, walks and renders the result.
Trees have distinct ids, as `append` in the session tree enforces
(hybrid-agent-fabric/packages/engine/src/runtime/session-tree.ts:33-48), and are ranked: parents lie
below their children. `RanksDoNotMatter` shows that the rank serves termination only.

**Python kernel** (`Kernel`, `KernelLaws`, `KernelResults`, `KernelSnapshot`, `KernelSnapshotLaws`,
`KernelSnapshotContents`). A main loop and the host calls of executed code read from one pipe. Executed code is known
by its conduct: the calls it makes, whether it survives their failing, and whether it raises. The laws hold for every
conduct.

**JSON-RPC server** (`Rpc`, `RpcLaws`, `RpcAnswers`). Lines are handled one at a time
(hybrid-agent-fabric/apps/headless-client/src/main.ts:23-31); subscriptions may end in between.

Code that works in steps is a method or a class here, proved equal to a function; the laws are about
the function.

## Where a promise does not hold

- A CRLF cut in two by a chunk border is not normalised (hybrid-agent-fabric/apps/headless-client/src/client.ts:311);
  `SplitCrlfLosesAnEvent` loses an event that way, and `LineEndingsSurviveExactlyUnsplit` gives the exact condition.
- The 4 MiB check on the buffer depends on the chunks (client.ts:322): a frame of exactly 4 MiB is lost by a cut
  (`FrameAtTheLimitIsLost`, `AnEventAtTheLimitIsLost`), and `CutsReadAlikeExactlyWhenBlind` says for which texts the
  cuts cannot be seen.
- Canonical JSON gives `[undefined]` and `[]` one text (`LoneUndefinedCollides`), and no two other values
  (`SameTextExactlyWhenSameCollapsed`); and it shows the order of names that the collation calls equal
  (`KeyOrderIsHiddenExactlyWhenNamesApart`).
- Where names tie under the collation, a release can show the order of its artifacts (`TiedArtifactsShow`), and a
  signature the order of its record (`OrderIsHiddenExactlyWithoutTies`).
- A release with an artifact name outside `[A-Za-z0-9._/-]`, or with "..", is prepared but not accepted
  (`SpaceInANameIsRefused`), except that without a key a name with a line break can be read as other lines
  (`TrailingBreakIsAccepted`); and a release prepared without a key over an old attestation is checked against
  that attestation (`VerifyAcceptsWhatPrepareWrites`, `StaleAttestationDecides`).
- An entry in whose path a line break is followed by 64 hex digits and two spaces has the aggregate text of two
  entries (`HiddenLineCollides`); other line breaks do no harm (`EntryReadsBackExactlyWhenItHidesNoLine`).
- A tree entry whose parent is neither an entry nor "root" is not rendered, and hides all below it
  (`UnknownParentHidesAll`).
- The kernel answers a line that is no JSON object under the id of an earlier frame (`GarbageBorrowsAnId`).

## Model

| member | source | states |
|---|---|---|
| JsonLaws.ParseUndoesPrint | hybrid-agent-fabric/apps/release-tool/src/release.ts:292 | what `JSON.stringify(v, null, gap)` writes, followed by blanks, parses back as `v`, for every value without undefined parts |
| JsonLaws.ParseGivesWhatTextCarries | hybrid-agent-fabric/apps/control-api/src/main.ts:2310 | and for every value with distinct names in each object, it parses back without its undefined properties and with null for undefined items |
| JsonLaws.StringifyIsInjective | hybrid-agent-fabric/apps/control-api/src/main.ts:2310 | compact JSON texts are equal only for equal values |
| JsonLayout.ArrayText | hybrid-agent-fabric/apps/release-tool/src/release.ts:292 | an array prints its items in order with commas in between, on lines of their own one gap further in when there is a gap |
| JsonLayout.ObjectText | hybrid-agent-fabric/apps/release-tool/src/release.ts:292 | an object likewise prints its quoted names, colons and values |
| JsonLayout.QuotedIs | hybrid-agent-fabric/apps/release-tool/src/release.ts:292 | a string prints as its escaped characters in order, between quotes |
| JsonLayout.EscapesAre | hybrid-agent-fabric/apps/release-tool/src/release.ts:292 | which characters are escaped, and how |
| CanonicalLaws.CanonicalTextParses | hybrid-agent-fabric/apps/release-tool/src/release.ts:183-187 | canonical text parses as the value with undefined properties dropped and names sorted, and that value is the same up to the order of names |
| CanonicalLaws.CanonicalNamesAscend | hybrid-agent-fabric/apps/release-tool/src/release.ts:185 | in that value the names of every object, at every depth, are in ascending order |
| CanonicalLaws.EqualTextMeansSameValue | hybrid-agent-fabric/apps/release-tool/src/release.ts:183-187 | injectivity: equal canonical texts come from values that are the same up to the order of names and undefined properties, whatever the collation does |
| CanonicalLaws.SameValueExactlyWhenSameText | hybrid-agent-fabric/apps/release-tool/src/release.ts:183-187 | two values print alike exactly when they are the same, if the collation tells the names in one of them apart |
| CanonicalLaws.KeyOrderIsHiddenExactlyWhenNamesApart | hybrid-agent-fabric/apps/release-tool/src/release.ts:185 | the order in which properties were inserted never shows exactly when no two different names of one object compare as equal |
| UndefinedItems.EqualTextMeansSameCollapsed | hybrid-agent-fabric/apps/release-tool/src/release.ts:183-187 | with undefined anywhere: equal texts come from values that are the same once every array of one undefined is emptied, whatever the collation does |
| UndefinedItems.SameTextExactlyWhenSameCollapsed | hybrid-agent-fabric/apps/release-tool/src/release.ts:183-187 | and exactly from those, if the collation tells the names apart |
| UndefinedItems.LoneUndefinedCollides | hybrid-agent-fabric/apps/release-tool/src/release.ts:184 | false property: `[undefined]` and `[]` are different and have one text; by the law above this is the only collision |
| Sorting.SortHidesOrderExactlyWithoutTies | hybrid-agent-fabric/apps/release-tool/src/release.ts:73 | sorting with a comparator makes the incoming order unobservable exactly when no two different elements compare as equal |
| Sorting.SameEntriesSortAlike | hybrid-agent-fabric/apps/release-tool/src/release.ts:91 | records with the same entries sort alike when their distinct names do not tie |
| Sorting.RecordHidesOrderExactlyWithoutTies | hybrid-agent-fabric/apps/release-tool/src/release.ts:91 | the order in which a record was built is unobservable once sorted exactly when no two of its names tie |
| Sorting.LastSortsBehindItsTies | hybrid-agent-fabric/apps/release-tool/src/release.ts:72-73 | the sort is stable: the manifest, pushed last, goes behind an artifact of its own name |
| Attestation.SignedVerifiesExactly | hybrid-agent-fabric/apps/release-tool/src/release.ts:152-181 | a signed envelope verifies against an expected checksum record exactly when the signed record and the expected one are sorted into the same list |
| Attestation.OrderIsHiddenExactlyWithoutTies | hybrid-agent-fabric/apps/release-tool/src/release.ts:152-181 | it verifies against its record in whatever order that was built exactly when the collation tells the names of the record apart |
| Attestation.AcceptedEnvelopeIsExpected | hybrid-agent-fabric/apps/release-tool/src/release.ts:170-181 | any envelope that is accepted carries the expected checksums and a signature that verifies over the canonical text of its payload |
| Attestation.AcceptedEnvelopeIsInOrder | hybrid-agent-fabric/apps/release-tool/src/release.ts:170-181 | with or without expected checksums: an accepted envelope is of version 1 and algorithm Ed25519, its `payloadSha256` is the digest of the canonical text of its payload, and its `keyId` the first 32 digits of the digest of its key |
| Attestation.ReplacedFieldIsNoticed | hybrid-agent-fabric/apps/release-tool/src/release.ts:152-181 | what was signed is refused once its version, algorithm, digest or key id is replaced by another value |
| Attestation.SignedPayload | hybrid-agent-fabric/apps/release-tool/src/release.ts:157 | signed are version 1, the time, and the checksums, each once and in ascending order of names |
| Attestation.EnvelopeSurvivesItsFile | hybrid-agent-fabric/apps/release-tool/src/release.ts:97 | the envelope written as an indented JSON file reads back as itself |
| Manifest.ManifestBuilder.Walk | hybrid-agent-fabric/apps/release-tool/src/release.ts:130-147 | the pushing, recursive walk appends exactly the listing, and succeeds exactly when the total stays within 100,000 entries |
| Manifest.ManifestBuilder.Visit | hybrid-agent-fabric/apps/release-tool/src/release.ts:133-145 | one child: nothing if excluded, its subtree if a directory, one entry if a file or symlink |
| ManifestContents.ManifestRecordsTheTree | hybrid-agent-fabric/apps/release-tool/src/release.ts:130-147 | an entry is in the manifest exactly if it records a file or link of the tree whose path is not left out: size, digest and permissions of a file; length and digest of a link's target, the target and the permissions of a link |
| ManifestContents.LeftOutExactly | hybrid-agent-fabric/apps/release-tool/src/release.ts:267-274 | the segments and names that are left out, spelled out, and the top-level `var` |
| ManifestContents.ManifestInOrder | hybrid-agent-fabric/apps/release-tool/src/release.ts:132-137 | of any two entries the earlier has the smaller name where their paths part |
| ManifestLaws.ManifestListsExactly | hybrid-agent-fabric/apps/release-tool/src/release.ts:128-150 | an entry is listed exactly when its path leads to such a file or symlink and neither it nor any directory above it is excluded; no path is listed twice |
| ManifestLaws.SegmentRulesPrune | hybrid-agent-fabric/apps/release-tool/src/release.ts:268-269 | for the excluded segments and the top-level `var`, pruning directories equals testing the path of the file alone |
| ManifestLaws.ReachedExactlyWhenUnexcluded | hybrid-agent-fabric/apps/release-tool/src/release.ts:267-274 | a path is reached exactly when its segments pass the segment rules and every name on it passes the name rules |
| ManifestLaws.ListingIgnoresOrder | hybrid-agent-fabric/apps/release-tool/src/release.ts:131-132 | permuting directory listings at every level leaves the manifest entries unchanged when sibling names do not tie |
| ManifestLaws.EntriesIgnoreOrder | hybrid-agent-fabric/apps/release-tool/src/release.ts:131-132 | whatever ties, it leaves the entries the same but for their order |
| ManifestLaws.AggregateIsDecodable | hybrid-agent-fabric/apps/release-tool/src/release.ts:148 | equal aggregate texts of two lists come from the same digests and paths, when no path hides a line: a line break, 64 hex digits and two spaces |
| ManifestLaws.EntryReadsBackExactlyWhenItHidesNoLine | hybrid-agent-fabric/apps/release-tool/src/release.ts:148 | the text of one entry is the text of no other list exactly when its path hides no line |
| ManifestLaws.HiddenLineCollides | hybrid-agent-fabric/apps/release-tool/src/release.ts:148 | false property: an entry whose path hides a line has the text of the two entries it can be read as |
| Lockfile.LockComponents | hybrid-agent-fabric/apps/release-tool/src/release.ts:250-259 | the collecting loop and sort compute the component list |
| LockfileLaws.ComponentsAreTheEntries | hybrid-agent-fabric/apps/release-tool/src/release.ts:250-260 | one component for every entry with a path, a version and a name, each with what its entry says and the package URL of its name and version; ascending in package URL, then path |
| LockfileLaws.NameIsBehindTheLastMarker | hybrid-agent-fabric/apps/release-tool/src/release.ts:261-265 | the name a path gives is what stands behind its last `node_modules/` |
| Lockfile.ComponentsHideOrderExactlyWithoutTies | hybrid-agent-fabric/apps/release-tool/src/release.ts:250-259 | permuting the lock's package keys leaves the component list unchanged exactly when no two different components tie in package URL and path |
| Lockfile.ComponentsDoNotTie | hybrid-agent-fabric/apps/release-tool/src/release.ts:259 | which none do when the collation tells the package keys apart |
| Release.OutputDirectory.PrepareRelease | hybrid-agent-fabric/apps/release-tool/src/release.ts:43-102 | leaves the directory with the release's files, whose contents the laws of `ReleaseContents` and `ReleaseChecks` state, and returns the list of files and the checksum record; fails, behind the checks of the options, exactly as `GoesThroughExactly` and `StopsFor` say |
| ReleaseContents.ManifestSays | hybrid-agent-fabric/apps/release-tool/src/release.ts:128-149 | `source-manifest.json` parses to a document that lists, in ascending order, the files and links of the tree that are not left out, with what is recorded of each, and the hash of the lines of their digests and paths |
| ReleaseContents.CycloneSays | hybrid-agent-fabric/apps/release-tool/src/release.ts:189-204 | `sbom.cyclonedx.json` parses to a CycloneDX 1.5 document with one library per component of the lock, with its name, version, package URL, license and path, in order, and the digest the manifest states |
| ReleaseContents.SpdxSays | hybrid-agent-fabric/apps/release-tool/src/release.ts:206-223 | `sbom.spdx.json` parses to an SPDX-2.3 document with the root and the same components behind it, numbered from one, and a dependency of the root on each |
| ReleaseContents.ProvenanceSays | hybrid-agent-fabric/apps/release-tool/src/release.ts:72-81 | `provenance.intoto.jsonl` parses to a statement whose subjects are, as a multiset, every artifact with the hash of its content and `source-manifest.json` with the hash of that file; in ascending order of names |
| ReleaseChecks.SumsSay | hybrid-agent-fabric/apps/release-tool/src/release.ts:84-92 | `SHA256SUMS` has one line for each metadata file and artifact, with the hash of what the directory holds under its name, in ascending order of names |
| ReleaseChecks.ChecksumsAreHashes | hybrid-agent-fabric/apps/release-tool/src/release.ts:84-90 | the checksum record returned names the four metadata files and then the artifacts, each with the hash of what the directory holds under its name |
| ReleaseChecks.AttestationSays | hybrid-agent-fabric/apps/release-tool/src/release.ts:94-99 | with a key, `attestation.ed25519.json` parses to an accepted envelope under that key's public key, whose payload holds the time and those same hashes |
| ReleaseChecks.ArtifactsAreThere | hybrid-agent-fabric/apps/release-tool/src/release.ts:70 | every artifact is in the directory with its content |
| ReleaseChecks.ReportSays | hybrid-agent-fabric/apps/release-tool/src/release.ts:100 | the files reported: the metadata, the artifacts in ascending order, the checksum file, and the attestation if there is a key |
| ReleaseChecks.GoesThroughExactly | hybrid-agent-fabric/apps/release-tool/src/release.ts:60-66 | a run goes through exactly if the manifest has at most 100,000 entries, every artifact is regular, no two share a name, and the key can be used |
| ReleaseChecks.StopsFor | hybrid-agent-fabric/apps/release-tool/src/release.ts:60-66 | otherwise it stops for the number of entries, else at the first artifact in the way, else for the key |
| ReleaseLaws.ReportedFilesAreThoseWritten | hybrid-agent-fabric/apps/release-tool/src/release.ts:100 | every file reported is in the finished directory, and every other file is as it was |
| Documents.ManifestFileTellsAll | hybrid-agent-fabric/apps/release-tool/src/release.ts:128-149 | in the tool's own layout, equal manifest files come from equal names, versions, times and entries |
| Documents.SpdxRelatesThePackages | hybrid-agent-fabric/apps/release-tool/src/release.ts:206-223 | no two SPDX packages share an identifier, and the relationships run from the root to each other package, in order |
| Release.OutputDirectory.CopyArtifacts | hybrid-agent-fabric/apps/release-tool/src/release.ts:58-71 | stops at the first irregular or duplicate artifact, else every artifact is in place with its digest recorded |
| Release.OutputDirectory.HashRelease | hybrid-agent-fabric/apps/release-tool/src/release.ts:84-90 | the two checksum loops hash what is in the directory: four metadata files, then one entry per artifact |
| Release.VerifyRelease | hybrid-agent-fabric/apps/release-tool/src/release.ts:104-126 | the line-by-line loop computes the verification outcome, errors included |
| VerifyVerdicts.VerdictIs | hybrid-agent-fabric/apps/release-tool/src/release.ts:104-126 | without a checksum file an error; otherwise the first line that does not check decides, and when all check, the attestation: absent, unreadable, or held against the digests last read under each name |
| VerifyVerdicts.LineDecides | hybrid-agent-fabric/apps/release-tool/src/release.ts:110-114 | which of the errors a line gives: its form, the path its name stands for, the file there, and its digest |
| ReleaseLines.SumsReadExactly | hybrid-agent-fabric/apps/release-tool/src/release.ts:91-116 | a checksum file is read through exactly when each entry reads as lines that name files of their digests, line breaks in names included |
| ReleaseLines.SumsTextTellsTheRecord | hybrid-agent-fabric/apps/release-tool/src/release.ts:91 | without line breaks in names, equal checksum files come from records with the same entries, sorted into the same list |
| ReleaseLaws.PrintedSumsReadBack | hybrid-agent-fabric/apps/release-tool/src/release.ts:91-116 | SHA256SUMS is read through exactly when every artifact name is legible, and gives exactly the printed record, sorted by name, when all names are in the accepted alphabet and free of ".." |
| ReleaseLaws.VerifyAcceptsWhatPrepareWrites | hybrid-agent-fabric/apps/release-tool/src/release.ts:42-126 | a release prepared with a key is accepted exactly when all artifact names are in the accepted alphabet and free of ".."; one without exactly when all names are legible and an attestation left in the directory, if any, fits; the signature is then valid exactly when a key was given or an attestation was left |
| ReleaseLaws.StaleAttestationDecides | hybrid-agent-fabric/apps/release-tool/src/release.ts:117-124 | an attestation left over checksums `c` lets an unsigned release with accepted names through exactly when `c` and the release's checksums are sorted into one list: only if they have the same entries, and whenever they do if the names in `c` do not tie |
| ReleaseLaws.SpaceInANameIsRefused | hybrid-agent-fabric/apps/release-tool/src/release.ts:110 | a failing input: an artifact with a space in its name |
| ReleaseLaws.TrailingBreakIsAccepted | hybrid-agent-fabric/apps/release-tool/src/release.ts:109-110 | an artifact whose name is another's with a line break behind it, and of the same content, is accepted without a key |
| ReleaseLaws.AcceptedFilesMatch | hybrid-agent-fabric/apps/release-tool/src/release.ts:109-116 | acceptance means that every line names a file that is there and hashes to its digest |
| ReleaseLaws.TamperingIsDetected | hybrid-agent-fabric/apps/release-tool/src/release.ts:114 | removing a listed file without a line break in its name, or giving it contents of another digest, makes verification fail |
| ReleaseLaws.TamperingBehindALineBreak | hybrid-agent-fabric/apps/release-tool/src/release.ts:109-114 | a file with a line break in its name can be changed or removed without any effect on verification |
| ReleaseOrder.ReleaseIgnoresOrder | hybrid-agent-fabric/apps/release-tool/src/release.ts:58-99 | permuting directory listings, lock keys and the artifact list changes no file of the release, the checksum text and the signature included, when no names of one directory, no components and no artifact names tie |
| ReleaseOrder.TiedArtifactsShow | hybrid-agent-fabric/apps/release-tool/src/release.ts:91 | false property otherwise: artifacts whose paths tie give two checksum files in two orders |
| ReleaseOrder.ReleaseErrorIgnoresOrder | hybrid-agent-fabric/apps/release-tool/src/release.ts:58-99 | whether the release goes through never depends on the order, whatever ties |
| Sse.DrainBuffer | hybrid-agent-fabric/apps/headless-client/src/client.ts:312-321 | the inner loop takes complete blocks off the buffer until none is left or one fails |
| Sse.ParseSse | hybrid-agent-fabric/apps/headless-client/src/client.ts:302-325 | the generator, chunk by chunk, equals the recursive reading |
| SseContents.BlockMeans | hybrid-agent-fabric/apps/headless-client/src/client.ts:316-320 | a block's data joins what its data lines carry behind white space; no data passes it over, more than 4 MiB and text that is not JSON are errors, objects are delivered, other JSON is passed over |
| SseContents.Utf8Length | hybrid-agent-fabric/apps/headless-client/src/client.ts:318-322 | the bounds count bytes of UTF-8 |
| SseContents.FirstBadBlockEnds | hybrid-agent-fabric/apps/headless-client/src/client.ts:312-322 | of text that fits, however it is cut, the events before the first bad block are delivered, and the stream ends with its error |
| SseLaws.DrainInTwoParts | hybrid-agent-fabric/apps/headless-client/src/client.ts:311-321 | draining a text is draining its first part and then what is left over with the second |
| SseLaws.ChunksReadAsOneText | hybrid-agent-fabric/apps/headless-client/src/client.ts:302-325 | while frames fit, reading chunk by chunk from any residual is reading the concatenation at once |
| SseLaws.ReadsAsUnboundedExactlyWhenItFits | hybrid-agent-fabric/apps/headless-client/src/client.ts:302-325 | text without carriage returns reads as if there were no bound, in every cut, exactly when every frame up to the first failing one, with the first newline of its terminator, and what is left behind the last are within 4 MiB |
| SseLaws.CutsReadAlikeExactlyWhenBlind | hybrid-agent-fabric/apps/headless-client/src/client.ts:302-325 | any two cuts of such text read alike exactly when every complete frame up to the first failing one is within that bound, or the text yields nothing and overflows from the first larger frame on |
| SseLaws.FrameAtTheLimitIsLost | hybrid-agent-fabric/apps/headless-client/src/client.ts:322 | a failing input: a frame of exactly 4 MiB is read in one piece and lost in two |
| SseLaws.LineEndingsSurviveExactlyUnsplit | hybrid-agent-fabric/apps/headless-client/src/client.ts:311 | normalising line ends chunk by chunk equals normalising the whole exactly when no cut falls inside a CRLF |
| SseLaws.UnsplitChunksReadAsOneText | hybrid-agent-fabric/apps/headless-client/src/client.ts:302-325 | so chunks that split no CRLF read as the normalised whole |
| SseLaws.SplitCrlfLosesAnEvent | hybrid-agent-fabric/apps/headless-client/src/client.ts:311 | false property: a cut inside the second CRLF of a terminator loses the event |
| EventWriter.EventStream.Send | hybrid-agent-fabric/apps/control-api/src/main.ts:2308-2311 | writes nothing for an internal event and one data line with a blank line for another; the text written stays the text of the frames sent |
| EventWriter.EventStream.Beat | hybrid-agent-fabric/apps/control-api/src/main.ts:2314 | writes one comment line with a blank line, which no reader delivers |
| EventWriter.EventStream.Replay | hybrid-agent-fabric/apps/control-api/src/main.ts:2312 | stored events are written first, in order |
| StreamLaws.CompactHasNoControl | hybrid-agent-fabric/apps/control-api/src/main.ts:2310 | compact JSON has no control character, so a frame is one line |
| StreamLaws.StreamRoundTrip | hybrid-agent-fabric/apps/headless-client/src/client.ts:302-325 | any sequence of event and heartbeat frames, cut anywhere, reads back as exactly the public events in order, each as its JSON text carries it, undefined properties dropped |
| StreamLaws.StreamPrefixRoundTrip | hybrid-agent-fabric/apps/headless-client/src/client.ts:302-325 | a stream that breaks off anywhere reads back as the public events of the frames that arrived whole |
| StreamLaws.ParseInverts | hybrid-agent-fabric/apps/headless-client/src/client.ts:319 | the modelled JSON parser meets what the stream laws ask of a parser |
| StreamLaws.AnEventAtTheLimitIsLost | hybrid-agent-fabric/apps/headless-client/src/client.ts:322 | an input `FrameAtTheLimitIsLost` speaks of: an event of exactly 4 MiB, read in one piece and lost in two |
| StreamLaws.ACutCrlfLosesAnEvent | hybrid-agent-fabric/apps/headless-client/src/client.ts:311 | inputs `SplitCrlfLosesAnEvent` speaks of, one for every number of blanks in the frame |
| Canvas.ReadStream | hybrid-agent-fabric/apps/canvas-web/src/App.tsx:313-318 | the reading loop of the Canvas equals its recursive form |
| Canvas.BlockDecides | hybrid-agent-fabric/apps/canvas-web/src/App.tsx:317 | a block is handled if it is `data: ` and JSON with a textual type; any other data stops the loop |
| Canvas.PageStopsAtFirstFailure | hybrid-agent-fabric/apps/canvas-web/src/App.tsx:313-318 | the page handles what it can up to the first block that stops its loop, and nothing behind it |
| Canvas.SplitIsExtract | hybrid-agent-fabric/apps/canvas-web/src/App.tsx:316 | `split` on blank lines gives the blocks and the residual of the `indexOf` loop |
| Canvas.FramingsAgree | hybrid-agent-fabric/apps/canvas-web/src/App.tsx:315-316 | after every chunk of text without carriage returns both clients have taken the same blocks and hold the same residual |
| Canvas.ClientReadsThePagesBlocks | hybrid-agent-fabric/apps/canvas-web/src/App.tsx:313-318 | on such text `parseSse` delivers the events of the page's blocks up to the first that fails, ends without an error exactly when none fails, and if its buffer overflows has delivered the start of them |
| Canvas.ReadersAgreeOnServerOutput | hybrid-agent-fabric/apps/canvas-web/src/App.tsx:313-318 | on what the server writes both clients handle the same events, and neither fails |
| Subscriber.Subscribe | hybrid-agent-fabric/apps/headless-client/src/client.ts:179-211 | the retry loop equals the recursive run over any script of attempts |
| SubscriberEnds.StatusDecides | hybrid-agent-fabric/apps/headless-client/src/client.ts:262-272 | a refused attempt that is not aborted is followed by another exactly for the statuses 408, 409, 425, 429 and those from 500 on; any other ends the run with an API error that is not retryable |
| SubscriberEnds.StreamDecides | hybrid-agent-fabric/apps/headless-client/src/client.ts:187-205 | a connection that streamed: what the consumer raises decides, then an oversized event or buffer, which ends the run with a 502 that is not retryable, or bad JSON, then how the connection ended |
| SubscriberEnds.ConnectingDecides | hybrid-agent-fabric/apps/headless-client/src/client.ts:191-205 | a request that fails outright ends the run exactly for an AbortError or an API error that is not retryable; a response without a body is tried again |
| SubscriberEnds.AbortEnds | hybrid-agent-fabric/apps/headless-client/src/client.ts:201-203 | an attempt by whose end the signal is aborted is the last, and the subscription returns |
| SubscriberEnds.ConsumerFailsLast | hybrid-agent-fabric/apps/headless-client/src/client.ts:195-199 | what the consumer raises is what it raised at the last event it was handed, and it raised at no earlier one |
| SubscriberEnds.DeliveredNumbersIncrease | hybrid-agent-fabric/apps/headless-client/src/client.ts:195-199 | the numbers handed over are the events' own `sequence`, and strictly increase past the cursor |
| SubscriberEnds.MaxDelayIs | hybrid-agent-fabric/apps/headless-client/src/client.ts:182 | the longest wait: the option, but at least 250 and at most 30,000; 10,000 without one |
| Subscriber.ConsumeEvents | hybrid-agent-fabric/apps/headless-client/src/client.ts:195-199 | events at or before the cursor are passed over, the cursor moves before each delivery, and a failing consumer stops it |
| SubscriberLaws.DeliveriesIncrease | hybrid-agent-fabric/apps/headless-client/src/client.ts:195-199 | over every run the sequence numbers delivered strictly increase past the starting cursor |
| SubscriberLaws.RequestsResume | hybrid-agent-fabric/apps/headless-client/src/client.ts:185-208 | each request but the first asks for the number announced before it, which is that of the last event delivered by then |
| SubscriberLaws.EarlierDeliveriesFirst | hybrid-agent-fabric/apps/headless-client/src/client.ts:179-211 | what the first connections of a run deliver comes first in what it delivers |
| SubscriberLaws.DeliveriesAreContiguous | hybrid-agent-fabric/apps/headless-client/src/client.ts:179-211 | when each connection serves a prefix of the history after the requested cursor, all deliveries over all reconnects are one contiguous piece of it |
| SubscriberLaws.FullConnectionCatchesUp | hybrid-agent-fabric/apps/headless-client/src/client.ts:195-201 | a connection that arrives whole delivers everything after the cursor |
| SubscriberLaws.DelayIsCappedDoubling | hybrid-agent-fabric/apps/headless-client/src/client.ts:207 | every delay is min(maximum, 250 times 2 to the attempt before), so the cap of 8 on the exponent never shows |
| SubscriberLaws.MaxDelayBounds | hybrid-agent-fabric/apps/headless-client/src/client.ts:182 | the maximum lies between 250 and 30,000 whatever the option |
| SubscriberLaws.DelaysBackOff | hybrid-agent-fabric/apps/headless-client/src/client.ts:194-208 | over every run an attempt number is one more than the last, and one exactly behind a connection that streamed; every delay is the capped doubling for its number |
| SubscriberLaws.DelaysNeverShrink | hybrid-agent-fabric/apps/headless-client/src/client.ts:207 | so delays do not shrink over consecutive failures, and lie between 250 ms and the maximum |
| SubscriberLaws.EndsOnlyForGoodReason | hybrid-agent-fabric/apps/headless-client/src/client.ts:183-205 | the loop ends exactly at the first attempt with the signal aborted, an AbortError, or an API error that is not retryable, and says which |
| SubscriberLaws.RetriesForever | hybrid-agent-fabric/apps/headless-client/src/client.ts:202-209 | transient failures never end it |
| SessionSnapshot.PublicSessionSnapshot | hybrid-agent-fabric/apps/control-api/src/main.ts:1847-1868 | the messages and the entries of the result are those that are not hidden, each once and in their order; its tree is fresh and shows the projection of the given one, with the projected leaf; the given snapshot is untouched |
| SessionSnapshot.Reparent | hybrid-agent-fabric/apps/control-api/src/main.ts:1854-1858 | the in-place loop gives each entry its nearest visible ancestor in the original tree, in any order of the entries, although the map aliases them |
| SessionSnapshot.NearestVisible | hybrid-agent-fabric/apps/control-api/src/main.ts:1856 | the inner walk ends and finds the nearest visible ancestor |
| SessionSnapshot.VisibleLeaf | hybrid-agent-fabric/apps/control-api/src/main.ts:1860-1865 | the active leaf is moved as the projection says |
| SessionSnapshot.HideEntries | hybrid-agent-fabric/apps/control-api/src/main.ts:1850-1866 | the whole projection in place |
| Forest.ProjectionIsAForest | hybrid-agent-fabric/apps/control-api/src/main.ts:1851-1859 | the projection is acyclic, parent-closed if the tree was, and has exactly the visible entries |
| Forest.HidingPreservesAncestry | hybrid-agent-fabric/apps/control-api/src/main.ts:1854-1858 | the projected chain of ancestors is the original chain with hidden entries removed |
| Forest.ProjectionIsIdempotent | hybrid-agent-fabric/apps/control-api/src/main.ts:1847-1868 | projecting twice is projecting once |
| Forest.RanksDoNotMatter | hybrid-agent-fabric/apps/control-api/src/main.ts:1856 | the nearest visible ancestor does not depend on the rank that shows the walk to end |
| Forest.ActivePathIsPreserved | hybrid-agent-fabric/apps/control-api/src/main.ts:1860-1865 | the projected leaf is visible; its path is the original active path with hidden entries removed if any of it is visible, else it is the last visible entry or absent |
| TreePanel.GroupByParent | hybrid-agent-fabric/apps/canvas-web/src/App.tsx:599 | the grouping loop files every entry under its parent, in order |
| TreePanel.GroupInOrder | hybrid-agent-fabric/apps/canvas-web/src/App.tsx:599 | the group of a key holds, in order, the entries with that parent, and under "root" those without one |
| TreePanel.ParentsComeFirst | hybrid-agent-fabric/apps/canvas-web/src/App.tsx:599 | wherever rendering visits the parent of an entry it visits the entry after it |
| TreePanel.ActiveSet | hybrid-agent-fabric/apps/canvas-web/src/App.tsx:599 | the walk from the active leaf collects exactly its chain of ancestors |
| TreePanel.RendersOnceExactlyWhenRooted | hybrid-agent-fabric/apps/canvas-web/src/App.tsx:599 | rendering from "root" visits every entry once exactly when every chain of parents ends at a root |
| TreePanel.UnknownParentHidesAll | hybrid-agent-fabric/apps/canvas-web/src/App.tsx:599 | a failing input: an entry whose parent is unknown is not rendered, nor is anything below it |
| TreePanel.PanelShowsProjection | hybrid-agent-fabric/apps/canvas-web/src/App.tsx:599 | on a projected tree every visible entry is rendered once, and the active chain is the original one without hidden entries, or if nothing is left of it that of the last visible entry |
| Kernel.HostBridge.Call | hybrid-agent-fabric/python/kernel_server.py:47-74 | outside an execution it raises and touches nothing; inside it sends one request with the current fields and returns exactly from a matching affirmative frame |
| KernelResults.AnswerDecides | hybrid-agent-fabric/python/kernel_server.py:64-74 | a call returns exactly from an affirmative response with its request, execution and generation, and then the response's result, or null |
| Kernel.HostBridge.Execute | hybrid-agent-fabric/python/kernel_server.py:98-116 | the executed code's calls, in order, up to the first failure it does not survive |
| Kernel.HandleLine | hybrid-agent-fabric/python/kernel_server.py:152-186 | one turn of the main loop; the bridge is empty before and after it |
| Kernel.Run | hybrid-agent-fabric/python/kernel_server.py:149-186 | the main loop equals the recursive run and leaves the bridge empty |
| KernelResults.ResultsReportTruly | hybrid-agent-fabric/python/kernel_server.py:152-186 | over every run the result of an execute line is ok exactly when it has its three fences, every attempt in between returned or was caught, all calls were made, and the code did not raise; of a snapshot or restore exactly when it has a path and the store succeeds; of a shutdown always; of any other line never |
| KernelResults.RunEndsAtShutdown | hybrid-agent-fabric/python/kernel_server.py:173-175 | every run ends at the first shutdown it takes, leaving the rest unread, and at the end of the input if it takes none |
| KernelResults.FalsyValues | hybrid-agent-fabric/python/kernel_server.py:72 | an answer is affirmative unless its `ok` is missing, null, false, zero or empty |
| KernelLaws.EveryLineIsReadOnce | hybrid-agent-fabric/python/kernel_server.py:60-64 | every input line is read once, in order, by the main loop or by one pending host call; the rest stays unread |
| KernelLaws.EveryRunFollowsProtocol | hybrid-agent-fabric/python/kernel_server.py:149-186 | every run is accepted by the protocol automaton: one result per line taken, requests only in between and speaking for the frame being handled, answers fenced by request, execution and generation, and nothing left unread unless a shutdown was handled |
| KernelLaws.EachLineGetsOneResult | hybrid-agent-fabric/python/kernel_server.py:178-186 | the result ids, in order, are the ids of the lines taken where these are JSON objects, and otherwise that of the last object before, or null |
| KernelLaws.GarbageBorrowsAnId | hybrid-agent-fabric/python/kernel_server.py:181 | false property: a line that is no JSON object is answered under the id of an earlier frame |
| KernelLaws.CallsStopAtTheFirstFailure | hybrid-agent-fabric/python/kernel_server.py:60-74 | an execution makes its calls in order and is done exactly when no failure got through |
| KernelLaws.NoResponseServesTwoRequests | hybrid-agent-fabric/python/kernel_server.py:65-71 | with fresh request ids, a line that made one call of a run return answers the request right before it, and would not have made any other call return |
| KernelSnapshot.Namespace.Snapshot | hybrid-agent-fabric/python/kernel_server.py:119-134 | the loop computes the saved values, the skipped names and the file |
| KernelSnapshot.Namespace.Restore | hybrid-agent-fabric/python/kernel_server.py:137-146 | updates the namespace with the file's values, or leaves it unchanged when there is no file or no valid one |
| KernelSnapshotLaws.SavedExactlyWhenStorable | hybrid-agent-fabric/python/kernel_server.py:86-95 | a value is saved exactly when every part at every path is supported and at most eight levels deep, as itself with tuples turned into lists |
| KernelSnapshotLaws.SnapshotSplitsTheNames | hybrid-agent-fabric/python/kernel_server.py:119-134 | the names but `haf`, `Path` and those with an underscore in front split into saved and skipped by that condition |
| KernelSnapshotContents.SavedInOrder | hybrid-agent-fabric/python/kernel_server.py:122-130 | saved are, in the order of the namespace, the storable values of names other than `haf`, `Path` and those with an underscore in front |
| KernelSnapshotContents.SkippedInOrder | hybrid-agent-fabric/python/kernel_server.py:122-130 | skipped are the others of these names, each for the first part of its value, from the outside in and in order, that is too deep or unsupported |
| KernelSnapshotLaws.RestoreBringsBackWhatWasSaved | hybrid-agent-fabric/python/kernel_server.py:137-146 | restoring into any namespace sets every saved name to its value with tuples turned into lists and leaves all other names as they were |
| KernelSnapshotContents.FileDecides | hybrid-agent-fabric/python/kernel_server.py:139-144 | no file and a file without "values" restore nothing; data that is no dictionary, or "values" that are none, are errors |
| KernelSnapshotLaws.SecondSnapshotAgrees | hybrid-agent-fabric/python/kernel_server.py:119-146 | a snapshot taken after restoring saves these names with the same values |
| Rpc.HeadlessRpcServer.HandleLine | hybrid-agent-fabric/apps/headless-client/src/rpc.ts:13-21 | the state and what is sent for a line are those of the specification |
| RpcAnswers.OtherLinesAreErrors | hybrid-agent-fabric/apps/headless-client/src/rpc.ts:13-18 | a line of more than 1 MiB or that is not JSON gets -32700, other JSON than a call -32600 under its id if that is a text or number |
| RpcAnswers.RefusedCallsAreErrors | hybrid-agent-fabric/apps/headless-client/src/rpc.ts:23-68 | a call is refused, and changes nothing, with -32000 when closed, -32602 for parameters that are no object or not in order, -32601 for an unknown method |
| RpcAnswers.ParametersAreChecked | hybrid-agent-fabric/apps/headless-client/src/rpc.ts:117-140 | which parameters each method needs, and what makes a text or number acceptable |
| RpcAnswers.OtherCallsAsk | hybrid-agent-fabric/apps/headless-client/src/rpc.ts:28-68 | `initialize` tells of the server, and the other methods answer with what the API does, or with -32000 less its status, at most 999 |
| Rpc.HeadlessRpcServer.Perform | hybrid-agent-fabric/apps/headless-client/src/rpc.ts:28-62 | each method's effect on the subscriptions and its verdict |
| Rpc.HeadlessRpcServer.DoSubscribe | hybrid-agent-fabric/apps/headless-client/src/rpc.ts:78-92 | refuses at 100 live subscriptions, else the fresh id becomes live with a controller of its own |
| Rpc.HeadlessRpcServer.DoUnsubscribe | hybrid-agent-fabric/apps/headless-client/src/rpc.ts:94-100 | a live subscription is aborted and removed; for another id nothing changes |
| Rpc.HeadlessRpcServer.DoShutdown | hybrid-agent-fabric/apps/headless-client/src/rpc.ts:71-76 | aborts exactly the live subscriptions and empties the map |
| Rpc.HeadlessRpcServer.SubscriptionEnded | hybrid-agent-fabric/apps/headless-client/src/rpc.ts:90 | a subscription that settles is removed, and one already gone changes nothing |
| RpcAnswers.SubscribeOpens | hybrid-agent-fabric/apps/headless-client/src/rpc.ts:78-92 | a served subscribe makes the new id live and answers with it, or is refused at 100 |
| RpcAnswers.UnsubscribeRemoves | hybrid-agent-fabric/apps/headless-client/src/rpc.ts:94-100 | a served unsubscribe aborts the id it names, white space around it aside, and answers whether it was live |
| RpcAnswers.LivesExactlyWhenOpenedAndLeft | hybrid-agent-fabric/apps/headless-client/src/rpc.ts:71-100 | after every run a subscription is live exactly if a step opened it and no later one shut the server down, unsubscribed it or ended it |
| RpcLaws.EachLineIsAnswered | hybrid-agent-fabric/apps/headless-client/src/rpc.ts:13-21 | a request with an id gets one response with that id, a notification none, any other line one error with the right code |
| RpcLaws.RunsAnswerEachLine | hybrid-agent-fabric/apps/headless-client/src/rpc.ts:13-21 | over a run the ids of the responses are, in order, those owed to the lines that are not notifications |
| RpcLaws.RunsKeepSubscriptions | hybrid-agent-fabric/apps/headless-client/src/rpc.ts:78-100 | over every run at most 100 are live, every id goes from live to gone and never back, and how it went is never changed |
| RpcLaws.NothingLivesAfterShutdown | hybrid-agent-fabric/apps/headless-client/src/rpc.ts:71-76 | after a shutdown, whatever follows, none is live, exactly those opened before have ended or been aborted, and none is opened |

## Left out

- Release.OutputDirectory.PrepareRelease: does not model the checks that stop `prepareRelease` before anything is written (release.ts:44-49), namely an output path outside the root, a `package.json` without a name or version, and a source date that is not an integer from 0 to 253402300799; nor inputs that cannot be read and failures of the file system.
- Strings are sequences of Unicode scalar values: lone surrogates, and lengths counted in UTF-16 units, are not modelled.
- JSON numbers other than integers, their exponent form from 1e21 on, negative zero, reordering of integer-like names, and repeated names or `__proto__` in `JSON.parse` are not modelled.
- The streaming UTF-8 decoder: a chunk is already text. An event's `sequence` is an integer or absent.
- A throwing `onReconnect`, timeouts, and the `afterSequence` fraction that `Math.floor` cuts off.
- The step from replaying stored events to subscribing (control-api main.ts:2312-2313) is capped at 5,000 events and may miss events in between; that each connection serves a prefix of the history is an assumption of `DeliveriesAreContiguous`.
- `resolve`, `realpath` and symlinks in output paths; `assertInside` beyond the names `verifyRelease` reads; file modes of what is written; the source date; the 4 GiB bound, which is folded into an artifact being regular.
- That CycloneDX and SPDX consumers accept the documents.
- Collision resistance of SHA-256 and unforgeability of Ed25519.
- `structuredClone` of fields other than id, parent and hidden flag; cyclic parent chains, on which the walks of the source do not end.
- `handle` of the Canvas beyond which events it reads; React, Markdown, virtual lists, the service worker, the terminal interface, the ACP server.
- Threads that call the host bridge, code that alters the bridge's fields, and kernel frames that `json.dumps` cannot write.
- The JSON text of a kernel snapshot, cyclic Python values, subclasses of the built-in types, and integers beyond Python's digit limit; a snapshot file is the data it holds.
- What `execute` returns besides success, and how snapshots and restores fail in the file system: each run is given these.
- Notifications a live RPC subscription emits, and requests in flight when a subscription ends.
- `boundedText` and `boundedJson`, the REST routes, zod schemas, environment parsing and the argument parsers: easy members only.
- The engine behind the Control API (scheduler, leases, journals) is not part of this model.

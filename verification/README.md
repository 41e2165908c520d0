# korpus, verified

korpus backs up the objects of a Kubernetes cluster into a git repository and serves queries
over that repository. This project models the parts of it where correctness is not obvious and
proves them. The parts form one chain:

- **daemon**: a cluster listing is filtered by rules (`Rules`), stripped of configured field
  paths (`Sanitizer`), laid out as files (`Layout`), written to a git worktree, committed and
  pushed (`Backup`);
- **server**: each pull rebuilds three indexes (`ServerState`): the resources of the checkout
  (`Index`, `ObjectMap`, `Cel`), the commits by time (`CommitIndex`) and the changes by time
  (`ChangeLog`, `BatchReader`, `Kinds`, `ChangeIndex`);
- **queries**: pages of history (`ChangeQueries`), change rates (`Volatility`,
  `FieldVolatility`, `FieldDiff`), snapshots of a past commit against the live index
  (`Snapshot`), and the line diff of the resource view (`LineDiff`).

`Strings.dfy` and `Values.dfy` hold the text functions and the decoded documents all of these share.

## How to read it

Code that changes state step by step is a method or a class method with the source's loops and
branches. Its `ensures` ties it to a specification function or predicate; the lemmas then say
what that specification means. Failures of git, the file system and the environment are
nondeterministic choices (`if *`), and the results are proved for every choice. Map iteration is
a choice too. A sort with ties is any sorted permutation.

Where the code does less than its own documentation says, the model follows the code, and a
lemma gives the exact condition under which the two agree:

- A CEL query is answered on a partial object, and the full document is loaded only after "no
  such key". Every answer is right for every expression of the fragment exactly when the document
  has a string namespace or an indexed field reaches it (`Index.FragmentTrustedIff`). Otherwise
  `object.metadata.namespace == ""` is answered `true` without a look at the document, while an
  expression that never asks for a `namespace` is always right (`Index.NamespaceFreeTrusted`). A presence
  test `has(object.a.b.c)` is right exactly under the condition in `Index.PresenceTrustedIff`; without
  indexed fields `has(object.metadata.annotations)` is always false (`Index.AnnotationsMissed`).
- An error of the partial evaluation other than "no such key" is final, even when the full
  document has an answer (`Index.ErrorBeforeMissingKeyIsFinal`). This needs an operand of `&&` or
  `||` that misses a key; where there is none, queries also fail exactly when the full scan does.
- The configured `subDir` is cleaned by `filepath.Join` where files are written and indexed, and
  used as it is spelled where git history is read. With `cluster/` the historical snapshot is empty
  (`Snapshot.TrailingSlashHidesHistory`); the snapshots agree exactly for a clean spelling
  (`Snapshot.SnapshotsAgreeIff`), and so do the lookups of field frequencies
  (`FieldVolatility.FindsOwnFileIff`). The change index accepts one slash at the end
  (`ChangeLog.DaemonFileRelevantIff`).
- git quotes paths with bytes outside printable ASCII, quotes or backslashes, and the log parser
  does not undo it. A change is indexed exactly when it is a resource's and its path is not quoted
  (`ChangeLog.SpelledRelevantIff`); a cluster role named "café" has no history
  (`ChangeLog.CafeIsLost`), and a directory git quotes has no history at all
  (`ChangeLog.QuotedDirectoryEmptiesIndex`).
- A "missing" line of `cat-file` takes bytes of later entries exactly when the second word of the
  missing name is `blob` and the third is a number other than 0 (`BatchReader.MissingLeavesRestIff`,
  `BatchReader.InStepIff`). A cluster role named "x blob 57 y" has such an object name
  (`ChangeIndex.SpacedPathLosesStep`).
- `kindFromYAML` expects the kind near the top of a file, but keys are written sorted, so a config
  map's data stands before its kind. If no line before it reads as a kind line, the document's own kind
  is recorded exactly when its line ends within the first 512 bytes (`Kinds.OwnKindReadIff`); an
  earlier such line is taken instead (`Kinds.EarlierKindWins`). A config map with 490 bytes of data is recorded without a kind
  (`Kinds.LongConfigMapHasNoKind`), and one that holds a manifest with the kind of that manifest
  (`Kinds.ConfigMapTakesManifestKind`).
- `Volatility` notes a commit before it tests the cap, so `Total` is the cap plus one when
  commits were cut off, and zero without a cap (`Volatility.RatiosAreProper`,
  `Volatility.UncappedRatiosAreZero`).
- The field frequencies examine the oldest matching events, not the most recent ones, unless none
  is cut off or all are of one time (`FieldVolatility.MostRecentExaminedIff`, `FieldVolatility.OlderIsExamined`); the file of an event
  is looked up by group, namespace and name alone, so it can be another resource's
  (`FieldVolatility.FindsOwnFileIff`, `FieldVolatility.ServiceReadsConfigMap`,
  `FieldVolatility.DeletionBlamesNamesake`); and a field can
  be counted twice in one event when keys hold dots (`FieldVolatility.DottedKeysCountTwice`).
- The documentation of `IsCELObjectExcluded` says any true expression excludes an object; one that
  fails earlier in the rules prevents it (`Rules.CELExclusionIff`, `Rules.FailureBeforeTrueKeeps`).
- The daemon sanitises an object before it reads the name for the path, so a field path that
  strips the name or namespace changes the file (`Backup.FiledUnderListedIdentityIff`); a rule that
  strips `metadata.name` sends all cluster roles to one file (`Backup.StrippedNamesShareFile`).
- A push can be reported as failed after it landed. Then the tick fails and its commit stays
  (`Backup.Runner.CommitAndPush`); that commit is a backup like any other.
- A failed re-clone leaves no git client; the next tick ends the process
  (`Backup.Runner.RunOnce`, `ServerState.FailedRecloneEndsInCrash`, `ServerState.FailedRecloneHappens`).
- A reader that fetches the commit index and then the change index can see two different rebuilds
  (`ServerState.TornReadIff`, `ServerState.TornReadHappens`).

## Model

| member | source | states |
|---|---|---|
| LineDiff.FillRow | cmd/server/frontend/src/components/ResourceDetail.tsx:122-127 | one inner loop fills its table row with the subsequence lengths of the prefixes and leaves every other row alone |
| LineDiff.FillTable | cmd/server/frontend/src/components/ResourceDetail.tsx:119-127 | after both loops every cell holds the length for its two prefixes |
| LineDiff.Align | cmd/server/frontend/src/components/ResourceDetail.tsx:129-148 | the walk back yields two columns that pair row by row, read alone as the two inputs, and have as many equal rows as the last cell says, with removed rows above added ones |
| LineDiff.LcsIsUpperBound | cmd/server/frontend/src/components/ResourceDetail.tsx:122-127 | no common subsequence of two prefixes is longer than their table cell |
| LineDiff.EqualLinesAreCommon | cmd/server/frontend/src/components/ResourceDetail.tsx:129-148 | the equal rows of any alignment are a common subsequence, and its edits are both lengths minus twice the equal rows |
| LineDiff.FullTableIsOptimal | cmd/server/frontend/src/components/ResourceDetail.tsx:119-148 | an alignment with that many equal rows has a longest common subsequence, fewest edits and fewest rows of all alignments |
| LineDiff.ComputeLineDiff | cmd/server/frontend/src/components/ResourceDetail.tsx:107-151 | for all texts the columns give the texts back, are optimal among all alignments, show no added row directly above a removed one, and are identical exactly for identical texts |
| Sanitizer.ParsePath | internal/sanitizer/sanitizer.go:30-76 | the scanner loop computes the segments of a path, escapes, quotes and brackets included |
| Sanitizer.PrintedPathScansBack | internal/sanitizer/sanitizer.go:30-76 | any non-empty keys, printed with dots or quoted escaped brackets, scan back to the same keys |
| Sanitizer.PrintedPiecesScanBack | internal/sanitizer/sanitizer.go:30-76 | any segments printed with dots, quoted escaped brackets or unquoted brackets such as `[*]` scan back to the same segments |
| Sanitizer.OpenBracket | internal/sanitizer/sanitizer.go:46-75 | a bracket that is never closed still gives its segment |
| Sanitizer.NestedBracket | internal/sanitizer/sanitizer.go:58-66 | a bracket opened inside another one ends the first segment |
| Sanitizer.LastBackslash | internal/sanitizer/sanitizer.go:53-57 | a backslash at the end of a quoted key stands for itself |
| Sanitizer.SegmentsAreNonEmpty | internal/sanitizer/sanitizer.go:46-75 | no scan of any text yields an empty segment |
| Sanitizer.DeleteAtLocations | internal/sanitizer/sanitizer.go:78-107 | deleting a pattern removes the locations it matches, with `[*]` over the maps of an array, and all below them; every other location keeps its value |
| Sanitizer.DeleteAllLocations | internal/sanitizer/sanitizer.go:21-25 | a location survives a list of paths exactly when no path of the list removes it |
| Sanitizer.PathTextDeletes | internal/sanitizer/sanitizer.go:12-107 | a path text removes exactly the location its keys lead to with all below it |
| Sanitizer.WildcardTextDeletes | internal/sanitizer/sanitizer.go:78-107 | a text such as `a.b[*].k` removes `k` from every map element of the list at `a.b`, and every other location keeps its value |
| Sanitizer.HeartbeatsAreDeleted | internal/defaults/excludes.go:158 | so for the shipped path of nodes: exactly the heartbeat times of all conditions go |
| Sanitizer.OrderAndRepetitionIrrelevant | internal/sanitizer/sanitizer.go:21-25 | path lists with the same patterns, in any order and repetition, give the same object |
| Sanitizer.DeleteAllIdempotent | internal/sanitizer/sanitizer.go:21-25 | sanitising twice is sanitising once |
| Sanitizer.Unstructured.DeleteField | internal/sanitizer/sanitizer.go:12-18 | the object becomes the deletion of one path from it; a path without segments changes nothing |
| Sanitizer.Unstructured.DeleteFields | internal/sanitizer/sanitizer.go:21-25 | the object becomes the deletion of all paths from it |
| Rules.IsExcluded | internal/config/config.go:251-269 | true exactly when the first plain rule naming the type excludes it, or none names it and the built-in list does |
| Rules.IsObjectExcluded | internal/config/config.go:274-289 | true exactly when the first rule whose object filter matches excludes |
| Rules.IsBuiltinObjectExcluded | internal/config/config.go:296-312 | true exactly when built-ins are on and an owner has a kind listed for the type |
| Rules.IsCELObjectExcluded | internal/config/config.go:318-343 | the first applicable expression that holds or fails decides; otherwise the object is kept |
| Rules.NamedIff | internal/config/config.go:240-245 | a rule text names a type exactly when its part before the first dot is the resource and the rest, if there is one, is the non-empty group |
| Rules.RulesLookedAt | internal/config/config.go:251-372 | which rules each of the four passes looks at, told from the rule's texts alone |
| Rules.OneRuleExcludesIff | internal/config/config.go:251-269 | with one rule for types, a type is excluded exactly when the rule excludes and its text names the type, or it names another and the built-in list names this one |
| Rules.LeasesAreExcluded | internal/defaults/excludes.go:62 | the shipped entry `leases.coordination.k8s.io` excludes leases |
| Rules.OneRuleExcludesObjectIff | internal/config/config.go:274-289 | with one rule, an object is excluded exactly when the rule excludes and its type, namespace and name texts fit |
| Rules.CELExclusionIff | internal/config/config.go:314-343 | an expression that holds excludes the object exactly when no applicable one before it fails |
| Rules.FailureBeforeTrueKeeps | internal/config/config.go:334-340 | a failing expression in front keeps an object that the next one would exclude |
| Rules.FieldsOfMembers | internal/config/config.go:352-372 | a field path is resolved exactly when some contributing rule of the phase lists it |
| Rules.ResolveExcludeFields | internal/config/config.go:352-382 | the result is the contributing rules' paths in rule order, then the built-in entry of one of the object's two keys, if there is one |
| Rules.BuiltinFieldsAreNamed | internal/config/config.go:374-382 | built-in paths that are added are those of an entry whose text names the object's type, with built-ins on |
| Rules.SinglePassMatchesDocumentedOrder | internal/config/config.go:345-382 | for every object, stripping in the code's single-pass order and in the documented three-phase order gives the same object |
| Cel.StrLessIff | internal/index/index.go:338-367 | `<` on strings: the strings agree up to a place where the first ends or has the smaller character |
| Cel.OrderIsTotal | internal/index/index.go:338-367 | of two numbers, booleans or strings exactly one of `l < r`, `l == r`, `r < l` holds; other pairs are an error |
| Cel.StartsWithIff | internal/index/index.go:338-367 | a string starts with another exactly when it is that one continued |
| Cel.OrIff | internal/index/index.go:338-367 | an `or` is true with one true side even if the other fails, false with two false ones, and otherwise an error; a missing key is reported exactly where it decides |
| Cel.DeMorgan | internal/index/index.go:338-367 | negating an `and` is the `or` of the negations on every document, errors included |
| Cel.OperatorsAgree | internal/index/index.go:338-367 | presence, selection, membership, position and size tell the same of every value |
| Cel.EvalMonotone | docs/adr/0003-query-language.md:78-83 | an answer on a partial document stays an answer when the document gains keys, if no operator is used on its unstable side; keys the expression does not ask for may even differ |
| Cel.OtherErrorsPersist | internal/index/index.go:343-348 | where no operand of `&&` or `||` misses a key on the partial document, an error other than a missing key stays an error on the full one |
| Cel.NoLogicIsSettled | internal/index/index.go:343-348 | expressions without `&&` and `||` are of that kind on any document |
| Cel.FragmentIsReliable | docs/adr/0003-query-language.md:78-83 | a syntactic class of expressions uses no operator on its unstable side, on any document |
| ObjectMap.SetReadIsNoop | internal/index/index.go:383-411 | writing a value back where it was read from leaves a document as it is, so no indexed value is changed through sharing |
| ObjectMap.NestedIsAt | internal/index/index.go:397-411 | reading a split path gives what sits at the location its keys lead to, and null where nothing does |
| ObjectMap.WrittenIsRead | internal/index/index.go:383-395 | a value written to a path is found there, whatever stood in the way |
| ObjectMap.SetExtendsOverlay | internal/index/index.go:377-395 | writing one more indexed field adds its path to the set of copied paths, whatever was written before, overlapping paths included |
| ObjectMap.OverlayIsSubIff | internal/index/index.go:369-381 | a base object overlaid with reads of a document is part of it exactly when no base entry that survives contradicts the document |
| ObjectMap.RebuiltIsSubIff | internal/index/index.go:369-381 | the rebuilt object is part of the document exactly when the namespace is a string there or an indexed path reaches it |
| ObjectMap.OverlayIsSubBut | internal/index/index.go:369-381 | a base object that agrees with the document but for some keys still does when indexed values are written into it |
| ObjectMap.UnreadNamespaceStays | internal/index/index.go:370-376 | a namespace no indexed path reaches keeps what the index recorded |
| ObjectMap.OverlayPresence | internal/index/index.go:369-381 | a presence test at any depth of the rebuilt object falls back or is right exactly where the base object and the indexed paths account for the key |
| Index.EntryIsReadFrom | internal/index/index.go:71-127 | every entry records kind, name, namespace and indexed fields of one document |
| Index.IndexedFieldIff | internal/index/index.go:71-127 | a field is recorded for an entry exactly when it is configured and the document has a non-null value at its dotted keys |
| Index.APIVersionParts | internal/index/index.go:153-177 | group and version are the parts of `apiVersion` around its last slash, and the core group without one |
| Index.BuildObjectMap | internal/index/index.go:369-381 | for every iteration order of the indexed fields the rebuilt object is the same |
| Index.EvalResource | internal/index/index.go:338-367 | the partial object's answer or error, and after a missing key that of the document loaded from disk |
| Index.LoadFindsOwnDocument | internal/index/index.go:413-435 | loading finds an entry's own document when no earlier one in the file has its identity |
| Index.SameIdentityIff | internal/index/index.go:413-435 | a document answers to an entry exactly when it holds its kind up to letter case, its name and its namespace, or none |
| Index.HybridRefinesFull | internal/index/index.go:338-367 | an answer of the hybrid evaluation is that of the full document if the document meets the namespace condition or the expression asks for no namespace; where no operand of `&&` or `||` misses a key they also fail together |
| Index.UnkeptNamespaceMisleads | internal/index/index.go:370-376 | without the namespace condition a comparison of the namespace with "" is answered true and the full document says otherwise |
| Index.FragmentTrustedIff | internal/index/index.go:338-381 | all answers for the fragment are right exactly under the namespace condition |
| Index.NamespaceFreeTrusted | internal/index/index.go:338-381 | a fragment expression that asks for no namespace is answered rightly on every recorded document |
| Index.PresenceTrustedIff | internal/index/index.go:338-381 | `has(object.a1...an.k)` is right exactly when the document has no map there, the rebuilt object starts none there, or both agree on `k`, told from the document and the configured fields |
| Index.AnnotationsMissed | internal/index/index.go:338-381 | without indexed fields a presence test for the annotations is false on documents that have them |
| Index.ErrorBeforeMissingKeyIsFinal | internal/index/index.go:343-351 | the order of the operands of `||` decides between an error and an answer the full document gives either way |
| Index.QueryIsFullScan | internal/index/index.go:265-305 | over candidates that load their own documents, a query that succeeds returns what evaluating all full documents would, under the same namespace condition on the selected ones; where no operand of `&&` or `||` misses a key it also fails alike |
| Index.FullScanAnswersIff | internal/index/index.go:265-305 | the scan of full documents answers exactly when the expression has a value on every selected one |
| Index.FullScanHasIff | internal/index/index.go:265-305 | and then with exactly the entries of selected documents on which it is true |
| Index.BuiltQueryIsFullScan | internal/index/index.go:58-435 | on an index built from the files still on disk, each with its own identities, a fragment query that succeeds equals the full scan if it asks for no namespace, or every selected document has a string namespace or an indexed field reaching it |
| Index.BuiltIsTrustworthy | internal/index/index.go:413-435 | under that condition every selected entry of such an index loads its own document and is answered rightly |
| Index.ScanCandidates | internal/index/index.go:294-304 | the loop keeps matching candidates in order and stops at the first failure |
| Index.Index.Build | internal/index/index.go:58-138 | the entries of all documents in walk order replace the old ones, with the documents they are made from; on a walk error the old ones stay |
| Index.Index.List | internal/index/index.go:228-248 | exactly the entries that pass group, kind, namespace and labels, in order |
| Index.SelectedIff | internal/index/index.go:228-261 | an entry made from a document is selected exactly when group and kind fit up to letter case, the namespace fits, and for every label asked for the document holds a string there that equals the value asked for, if one is |
| Index.SelectedOfIs | internal/index/index.go:228-248 | a selected entry is listed as often as it is indexed, any other not at all |
| Index.EntryIff | internal/index/index.go:71-100 | a document has an entry exactly when it holds a kind and, in its metadata, a name |
| Index.ListedIff | internal/index/index.go:58-261 | so the listing of an index built from any files has the entry of a document exactly when group, kind, namespace and labels of that document fit |
| Index.ListedIsFromFile | internal/index/index.go:58-248 | and whatever it has is the entry of some document of some file |
| Index.Index.Query | internal/index/index.go:265-305 | the hybrid scan of the index's entries |
| FieldDiff.DiffFields | internal/gitindex/fields.go:261-289 | every line is reported once for each differing path that is printed so, whatever the map order |
| FieldDiff.PathSetIsReported | internal/gitindex/fields.go:261-289 | the set of paths counted is exactly that of the paths where the documents differ and no deeper map comparison is possible |
| FieldDiff.NothingReportedIffEqual | internal/gitindex/fields.go:261-289 | nothing is reported exactly for equal documents |
| FieldDiff.ReportIsSymmetric | internal/gitindex/fields.go:261-289 | swapping the documents reports the same paths |
| FieldDiff.ReportIsPrefixFree | internal/gitindex/fields.go:274-278 | no reported path lies below another |
| FieldDiff.CopySettlesOnePath | internal/gitindex/fields.go:261-289 | copying or deleting at one reported path settles that path and no other |
| FieldDiff.ReportIsPatch | internal/gitindex/fields.go:261-289 | copying or deleting at a list of paths, in any order, turns the first document into the second exactly when the list holds every reported path |
| FieldDiff.PrintedIsInjective | internal/gitindex/fields.go:291-296 | different paths without dots or empty keys are printed differently |
| FieldDiff.PrintedIsJoined | internal/gitindex/fields.go:291-296 | a path is printed as its keys joined by dots, unless its first key is empty |
| FieldDiff.DottedKeysCollide | internal/gitindex/fields.go:291-296 | with dots in keys two different reported paths are printed alike |
| Layout.PathText | cmd/korpus/main.go:135-167 | the text of a path: group or `core`, version, `namespaces` and the namespace for namespaced objects, type, name and `.yaml` |
| Layout.CleanStep | cmd/korpus/main.go:120-167 | cleaning a directory drops empty and `.` elements and keeps ordinary ones in order |
| Layout.CleanParent | cmd/korpus/main.go:120-167 | `..` takes the element before it away |
| Layout.CleanTwice | cmd/korpus/main.go:120-167 | cleaning a clean directory changes nothing |
| Layout.ParseInvertsLayout | internal/gitindex/change.go:386-399 | parsing the path of any resource gives its identity back, names ending in `.yaml` and the `namespaces` resource included |
| Layout.LayoutInvertsParse | internal/gitindex/change.go:386-399 | any `.yaml` path that parses with a non-empty namespace part is the path of what it parses to |
| Layout.SamePathIff | cmd/korpus/main.go:135-167 | two resources share a file exactly when they agree in all but the spelling of the core group |
| Layout.LayoutIsInjective | cmd/korpus/main.go:135-167 | with no group literally named `core`, different resources have different files |
| Layout.FilePathIsClean | cmd/korpus/main.go:120-167 | every file of the daemon has a clean path in the cleaned directory, for any spelling of the configured one |
| Layout.RawPrefixIff | internal/query/server.go:259-276 | the raw spelling of the directory finds a clean path there exactly when it is the clean one |
| CommitIndex.ReverseInPlace | internal/gitindex/commit.go:55-57 | the swap loop mirrors the array |
| CommitIndex.StableSortIsStable | internal/gitindex/commit.go:58-60 | the specified sort is a time-ordered permutation that keeps the order of equal times |
| CommitIndex.StableSortIsUnique | internal/gitindex/commit.go:58-60 | any two stable sorts of a list are the same list |
| CommitIndex.Bisect | internal/gitindex/commit.go:66-83 | the bisection finds the last entry not after the time, or none |
| CommitIndex.LookupAnswersForLog | internal/gitindex/commit.go:52-83 | after reversing and sorting, the lookup returns the latest commit not after the time and the first git listed among equals, or none exactly when all are later |
| CommitIndex.CommitIndex.constructor | internal/gitindex/commit.go:52-61 | the entries are the listed commits, reversed and stably sorted |
| CommitIndex.CommitIndex.FindBefore | internal/gitindex/commit.go:64-83 | the right answer for the log as git listed it, for every time |
| BatchReader.BatchReadKinds | internal/gitindex/change.go:179-252 | the reader loop over deduplicated names, for any output of the git process |
| BatchReader.DedupIsDistinct | internal/gitindex/change.go:184-196 | each requested name is sent once, and all are |
| BatchReader.BlobIsReadWhole | internal/gitindex/change.go:218-249 | a blob entry is consumed whole whatever bytes it holds, and gives what is read as a kind from its own first 512 bytes |
| BatchReader.MissingIsSkippedIff | internal/gitindex/change.go:222-226 | a missing entry takes the skip branch exactly when its name's second word is not `blob` |
| BatchReader.MissingLeavesRestIff | internal/gitindex/change.go:222-247 | a missing entry leaves exactly what follows it if and only if its name does not look like a header or its size reads as 0 |
| BatchReader.InStepIff | internal/gitindex/change.go:217-251 | on any well-formed stream the loop stands at the start of the right entry at every turn if and only if all missing names are of that kind |
| BatchReader.ReadAllStaysInStep | internal/gitindex/change.go:217-251 | on such a stream the loop reads entry after entry and records what each stands for |
| BatchReader.ReaderStaysInStep | internal/gitindex/change.go:179-252 | on such a stream every name is looked up as what is read as a kind from its own blob, and a missing name as none |
| BatchReader.LookalikeSwallowsNext | internal/gitindex/change.go:222-249 | a missing name that looks like a header swallows the next entry, whose name then gets no kind |
| BatchReader.TruncationNeverMisreads | internal/gitindex/change.go:217-251 | if the stream is cut anywhere, each kind read so far is still that of its own blob |
| Kinds.KindReadIff | internal/gitindex/change.go:254-268 | behind lines that read as no kind, the value of a kind line is read exactly when the line ends within the first 512 bytes, and nothing is read when it starts behind them |
| Kinds.OwnKindReadIff | internal/gitindex/change.go:254-268 | so for a document's own kind, at the start of a line |
| Kinds.EarlierKindWins | internal/gitindex/change.go:261-266 | a line before it that reads as a kind, at any depth, is taken instead |
| Kinds.LongConfigMapHasNoKind | internal/gitindex/change.go:254-268 | a config map with 490 bytes of data or more is read without a kind |
| Kinds.ConfigMapTakesManifestKind | internal/gitindex/change.go:254-268 | a config map that holds a manifest is read with the kind of that manifest |
| ChangeLog.TakeLine | internal/gitindex/change.go:97-161 | one line updates commit, time, events and queued lookups exactly as the line says |
| ChangeLog.ParseLog | internal/gitindex/change.go:91-162 | events and queued lookups are those of the relevant changes in the text, for any text |
| ChangeLog.StatusLineIff | internal/gitindex/change.go:117-124 | a line records a file exactly when it is `A`, `M` or `D`, a tab and the path |
| ChangeLog.DaemonFileRelevantIff | internal/gitindex/change.go:86-132 | the daemon's files are kept exactly when the configured directory is spelled cleanly, but for one slash at the end |
| ChangeLog.SpelledRelevantIff | internal/gitindex/change.go:67-132 | a file of git's output is kept exactly when it is a resource's and git prints its path unquoted |
| ChangeLog.QuotedNameIsLost | internal/gitindex/change.go:121-124 | a resource whose name git quotes has a file in any directory, but its changes are not kept |
| ChangeLog.CafeIsLost | internal/gitindex/change.go:121-124 | so for a cluster role named "café" |
| ChangeLog.KeptAreUnquoted | internal/gitindex/change.go:97-162 | of any changes as git prints them, exactly the relevant ones with unquoted paths are kept |
| ChangeLog.QuotedDirectoryEmptiesIndex | internal/gitindex/change.go:86-132 | with a directory git quotes nothing is kept |
| ChangeLog.LogLinesParse | internal/gitindex/change.go:97-162 | the lines of printed commits yield exactly their changes, each under its own commit, with paths in git's spelling |
| ChangeLog.PrintedLogParsesBack | internal/gitindex/change.go:67-162 | printing any commits in the requested format and parsing the text gives exactly their changes back, with paths in git's spelling |
| ChangeIndex.RefsPointAtChanges | internal/gitindex/change.go:154-161 | every change but a deletion has a queued lookup under its own name, and only those |
| ChangeIndex.FillKinds | internal/gitindex/change.go:164-168 | each event receives what was read as the kind of its own change, deletions nothing |
| ChangeIndex.SortByTime | internal/gitindex/change.go:170-172 | a time-ordered permutation |
| ChangeIndex.BuildEvents | internal/gitindex/change.go:64-174 | for any log text and any answers of git, the index is a time-ordered permutation of the parsed events with their kinds |
| ChangeIndex.KindsAreOwn | internal/gitindex/change.go:164-252 | with git answering for its blobs, each change gets what is read as a kind from its own file at its own commit, as long as missing names keep the reader in step |
| ChangeIndex.RecordedKindIff | internal/gitindex/change.go:164-268 | the kind recorded for a change is its document's own exactly when the kind line ends within the first 512 bytes, if no line before it reads as a kind |
| ChangeIndex.IndexHoldsTheHistory | internal/gitindex/change.go:64-174 | from printed commits to index: exactly their resource changes with unquoted paths, time-ordered, each with what is read as a kind from its own file, and no panic |
| ChangeIndex.EventsAreReports | internal/gitindex/change.go:64-174 | an event is in the index exactly when some file of some printed commit, unquoted and below the prefix, is reported by it: the commit's id and time, the file's group, namespace and name, `Added`, `Deleted` or `Modified` for `A`, `D` or `M`, and the kind read from that file |
| ChangeIndex.ResourceChangeIsReported | internal/gitindex/change.go:134-161 | so every change of a resource's file with an unquoted path has its event |
| ChangeIndex.SpacedPathLosesStep | internal/gitindex/change.go:154-249 | for every possible next entry there is a resource whose `sha:path` name makes the reader lose it when git lacks the file |
| ChangeQueries.Query | internal/gitindex/change.go:275-325 | the page of the matching events, newest first, and their number |
| ChangeQueries.AnswerCount | internal/gitindex/change.go:282-308 | every event is answered as often as it is indexed if its own time, cluster, group, kind, namespace, name and type fit, and otherwise not at all |
| ChangeQueries.PeriodIsSlice | internal/gitindex/change.go:283-288 | on an index in order of time a period cuts out one slice; before it everything is earlier than `since`, behind it everything later than `until`, and nothing inside is either |
| ChangeQueries.PageOf | internal/gitindex/change.go:314-324 | the reversing copy loop yields that page |
| ChangeQueries.Paginate | internal/query/server.go:47-57 | the clamped bounds cut the page out of any list of that length |
| ChangeQueries.PagesArePrefix | internal/query/server.go:47-57 | the pages at 0, limit, 2·limit, ... joined are a prefix of the list, without gap or overlap |
| ChangeQueries.PagesCoverHistory | internal/gitindex/change.go:310-324 | enough pages are the whole history newest first, every event exactly as often as it occurred |
| ChangeQueries.GetHistory | internal/query/server.go:335-357 | a page of the sorted merge of the asked clusters, and the size of the merge at every offset |
| ChangeQueries.GatheredIff | internal/query/server.go:337-348 | an event is in the merge exactly when an asked cluster has indexed it under its own name and the filters fit the event's own fields |
| ChangeQueries.GatheredIsAllMatched | internal/query/server.go:337-348 | below the query cap the merge holds exactly the matching events of the asked clusters |
| ChangeQueries.MergedPagesCoverHistory | internal/query/server.go:335-357 | enough pages of the merge hold all those events exactly once each, newest first |
| Volatility.Note | internal/gitindex/change.go:352-362 | one event is either tallied or stops the loop at the cap |
| Volatility.WindowIsLongest | internal/gitindex/change.go:335-363 | the events counted are the longest suffix of the matching ones with at most the cap's number of commits |
| Volatility.ExaminedIsWindow | internal/gitindex/change.go:352-365 | where the loop stops, and how many commits it has noted by then, is determined by that suffix alone |
| Volatility.CountCommits | internal/gitindex/change.go:332-363 | the loop tallies for each resource exactly its distinct commits in that suffix |
| Volatility.Volatility | internal/gitindex/change.go:329-379 | each resource of that suffix is listed once with its distinct commits there; the total is the cap plus one when commits were cut off, and zero without a cap |
| Volatility.EntryCountsResource | internal/gitindex/change.go:358-377 | the count of an entry is the number of distinct commits among the window's events with its cluster, group, kind, namespace and name |
| Volatility.EventHasEntry | internal/gitindex/change.go:358-377 | every event of the window has exactly one entry for its resource |
| Volatility.CountsSumToPairs | internal/gitindex/change.go:358-377 | the counts sum to the distinct (resource, commit) pairs of the suffix |
| Volatility.RatiosAreProper | internal/query/server.go:370-377 | with a cap 1 <= count <= total and the ratio is in (0, 1], and 1 exactly for a resource in every commit with none cut off |
| Volatility.UncappedRatiosAreZero | internal/query/server.go:370-377 | without a cap every ratio is zero although every count is positive |
| FieldVolatility.FindResourcePathInCommit | internal/gitindex/fields.go:219-251 | the first file in git's order whose path has the group, namespace and name, or none |
| FieldVolatility.NamesakesIff | internal/gitindex/fields.go:226-244 | a resource's file answers to another exactly when group, namespace and name agree; version and type do not matter |
| FieldVolatility.FindsOwnFileIff | internal/gitindex/fields.go:219-251 | in a commit with files of the daemon and of others, the lookup finds a resource's own file exactly when the configured directory is spelled cleanly and no namesake's file comes before it |
| FieldVolatility.ServiceReadsConfigMap | internal/gitindex/fields.go:219-251 | the lookup of a service finds the config map of the same name |
| FieldVolatility.ComparesWithParent | internal/gitindex/fields.go:168-192 | an event compares the first parent's version of the file found with the commit's own; nothing stands for a missing parent or path, and for the commit's side of a deletion |
| FieldVolatility.CountEvent | internal/gitindex/fields.go:161-197 | one event adds its reported fields to the counts and itself to the total, unless its commit is unknown |
| FieldVolatility.FieldVolatilityFromRepo | internal/gitindex/fields.go:141-214 | each field with a change is listed once with its number of reports over the examined events and the number of those events |
| FieldVolatility.MostRecentExaminedIff | internal/query/server.go:418-423 | the examined events are the oldest of the matching ones, and the most recent ones exactly when nothing is cut off or all are of one time |
| FieldVolatility.OlderIsExamined | internal/query/server.go:418-423 | of two events of different times and a limit of one the older is examined |
| FieldVolatility.CountedOnceIff | internal/gitindex/fields.go:193-196 | one event counts each field once at most exactly when no two of its reported paths are printed alike |
| FieldVolatility.CountsWithinTotal | internal/gitindex/fields.go:193-207 | with no dots in keys no field counts more often than there are events |
| FieldVolatility.DottedKeysCountTwice | internal/gitindex/fields.go:193-207 | with dots in keys one event counts a field twice |
| FieldVolatility.DeletionBlamesNamesake | internal/gitindex/fields.go:168-197 | a deletion counts exactly the top-level keys of the namesake its lookup falls on, and nothing without one |
| Backup.Runner.Init | cmd/korpus/main.go:69-82 | a fresh clone with the remote's head checked out, or no client |
| Backup.RecordedAt | cmd/korpus/main.go:188-196 | every commit of the daemon on the branch is a backup on top of its parent, wherever it stands |
| Backup.Runner.Reset | cmd/korpus/main.go:84-91 | after a failure the client is nil, otherwise a fresh clone |
| Backup.Runner.Pull | internal/gitclient/gitclient.go:94-112 | on success the clone is at the remote's head or has no commits, and the worktree differs from it in the daemon's own files only |
| Backup.Runner.WriteSingle | internal/store/store.go:17-35 | on success the file holds the document and no other file changed; a failure touches that file only |
| Backup.Runner.CleanObsolete | internal/store/store.go:38-54 | on success exactly the daemon's files outside the given paths are gone, for any walk order; a failure leaves all other files alone too |
| Backup.IsSkipped | cmd/korpus/main.go:140-155 | an item is skipped by object rules, ownership or a true CEL exclusion; a failing one keeps it |
| Backup.NamesAreRead | cmd/korpus/main.go:140-167 | rules and path use the name and namespace the document holds in its metadata, and the listed type's group, version and resource |
| Backup.EntriesIff | cmd/korpus/main.go:123-173 | an object is written exactly when it is the sanitised form of a listed item whose type is not excluded and which is not skipped |
| Backup.UnconfiguredWritesAll | cmd/korpus/main.go:123-173 | without rules and built-in tables every listed object is written, as it is |
| Backup.Sanitise | cmd/korpus/main.go:156-158 | the object without any configured or built-in field path |
| Backup.Runner.WriteItem | cmd/korpus/main.go:139-172 | the worktree gains exactly the item's file, and the noted paths its path; a failure leaves foreign files alone |
| Backup.Runner.WriteItems | cmd/korpus/main.go:139-172 | the same for all items of a type |
| Backup.Runner.WriteListing | cmd/korpus/main.go:123-173 | the same for all types; excluded types and failed listings add nothing |
| Backup.Runner.WriteBackup | cmd/korpus/main.go:120-177 | from any worktree, the daemon's files become exactly the run's image; all others stay, on failure too |
| Backup.Runner.BackUp | cmd/korpus/main.go:115-199 | from an up-to-date clone: pushed, clean or failed, with at most one commit added, the image of this listing on its parent |
| Backup.Runner.Attempt | cmd/korpus/main.go:107-199 | a tick with a client, whose pull may have to clone anew: what the rest of the tick yields, or a failure that adds nothing |
| Backup.Runner.CommitAndPush | internal/gitclient/gitclient.go:135-168 | on success the remote gains exactly one commit, the worktree, a backup on its parent; on failure it gains that commit or nothing |
| Backup.Runner.RunOnce | cmd/korpus/main.go:107-199 | a pushed commit has this run's image as the daemon's files and its parent's other files; a clean run's head is its own backup; a failed one adds that commit or none; without a client the tick halts |
| Backup.Runner.Ticks | cmd/korpus/main.go:93-105 | over any run of ticks each commit of the daemon has the image of a tick that pushed, or failed after its push landed |
| Backup.Runner.Daemon | cmd/korpus/main.go:93-105 | over any run of ticks, failures and foreign pushes every commit the daemon adds has some tick's image as its own files and its parent's other files, and nothing is ever rewritten |
| Backup.ImageIsExact | cmd/korpus/main.go:123-173 | every included object has a file of its own holding its sanitised form, and there is no other file in the image |
| Backup.TreeOfIsOwned | cmd/korpus/main.go:160-167 | the daemon writes only `.yaml` files below its directory |
| Backup.BackedIsSameIff | cmd/korpus/main.go:179-186 | a backup leaves a tree alone exactly when its owned files are the image already, and doing it twice is doing it once |
| Backup.CommitFile | cmd/korpus/main.go:115-199 | a backup commit, file by file: the image's `.yaml` files below the directory, and every other file of the commit before |
| Backup.BackedFile | internal/store/store.go:38-54 | file by file: a `.yaml` file below the directory is the image's, every other file stays |
| Backup.NameKeptIff | cmd/korpus/main.go:156-159 | sanitising keeps a name or namespace exactly when no path removes it or what holds it |
| Backup.FiledUnderListedIdentityIff | cmd/korpus/main.go:156-167 | an object is filed under its listed identity exactly when no path strips that identity |
| Backup.StrippedNamesShareFile | cmd/korpus/main.go:156-167 | with a rule that strips the name, cluster roles of any two names are written to one file |
| Snapshot.ResourcesAtCommit | internal/query/server.go:253-332 | the rows of the files of the tree that have one, in order, with labels and creation time |
| Snapshot.IndexListsRows | internal/index/index.go:58-151 | listing the built index gives the rows of its files, in order |
| Snapshot.FileRowsAgreeIff | internal/query/server.go:276-328 | both listings agree on a file under every filter exactly when the directory is spelled cleanly and a cluster-scoped object carries no namespace |
| Snapshot.TrailingSlashHidesHistory | internal/query/server.go:259-276 | with a slash at the end of the configured directory no file of the daemon is found in history |
| Snapshot.RowsIgnoreOrder | internal/query/server.go:265-330 | two walks give the same multiset of rows when one only adds files without a row |
| Snapshot.SnapshotsAgree | internal/query/server.go:175-332 | for any commit the daemon pushes from a cleanly spelled directory, the historical snapshot and the live index of its checkout list the same multiset of rows under the same filters |
| Snapshot.UncleanHistoryIsEmpty | internal/query/server.go:253-332 | with any other spelling the historical snapshot of any commit is empty |
| Snapshot.SnapshotsAgreeIff | internal/query/server.go:175-332 | the two listings of a daemon commit with a resource agree exactly when the directory is spelled cleanly |
| ServerState.RunKeepsInv | cmd/server/main.go:103-164 | the invariant of every state of every interleaving of pull loop and readers |
| ServerState.ReadyMeansIndexed | cmd/server/main.go:180-184 | at every moment both git indexes are unset or from one rebuild; when ready they are set, and the resource index is from that rebuild or the one in progress |
| ServerState.IndexesOnlyAdvance | cmd/server/main.go:146-149 | a published index is never unset and never replaced by an older one |
| ServerState.PullBringsUpToDate | cmd/server/main.go:301-333 | a tick whose calls succeed ends ready, with all indexes of one new rebuild of the same clone |
| ServerState.FailureKeepsIndexes | cmd/server/main.go:111-164 | a call that fails on the way to new indexes changes none of them, and the server stops reporting ready |
| ServerState.NoFirstClone | cmd/server/main.go:265-281 | without a first work directory or clone the goroutine ends and the cluster is never ready |
| ServerState.RecloneBringsUpToDate | cmd/server/main.go:304-333 | so does a tick whose pull fails and whose re-clone succeeds, for the new clone, which readers are given |
| ServerState.TornReadIff | cmd/server/main.go:64-74 | two separate reads give indexes of one rebuild exactly when none was published between them |
| ServerState.TornReadHappens | cmd/server/main.go:64-74 | a run in which reads around the second publication give different rebuilds |
| ServerState.FailedRecloneEndsInCrash | cmd/server/main.go:304-321 | after a failed re-clone the cluster is never ready again, and the process has ended exactly when the goroutine has acted on a tick since |
| ServerState.PullWithoutClientCrashes | cmd/server/main.go:301-304 | a pull without a client can only crash, and nothing follows |
| ServerState.FailedRecloneHappens | cmd/server/main.go:304-321 | a run that was ready, loses its client and ends at the next tick |

## Left out

- FieldDiff.PrintedIsInjective: one direction; the other, that keys with dots can collide, is shown by an example and not characterised, because it depends on the whole pair of documents.
- FieldVolatility.CountsWithinTotal: over a list of events a sufficient condition; the exact one is stated for one event (`FieldVolatility.CountedOnceIff`), since an event that counts a field twice can be made up for by one that does not.
- Index.QueryIsFullScan: a failing query is not compared with the full scan where an operand of `&&` or `||` misses a key, because the code reports an error where the full scan has an answer (`Index.ErrorBeforeMissingKeyIsFinal`).
- Layout.LayoutInvertsParse: a six-part path with an empty namespace part is left out; the daemon writes no such file.
- ChangeQueries.GatheredIsAllMatched: needs every cluster to have at most 1 << 30 matching events, the limit the code passes.
- Rules.ResolveExcludeFields: which of two built-in entries for one object is taken depends on map order; `Backup` requires that they are equal, as they are in the shipped table.
- Sanitizer.Unstructured.DeleteField: the nested maps are values inside one mutable field, so sharing of a nested map between two objects is not modelled.
- ServerState.RunKeepsInv: critical sections and calls are atomic steps of a state machine on values; the mutex itself is not modelled.
- Backup.Runner.Daemon: ticks run one after another. The scheduler starts each in a goroutine of its own without a lock, so a tick that outlasts the interval would overlap the next one; that is not modelled.
- Backup.Runner.CommitAndPush: no `.gitignore` in the repository hides files of the daemon from `git status` and `git add`.
- Kinds.KindReadIff: a kind line is given by its text, an indentation and a plain value; what YAML quoting or comments would change is not modelled.
- Cel.EvalMonotone: a presence test on a scalar counts as a missing key, which leads to the full document.
- CEL beyond the fragment: macros, regular expressions, number types, type conversions, and the compile cache.
- YAML text: documents are trees, marshalling is canonical, and `valuesEqual` and the SHA-256 comparison are equality. `splitYAMLDocs` is not part of this model.
- Text is a sequence of characters, one per byte. Case folding and white space are those of ASCII.
- Times are integers behind a parsing oracle; the line parser of `BuildCommitIndex` is left out, its parsed entries are the input.
- Number widths and range errors of `strconv`; negative page offsets and limits.
- A configured directory that climbs out of the work directory with `..`: the daemon would write beside its clone (`Layout.SubDir`). The daemon and the server are taken to be configured with the same spelling.
- `filepath.Join` cleaning of identities: identities whose parts are `.`, `..`, empty or contain `/` are excluded by `Layout.WellNamed`.
- The values of `excludeIf` expressions and the cluster listing are oracles; `ListPreferredResources` is not modelled.
- `GetVolatility` beyond its ratio, `GetVolatilityFields` beyond the event order it passes on, the ranking sorts, `FieldVolatility`, `GVKs`, `Namespaces`, `Get`, `GetDiff`: they would add easy members.
- Configuration loading, the HTTP and MCP interfaces, authentication, metrics and the frontend apart from the line diff.

## Checking

`dafny verify dfyconfig.toml` checks the whole project.

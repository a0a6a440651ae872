# PromptNet: a verified model

PromptNet is a small versioned database of prompts. It has a diff engine that
measures how far an edit's meaning shift ripples, a commit graph with branches and a
materialised served HEAD, a request layer with a server-side and a client-side cache,
and optional encryption of the content columns. This project models those parts in
Dafny and proves what they promise. `dafny verify dfyconfig.toml` checks everything.

## What is modelled

- `LineDiff.dfy`: the longest-common-subsequence table and the greedy walk. The hunks
  are a shortest edit script, patch in both directions, and, because the walk is
  optimal, never show one line text on both sides.
- `Propagation.dfy`: windows, the adaptive loop, the verdict, the memo that all
  windows of one analysis share, and which texts reach the embedder. Floats are reals.
  The embedder is any deterministic function that may fail; the cosine is any
  deterministic function of two vectors, and the clamp around it is modelled.
- `Windowing.dfy`: what window texts, deltas, reports and failures are, said without
  running the analysis.
- `Lexical.dfy`: tokens and bucket counts of the offline embedder. Lower-casing, the
  letter-or-digit test and the token hash are parameters.
- `Placeholders.dfy`: the one `{word}` scan, slot derivation, validation.
- `Encodings.dfy`: the byte strings that version and commit hashes digest.
- `LikePrefix.dfy`: prefix listing through LIKE with an escape character.
- `CommitGraph.dfy`: the three tables, the transactions, and serialised operations.
- `Interleaving.dfy`: the store as a protocol in which every read outside a
  transaction is a step of its own and may be stale when its transaction runs.
- `Operations.dfy`: the interleaved operations as the serialised ones split into steps,
  and where everything they write was read.
- `Races.dfy`: when a branch keeps its log while operations race, step by step and over
  whole runs.
- `Columns.dfy`, `SealedStore.dfy`, `Stores.dfy`: sealing and opening columns, the
  sealed store as a refinement of the plaintext one, and the store object.
- `SealedProtocol.dfy`: the interleaved protocol over sealed columns, as a refinement of
  the one over plaintext columns.
- `Serving.dfy`, `Servers.dfy`: request handlers as atomic steps, the cached server as
  a refinement of the uncached one, the server object and its cache.
- `Histories.dfy`: what each request does to histories, served rows, events and cache,
  and what a read by ref answers.
- `Clients.dfy`: the Python client object with its own cache.
- `Staleness.dfy`: cache lookup, store read, cache put, commit and invalidate as
  separate steps with a clock, plus the Python client's cache on top. `SlowReaders.dfy`
  holds the runs in which responses get as stale as the bounds allow, `SerialReads.dfy`
  shows that with nothing in between the steps are those of the atomic server.
- `Announcing.dfy`: commit and notification as separate steps, which can come in another
  order and be lost.

Loops over tables, maps and buffers are methods proved against specification
functions; the store, the server, both caches, the embedder and its memo are classes.

## Assumptions

- The digest is a parameter. On every run it is a non-empty text without NUL
  (`IsDigest`). That two inputs never share a digest (`CollisionFree`) is an
  idealisation, required only by the properties that name it; digests have no fixed
  length here, so both can hold together (`IdealDigestExists`). Authors and messages may
  hold any text, NUL included.
- Texts are sequences of characters, one per byte or code point; UTF-8 maps only NUL to
  NUL, so the encodings are unaffected.
- Cipher, base64 and JSON are parameters with inverse laws; decoding and decrypting do
  not lengthen their input; JSON of a list of texts never starts with the column marker.
  These laws can be met (`IdealAeadExists`, `IdealJsonExists`).
- Time, randomness (nonces) and the semantic verdict of an edit are arguments.

## Where the code and its documentation disagree

- The comment at `internal/store/store.go:288` calls Commit idempotent. It never is:
  the first commit has become the parent (`CommitGraph.CommitIsNeverIdempotent`). Only
  the transaction with explicit parents is. The comment at `internal/server/server.go:59`
  counts on it for publishes to branches.
- The commit hash leaves out the uri, so root commits of two uris can share one row.
  Locality of refs and parents breaks at exactly those steps
  (`Interleaving.LocalityBreaksOnlyAtSharedRoots`, `Interleaving.SharedRootBreaksLocality`).
- Version inputs of validated prompts are ambiguous exactly when the first slot is
  declared again or the template ends in NUL and one of its slots
  (`Encodings.CollisionsExactly`). Served rows are right over every interleaving exactly
  when no two of the contents involved share an input
  (`Interleaving.ServedRightlyIffUnambiguous`), and so are acknowledged publishes read
  back when requests are handled one at a time (`Serving.PublishesAreServedIff`). The
  smallest runs in which they are not are `Interleaving.RepeatedSlotMisserves` and
  `Serving.RepeatedSlotIsNeverServed`.
- `README.md:185-187` calls the version hash the content identity. It is one exactly
  outside those ambiguous contents.

The documentation leaves three facts open.

When requests overlap, HEAD can answer an older row after a publish is acknowledged. A
response after the invalidate of any commit carries that commit's row or a later one
unless its reader read the store before the commit and put after the invalidate
(`Staleness.ResponsesAfterInvalidate`); `SlowReaders.BoundIsAttained` is a run of such a
reader.

A merge into main moves the served HEAD without an event (`Serving.SubscribersInSyncIff`
for requests handled one at a time, with the run of `Serving.MergeGoesUnannounced`). When
requests overlap, notifications that are lost or come after a newer one leave subscribers
behind too; once the handlers are done, nothing else does (`Announcing.SettledInStepIff`,
`Announcing.OvertakenNotification`).

An acknowledged commit can drop off its branch: a commit whose parent was read before
the branch moved elsewhere takes the branch back behind what was committed meanwhile. A
step keeps everything on a branch's log exactly when it is no such commit and no SetBranch
to a commit that does not continue the tip (`Races.StepKeepsLogIff`). In the run of
`Races.RacingRunOrphans` the commit that drops off is on no branch's log and no commit's
second parent; in general another branch may still hold it.

## Model

| member | source | states |
|---|---|---|
| `LineDiff.CellIsTheOptimum` | internal/semdiff/semdiff.go:201-213 | a table cell is the greatest length of any common subsequence of the two suffixes, given as index pairs |
| `LineDiff.FillRow` | internal/semdiff/semdiff.go:206-212 | the inner loop turns row i into optima and touches no row above it |
| `LineDiff.FillTable` | internal/semdiff/semdiff.go:200-213 | every cell of the filled table is the optimum of its suffixes |
| `LineDiff.Changes` | internal/semdiff/semdiff.go:199-235 | the loops produce exactly the specified hunks |
| `LineDiff.WalkKeepsTheOptimum` | internal/semdiff/semdiff.go:222-228 | the greedy inner loop ends where the remaining optimum is what it was at its start |
| `LineDiff.ChangesAreMinimal` | internal/semdiff/semdiff.go:199-235 | the hunks change n + m - 2L lines and no aligned edit script changes fewer |
| `LineDiff.DiffRoundTrip` | internal/semdiff/semdiff.go:214-235 | hunks are in bounds, ordered, with matching lines between them; patching rebuilds new from old and, flipped, old from new; there are none iff the inputs are equal |
| `LineDiff.HunksAreTight` | internal/semdiff/semdiff.go:214-233 | every hunk is non-empty and loses no optimum, and only the last two hunks can touch |
| `LineDiff.HunkSidesShareNoLine` | internal/semdiff/semdiff.go:214-233 | no line text is on both sides of a hunk, nor of two touching hunks merged |
| `LineDiff.RunsMatch` | internal/semdiff/semdiff.go:216-219 | the lines between a hunk and its neighbours or the file edges are pairwise equal on both sides |
| `Propagation.Delta` | internal/semdiff/semdiff.go:239-253 | a delta that is computed lies in [0, 1] |
| `Propagation.Memo.EmbedOne` | internal/semdiff/semdiff.go:255-266 | memoised embedding gives the embedder's answer, and hands a text to the embedder iff this memo has not done so before; the embedder sees no other call |
| `Propagation.Memo.DeltaText` | internal/semdiff/semdiff.go:239-253 | the memoised delta equals the cache-free one, errors included |
| `Propagation.Memo.Expand` | internal/semdiff/semdiff.go:143-162 | the loop equals the cache-free curve for any windows that reach the edges at some radius |
| `Propagation.Memo.AnalyzeChange` | internal/semdiff/semdiff.go:110-138 | a hunk's report equals the cache-free report |
| `Propagation.Analyze` | internal/semdiff/semdiff.go:96-108 | the analysis equals the cache-free one for every embedder, and the embedder is handed the texts that cache-free evaluation embeds, in that order, each the first time only, up to an error included |
| `Propagation.EachTextIsEmbeddedOnce` | internal/semdiff/semdiff.go:110-162 | no text is embedded twice, and an analysis that succeeds embeds exactly the two differing texts of each changed region and of each window it sampled |
| `Propagation.Reach` | internal/semdiff/semdiff.go:122-132 | a window reports the boundary exactly from the radius that reaches the farther file edge |
| `Windowing.WindowHoldsItsLines` | internal/semdiff/semdiff.go:120-132 | for every hunk, side and radius, past the matched run and the file edges too, each text joins exactly the lines of the hunk and those within the radius on that side, in file order |
| `Windowing.WindowIsWholeSide` | internal/semdiff/semdiff.go:122-132 | from the reach on the boundary is reported and each text is the changed region with all of that side |
| `Windowing.DeltaMeasures` | internal/semdiff/semdiff.go:239-253 | 0 for equal texts, otherwise what the similarity lacks to 1, capped at 0 and 1; the first text that fails gives the error |
| `Windowing.AnalysisReportsEachHunk` | internal/semdiff/semdiff.go:96-138 | a successful analysis reports every hunk in order: the delta of its lines, both curves from radius 2, and the verdict at the embedder's bar or at 0.60 |
| `Windowing.AnalysisFailsAtTheFirstError` | internal/semdiff/semdiff.go:96-138 | an analysis fails iff a text it hands to the embedder does, with that error, and embeds nothing afterwards |
| `Propagation.ExpandYieldsTheCurve` | internal/semdiff/semdiff.go:143-162 | the outcome is the unique curve with radii 2, 4, 6, ..., every sample but the last moving and short of the edges, stopped at the boundary iff the last moved; at most max(1, ceil(reach/2)) windows |
| `Propagation.RippleIsCurve` | internal/semdiff/semdiff.go:143-162 | whatever the loop returns satisfies the loop-free description of a curve |
| `Propagation.CurveIsRipple` | internal/semdiff/semdiff.go:143-162 | any curve fitting the description is what the loop returns |
| `Propagation.TouchedEdgeStaysFlat` | internal/semdiff/semdiff.go:120-132 | a hunk touching both file edges on a side gets one flat sample equal to the point delta there |
| `Propagation.SidePersistsIffCarried` | internal/semdiff/semdiff.go:178-185 | one side persists iff its last window reaches both edges, moved by 0.02, and carries 0.15 and pf times the point delta, which needs lines left on that side |
| `Propagation.StructuralMeansCarried` | internal/semdiff/semdiff.go:178-193 | structural iff some side with lines left carries the shift to the edges; otherwise the point delta decides at 0.15 |
| `Propagation.Worst` | internal/semdiff/semdiff.go:167-176 | structural iff some hunk is, else a localized tweak iff some hunk is, else a minor edit iff some hunk is, else empty |
| `Propagation.VerdictIsEmptyIffUnchanged` | internal/semdiff/semdiff.go:95-108 | a successful analysis yields the empty verdict iff the files are equal |
| `Propagation.ClassifyEdit` | internal/server/server.go:316-327 | the empty verdict without embedder, previous template or analysis; otherwise the worst of all hunks, empty iff the templates differ at most in line endings |
| `Text.JoinUndoesSplit` | internal/server/server.go:363-365 | joining the lines a text was split into gives the text back |
| `Text.SplitUndoesJoin` | internal/server/server.go:363-365 | parts without the separator come back from their join; with the above this fixes the split |
| `Text.BreakIsReplaced` | internal/server/server.go:363-365 | each carriage return and line feed pair becomes a line feed |
| `Text.NoBreakNoChange` | internal/server/server.go:363-365 | a text without such a pair stays as it is |
| `Propagation.LinesOf` | internal/server/server.go:363-365 | the lines hold no break, and joined they are the text with its breaks replaced |
| `Lexical.TokensSplitAtSeparator` | internal/semdiff/semdiff.go:309-311 | tokenising distributes over every character that is no part of a token |
| `Lexical.TokensOfWord` | internal/semdiff/semdiff.go:309-311 | a text of token characters is one token, lower-cased; an empty one has none |
| `Lexical.TokensSplitAtNewline` | internal/semdiff/semdiff.go:309-311 | so it distributes over a line break |
| `Lexical.TokensOfJoin` | internal/semdiff/semdiff.go:284-311 | tokens of joined line lists are the tokens of each list in turn |
| `Lexical.EmbedText` | internal/semdiff/semdiff.go:308-316 | the loop counts the tokens of each bucket |
| `Lexical.Embed` | internal/semdiff/semdiff.go:301-319 | one count vector per text, in order |
| `Lexical.BagCountsTokens` | internal/semdiff/semdiff.go:301-316 | a vector has 256 entries or the set dimension, and entry b is the number of positions whose token hashes to b |
| `Lexical.OfflineVectors` | internal/semdiff/semdiff.go:301-319 | the offline embedder never fails and gives these counts |
| `Lexical.BagOfJoin` | internal/semdiff/semdiff.go:284-319 | the vector of joined lines is the sum of the vectors |
| `Lexical.WindowIsContextPlusCore` | internal/semdiff/semdiff.go:122-132 | inside the matched run next to a hunk both texts of a window gain the same lines, and each vector is context plus core |
| `Lexical.OfflineAnalysis` | internal/semdiff/semdiff.go:294-319 | with the offline embedder every analysis succeeds with one report per hunk, structural iff a side carries 0.15 and 0.40 of the point delta to the edges |
| `Placeholders.FindAll` | internal/validate/validate.go:14-29 | the regexp walk yields the specified matches |
| `Placeholders.WordCharsAre` | internal/validate/validate.go:14 | a word consists of ASCII digits, letters and underscores |
| `Placeholders.SpacesAre` | internal/validate/validate.go:18-25 | blank means the white space of Unicode |
| `Placeholders.ScanListsEverything` | internal/validate/validate.go:27-29 | the scan lists every placed word, in order, once per position |
| `Placeholders.ScanFindsExactlyTheSlots` | internal/validate/validate.go:14-29 | a word is found iff it stands in braces somewhere in the template |
| `Placeholders.DeriveSlots` | cmd/promptctl/main.go:286-296 | the slots are distinct, are the used words, and are ordered by first occurrence |
| `Placeholders.Prompt` | internal/validate/validate.go:18-58 | accepts iff uri and template are not blank and declared slots are exactly the used ones; which error is returned, and the offending names |
| `Placeholders.ValidateDerived` | cmd/promptctl/main.go:303-310 | validation against derived slots fails only on a blank uri or template |
| `Encodings.CommitInputDetermines` | internal/store/store.go:264-271 | the digested text determines all five fields when only the message can hold NUL |
| `Encodings.CommitInputDeterminesLinks` | internal/store/store.go:264-271 | whatever author and message hold, it determines the version and both parents |
| `Encodings.CommitInputLists` | internal/store/store.go:264-271 | cut at NUL, the digested text lists version, both parents, author and message in this order |
| `Encodings.HashInputLists` | internal/store/store.go:229-235 | cut at NUL, the digested text lists the template and the slots in order |
| `Encodings.HashInputDetermines` | internal/store/store.go:229-235 | among validated prompts that do not repeat their first slot the digested text determines template and slots, NUL in templates included |
| `Encodings.CollisionsExactly` | internal/store/store.go:229-235 | a validated prompt shares its digested text with another iff it repeats its first slot or its template ends in NUL and one of its slots |
| `Encodings.RepeatedSlotCollides` | internal/store/store.go:229-235 | a concrete pair of validated prompts with one digested text |
| `Encodings.IdealDigestExists` | internal/store/store.go:229-271 | the two digest assumptions can be met together |
| `LikePrefix.EscapedPrefixMatchesExactly` | internal/store/store.go:202-212 | the escaped prefix plus wildcard matches a uri iff it starts with the prefix, up to the engine's character equality |
| `Columns.IdealAeadExists` | internal/store/crypt.go:51-82 | the laws asked of cipher and base64 can be met, for nonces of any size |
| `Columns.OpenUndoesSeal` | internal/store/crypt.go:51-82 | opening undoes sealing for every text, nonce and key setting |
| `Columns.SealEncrypts` | internal/store/crypt.go:51-60 | with a key the stored column is the marker and the encoding of a nonce followed by the text encrypted under it; without one it is the text |
| `Columns.EncryptedOpens` | internal/store/crypt.go:63-82 | what is stored so opens to that text |
| `Columns.OpenExactly` | internal/store/crypt.go:63-82 | a marked column opens iff it decodes to a whole nonce and a ciphertext that decrypts under it, to what that gives; any other column is read as it is |
| `Columns.PlaintextReadableIffUnmarked` | internal/store/crypt.go:14-22 | a plaintext column stays readable under a key iff it lacks the marker |
| `CommitGraph.PublishableIsUnambiguous` | internal/store/store.go:229-235 | no two validated contents that do not repeat their first slot share a version input |
| `CommitGraph.HashesDigest` | internal/store/store.go:229-271 | version and commit hashes digest texts that, cut at NUL, list these fields |
| `CommitGraph.CommitTxKeepsLinks` | internal/store/store.go:300-341 | a commit whose parents exist keeps every link resolved and the graph acyclic, collisions or not |
| `CommitGraph.TakenHashSameFields` | internal/store/store.go:315-317 | under collision-free digests a row already under the hash has the same version and parents, and the same author and message unless an author holds NUL |
| `CommitGraph.EveryBranchHasOneLog` | internal/store/store.go:441-456 | every branch has exactly one log, non-empty, without missing or repeated commits |
| `CommitGraph.CommitPrependsToItsLog` | internal/store/store.go:290-341 | Commit makes the branch's log the new commit followed by the old log, loses no commit and leaves other logs alone |
| `CommitGraph.MergePrependsToItsLog` | internal/store/store.go:361-378 | Merge succeeds iff both branches exist, prepends a commit with from's tip as second parent and from's content, and leaves other logs alone |
| `CommitGraph.BranchSharesItsSourcesLog` | internal/store/store.go:343-352 | Branch fails iff the source is missing or the name is taken; otherwise both have the source's log and no served row changes |
| `CommitGraph.RollbackKeepsTheTail` | internal/store/store.go:399-431 | SetBranch to the k-th log entry of the uri leaves exactly the old log from k on, and loses no commit |
| `CommitGraph.RollbackUndoesCommit` | internal/store/store.go:399-431 | setting a branch back to its previous tip restores all refs and served rows |
| `CommitGraph.CommitIsNeverIdempotent` | internal/store/store.go:285-296 | repeating a Commit always makes another hash, whose parent is the first; repeating the transaction with explicit parents changes nothing |
| `Interleaving.EveryRunIsLinkedAndAcyclic` | internal/store/store.go:290-378 | over every interleaving refs, parents and everything pending operations carry name existing commits, and the graph is acyclic |
| `Interleaving.StepKeepsInv` | internal/store/store.go:300-431 | each step keeps that, and never changes or removes a commit |
| `Interleaving.LogOutlivesLaterSteps` | internal/store/store.go:441-456 | a log walked while other operations run is the log at the moment its tip was read |
| `Interleaving.CommitServesExactly` | internal/store/store.go:315-339 | a commit on main leaves served rows equal to main's commits iff its hash is fresh or its row already carries the content |
| `Interleaving.ServedRowIsMainCommit` | internal/store/store.go:290-431 | over every interleaving without Put, any served row is the template, slots and version of the commit main points at, if no two different contents committed in the run share a version input |
| `Interleaving.ServedRightlyIffUnambiguous` | internal/store/store.go:229-431 | all runs over a pool of contents, validated or not, serve main's commit iff no two contents of the pool share a version input |
| `Interleaving.RepeatedSlotMisserves` | internal/store/store.go:229-339 | a concrete run of two validated root commits, one repeating a slot, leaves a served row that main's commit does not carry |
| `Interleaving.LocalityBreaksOnlyAtSharedRoots` | internal/store/store.go:264-378 | a step keeps refs and parents within their uri iff it is not a root commit whose hash another uri holds |
| `Interleaving.LocalOverRuns` | internal/store/store.go:264-378 | runs without such a step stay within their uris |
| `Interleaving.RootsOfOneVersionShareARow` | internal/store/store.go:264-317 | two root commits of one version under two uris share the first one's row while the second serves its own content |
| `Interleaving.SharedRootBreaksLocality` | internal/store/store.go:264-317 | a concrete run of two root commits breaks it |
| `Interleaving.ResolveStaysInItsUri` | internal/store/store.go:383-397 | a ref resolves iff it is a branch of the uri or the hash of one of its commits, and only to a commit of that uri |
| `Operations.CommitAlone` | internal/store/store.go:290-296 | read and transaction of a commit with nothing in between are the serialised Commit |
| `Operations.MergeAlone` | internal/store/store.go:361-378 | so are the four steps of a merge |
| `Operations.BranchAlone` | internal/store/store.go:345-352 | and the two of a branch |
| `Operations.SetAlone` | internal/store/store.go:402-431 | and of a SetBranch |
| `Operations.PendingIsRead` | internal/store/store.go:290-431 | over every interleaving a pending commit has its branch's tip at its read as parent, a pending merge the tips of both branches at their reads as first and second parent and the second's content, a pending branch or SetBranch what it read |
| `Operations.PutServesIff` | internal/store/store.go:237-245 | a row written by Put agrees with main iff main's commit carries that content and version |
| `Races.CommitKeepsItsLogIff` | internal/store/store.go:290-341 | a commit makes the branch's log itself and its parent's log; all entries of the old log stay, and stay in place, iff the old tip is among these |
| `Races.SetKeepsLogIff` | internal/store/store.go:399-431 | setting a branch keeps everything on its log iff the commit it is set to continues the tip |
| `Races.CurrentReadNeverOvertakes` | internal/store/store.go:290-296 | a commit whose parent is still the tip takes nothing off the log; only a stale read can |
| `Races.StepKeepsLogIff` | internal/store/store.go:290-431 | in any reachable state and for any branch, a step keeps everything on the branch's log iff it is neither an overtaking commit on it nor a SetBranch of it to a commit that does not continue the tip |
| `Races.LogOnlyGrows` | internal/store/store.go:290-456 | over any run without such a step for a branch, whatever interleaves, the branch's old log is the tail of its new one |
| `Races.AcknowledgedCommitStays` | internal/store/store.go:290-341 | an acknowledged commit is still on its branch's log after any such run |
| `Races.CurrentReadsKeepEveryCommit` | internal/store/store.go:290-431 | over any run whose commits transact on the tip they read and whose branches are only set forward, every acknowledged commit stays on its branch's log |
| `Races.NewCommitIsOnNoOlderLog` | internal/store/store.go:261-264 | a commit on a branch is never one of the branch's older commits, reverts to old content included |
| `Races.RacingCommitLeavesTheLog` | internal/store/store.go:290-341 | of two commits on one tip, the first to run is off the branch's log once the second has run |
| `Races.RacingRunOrphans` | internal/store/store.go:290-341 | a concrete run of two racing commits after which the first is on no log of any branch and no commit's second parent |
| `SealedStore.IdealJsonExists` | internal/store/store.go:300-305 | the laws asked of the JSON of slot lists can be met |
| `SealedStore.OpenUndoesSealContent` | internal/store/store.go:462-508 | template and slots read back as written |
| `SealedStore.CommitTxRefines` | internal/store/store.go:300-341 | the sealed commit transaction represents the plaintext one and computes the same hash |
| `SealedStore.SwitchOnKeepsRowsIff` | internal/store/crypt.go:14-22 | switching the key on keeps all stored values readable iff no stored template starts with the marker |
| `SealedStore.AccessRefines` | internal/store/store.go:300-508 | every database access keeps the representation |
| `SealedStore.EncryptedStoreRefines` | internal/store/crypt.go:51-82 | over every run, the key switched on midway included, the sealed store answers as the plaintext one |
| `SealedStore.OpenContentExactly` | internal/store/store.go:487-508 | a content is read iff both columns open and the second is JSON of its slots |
| `SealedStore.KeyOnlySwitchesOn` | internal/store/crypt.go:14-22 | switching on takes effect unless a key is on, and nothing else moves the key |
| `SealedStore.WrittenRowsAreEncrypted` | internal/store/crypt.go:51-60 | over every run, every row written while the key is on has both content columns encrypted under it |
| `SealedStore.CommitIsReadBack` | internal/store/store.go:300-341 | after a commit the tip, the commit and on main the served row read back as written |
| `SealedProtocol.StepIsOneAccess` | internal/store/store.go:290-431 | each step of the interleaved protocol is at most one database access, and what its operation holds afterwards depends on the answer alone |
| `SealedProtocol.EncryptedProtocolRefines` | internal/store/crypt.go:51-82 | over every interleaving of sealed operations and the key being switched on, the operations hold what they hold over plaintext tables and the sealed tables stand for the plaintext ones |
| `SealedProtocol.KeyArrives` | internal/store/crypt.go:14-22 | a key that arrives midway is on from then on |
| `SealedProtocol.ProtocolRowsAreEncrypted` | internal/store/crypt.go:51-60 | over every interleaving, every row written while the key is on has both content columns encrypted under it |
| `SealedProtocol.SealedRunsStayLinked` | internal/store/store.go:300-378 | so the sealed graph stays linked and acyclic over every interleaving |
| `Stores.Store.TipOf` | internal/store/store.go:276-283 | the tip of a branch, or none |
| `Stores.Store.GetCommit` | internal/store/store.go:434-436 | the opened commit, or not found |
| `Stores.Store.Get` | internal/store/store.go:487-508 | the opened served row, or not found |
| `Stores.Store.ResolveRef` | internal/store/store.go:383-397 | branch first, then a commit hash of the same uri |
| `Stores.Store.Log` | internal/store/store.go:441-456 | terminates with the branch's log, commit by commit, or says the branch is missing |
| `Stores.Store.Walk` | internal/store/store.go:446-454 | the loop follows first parents to the root and reads every commit of the log |
| `Stores.Store.CommitWith` | internal/store/store.go:300-341 | the tables afterwards stand for the plaintext commit transaction, and with a key what was written is encrypted |
| `Stores.Store.Commit` | internal/store/store.go:290-296 | the whole operation on the current tip |
| `Stores.Store.Branch` | internal/store/store.go:345-352 | the new ref, or which error with nothing changed |
| `Stores.Store.Merge` | internal/store/store.go:361-378 | the merge commit of both tips, or which error with nothing changed |
| `Stores.Store.SetBranch` | internal/store/store.go:402-431 | the moved ref and, on main, the served row; not found changes nothing |
| `Stores.Store.Put` | internal/store/store.go:237-245 | the served row alone is written |
| `Serving.CachedServerRefinesUncached` | internal/server/server.go:43-131 | with requests handled one at a time, over every run and clock a cached server gives the responses, tables and events of an uncached one and never answers DataLoss |
| `Serving.HandleKeepsCoherent` | internal/server/server.go:82-131 | every cached response is what the store would answer now, expired or not |
| `Serving.HandleKeepsServable` | internal/server/server.go:50-120 | everything stored validates wherever it can be served |
| `Serving.NeverDataLoss` | internal/server/server.go:118-120 | no request on such a state answers DataLoss |
| `Serving.EveryServedGraphIsGood` | internal/server/server.go:201-237 | the graph stays linked and acyclic over every run of requests, so CreateBranch always has a log to answer from |
| `Serving.PublishIsServedIff` | internal/server/server.go:62-93 | a valid publish on main is what a HEAD read handled right after it returns iff the served row is not other content under the same version; no assumption on the digest |
| `Histories.PublishMakesATip` | internal/server/server.go:43-93 | an accepted publish that is not of what main serves makes a commit of its content, author and message on the branch's tip the branch's new tip: its log is that commit and the old log, other logs stay, and on main the row is served, the cached response dropped and one event with the verdict added; any other publish changes nothing |
| `Histories.MergeMakesATip` | internal/server/server.go:221-237 | a merge needs both branches; its commit has both tips as parents, from's content and stands in front of into's log, is answered by its hash, and is not announced |
| `Histories.SetBranchTakesTheLog` | internal/server/server.go:281-314 | SetBranch needs a commit of the uri; the branch takes over its log, answers its version, and on main serves and announces it |
| `Histories.CreateBranchSharesTheLog` | internal/server/server.go:201-219 | the new branch has the log of its source, main if none is named, is answered by its tip, and nothing else changes |
| `Histories.RefResolvesTo` | internal/store/store.go:383-397 | a branch resolves to the newest entry of its log, any other ref to the commit under that hash |
| `Histories.ReadByRefAnswers` | internal/server/server.go:264-276 | a read by ref answers that commit under its hash, not found, or data loss, and changes nothing |
| `Histories.PublishThenGetByBranch` | internal/server/server.go:57-131 | after any run of requests handled one at a time, an accepted publish to any branch is what a read of that branch answers, under the hash of the newest entry of its log |
| `Histories.EveryRunIsInOrder` | internal/server/server.go:43-314 | over such runs served rows are main's commits and histories stay sound |
| `Histories.ReadIsCachedForOneTtl` | internal/server/cache.go:42-56 | a HEAD read that missed is answered from the cache for one ttl and no longer |
| `Histories.InvalidRowIsDataLoss` | internal/server/server.go:118-120 | a served row that does not validate is neither answered nor cached |
| `Serving.PublishThenGet` | internal/server/server.go:57-131 | after any run of requests handled one at a time, an accepted publish on main is what the next HEAD read returns, through any cache, also when nothing was written, if no two validating contents published share a version input |
| `Serving.PublishesAreServedIff` | internal/server/server.go:57-131 | over all runs of requests handled one at a time that publish from a pool of contents, every acknowledged publish on main is read back iff no two of those that validate share a version input |
| `Serving.TwinIsNeverServed` | internal/server/server.go:62-76 | published after a twin, a content is acknowledged, nothing changes, and HEAD returns the twin |
| `Serving.RepeatedSlotIsNeverServed` | internal/server/server.go:62-76 | a concrete run: a repeated slot, then the same text with the slot in the template |
| `Serving.BranchWorkIsInvisible` | internal/server/server.go:80-91 | work on other branches changes no HEAD read, served row or event |
| `Serving.PinnedReadIsStable` | internal/server/server.go:261-276 | a read pinned to a commit answers the same after any request unless a branch takes that name |
| `Serving.SubscribersInSyncIff` | internal/server/server.go:221-237 | a request handled alone keeps the last announced version of every uri equal to the served one iff it is not a merge into main of an unannounced version |
| `Serving.MergeGoesUnannounced` | internal/server/server.go:221-237 | a run of publish, branch, publish on the branch and merge after which subscribers are behind |
| `Serving.SubscribersInSyncOverRuns` | internal/server/server.go:82-91 | runs of requests handled one at a time without such a merge stay in step |
| `Announcing.InStepIff` | internal/server/server.go:77-91 | in every state of every interleaving of commits and notifications, the change announced last is the one served iff that one was announced and no older one after a newer |
| `Announcing.StepKeepsNewestLastIff` | internal/server/server.go:86-91 | a step keeps the newest announcement last iff it does not notify of an older change than one announced already |
| `Announcing.SettledInStepIff` | internal/server/server.go:77-91 | if no notification of a uri is lost or late, then once its handlers are done subscribers are in step iff what it serves is not the work of a merge |
| `Announcing.OvertakenNotification` | internal/server/server.go:77-91 | a concrete run of two publishes that notify in the other order: no merge, and subscribers hold the older version |
| `Announcing.LostNotification` | internal/server/server.go:86-91 | a concrete run in which a lost notification leaves subscribers with the older version |
| `Servers.NewMemCache` | internal/server/cache.go:24-29 | a non-positive ttl gives no cache, otherwise a fresh empty one |
| `Servers.Server.PublishPrompt` | internal/server/server.go:43-93 | store, cache and events move as the atomic publish step, with its response |
| `Servers.Server.GetPrompt` | internal/server/server.go:95-131 | the response and cache of the atomic read step |
| `Servers.Server.GetByRef` | internal/server/server.go:264-276 | the response of the pinned read |
| `Servers.Server.CreateBranch` | internal/server/server.go:201-219 | the new branch, answered with the newest entry of its log, which is the source's tip |
| `Servers.Server.MergeBranch` | internal/server/server.go:221-237 | the atomic merge step: cache dropped on main, no event |
| `Servers.Server.SetBranch` | internal/server/server.go:281-314 | the atomic rollback step: cache dropped and event on main |
| `Clients.PromptClient.Get` | adapters/python/promptnet/client.py:69-88 | a live entry is returned without asking the server; otherwise the server's answer, cached only when served and unpinned |
| `Clients.PromptClient.OnChange` | adapters/python/promptnet/client.py:145-147 | after a change event the answer is the server's own and replaces whatever was cached |
| `Staleness.EveryRunKeepsInv` | internal/server/server.go:82-131 | the clock, cache, client and writer invariants hold after every interleaving |
| `Staleness.ServerStalenessBound` | internal/server/server.go:104-131 | what a server response carries was the served HEAD before the response, no earlier than its time minus the ttl minus its fetching reader's read-to-put delay |
| `Staleness.SlowestReaderBoundsStaleness` | internal/server/cache.go:42-56 | if no reader takes longer than d from read to put, what a response carries was served before it, within the ttl plus d |
| `Staleness.ClientStalenessBound` | adapters/python/promptnet/client.py:69-88 | what a client response carries was served before it; the client's ttl and the duration of its call add to the bound |
| `SlowReaders.BoundIsAttained` | internal/server/cache.go:42-63 | for every ttl and delay, a run whose last response carries a row not served any later than the bound allows; with a cache its entry is stale with no writer left |
| `SlowReaders.ClientBoundIsAttained` | adapters/python/promptnet/client.py:69-88 | the same for the client's bound, up to the tick its strict expiry takes off |
| `Staleness.ResponsesAfterInvalidate` | internal/server/server.go:82-131 | after the invalidate of any commit, over all interleavings, a response to its uri was put after that invalidate, and carries that commit's row or a later one unless its reader read before the commit |
| `Staleness.SurvivorsOfInvalidate` | internal/server/cache.go:42-63 | the same of what is cached after the invalidate of any commit |
| `Staleness.StaleEntryNeedsASlowReader` | internal/server/cache.go:58-63 | once the last commit's invalidate has run, whatever other writers are at work, a stale entry was read before that commit and put after its invalidate |
| `Staleness.IdleUriIsInvalidated` | internal/server/server.go:82-85 | when no writer of a uri is between commit and invalidate, its last commit's invalidate has run |
| `SerialReads.ReadAloneIsHandled` | internal/server/server.go:95-131 | the three steps of a read with nothing in between leave the cache of the atomic HEAD handler and give its answer |
| `SerialReads.WriteAloneIsHandled` | internal/server/server.go:77-85 | a commit and its invalidate with nothing in between leave what a change of main leaves |
| `SerialReads.ClientKeepsForOneTtl` | adapters/python/promptnet/client.py:69-88 | what a client received answers its calls for one client ttl, then it asks again |
| `SerialReads.DroppedClientAsks` | adapters/python/promptnet/client.py:145-147 | a client that dropped its entry has to ask |

## Left out

- Column created_at of commits and the sorted listing in validation errors: display.
- The square root and rounding inside the cosine: the similarity is an arbitrary function.
- The 32-bit floats of lexical vectors: counts are natural numbers.
- An embedding endpoint that returns no vector for a text, which the code would index out of range.
- `LikePrefix.EscapedPrefixMatchesExactly`: says which uris are listed; their order and columns come from the database engine.
- `Servers.Server.GetPrompt`: is one atomic step; the interleaving of its store read and cache put with other requests is in `Staleness`.
- `Staleness.ServerStalenessBound`: commits write arbitrary rows, a superset of what the store can serve; serve-time validation and not-found answers are not part of the protocol, and a reader answers in the step of its put.
- `Staleness.ResponsesAfterInvalidate`: a publish that finds its version served commits nothing and is no step of this protocol.
- `Announcing.InStepIff`: compares changes, not versions; an older change of the served version, announced last, also leaves subscribers with that version.
- `Servers.Server.CreateBranch`: requires the linked, acyclic graph that `Serving.EveryServedGraphIsGood` shows every run to have; so does `Stores.Store.Log`, by `Interleaving.EveryRunIsLinkedAndAcyclic`.
- `Clients.PromptClient.Get`: is one atomic step; interleavings of client calls are in `Staleness`.
- Token, organisation scope and write checks, rate limits, TLS, metrics.
- The gRPC and protobuf layer, Redis, NATS delivery, Prometheus; Redis behaves as the same ttl cache.
- The HTTP embedder, formatting of reports, the JavaScript client, the client's list and diff calls.
- Migrations, placeholder rewriting, dump and restore.
- ListPrompts, DiffPrompt, History and DiffCommits handlers: reads over functions that are modelled.
- git operations of promptctl; only slot derivation and its validation are modelled.
- Splitting templates into lines before a classification: the verdict of an edit is an argument of the server.

# VantaMCPd: verified models of its stateful cores

Dafny models of the stateful and algorithmic parts of VantaMCPd, with proofs of what each is for. `dafny verify
dfyconfig.toml` checks the whole project.

| files | what they model |
|---|---|
| `ArtifactSpec`, `ArtifactProofs`, `ArtifactRuns`, `ArtifactFates`, `ArtifactReplies` | the shared artifact store as a state machine over the locked steps of its two programs, what all runs keep, what becomes of each entry, and what each caller is told |
| `ArtifactStore` | the same store as an object updated in place |
| `ArtifactTransferSpec`, `ArtifactTransfer` | the upload and download loops against it, as steps of a run with other callers in between |
| `EditDistance`, `Spelling`, `Corrections` | the banded edit distance, the spelling choice, the correction of a query |
| `Query`, `Fts5Reader`, `QueryReadBack`, `QueryLaws`, `QueryGroups`, `QueryTyping` | the query parser, a reader for the FTS5 grammar, the proof that reading inverts rendering, laws of the syntax, how terms are grouped, and the proof that parsing inverts typing |
| `CorpusIndex`, `CorpusCounts`, `CorpusReplay`, `CorpusPlan`, `CorpusStore`, `CorpusResume` | the papers table and the full-text table kept beside it by hand, through provisioning by a plan, death at any commit, resumption and refresh, and the counts recorded of it |
| `DownloadSpec`, `Download` | the download loop with redirects, cooldowns, retries and ranged continuation: as a deterministic machine, and as it runs |
| `DownloadLaws`, `DownloadTimes`, `DownloadOutcomes`, `DownloadCooldowns`, `DownloadIntegrity` | what every run of it keeps: its requests, its clock, when it succeeds, how it treats hosts that asked to slow down, whose bytes the file holds |
| `MapLimit`, `RateLimiter`, `Capture`, `CdpPipe` | the concurrency and streaming kernels |
| `PagedWalk`, `VerifiedCopy` | the paged walk of a mounted source and its verified copy |
| `GltfMatrix`, `GltfBake`, `GltfConvert` | glTF transforms, the walk of the node graph, and position baking, over exact reals |

What the environment decides is an input: the clock, free disk space, SHA-256 (any function), Unicode tables (any
functions), servers, short reads and writes, schedules, and where a process dies. Identifiers drawn with uuid4 are
modelled as numbers never drawn before. JSON, base64 and SQLite appear by what they guarantee: an inverse pair of
encodings, maps with unique keys, a constraint error for a rowid inserted twice.

Where the code does not do what its description suggests, the model follows the code, states exactly when it does, and
gives an input where it does not:

- `docs/Reference.md` recommends a reservation for long-running work, but the sweep removes any reservation one hour
  after it was made. Which steps of a run keep it and which end it is `ArtifactRuns.ReservationEnds`; a publication
  against it succeeds exactly when none ended it (`ReservationIsHonoured`, `SweptAfterAnHour`).
- An upload whose append crashed with bytes in the content file but not in the metadata can never be committed
  (`CommitIsReachable`, `CrashTears`); it has to be aborted or waits for the sweep.
- `not x` and `-x` differ when x is only punctuation: the sign goes with it, the word waits for the next term
  (`NotIsMinus`, `NotWaitsPastPunctuation`).
- A catch-up batch that names an identifier twice is refused by the index (`UpsertThenIndex`, `TwiceInABatch`).
- The download keeps its validator and its staged part across a redirect. A validator says nothing at another URL, so a
  file can be assembled from two (`SafeExactlyAtTheSameUrl`, `MixedFile`); it is of one piece whenever every continuation
  is asked where the file began (`StagedIsPrefix`, `StaysPutIsSameSource`).
- A 206 response shorter than the range asked for, with a truthful length, ends the download early
  (`WholeWhenReached`, `ShortRangeEndsEarly`).
- A second reply to a `command_nowait` does land among the responses (`QuietRepliesAreDropped`, `AnsweredTwice`).
- `truncated` of an SSH result is documented as reaching the output limit; an empty chunk on a full stream sets it
  although nothing was lost, and output of exactly the limit does not (`Collect`, `EmptyChunkMarks`).

## Model

| member | source | states |
|---|---|---|
| `ArtifactProofs.EveryRunKeepsQuotas` | modules/artifact-storage/store.py:183-252 | From any sound state within quota, every sequence of locked steps of both programs (with crashes inside append) ends with the store's total at most totalQuotaBytes and every producer's at most producerQuotaBytes, and every record sound |
| `ArtifactProofs.StepKeeps` | modules/artifact-storage/store.py:211-430 | Each single step of either program keeps soundness and both quotas |
| `ArtifactProofs.AdmittedFits` | modules/artifact-storage/store.py:225-232 | A size that passes the admission checks can be added without any producer's or the store's usage crossing its quota |
| `ArtifactProofs.SweepKeeps` | modules/artifact-storage/store.py:404-429 | The sweep never raises any usage and keeps soundness |
| `ArtifactProofs.BeginKeeps` | modules/artifact-storage/store.py:211-252 | begin, which sweeps, checks and allocates, keeps quotas and soundness |
| `ArtifactProofs.AppendKeeps` | modules/artifact-storage/store.py:269-285 | append and an append that crashes between its two writes keep quotas and soundness; the content is always at least receivedBytes long |
| `ArtifactProofs.CommitConserves` | modules/artifact-storage/store.py:288-322 | commit leaves the total and every producer's usage exactly as they were: declaredBytes move from the upload to the object |
| `ArtifactProofs.CommitKeeps` | modules/artifact-storage/store.py:290-321 | commit keeps soundness: the new object's digest and size are those of its bytes, its expiry within policy |
| `ArtifactProofs.RemovalKeeps` | modules/artifact-storage/store.py:324-386 | abort, delete and release keep quotas and soundness |
| `ArtifactProofs.UpdateKeeps` | modules/artifact-storage/store.py:388-398 | update keeps soundness: expiry never passes creation plus the maximum retention |
| `ArtifactProofs.ReserveKeeps` | modules/artifact_protocol.py:226-250 | reserve keeps quotas and soundness |
| `ArtifactProofs.PublishUsage` | modules/artifact_protocol.py:279-343 | A publication raises every usage by exactly the validated sizes when it succeeds and by nothing when it fails, and succeeds only within its budget |
| `ArtifactProofs.PublishSound` | modules/artifact_protocol.py:313-326 | Every published object's digest and size are those of the bytes copied |
| `ArtifactProofs.PublishReservedNeverRaises` | modules/artifact_protocol.py:346-361 | Publishing against a reservation never raises any usage, whether it succeeds or fails |
| `ArtifactProofs.PublishReservedKeeps` | modules/artifact_protocol.py:346-361 | Publishing against a reservation keeps quotas and soundness |
| `ArtifactProofs.PublishUnreservedKeeps` | modules/artifact_protocol.py:364-381 | Unreserved publication keeps quotas and soundness |
| `ArtifactSpec.ItemsCheck` | modules/artifact_protocol.py:286 | Validation of a batch passes exactly when every item validates |
| `ArtifactSpec.Attempts` | modules/artifact_protocol.py:292-343 | The publication loop stops at the first item that does not go through |
| `ArtifactRuns.EveryRunDescends` | modules/artifact-storage/store.py:388-398 | Over every run from every state: an artifact keeps its bytes, digest, name and producer as long as it exists (only its expiry changes), an upload only grows, and no identifier removed comes back |
| `ArtifactRuns.SpentReservationIsRefused` | modules/artifact_protocol.py:355-358 | A reservation that was released, spent or swept is refused by every later publication, after any run, leaving the state untouched |
| `ArtifactRuns.ReservationIsHonoured` | modules/artifact_protocol.py:346-361 | After any run, a publication against a reservation goes through if and only if no step of the run ended it and the batch is a valid one of its producer that fits it: no quota can refuse it by then |
| `ArtifactRuns.ReservationEnds` | modules/artifact-storage/store.py:420-428 | Over every run, a reservation is still held if and only if no step released it, published against it successfully, or swept (on its own or inside a valid begin) at a time from one hour after it was made |
| `ArtifactRuns.SweptAfterAnHour` | modules/artifact-storage/store.py:420-428 | The run that shows it: an hour after a reservation was made, one sweep, and its own producer is refused |
| `ArtifactRuns.PublishIsAllOrNothing` | modules/artifact_protocol.py:289-343 | After success every item is an object holding its own bytes and digest; after failure the objects are exactly as before |
| `ArtifactRuns.UploadsStayFaithful` | modules/artifact-storage/store.py:269-285 | At every point of every run, an upload that began in it holds its acknowledged chunks in offset order without gap or overlap, and at least receivedBytes of content |
| `ArtifactRuns.CommitPublishesAckedChunks` | modules/artifact-storage/store.py:290-321 | Whatever appends crashed halfway, a commit that succeeds publishes exactly the concatenation of the acknowledged chunks, each once, under its own digest |
| `ArtifactRuns.TornUploadNeverCommits` | modules/artifact-storage/store.py:293-294 | Once a crash has left unacknowledged bytes behind, no later run can commit that upload |
| `ArtifactRuns.CommitIsReachable` | modules/artifact-storage/store.py:288-301 | Some later run commits an upload if and only if its content is exactly what was acknowledged and can still be completed to its expected digest |
| `ArtifactRuns.CrashTears` | modules/artifact-storage/store.py:279-285 | Any append that crashes after its first byte tears its upload: no later run commits it |
| `ArtifactRuns.SendRest` | modules/artifact-storage/store.py:254-286 | From any state the rest of an upload can be sent in chunks the store accepts |
| `ArtifactFates.ObjectFate` | modules/artifact-storage/store.py:404-410 | One step of either program leaves an artifact out if and only if it is a confirmed delete of it, a gc at or after its expiry, or a begin with valid arguments then; otherwise it is there unchanged but for the expiry its own update gives it |
| `ArtifactFates.EveryObjectLives` | modules/artifact-storage/store.py:374-410 | Over every run an artifact is what the steps that concern it make of it, its expiry followed through its updates: no quota, sweep before its expiry or publication takes it away |
| `ArtifactFates.ObjectStays` | modules/artifact-storage/store.py:404-410 | A run that does not update an artifact keeps it, unchanged, if and only if none of its steps removes it |
| `ArtifactFates.UploadFate` | modules/artifact-storage/store.py:411-419 | What each step makes of an upload: appended chunks at its end within what it declared, a torn end by a crash, gone by its commit, its abort, or a sweep from an hour after its last append, and otherwise unchanged |
| `ArtifactFates.NewObjects` | modules/artifact-storage/store.py:303-320 | An artifact appears only by a commit of a whole upload or by a publication, with the name, type, producer, size, digest, bytes and times of that upload or item |
| `ArtifactFates.NewUploads` | modules/artifact-storage/store.py:233-251 | An upload appears only by a begin with valid arguments, empty and as asked for |
| `ArtifactFates.NewReservations` | modules/artifact_protocol.py:243-249 | A reservation appears only by reserve, for the producer and size asked for, from then on |
| `ArtifactFates.UsageAddsUp` | modules/artifact-storage/store.py:183-209 | Usage is nothing in an empty store, and grows with each entry by its bytes for the store and for its own producer, and for nobody else |
| `ArtifactFates.BeginAnswers` | modules/artifact-storage/store.py:211-252 | begin admits an upload if and only if its arguments are valid and its size fits the store, its producer and the disk, once expired and idle entries are gone |
| `ArtifactFates.ReserveAnswers` | modules/artifact_protocol.py:233-250 | reserve succeeds if and only if the producer is valid and the size fits the store, the producer and the disk |
| `ArtifactFates.PublicationAnswers` | modules/artifact_protocol.py:364-381 | An unreserved publication succeeds if and only if its budget fits and every item is an allowed plain file that was copied whole, together within the budget |
| `ArtifactFates.EveryNameIsSafe` | modules/artifact-storage/store.py:233-251 | Over every run each stored name is of 1 to 128 characters without separators or control characters |
| `ArtifactReplies.ArgumentsAccepted` | modules/artifact-storage/store.py:211-222 | The arguments begin takes, character by character: name, producer, size, days, type and digest |
| `ArtifactReplies.OutputNamesAccepted` | modules/artifact_protocol.py:270-271 | The names an output may have |
| `ArtifactReplies.LimitsInOrder` | modules/artifact-storage/store.py:225-232 | The refusal names the first limit passed: the store's, the producer's, the disk's; and there is none if and only if all three hold |
| `ArtifactReplies.AppendAnswers` | modules/artifact-storage/store.py:254-286 | append is acknowledged if and only if the upload accepts the chunk, with the count it then has; a refusal changes nothing |
| `ArtifactReplies.CommitAnswers` | modules/artifact-storage/store.py:288-322 | commit succeeds if and only if the upload holds what it declared, of its expected digest; it then is one artifact of that content and no upload |
| `ArtifactReplies.RemovalAnswers` | modules/artifact-storage/store.py:324-386 | abort and a confirmed delete report whether there was anything to remove; an unconfirmed delete is refused |
| `ArtifactReplies.UpdateAnswers` | modules/artifact-storage/store.py:388-398 | update succeeds if and only if the days are allowed and the artifact is there, unexpired, and returns it with its new expiry, nothing else changed |
| `ArtifactReplies.ReadAnswers` | modules/artifact-storage/store.py:336-353 | read succeeds if and only if the artifact is there, unexpired, and offset and length are in range; it gives the bytes from the offset on, as many as asked for while there are some, with their own digest, their end and the end mark |
| `ArtifactReplies.PublishAnswers` | modules/artifact_protocol.py:279-343 | A valid batch is published under fresh identifiers, or fails at its first item that was not copied whole, as changed or as the system call failed, one identifier drawn for each attempt |
| `ArtifactReplies.ReservedAnswers` | modules/artifact_protocol.py:346-361 | A missing reservation and a foreign producer are refused before the batch is looked at; success spends the reservation, failure keeps it and every artifact |
| `ArtifactStorage.ArtifactStore.Tally` | modules/artifact-storage/store.py:186-208 | One directory of the usage scan, in any listing order, adds exactly the recursive sums to the total and to every producer |
| `ArtifactStorage.ArtifactStore.Usage` | modules/artifact-storage/store.py:183-209 | The scan's total and per-producer dictionary are the store's usage |
| `ArtifactStorage.ArtifactStore.Admit` | modules/artifact_protocol.py:236-242 | The three checks in order, decided on the exact usage |
| `ArtifactStorage.ArtifactStore.SweepUploads` | modules/artifact-storage/store.py:411-419 | The upload sweep completes exactly when no staging directory is in .uploads, and then removes exactly the uploads idle for the time to live |
| `ArtifactStorage.ArtifactStore.GcLocked` | modules/artifact-storage/store.py:404-429 | The sweep runs to its end exactly when no staging directory was left behind, and then is the specified one: exactly the expired artifacts and the idle uploads and reservations go (ArtifactFates.ObjectFate, UploadFate, ArtifactRuns.ReservationEnds) |
| `ArtifactStorage.ArtifactStore.Begin` | modules/artifact-storage/store.py:211-252 | The new state and reply are those of the specified step, every refusal included: what a begin leaves of every other entry is ArtifactFates.ObjectFate, what it answers BeginAnswers |
| `ArtifactStorage.ArtifactStore.Append` | modules/artifact-storage/store.py:254-286 | The two writes in order refine the specified append; stopping between them leaves exactly the specified torn state |
| `ArtifactStorage.ArtifactStore.Commit` | modules/artifact-storage/store.py:288-322 | Refines the specified commit, refusals included |
| `ArtifactStorage.ArtifactStore.Abort` | modules/artifact-storage/store.py:324-330 | Refines the specified abort |
| `ArtifactStorage.ArtifactStore.Delete` | modules/artifact-storage/store.py:374-386 | Refines the specified delete, with its confirmation |
| `ArtifactStorage.ArtifactStore.Update` | modules/artifact-storage/store.py:388-398 | Refines the specified update, refusing an artifact that is missing or expired |
| `ArtifactStorage.ArtifactStore.Read` | modules/artifact-storage/store.py:336-353 | Refines the specified read: a slice of the content with its offset, end mark and digest |
| `ArtifactStorage.ArtifactStore.Reserve` | modules/artifact_protocol.py:226-250 | Refines the specified reservation |
| `ArtifactStorage.ArtifactStore.Release` | modules/artifact_protocol.py:253-262 | Removes the reservation if it is there |
| `ArtifactStorage.ArtifactStore.PublishOne` | modules/artifact_protocol.py:294-338 | One item through staging, copy, metadata and move: published exactly when nothing failed and the size did not change; a failure leaves at most its own staging directory |
| `ArtifactStorage.ArtifactStore.MoveAll` | modules/artifact_protocol.py:289-343 | Publishes the whole batch, or restores the objects exactly, with no staging directory left either way |
| `ArtifactStorage.ArtifactStore.TakeBack` | modules/artifact_protocol.py:340-343 | The except block removes the staging directory and every object already moved, giving back the objects from before |
| `ArtifactStorage.ArtifactStore.PublishLocked` | modules/artifact_protocol.py:279-343 | Refines the specified all-or-nothing publication and leaves .uploads free of staging directories |
| `ArtifactStorage.ArtifactStore.PublishReserved` | modules/artifact_protocol.py:346-361 | Refines the specified publication and consumes the reservation exactly on success |
| `ArtifactStorage.ArtifactStore.PublishUnreserved` | modules/artifact_protocol.py:364-381 | Refines the specified quota-checked publication |
| `ArtifactTransferSpec.ChunkFits` | modules/artifact-storage/store.py:258-259 | Every chunk the client may send passes the store's encoded-length check |
| `ArtifactTransferSpec.RunKeepsOff` | modules/artifact-storage/store.py:254-330 | While other callers do not name an upload, any run of them leaves it exactly as it was, unless one of their steps sweeps at least an hour after its last acknowledgement: then, and only then, it is gone |
| `ArtifactTransferSpec.ChunkLands` | src/artifact-upload.ts:88-91 | An upload in progress accepts its next chunk exactly when it is still there, and is then that many bytes of the file further |
| `ArtifactTransferSpec.ChunkGoes` | src/artifact-upload.ts:82-93 | With others keeping off, chunk k is acknowledged if and only if none of their steps before it sweeps an hour after the acknowledgement before |
| `ArtifactTransferSpec.CommitLeads` | src/artifact-upload.ts:97 | With others keeping off, the commit of a whole and correct upload goes through if and only if nobody has swept it before any request, and the artifact then has the file's bytes and digest and the name, type, producer and time begin was asked for |
| `ArtifactTransferSpec.LastsIsDownloadable` | src/artifact-download.ts:28-47 | After any run, an artifact can be downloaded if and only if it fits the limit and its own life, step by step, keeps it unexpired for each read |
| `ArtifactTransfer.SendAll` | src/artifact-upload.ts:79-97 | The store afterwards is the one that the client's chunks and commit lead to, with the others' steps between them and nothing else; what is stored is exactly the file; with reads that go on and the right digest it is stored if and only if no step sweeps an hour after an acknowledgement |
| `ArtifactTransfer.UploadFile` | src/artifact-upload.ts:69-106 | The store afterwards is exactly what begin, the chunks, the commit or the abort, and the others' steps between them lead to; if others keep off the identifier begun, success stores exactly the file's bytes and digest, short reads included, and it succeeds if and only if begin admits it and no step sweeps an hour after an acknowledgement; failure leaves no upload behind |
| `ArtifactTransfer.ReadAll` | src/artifact-download.ts:36-47 | The reads change nothing on the store; all of them go through if and only if the artifact is there and unexpired at each, and then give its bytes |
| `ArtifactTransfer.DownloadFile` | src/artifact-download.ts:28-51 | The store afterwards is what the others' steps lead to; whatever they are, it succeeds if and only if the artifact is within the size limit and there, unexpired, at each request, and has then written exactly the bytes the artifact had at the first |
| `ArtifactTransfer.RoundTrip` | src/artifact-download.ts:36-51 | What was uploaded under the identifier begin drew is what is downloaded, after any steps of anybody in between; the download succeeds if and only if the file fits the caller's limit and no delete of the artifact and no sweep after its expiry, followed through its updates, comes before a read, nor a read after it |
| `EditDistance.BoundedEditDistance` | modules/corpus-search/corpus.py:521-537 | For all strings and every maximum the abandoned-early table routine returns the edit distance when it is at most the maximum and None otherwise |
| `EditDistance.DistanceIsMinimumScriptCost` | modules/corpus-search/corpus.py:526-537 | A number is the distance if and only if it is the least cost of any script of keeps, substitutions, insertions and deletions between the two words |
| `EditDistance.DistanceIsLeast` | modules/corpus-search/corpus.py:531 | No edit script is cheaper than the recurrence |
| `EditDistance.Cheapest` | modules/corpus-search/corpus.py:531 | Some edit script costs exactly what the recurrence gives |
| `EditDistance.LengthBound` | modules/corpus-search/corpus.py:523-524 | The length difference is a lower bound of the distance, which justifies the early return |
| `EditDistance.NextRowAbove` | modules/corpus-search/corpus.py:533-535 | A row of the table entirely above a bound forces the next row above it |
| `EditDistance.RowAboveIsFinal` | modules/corpus-search/corpus.py:534-535 | A row entirely above the maximum decides the final distance, which justifies abandoning it |
| `Spelling.RangeIsPrefix` | modules/corpus-search/corpus.py:551-556 | The half-open range from a prefix to its successor holds exactly the strings that start with the prefix, in code-point order |
| `Spelling.ScanIsPrefixScan` | modules/corpus-search/corpus.py:553-556 | The vocabulary query returns exactly the rows with the prefix, in order |
| `Spelling.ScanIsFirstRows` | modules/corpus-search/corpus.py:553-556 | The rows scanned are the first 20,000 with the prefix, in the vocabulary's order |
| `Spelling.BelowAtTheDifference` | modules/corpus-search/corpus.py:553-563 | The order of the vocabulary is by the first difference, a beginning before the whole |
| `Spelling.BestIsSuggested` | modules/corpus-search/corpus.py:557-564 | The best row under the ranking is the one that is nearest, then commonest, then first |
| `Spelling.PreferredTransitive` | modules/corpus-search/corpus.py:561-563 | The ranking by distance, documents and term is transitive |
| `Spelling.NearestTerm` | modules/corpus-search/corpus.py:544-564 | Of the first 20,000 rows with the term's first three characters, or its first one below five, the suggestion is one within one edit for a term of up to four characters and two otherwise, none of them nearer, or as near and in more documents, or as both and earlier in code-point order; None exactly when no row is near enough; the scan fails exactly when the last character of the prefix is U+D7FF or U+10FFFF |
| `Corrections.ChooseFor` | modules/corpus-search/corpus.py:570-576 | A word is looked up only when it stands alone in its group, without star or blank, and its folded form is not empty and not in the vocabulary; then it gets what the vocabulary suggests for it; the lookup fails if and only if its prefix ends in a character without a successor |
| `Corrections.CorrectGroup` | modules/corpus-search/corpus.py:570-578 | One turn keeps the replacements, the choices and the report in step; it fails if and only if that group's prefix has no successor |
| `Corrections.CorrectTerms` | modules/corpus-search/corpus.py:567-579 | Every group is either left as it was or has its one word replaced by its own best candidate; exclusions, group count and order stay; the report lists the replacements in query order; failure if and only if some looked-up prefix has no successor |
| `Corrections.RetryIsExact` | modules/corpus-search/corpus.py:567-579 | The retry puts the chosen text, and nothing else, in the place of each word chosen for, and reports exactly those, in query order, each with its old and new text |
| `Corrections.CorrectionIsStable` | modules/corpus-search/corpus.py:570-578 | Over a vocabulary of folded terms, correcting a corrected word again changes nothing |
| `Query.BuiltTextIsValid` | modules/corpus-search/query.py:76-98 | Whatever the user wrote, a built clause carries non-empty, trimmed, bounded text with a searchable character |
| `Query.FoldKeeps` | modules/corpus-search/query.py:109-135 | Every prefix of the parse keeps: required clauses unsigned, excluded ones negated, all texts valid, an OR pending only after a term |
| `Query.TermsAreJoined` | modules/corpus-search/query.py:137 | The counted total is the number of required clauses |
| `Query.Parse` | modules/corpus-search/query.py:101-142 | The loop with its pending flags gives the fold of its raw clauses, each error exactly in its case: more than 500 characters or only whitespace, more than 32 terms, nothing required; an accepted query has a required term, at most 32 clauses and only valid ones. What the fold means is QueryGroups.GroupsFollowOr and QueryTyping.TypedIsRead |
| `QueryReadBack.QuotedInvertsDoubled` | modules/corpus-search/query.py:46 | Reading a quoted string with doubled quotes gives back the text character for character |
| `QueryReadBack.LexQuery` | modules/corpus-search/query.py:64-73 | The rendered text has exactly the intended tokens: no user text escapes its literal |
| `QueryReadBack.ReadInvertsRender` | modules/corpus-search/query.py:45-73 | A reader for the FTS5 grammar (section 3 of the SQLite FTS5 documentation) applied to any rendered query gives back its tree |
| `QueryReadBack.RenderedMeaning` | modules/corpus-search/query.py:64-73 | The expression read back holds of a record exactly when every group has a matching clause and no excluded clause matches |
| `QueryLaws.AndIsInert` | modules/corpus-search/query.py:116-117 | A bare and, in any case, changes nothing wherever it stands |
| `QueryLaws.NotIsMinus` | modules/corpus-search/query.py:118-126 | not x and -x are the same exclusion if and only if x carries a searchable term or a not was already waiting |
| `QueryLaws.NotWaitsPastPunctuation` | modules/corpus-search/query.py:118-130 | The input that shows it: not ! x excludes x, -! x requires it |
| `QueryLaws.ClausesAreKept` | modules/corpus-search/query.py:109-135 | Every searchable term lands exactly once, required or excluded by its sign, in query order |
| `QueryLaws.QuotedIsLiteral` | modules/corpus-search/query.py:87-98 | A quoted phrase without quotes inside becomes one literal required term, even when it is an operator word or looks like a field |
| `QueryGroups.GroupsFollowOr` | modules/corpus-search/query.py:109-135 | For every query the required terms stay in order, and two neighbours share a group if and only if an or that counts stands between them with no exclusion after it |
| `QueryGroups.OrJoins` | modules/corpus-search/query.py:128-134 | From any point with a term before it: or and a term add that term to the last group; without or it opens a group of its own |
| `QueryTyping.TypedIsRead` | modules/corpus-search/query.py:101-142 | Every query that can be typed, its groups as alternatives joined by or and its exclusions under a minus, is parsed back to itself: groups, order, fields, stars and signs |
| `QueryTyping.FieldsReachColumns` | modules/corpus-search/query.py:18-25 | The six field names filter exactly their four columns, and a clause is rendered under the name of its column |
| `QueryTyping.OperatorSpellings` | modules/corpus-search/query.py:112-121 | Exactly the words or, and, not, in any case, are operators |
| `QueryTyping.BareTermIsRead` | modules/corpus-search/query.py:76-98 | A term without quotes is read as it stands: excluded under a minus, wanted under a plus or no sign, a prefix before a star, in its field's column, cut after 200 characters, and dropped when nothing in it can be searched for |
| `QueryTyping.SpacedWords` | modules/corpus-search/query.py:27 | Words with blanks between them, in quotes or bare, are the clauses that are matched, one by one |
| `Query.StripTakesSpace` | modules/corpus-search/query.py:94 | Stripping takes whitespace from both ends and nothing else |
| `CorpusIndex.UpsertRewrites` | modules/corpus-search/corpus.py:169-193 | A batch upsert keeps every row and its source, changes rows only into papers of the batch, and leaves the index alone |
| `CorpusIndex.UpsertWaiting` | modules/corpus-search/corpus.py:169-193 | Upserting into a source that waits for its index keeps every other row indexed correctly |
| `CorpusIndex.UpsertThenIndex` | modules/corpus-search/corpus.py:212-232 | Upserting a batch and re-indexing its identifiers is accepted if and only if no identifier repeats in the batch, and then restores the index |
| `CorpusIndex.TwiceInABatch` | modules/corpus-search/corpus.py:219-231 | The input that shows it: one paper twice in a batch, delivered to an empty database, is refused |
| `CorpusIndex.RepeatsAgree` | modules/corpus-search/corpus.py:219-231 | The rows to insert repeat exactly when the identifiers do |
| `CorpusIndex.IndexSourceFinishes` | modules/corpus-search/corpus.py:196-209 | Indexing a waiting source is never refused and takes exactly that source off the waiting list |
| `CorpusIndex.DropSourceKeeps` | modules/corpus-search/corpus.py:158-166 | Dropping a source keeps the index in agreement for every other source |
| `CorpusStore.Corpus.UpsertPapers` | modules/corpus-search/corpus.py:169-193 | Row by row, the batch has the effect of the specified upsert and keeps identifiers unique |
| `CorpusStore.Corpus.DropSource` | modules/corpus-search/corpus.py:158-166 | Removes exactly one source from all three tables |
| `CorpusStore.Corpus.IndexSource` | modules/corpus-search/corpus.py:196-209 | Accepted if and only if no row of the source is indexed, and then adds one entry per row of the source |
| `CorpusStore.Corpus.IndexPapers` | modules/corpus-search/corpus.py:212-232 | Fetch, delete, insert: accepted exactly when no row is named twice, and then every named row has its current entry |
| `CorpusStore.Corpus.Census` | modules/corpus-search/corpus.py:339-361 | One pass counts every source's rows, primary categories and category memberships exactly |
| `CorpusCounts.AddListings` | modules/corpus-search/corpus.py:356-360 | A packed list of categories adds one for each listing of each category, and nothing for the empty pieces |
| `CorpusCounts.ListedAsPacked` | modules/corpus-search/corpus.py:356-360 | A packed list lists each name as often as it was packed, wherever it stands between the bars |
| `CorpusCounts.MergeCounts` | modules/corpus-search/corpus.py:364-371 | The merged counts are the sum over all sources, or one source's own |
| `CorpusCounts.MergedIsOverall` | modules/corpus-search/corpus.py:364-371 | Merging a census gives every category's listings over the whole catalogue, none lost and none twice |
| `CorpusCounts.ExactCountsAddUp` | modules/corpus-search/provision.py:446 | Counts exact for every source add up to the number of rows |
| `CorpusStore.Corpus.TotalRecords` | modules/corpus-search/corpus.py:404-408 | The recorded counts added up, or the number of rows where none are recorded |
| `CorpusStore.Corpus.Prune` | modules/corpus-search/provision.py:347-357 | Leaves exactly the rows of current sources, still in agreement with the index |
| `CorpusStore.Corpus.DeliverAll` | modules/corpus-search/provision.py:371-378 | The committed batches of a feed; at every commit, also the last before the process dies, the other sources' index is right and the papers are what the batches before it give |
| `CorpusStore.Corpus.DeliverWork` | modules/corpus-search/provision.py:362-378 | The baseline, when the source is reingested, and then its catch-up, each up to the batch at which the process dies; refused only for a repeated identifier in a batch indexed by record. What the table then holds is CorpusPlan.GatheredIsProvisioned |
| `CorpusStore.Corpus.RunAdapters` | modules/corpus-search/provision.py:362-378 | All sources in plan order; a run that dies has given exactly the batches before the commit it died at; refused only for a repeated identifier. What they come to, in terms of the plan, is CorpusPlan.GatheredIsProvisioned |
| `CorpusStore.Corpus.IndexAll` | modules/corpus-search/provision.py:386-388 | The per-source indexing is never refused and leaves nothing waiting |
| `CorpusStore.Corpus.Summarize` | modules/corpus-search/provision.py:390-409 | Records every source's exact count and the exact category tables |
| `CorpusStore.Corpus.Provision` | modules/corpus-search/provision.py:347-450 | A run that completes, fresh or resumed after dying at any commit, has a row for the latest version of every paper of every catch-up, and of the baseline of every source not kept, a catch-up overriding its baseline, and besides those exactly the kept rows, unchanged; one index entry per row with its current columns and nothing else, only planned sources, their exact counts. One that dies leaves the papers of the batches before it, from which the same plan gathers what it would have gathered undisturbed; undisturbed it completes if and only if no kept source repeats an identifier in a batch and the batches give any paper |
| `CorpusReplay.UpsertSettles` | modules/corpus-search/corpus.py:169-193 | However often a batch repeats an identifier, its last version is what every row of the table holds, once per identifier |
| `CorpusReplay.UpsertAllOthers` | modules/corpus-search/corpus.py:169-193 | A row whose identifier no batch names stays as it was, and every row keeps its identifier |
| `CorpusPlan.GatheredIsProvisioned` | modules/corpus-search/provision.py:347-378 | In terms of the plan alone: after all batches, the latest version of every paper of each source's catch-up, and of its baseline when it is not kept, has one row; every other row is one there was before, of a kept source unless the run is resumed, unchanged, and none of those is missing |
| `CorpusPlan.RefreshedIsProvisioned` | modules/corpus-search/provision.py:511-574 | The same of a refresh, which keeps every source and adds its catch-up |
| `CorpusReplay.CutShortIsCaughtUp` | modules/corpus-search/provision.py:344-378 | Delivering every batch again after any number of them ends with the papers of delivering them once |
| `CorpusResume.ResumedEndsAlike` | modules/corpus-search/provision.py:344-378 | Wherever a run died and however far each source's checkpoint lags behind its commits, delivering from the checkpoints gives the papers of the undisturbed run |
| `CorpusResume.ResumedGathers` | modules/corpus-search/provision.py:344-378 | What a stopped run leaves is where a run from the checkpoints may start, and that one gathers what the first would have |
| `CorpusStore.Corpus.Refresh` | modules/corpus-search/provision.py:511-574 | A refresh completes if and only if no batch repeats an identifier, and then has the latest version of every paper fed, every other row unchanged, the index in agreement, the counts exact and every row under a recorded source |
| `DownloadLaws.ReadsWhole` | modules/browser-retrieval/download.py:322-340 | Whatever ends the reading of a body, the file has grown by a prefix of it within the limit; reading that comes to an end has appended exactly what the body yields, and finishes only when nothing broke and the declared length arrived |
| `DownloadLaws.ReadingStops` | modules/browser-retrieval/download.py:325-327 | The clock is read before every chunk; a reading past the deadline ends the reading, so no chunk is taken after one, and the reading times out if and only if its last look at the clock is past the deadline |
| `DownloadOutcomes.FinishesFrom` | modules/browser-retrieval/download.py:322-340 | Reading finishes if and only if nothing breaks, the declared length arrives, every look at the clock is in time and the file stays within the limit |
| `Download.Transfer.Stream` | modules/browser-retrieval/download.py:322-340 | The loop over the chunks has the effect and outcome of the specified reading, and size, digest input and head describe exactly the file |
| `Download.Transfer.Restart` | modules/browser-retrieval/download.py:315-320 | A restart leaves an empty, consistent file |
| `Download.Throttle.Start` | modules/browser-retrieval/download.py:226-231 | A cooldown is only ever extended, by at most the maximum, and no other host's changes |
| `Download.Throttle.Remaining` | modules/browser-retrieval/download.py:214-223 | The remaining time is exact, and an entry is dropped exactly when it is over |
| `DownloadLaws.ValidatorIsStrong` | modules/browser-retrieval/download.py:294-300 | A range is asked for only from a server that takes byte ranges, on a condition of 1 to 200 characters: its strong ETag, or when it has none its Last-Modified |
| `DownloadSpec.DoublingAdds` | modules/browser-retrieval/download.py:240 | The base doubles with every failure |
| `DownloadSpec.BackoffLies` | modules/browser-retrieval/download.py:239-241 | A backoff is at most the cap and the doubled base, at least half of the lesser, and within half a tenth of a second of a draw from there |
| `Download.Honour` | modules/browser-retrieval/download.py:420-426 | Refines the machine: a cooldown that is over is dropped, one that fits is waited out, one that does not refuses the host; each decision is about the reading made for it |
| `Download.Refused` | modules/browser-retrieval/download.py:452-466 | Refines the machine: what Retry-After says or a backoff by the failures so far, a cooldown of that length for 429 and 503 only, then one more attempt if one is left and its wait fits |
| `Download.TakeBody` | modules/browser-retrieval/download.py:473-484 | Refines the machine: the body read onto the staged file, then the end, another attempt, or the error its reading gives |
| `Download.Handle` | modules/browser-retrieval/download.py:436-491 | Refines the machine on every answer: failed connection, redirect, refusal, full body, continuation, anything else |
| `Download.Round` | modules/browser-retrieval/download.py:427-434 | Refines the machine: no request after a reading past the deadline, else the one the staged part calls for |
| `Download.Run` | modules/browser-retrieval/download.py:400-499 | From a throttle in any state the loop is the machine: its result, request count, waits, and the cooldowns it leaves are those the machine ends with |
| `DownloadLaws.PlayKeepsAccounts` | modules/browser-retrieval/download.py:419-494 | Every run: at most 5 + max_attempts requests, each the one that the answers before it call for, each but the last a followed redirect or a failed attempt that was waited out; success is exactly the non-empty file within the limit that the answers come to, with its length, digest input, first 16 bytes and URL |
| `DownloadTimes.PlayIsTimed` | modules/browser-retrieval/download.py:409-494 | Every run: every request was sent after a reading before the deadline; every wait lies between the requests it belongs to, lasted what its answer asked for, and at a reading there was at most the maximum and ended before the deadline; every error has its reason in the last answer or in the readings just before it: given up means the last attempt, a wait above the maximum, or one that would end at or after the deadline |
| `DownloadTimes.NothingAfterTheDeadline` | modules/browser-retrieval/download.py:409-434 | With a clock that never goes back, once a reading is past the deadline nothing more is requested or waited for |
| `DownloadOutcomes.TurnCompletes` | modules/browser-retrieval/download.py:419-488 | A turn succeeds with a file if and only if its host may be asked, the request is in time, and the answer delivers the rest of that file, whole, within the limit and in time |
| `DownloadOutcomes.SucceedsExactly` | modules/browser-retrieval/download.py:419-499 | A download succeeds with a file if and only if some number of turns go on and the next one delivers the rest of that file |
| `DownloadOutcomes.FirstAnswerSuffices` | modules/browser-retrieval/download.py:467-499 | A complete first answer within the limit, read in time, from a host without a cooldown, is a success |
| `DownloadCooldowns.PlayKeepsRules` | modules/browser-retrieval/download.py:214-236 | Every run: no request goes to a host before a cooldown found for it, and every wait an earlier 429 or 503 of it asked for, at most 900 seconds, has passed on the clock or was waited out; each cooldown left was found or given for such an answer, and none is dropped or shortened before the clock has passed it, unless its host delivered a body to the end; no wait before a request lasts longer than what is left of one |
| `DownloadCooldowns.PlayHeedsCancel` | modules/browser-retrieval/download.py:258-264 | Every run: a caller that has cancelled when a wait starts is not kept waiting; the run ends there, and in no other wait had the caller cancelled |
| `DownloadCooldowns.EveryRun` | modules/browser-retrieval/download.py:409-499 | All these laws hold of every run from whatever cooldowns it finds |
| `DownloadIntegrity.StagedIsPrefix` | modules/browser-retrieval/download.py:419-494 | Over honest servers, where a validator names a representation at one URL: if every continuation was asked at the URL that began the file, the file is at every point a prefix of that one representation |
| `DownloadIntegrity.StaysPutIsSameSource` | modules/browser-retrieval/download.py:442-451 | It is so whenever no redirect is followed while a part is staged that could be continued |
| `DownloadIntegrity.SafeExactlyAtTheSameUrl` | modules/browser-retrieval/download.py:429-451 | Continuing at one URL what was begun at another keeps the file a prefix, for all honest servers and validators, if and only if the URL is the same |
| `DownloadIntegrity.MixedFile` | modules/browser-retrieval/download.py:429-451 | The run that shows it: a part of one file, a redirect, and the rest of another with the same date, all sent honestly and in full, succeed as a file that is neither |
| `DownloadIntegrity.WholeWhenReached` | modules/browser-retrieval/download.py:467-487 | From one source, a finished file is the whole representation if and only if the last answer's range start plus declared length reaches its end |
| `DownloadIntegrity.FetchedFromOne` | modules/browser-retrieval/download.py:409-499 | From one source, success is a prefix of the representation at the URL it reports, and all of it when servers declare and send to the end |
| `DownloadIntegrity.ShortRangeEndsEarly` | modules/browser-retrieval/download.py:467-487 | An honest 206 shorter than asked ends the loop with an incomplete file, from any staged part of the representation |
| `MapLimit.InFlightIsBounded` | src/ssh.ts:546-552 | At no point of any schedule are more than max(1, limit) calls in flight |
| `MapLimit.LimitIsReached` | src/ssh.ts:546-552 | With items for every worker, some schedule has as many calls in flight as the limit allows, or all the items |
| `MapLimit.Workers` | src/ssh.ts:546-547 | The most workers that are at least one, within the limit and no more than the items |
| `MapLimit.EachIndexOnce` | src/ssh.ts:548-550 | Under every schedule the calls are made for 0, 1, 2, ...: each index at most once, none skipped |
| `MapLimit.ResultsAreComplete` | src/ssh.ts:543-555 | When no worker will move again and nothing was rejected, every index was called and holds its own result |
| `MapLimit.RejectsExactly` | src/ssh.ts:550-553 | Under every schedule that runs to its end, the map rejects if and only if some item's call would be rejected |
| `MapLimit.FirstRejectionStays` | src/ssh.ts:553 | The rejection is that of the call rejected first, whatever the other workers still do |
| `MapLimit.EveryScheduleKeepsInv` | src/ssh.ts:546-552 | Throughout every schedule each claimed index is with exactly one running worker, or has its result, or was rejected |
| `MapLimit.SchedulesAreBounded` | src/ssh.ts:547-549 | Every schedule has at most two moves per item and one per worker; without rejections exactly so many |
| `MapLimit.NoDeadlock` | src/ssh.ts:553 | Until all workers have returned some move is possible |
| `MapLimit.MapAll` | src/ssh.ts:543-555 | The map, scheduled in any way, returns results[i] == fn(items[i], i) if no call is rejected, also for the empty list, and else some call's error |
| `RateLimiter.Limiter.Check` | modules/browser-retrieval/service.py:64-70 | The deque after a call, accepted or refused |
| `RateLimiter.AcceptedExactly` | modules/browser-retrieval/service.py:64-70 | For non-decreasing times, a call is accepted if and only if fewer than 20 were accepted in the 60 s before it |
| `RateLimiter.AcceptedSpacing` | modules/browser-retrieval/service.py:64-70 | An accepted call and the one accepted 20 calls later are at least 60 s apart |
| `RateLimiter.TracksAlways` | modules/browser-retrieval/service.py:66-70 | The deque is always the tail of the accepted calls, and all it has dropped had left the window |
| `Capture.BoundedCapture.Absorb` | modules/image-render/sandbox.py:152-162 | One read extends the captured stream: first 16 KiB, last min(64 KiB, remainder), total |
| `Capture.BoundedCapture.Run` | modules/image-render/sandbox.py:152-162 | For every chunking, head, tail and total depend only on the stream |
| `Capture.BoundedCapture.Omitted` | modules/image-render/sandbox.py:164-168 | Head, omitted part and tail make up the stream, the head its first 16 KiB and the tail its last 64 KiB behind that; truncated exactly when the stream exceeds 80 KiB |
| `Capture.LastOfLast` | modules/image-render/sandbox.py:159-162 | Cutting the tail early loses nothing a later cut would keep |
| `Capture.Collector.Push` | src/ssh.ts:235-244 | Keeps what fits and marks truncation, also for an empty chunk once full |
| `Capture.Collector.Collect` | src/ssh.ts:235-270 | Each stream keeps exactly its first limit bytes, under any interleaving; truncated if and only if a stream exceeded the limit or an empty chunk arrived on a full one |
| `Capture.EmptyChunkMarks` | src/ssh.ts:235-239 | The output that shows it: one byte under a limit of one, then an empty chunk: nothing is lost and the result is marked |
| `CdpPipe.ReadInTwo` | modules/browser-retrieval/browser.py:60-69 | Reading a stream in two parts, with the unfinished rest kept, yields the messages of one read |
| `CdpPipe.ReadInvertsWrite` | modules/browser-retrieval/browser.py:94-97 | Of any NUL-free payloads written and a rest without a NUL, the reader yields the payloads that are not empty, in order, and keeps the rest |
| `CdpPipe.EveryPayloadIsRead` | modules/browser-retrieval/browser.py:94-97 | Payloads of JSON text, never empty and without a raw NUL (section 7 of RFC 8259), all come through |
| `CdpPipe.ReadLoop` | modules/browser-retrieval/browser.py:57-70 | For every chunking the reader yields exactly the non-empty NUL-separated messages, in order |
| `CdpPipe.IdsAreFresh` | modules/browser-retrieval/browser.py:99-125 | Identifiers count up from 1 over every run: none is reused |
| `CdpPipe.ResponsesAreOwn` | modules/browser-retrieval/browser.py:71-78 | Every stored response was delivered under the identifier it is stored under |
| `CdpPipe.AnswersAreKept` | modules/browser-retrieval/browser.py:71-116 | The answer to a command somebody waits for is kept under its identifier until it is taken, the latest one if there are more |
| `CdpPipe.QuietRepliesAreDropped` | modules/browser-retrieval/browser.py:72-77 | A reply to command_nowait lands among the responses if and only if the browser answers it more than once |
| `CdpPipe.AnsweredTwice` | modules/browser-retrieval/browser.py:72-77 | The run that shows it: one command_nowait answered twice leaves its second reply among the responses |
| `CdpPipe.Connection.Command` | modules/browser-retrieval/browser.py:99-102 | Issues the next identifier |
| `CdpPipe.Connection.CommandNowait` | modules/browser-retrieval/browser.py:121-125 | Issues the next identifier and marks it as ignored |
| `CdpPipe.Connection.Receive` | modules/browser-retrieval/browser.py:71-88 | Routes a reply by its identifier; the event queue keeps its newest 2000 entries |
| `CdpPipe.Connection.TakeResponse` | modules/browser-retrieval/browser.py:108-116 | A command takes the response with its own identifier and nothing else |
| `CdpPipe.Connection.FindEvent` | modules/browser-retrieval/browser.py:131-137 | Removes and returns the oldest event of that name, and of that session if one is asked for; None exactly when there is none |
| `PagedWalk.WalkIsComplete` | src/sources-linux.ts:158-180 | The breadth-first queue scans exactly the entries a plain depth-bounded recursion lists, each as often as it is there |
| `PagedWalk.EverythingIsSeen` | src/sources-linux.ts:161-173 | Every entry of that recursion lies at the end of a trail of directories above the depth limit, under the path of their names with slashes between them, marked listed and too deep as the operation says |
| `PagedWalk.SeenIsEverything` | src/sources-linux.ts:161-173 | Every node at the end of such a trail is an entry of it |
| `PagedWalk.NextOffsetMoves` | src/sources-linux.ts:181-182 | nextOffset is strictly larger than offset and never meets the clamp at 5000 |
| `PagedWalk.PagesConcatenate` | src/sources-linux.ts:181-182 | Following nextOffset concatenates to everything listable within the scan limit: nothing missed, nothing repeated |
| `PagedWalk.UntruncatedIsAll` | src/sources-linux.ts:181-182 | A page that does not say truncated has missed nothing after its offset |
| `PagedWalk.PageIsExact` | src/sources-linux.ts:158-182 | What every page is, in terms of the scans alone |
| `PagedWalk.ScanEntry` | src/sources-linux.ts:161-178 | One turn of the inner loop keeps the counters, the page and the queue in step with the scans made |
| `PagedWalk.WalkDirectory` | src/sources-linux.ts:159-179 | One directory: every entry scanned in order, its directories queued, or the walk stopped for a reason the page states |
| `PagedWalk.ListPage` | src/sources-linux.ts:152-182 | A page holds the listed entries among the first 5000 scans from the offset on, in order, up to the limit, with the offset held to 0 to 5000 and the limit to 1 to the highest, 50 when it is zero; truncated if and only if more are listed, more than 5000 are there or a directory is too deep; nextOffset if and only if truncated and full |
| `VerifiedCopy.WriteAll` | src/sources-linux.ts:71-76 | A chunk is written whole however little each write takes; otherwise a prefix of it is |
| `VerifiedCopy.CopyBody` | src/sources-linux.ts:64-77 | Everything read is written and hashed, never more than the maximum |
| `VerifiedCopy.CopyVerified` | src/sources-linux.ts:52-102 | Success means the output is exactly what was read, of the declared size, and the whole content of a source that did not change; with willing writers it succeeds if and only if sizes, stability and read-back agree |
| `GltfMatrix.ProductComposes` | modules/image-render/gltf_mesh2.py:25-27 | The column-major product of two matrices is the composition of their maps, for all reals |
| `GltfMatrix.TurnIsRotation` | modules/image-render/gltf_mesh2.py:34-40 | The nine entries made of a unit quaternion rotate a vector as q v q* |
| `GltfMatrix.LocalIsScaleRotateTranslate` | modules/image-render/gltf_mesh2.py:30-46 | A node's local matrix scales, then rotates, then translates (section 3.5.3 of glTF 2.0) |
| `GltfMatrix.MatrixIsItself` | modules/image-render/gltf_mesh2.py:31-32 | A node with a matrix applies it, its sixteen numbers taken column by column |
| `GltfBake.WorldIsThrough` | modules/image-render/gltf_mesh2.py:124 | The world matrix of a visit takes a vector through every local matrix on its path, one after another |
| `GltfBake.LeadsToNode` | modules/image-render/gltf_mesh2.py:115-128 | Indices that lead down a path from the scene's roots through the children, negative ones counted from the end, lead to the node there |
| `GltfBake.NodeIsLedTo` | modules/image-render/gltf_mesh2.py:115-128 | Every node at a path is led to by such indices |
| `GltfBake.SubscriptReaches` | modules/image-render/gltf_mesh2.py:123-126 | A subscript reaches exactly the places of a list, from its start or, when negative, from its end |
| `GltfBake.RightAtTheParting` | modules/image-render/gltf_mesh2.py:119-128 | Of two paths that part, the one with the later child is visited first |
| `GltfBake.InOrderIsDistinct` | modules/image-render/gltf_mesh2.py:119-128 | Visits listed in stack order are pairwise different paths |
| `GltfBake.EveryPathIsSeen` | modules/image-render/gltf_mesh2.py:117-128 | A walk that ends with an empty stack has seen every path |
| `GltfBake.WalkGoesOn` | modules/image-render/gltf_mesh2.py:119-128 | Each turn of the stack loop keeps order, coverage and what was found |
| `GltfBake.Instances` | modules/image-render/gltf_mesh2.py:113-129 | On success every path from the scene was visited once, at most 10,000 in all, each mesh found under its path's world matrix, last child first; too large means more than 10,000 different paths; a bad index means a path that leads nowhere |
| `GltfConvert.CarryIsVertex` | modules/image-render/gltf_mesh2.py:200-204 | The written coordinates are the path's transform of the vertex with z negated |
| `GltfConvert.FoundIsDrawn` | modules/image-render/gltf_mesh2.py:193-204 | The instances found place exactly the parts their paths draw |
| `GltfConvert.PartsArePictures` | modules/image-render/gltf_mesh2.py:193-224 | There is one part for each primitive of each path's mesh, in order: each position taken through the path and mirrored in z, and the primitive's own faces |
| `GltfConvert.DrawnIsShown` | modules/image-render/gltf_mesh2.py:193-195 | Each instance is the mesh of a visited path under that path's world matrix |
| `GltfConvert.DeterminantIsVolume` | modules/image-render/gltf_mesh2.py:49-61 | The determinant that decides singularity is the triple product of the transformed axes |
| `GltfConvert.CollectFaces` | modules/image-render/gltf_mesh2.py:214-220 | The faces of a primitive are, in order, the triples (flat[3k], flat[3k+1], flat[3k+2]) with three different indices, or (3k, 3k+1, 3k+2) without indices; refused if and only if one of the first 3 * floor(n/3) indices names no position |
| `GltfConvert.FacesAreTriples` | modules/image-render/gltf_mesh2.py:214-220 | The faces are at increasing places the triples (flat[3k], flat[3k+1], flat[3k+2]), and the places are exactly those whose three indices differ |
| `GltfConvert.TriplesAreFlat` | modules/image-render/gltf_mesh2.py:215-216 | The corners of the first n triples side by side are the first 3n indices |
| `GltfConvert.FaultIsExact` | modules/image-render/gltf_mesh2.py:56-62 | An instance is at fault if and only if its volume is below 1e-20 or, else, as its first primitive that is not of triangles or has an index past the last position |
| `GltfConvert.PlaceMesh` | modules/image-render/gltf_mesh2.py:195-224 | A mesh is refused if and only if a primitive is at fault or the triangles pass 60,000; otherwise all its parts follow in order |
| `GltfConvert.PlaceFound` | modules/image-render/gltf_mesh2.py:193-224 | Refused if and only if an instance is singular or its primitives are at fault, or there are more than 60,000 triangles, the first fault named; otherwise all parts in order |
| `GltfConvert.Bounds` | modules/image-render/gltf_mesh2.py:228-229 | The corners are the smallest box: everything inside, each face touched |
| `GltfConvert.ShiftEvery` | modules/image-render/gltf_mesh2.py:245 | Shifting part by part is shifting all the points |
| `GltfConvert.EveryIsEach` | modules/image-render/gltf_mesh2.py:227 | All the points are exactly the positions of the parts |
| `GltfConvert.BoxMoves` | modules/image-render/gltf_mesh2.py:230-232 | The shifted corners are the smallest box of the shifted points |
| `GltfConvert.Stand` | modules/image-render/gltf_mesh2.py:227-245 | Some one vector moves all the points onto y = 0, centred in x and z, with the declared corners their smallest box |
| `GltfConvert.Convert` | modules/image-render/gltf_mesh2.py:186-245 | Every vertex written is a mesh vertex taken through its path's matrices, mirrored, and moved by one common shift; all lie in Min/Max, each face of the box touched, minimum y is 0, x and z centred; the faces are each primitive's own index triples in order; at most 10,000 visits and 60,000 triangles; no instance at fault; each refusal for its own reason, the first fault named |

## Left out

- ArtifactStorage.ArtifactStore.Read: readers take no lock, so they may see objects of a batch that is taken back a moment later; the model reads between locked steps only.
- ArtifactStorage.ArtifactStore.Commit: process death inside commit or publication is not modelled; both are atomic apart from raised exceptions.
- ArtifactStorage.ArtifactStore.PublishOne: a failure of the final removal of the reservation file or of a cleanup removal is not modelled.
- ArtifactTransfer.UploadFile: the file does not change while it is uploaded, and the abort request after a failure always arrives.
- CorpusStore.Corpus.Provision: the swap of database files after the final commit, the choice of current sources, cutoffs and the rest of checkpoint and metadata are not modelled; what adapters deliver is a parameter, and a checkpoint lies at a commit.
- CorpusStore.Corpus.IndexPapers: what SQLite rolls back after a refused statement is not modelled; a refused run makes no claim about the tables.
- Download.Run: the reuse cache, type detection, naming and publication of the result, response excerpts, and the wording of errors; a cancelled wait is seen when it starts; other calls that change the shared cooldowns during the run.
- MapLimit.MapAll: a limit that is not a number, for which the original would start no worker.
- RateLimiter.Limiter.Check: the two image brokers carry the same limiter and are not modelled again.
- CdpPipe.ReadLoop: JSON decoding of a message, and messages that are not JSON.
- CdpPipe.Connection.TakeResponse: timeouts, the closing of the pipe and the event handler.
- PagedWalk.ListPage: the 30-second deadline, cancellation and trees that change between pages; names rejected as source paths, links and special files are one kind of skipped entry.
- VerifiedCopy.CopyVerified: cancellation and the removal of a partial output by the caller. The Python copy of an artifact is not modelled.
- GltfConvert.Convert: normals, texture coordinates, materials and the text of the include; the rounding of coordinates to five digits and floating-point rounding throughout; accessors are given as lists of values.
- GltfBake.Instances: a node whose mesh index is out of range raises a lookup error of Python; it is one error with a node index out of range.
- Query.Parse: non-string arguments; the Unicode tables behind casefold and the word class are parameters.
- QueryTyping.TypedIsRead: case folding is taken to leave the lower-case field names as they are and not to make a field name of text that begins with a quote.
- QueryReadBack.ReadInvertsRender: the reader takes the whole text, while SQLite reads MATCH text as a C string: a clause holding U+0000, which the parser accepts, would end it inside its literal.
- Fts5Reader: "+" phrases, NEAR groups, "^", negated column filters and implicit AND are not part of the reader, so text using them is not accepted by it.
- Listing and description of artifacts, the store's marker file, file modes, symbolic links and the patterns of identifiers.
- Rendering sandboxes, SSH and HTTP connections, source adapters, dashboards and configuration.

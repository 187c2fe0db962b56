# theHarvester: a verified model of its core

theHarvester collects evidence about an organisation (hostnames, addresses, prefixes,
takeover candidates) from providers and from active checks, and keeps every completed run in
a SQLite result store. This project models the parts of it in which state, arithmetic or
interleaving decide whether that evidence can be trusted, and proves what they promise.

`dafny verify dfyconfig.toml` checks everything.

## What is modelled

**The evidence store.** `EvidenceModel` is a completed run with every cross-field condition
of its constructor. `EvidenceFinish` puts unordered parts into that form. `EvidenceRows` is
the flattening into position-indexed rows, `EvidenceConstraints` the primary, unique and
foreign keys they meet, `EvidenceLoad` the rebuilding with all its error branches,
`EvidenceDetails` and `EvidenceRoundTrip` the proof that loading undoes saving, and
`EvidenceStore` the store object whose tables hold every run. `EvidenceWitnesses` names three
families of runs that the constructor accepts and that do not come back.
`Contributions` counts who found what, `HostnameComparison` is the light hostname loader,
`KindMigration` the merge of renamed result kinds. `ResultJsonl` and `JsonLines` are the
printed form of a run, `ResultFindings` what a printed finding tells of its run. `Ordering` is the ordering of Python tuples and what "sorted and
deduplicated" means, `Texts` its notion of white space; `Wrappers` holds what the components
share.

**Run lifecycle and worker lease.** `RunLifecycle` and `WorkerLease` treat each SQL
statement as one atomic step over integer time and prove safety over every trace.

**Stream framing.** `StreamFraming` is the incremental splitter of CR, LF and CRLF lines with
its byte and record limits and the event grouper above it; the line endings are those of
section 9.2.5 of the WHATWG HTML Living Standard. `SourcegraphStream` is the event automaton
above that.

**Concurrent scanners.** `ReverseDns`, `CnameWalk`, `TakeoverEvidence` with every condition of
its constructors, `TakeoverVerdict`, `TakeoverDecision` with the whole decision of a check,
`TakeoverWorkers`, `ApiScanBudget` and `ApiScanIndex`.
Worker scheduling is a free choice between awaits.

**Paging loops.** `GithubPaging` and `QuotaPaging`, against providers that answer anything.

## What the proofs brought out

- A run with a Shodan host whose details are not in canonical form passes the constructor
  (which does not look at them) and saves, but cannot be loaded. Loading gives back exactly
  what was saved if and only if every Shodan host is canonical.
- A run with a prefix whose encoded network details exceed 8 MiB passes the constructor but
  cannot be saved; saving fails on details exactly then. 129 sightings of one route with the
  longest path allowed are such a run.
- JSON Lines output is encoded with U+0085, U+2028 and U+2029 left raw, and is read back with
  `splitlines`, which breaks on them: a printed file parses if and only if no record holds one.
  A person's name with U+2028 in it is a valid result.
- A takeover scan of one host raises, which ends the whole scan, exactly when the name of a
  resolver's error is longer than 512 characters, or its rules are evaluated and: a rule that
  fires repeats a terminal code, or has an id, a service or a matched pattern that is too
  long; or the host is asked over HTTP and answers with a status outside 100 to 599 or with a
  `Location` that is nothing but white space or longer than 2048 characters; or two rules that
  fire have the same id but for white space around it, and differ in what they say. With rules
  that are short and repeat nothing only the answers remain.
- A DNS error other than "not found" and "no data" makes a takeover answer inconclusive even
  beside an address; the error reported is the least of the faults by name.
- The takeover wildcard state "disagreement" and the "some terminals match" branch are
  unreachable, and a wildcard control rejects all candidate rules or none.
- Tomba and Hunter report an exhausted quota also when the account is overdrawn and no request
  is wanted; Hunter's free plan spends its one request even when none is left.
- The worker lease needs nothing of the clock but that no acquire is granted at a time still to
  come: then at most one owner is live, and one acquire a single tick ahead can break it.
- `RunLifecycleStore.fail` writes any status without a guard. A terminal run keeps its status,
  and a cancelled one stays cancelled, exactly when no failure report for it writes another; a
  worker that reports late can undo a completion. No run is claimed twice exactly when no
  report may write "queued", and none of its callers does.
- The flags of a Sourcegraph searcher are never reset: used again it accepts only what can
  follow what it has seen, after a whole stream only an empty one. It judges streams as a fresh
  searcher exactly when neither flag is up, for example after an answer other than 2xx.
- The light hostname loader, which has no ordering of its own, still agrees with the full one,
  except for the addressability of a hostname that two results classify differently.
- The merge of renamed kinds does not remap ASN attributions: they keep meeting the constraints
  exactly when their positions still exist, and their meaning exactly when those did not move.

## Model

| member | source | states |
|---|---|---|
| StreamFraming.BoundedResponseChunks | theHarvester/lib/core.py:102-121 | the chunks passed on are the body clipped at the byte limit, and the stream ends in a limit failure exactly when the body is longer |
| StreamFraming.DrainLines | theHarvester/lib/core.py:144-171 | draining the pending bytes emits exactly the lines that no later byte can change |
| StreamFraming.LastLine | theHarvester/lib/core.py:144-171 | what is pending at the end of the body becomes the last line, unterminated unless it ended in CR |
| StreamFraming.ByteLines | theHarvester/lib/core.py:144-171 | however the body is cut into chunks, even inside a CRLF, lines, terminated flags and outcome are those of splitting the whole body at once |
| StreamFraming.NdjsonRecords | theHarvester/lib/core.py:173-195 | each line is one decoded record; the first that fails ends the stream after those before it |
| StreamFraming.ConsumeLine | theHarvester/lib/core.py:173-195 | a line fails the record as invalid, or as too long, exactly under the stated conditions |
| StreamFraming.SseRecords | theHarvester/lib/core.py:173-195 | the emitted events and the outcome are those of grouping all lines at once |
| StreamFraming.Records | theHarvester/lib/core.py:173-195 | any chunking gives the records and the outcome of the one-shot splitter and grouper |
| StreamFraming.SplitUndoesRender | theHarvester/lib/core.py:144-171 | lines written with any mix of CR, LF and CRLF split back into the same lines |
| StreamFraming.RecoverRenders | theHarvester/lib/core.py:144-171 | every body is the rendering of some lines and endings |
| StreamFraming.RecoverUnambiguous | theHarvester/lib/core.py:144-171 | those lines never pair a CR ending with an LF that starts the next line |
| StreamFraming.SplitLosesNothing | theHarvester/lib/core.py:144-171 | splitting without failure accounts for every byte of the body |
| StreamFraming.GroupingUndoesStreaming | theHarvester/lib/core.py:173-195 | events written as lines with a blank line after each come back as the same events |
| StreamFraming.EventsArriveWhole | theHarvester/lib/core.py:173-195 | the same from the bytes of the body, whatever line endings were used |
| StreamFraming.PartialIsReported | theHarvester/lib/core.py:173-195 | an unterminated event is an invalid response, not discarded |
| StreamFraming.TruncationIsReported | theHarvester/lib/core.py:173-195 | a truncated stream delivers the whole events before the cut and then fails |
| SourcegraphStream.DistinctIsExact | theHarvester/discovery/sourcegraph.py:104-111 | the distinct in-scope names are each in-scope name once |
| SourcegraphStream.SearchSourcegraph.AddContent | theHarvester/discovery/sourcegraph.py:104-111 | the hosts kept are the first distinct in-scope names up to the limit, and the overflow flag is set exactly when there were more |
| SourcegraphStream.SearchSourcegraph.ConsumeEvent | theHarvester/discovery/sourcegraph.py:129-159 | which events are refused, which end the search, and what each accepted event does to flags and hosts |
| SourcegraphStream.SearchSourcegraph.DoSearch | theHarvester/discovery/sourcegraph.py:161-211 | the report for every status, event sequence, stream failure and whatever flags earlier searches left; a provider error exactly when an error event is the first complaint, an invalid response exactly when the stream is otherwise not one those flags accept |
| SourcegraphStream.ProperIffAccepted | theHarvester/discovery/sourcegraph.py:129-159 | a stream is accepted with both flags set exactly when it is non-final events, one final progress, then done |
| SourcegraphStream.ProperFromIffAccepted | theHarvester/discovery/sourcegraph.py:129-159 | the same from any flags: after the final progress only done is accepted, after done only an empty stream |
| SourcegraphStream.ReusableIffFlagsDown | theHarvester/discovery/sourcegraph.py:96-99 | a used searcher judges every stream as a fresh one does exactly when neither flag is up |
| SourcegraphStream.ProperSkipped | theHarvester/discovery/sourcegraph.py:146-148 | the skipped flag of a proper stream is that of its one final progress event |
| SourcegraphStream.RefusedIffImproper | theHarvester/discovery/sourcegraph.py:190-211 | from any flags, a search that stops at its first complaint takes everything and has both flags exactly when the stream is proper for those flags |
| SourcegraphStream.ErrorFirstIff | theHarvester/discovery/sourcegraph.py:150-159 | the complaint is an error of the provider exactly when an error event comes after non-final events only, to a searcher with neither flag up |
| WorkerLease.LeaseTable.AcquireLease | theHarvester/lib/database.py:697-708 | granted exactly when the lease is free, own, or stale; the row afterwards |
| WorkerLease.LeaseTable.HeartbeatLease | theHarvester/lib/database.py:710-718 | granted exactly to the owner in the row |
| WorkerLease.LeaseTable.ReleaseLease | theHarvester/lib/database.py:720-728 | removes only the caller's own lease |
| WorkerLease.RowExplainsBeliefs | theHarvester/lib/database.py:697-728 | over every trace in which no acquire is granted at a time still to come, the row is one owner's belief and every other belief has expired |
| WorkerLease.AtMostOneLiveOwner | theHarvester/lib/database.py:697-728 | at most one unreleased owner had a grant within the timeout |
| WorkerLease.AcquireExactlyWhenFree | theHarvester/lib/database.py:697-708 | an acquire succeeds exactly when no other owner is live |
| WorkerLease.PromptHeartbeatIsGranted | theHarvester/lib/database.py:710-718 | an owner that heartbeats within the timeout keeps the lease |
| WorkerLease.DisplacedStaysOut | theHarvester/lib/database.py:697-718 | a displaced owner's heartbeats fail until it acquires again |
| WorkerLease.ExclusionIffNoAcquireAhead | theHarvester/lib/database.py:697-718 | over all traces in which no acquire is granted later than a bound, at most one owner is live at a time exactly when the bound is not after that time |
| RunLifecycle.RunLifecycleStore.Cancel | theHarvester/lib/database.py:595-619 | the two conditional updates and the reply for every status |
| RunLifecycle.RunLifecycleStore.Claim | theHarvester/lib/database.py:621-641 | claims a queued run with the least creation time, if there is one |
| RunLifecycle.RunLifecycleStore.FinishRun | theHarvester/lib/database.py:643-664 | running becomes completed, cancelling becomes cancelled, with the time, log and evidence reported; other states do not move |
| RunLifecycle.RunLifecycleStore.FailRun | theHarvester/lib/database.py:666-690 | writes the given status without a guard and keeps recorded evidence |
| RunLifecycle.RunLifecycleStore.CreateQueued | theHarvester/lib/database.py:538-570 | adds a queued run that carries no mark yet |
| RunLifecycle.OldestExists | theHarvester/lib/database.py:621-641 | whenever something is queued there is an oldest queued run to claim |
| RunLifecycle.StepMoves | theHarvester/lib/database.py:595-664 | one statement other than a failure report moves a run only along the permitted edges |
| RunLifecycle.RunsOnlyMoveForward | theHarvester/lib/database.py:595-664 | over every trace a run only moves forward and its terminal record never changes, as long as no failure is reported for it |
| RunLifecycle.RunsNeverGoBack | theHarvester/lib/api/run_store.py:444-464 | with failure reports as their callers make them, a run never returns to an earlier live status and never completes once it is cancelling, cancelled or failed |
| RunLifecycle.RecordsStayConsistent | theHarvester/lib/database.py:595-664 | with failure reports as they are called, every record's times and marks agree with its status in every reachable state |
| RunLifecycle.ClaimsAreDistinctAndOldestFirst | theHarvester/lib/database.py:621-641 | with any failure reports between them, no run is claimed twice unless one put it back in the queue, and each claim takes a minimal creation time |
| RunLifecycle.ClaimedOnceIffNeverRequeued | theHarvester/lib/database.py:621-690 | over all traces no run is claimed twice exactly when no failure report may write "queued" |
| RunLifecycle.CancelIsDecisive | theHarvester/lib/database.py:595-619 | a cancel that interleaves with other workers and failure reports gives a reply that stays true: an accepted run never completes, a rejected one had completed or failed |
| RunLifecycle.CancellationStaysIff | theHarvester/lib/database.py:643-690 | a cancelling or cancelled run stays so exactly when no failure report for it writes another status |
| RunLifecycle.TerminalStaysIff | theHarvester/lib/database.py:643-690 | a terminal run keeps its status exactly when no failure report for it writes another |
| RunLifecycle.LateFailureUndoesCompletion | theHarvester/lib/api/run_store.py:495-517 | a run that is created, claimed and finished is taken out of its terminal state by a late failure report |
| RunLifecycle.EvidenceIsNeverDropped | theHarvester/lib/database.py:643-690 | no statement removes a recorded evidence run or status |
| RunLifecycle.EvidenceRunIsTheLastReported | theHarvester/lib/database.py:643-690 | at every point of every trace a run carries the evidence run last reported for it, or the one it had |
| RunLifecycle.EvidenceStatusIsTheLastReported | theHarvester/lib/database.py:643-690 | and the evidence status last reported, or the one it had |
| EvidenceModel.CanonicalNetworkFixed | theHarvester/lib/network_evidence.py:296-310 | equal to the canonical form means sorted, one per identity, no conflicting validation, bounded per prefix |
| EvidenceModel.CanonicalByNameFixed | theHarvester/lib/shodan_evidence.py:212-221 | equal to the canonical form means sorted with distinct names |
| EvidenceFinish.CollectResults | theHarvester/lib/completed_result.py:443-451 | the loop over the groups collects every normalised value or fails on the first bad one; which those are, GroupsTaken says |
| EvidenceFinish.FinishKeepsResults | theHarvester/lib/completed_result.py:441-477 | the finished results are sorted and are exactly the group values, action observations and structured subjects |
| EvidenceFinish.FinishIsCanonical | theHarvester/lib/completed_result.py:441-477 | after finish none of the constructor's order and deduplication checks can fail |
| EvidenceFinish.FinishIsClosed | theHarvester/lib/completed_result.py:452-462 | after finish every action observation and structured subject is a completed result |
| EvidenceFinish.FinishKeepsParts | theHarvester/lib/completed_result.py:452-478 | of every other part the finished run holds exactly what it was given, each once; of network observations with one identity the least |
| EvidenceFinish.GroupsTaken | theHarvester/lib/completed_result.py:443-451 | the groups are taken exactly when every kind is known and every value is good, and give exactly the normal forms of their values |
| EvidenceFinish.FinishFailsIff | theHarvester/lib/completed_result.py:441-478 | finishing fails exactly for a bad group, contradicting Shodan hosts or takeovers, conflicting validations, or too many observations of a prefix |
| EvidenceFinish.CanonicalNetworkIdempotent | theHarvester/lib/network_evidence.py:296-310 | canonicalising twice is canonicalising once |
| EvidenceFinish.IdentityMeans | theHarvester/lib/network_evidence.py:207-223 | when two observations count as the same: whenever they were collected, and for a validation whenever it was observed |
| EvidenceFinish.CanonicalNetworkExact | theHarvester/lib/network_evidence.py:296-310 | canonicalising keeps exactly the least observation of each identity |
| EvidenceFinish.Deduplicate | theHarvester/lib/network_evidence.py:297-305 | the pass in order: it fails exactly when two validations conflict, else keeps the first of each identity |
| EvidenceFinish.CountPerPrefix | theHarvester/lib/network_evidence.py:307 | the number of observations of every prefix |
| EvidenceFinish.CanonicalObservations | theHarvester/lib/network_evidence.py:296-310 | the loops give the canonical form, or fail exactly when there is none |
| EvidenceRows.ValidResolves | theHarvester/lib/database.py:852-897 | for every run the constructor accepts, saving finds every position it looks up |
| EvidenceConstraints.OriginsExact | theHarvester/lib/database.py:852-870 | the origin rows are exactly the links between executions and what they observed, each once |
| EvidenceConstraints.RowsMeetConstraints | theHarvester/lib/database.py:132-263 | the written rows meet every primary, unique and foreign key and every check |
| EvidenceDetails.EncodableIffFits | theHarvester/lib/network_evidence.py:313-322 | writing the details fails exactly when some prefix carries more than the cap |
| EvidenceDetails.RowReadsBack | theHarvester/lib/database.py:946-998 | each saved row reads back as what its result carried, unless it is a Shodan host that is not canonical |
| EvidenceDetails.PartsExact | theHarvester/lib/database.py:946-998 | the parts of all rows are the structured evidence of the run and nothing more |
| EvidenceRoundTrip.ProvenanceExact | theHarvester/lib/database.py:936-941 | the rows show vhost provenance exactly for what the vhost action found |
| EvidenceRoundTrip.LinksRestored | theHarvester/lib/database.py:1002-1021 | the links give back the source observations and each action's observations, whatever order they come in |
| EvidenceRoundTrip.ArtifactsRestored | theHarvester/lib/database.py:1022-1039 | every artifact is filed under its action, in order |
| EvidenceRoundTrip.LoadRestores | theHarvester/lib/database.py:908-1116 | loading takes no error branch and returns the very run that was saved, exactly when its Shodan hosts are canonical |
| EvidenceStore.SelectInserted | theHarvester/lib/database.py:771-906 | inserting a run makes its rows readable and changes no other run's |
| EvidenceStore.InsertedConsistent | theHarvester/lib/database.py:771-906 | the store's constraints survive the insertion |
| EvidenceStore.LoadStructured | theHarvester/lib/database.py:942-998 | the loop over the result rows, with its four lists and first error |
| EvidenceStore.LoadOrigins | theHarvester/lib/database.py:1002-1021 | the loop over the origin rows |
| EvidenceStore.LoadArtifacts | theHarvester/lib/database.py:1022-1039 | the loop over the artifact rows |
| EvidenceStore.LoadActions | theHarvester/lib/database.py:1040-1057 | the loop over the action executions, with the count check |
| EvidenceStore.LoadAttributions | theHarvester/lib/database.py:1058-1086 | the loop over the attribution rows |
| EvidenceStore.ResultStore.SaveRun | theHarvester/lib/database.py:771-906 | all or nothing: a known id or oversized details change nothing; otherwise the run's rows are there, no other run's change, all constraints hold |
| EvidenceStore.ResultStore.LoadRun | theHarvester/lib/database.py:908-1116 | an unknown id is not found; otherwise the rebuilt run or its first error |
| EvidenceStore.SaveThenLoad | theHarvester/lib/database.py:771-1116 | loading undoes saving for every order of the links, exactly when the Shodan hosts are canonical |
| EvidenceWitnesses.SavedButNotLoaded | theHarvester/lib/shodan_evidence.py:149-194 | for any details that do not read back there is a valid run that saves and does not load |
| EvidenceWitnesses.ValidButNotSaved | theHarvester/lib/network_evidence.py:313-322 | for any acceptable route sighted often enough under one prefix there is a valid run that cannot be saved |
| EvidenceWitnesses.LongestPathSuffices | theHarvester/lib/network_evidence.py:18-20 | 129 sightings of a route with the longest path allowed are enough |
| EvidenceWitnesses.PrintedButNotParsed | theHarvester/lib/completed_result.py:71-88 | for any name that holds a raw line separator there is a valid run whose printed file does not parse |
| EvidenceWitnesses.SeparatedName | theHarvester/lib/result_values.py:49-63 | "a", U+2028, "b" is such a name, and stripping does not change it |
| Contributions.AttributeExact | theHarvester/lib/database.py:1324-1329 | a result is attributed to a producer exactly when some link says so |
| Contributions.KindRestricts | theHarvester/lib/database.py:1306-1311 | asking for one kind gives the attribution restricted to it |
| Contributions.CollectProducers | theHarvester/lib/database.py:1324-1329 | the loop over the links builds that attribution |
| Contributions.CountProducers | theHarvester/lib/database.py:1330-1342 | each producer's counters are the sizes of its result sets |
| Contributions.ProducerContributions | theHarvester/lib/database.py:1298-1353 | one line per execution of the kind, in name order, with those counts |
| Contributions.Balance | theHarvester/lib/database.py:1335-1342 | observed is unique plus shared; resolved counts are bounded |
| Contributions.AttributedAreConserved | theHarvester/lib/database.py:1330-1353 | the unique counts of the report plus the results several producers share are all attributed results |
| Contributions.KindsSumToAll | theHarvester/lib/database.py:1306-1353 | all five counts kind by kind add up to the unfiltered counts |
| Contributions.CountsMatchSaved | theHarvester/lib/database.py:1298-1353 | the unfiltered count is the result count saved with the execution |
| HostnameComparison.LoadHostnameComparisonRun | theHarvester/lib/database.py:1224-1284 | the loops of the light loader over links and over results |
| HostnameComparison.SourcesAgree | theHarvester/lib/database.py:1235-1243 | its grouped hostname sources are those of the loaded run |
| HostnameComparison.ResolvedAgree | theHarvester/lib/database.py:1244-1245 | its resolved hostnames are those of the loaded run |
| HostnameComparison.OutcomesAgree | theHarvester/lib/database.py:1261-1270 | its source outcomes are those of the loaded run, in name order |
| HostnameComparison.DnsStatusAgrees | theHarvester/lib/database.py:1271-1274 | its DNS action status is that of the loaded run |
| HostnameComparison.AddressabilityAgreesIff | theHarvester/lib/database.py:1246-1260 | its addressability is that of the loaded run in every order of the rows exactly when no two results classify one hostname differently |
| HostnameComparison.LightAgreesWithFull | theHarvester/lib/database.py:1224-1284 | everything but the addressability agrees whatever order the rows come back in, and the addressability too where no two results contradict each other |
| KindMigration.ResultsAreTheImage | theHarvester/lib/database.py:343-349 | results become the sorted image of the rename at positions 0 to n-1 |
| KindMigration.PositionKeepsMeaning | theHarvester/lib/database.py:346-349 | an old position leads to the renamed result |
| KindMigration.OriginsKeepMeaning | theHarvester/lib/database.py:350-352 | each execution originates exactly the renamed results it originated before |
| KindMigration.ArtifactsKeepMeaning | theHarvester/lib/database.py:367-396 | each artifact keeps its data and execution, and its subject is the renamed one |
| KindMigration.CountsAreDistinctResults | theHarvester/lib/database.py:397-404 | every result count is the number of distinct results originated |
| KindMigration.NoAliasRemains | theHarvester/lib/database.py:87-96 | no renamed kind is itself an alias |
| KindMigration.ReapplyingChangesNothing | theHarvester/lib/database.py:318-405 | migrating twice is migrating once |
| KindMigration.MigratedMeetsConstraints | theHarvester/lib/database.py:354-396 | the rebuilt rows still meet every constraint exactly when the positions of the attributions, which are not remapped, still exist |
| KindMigration.UntouchedPositionKeepsMeaningIff | theHarvester/lib/database.py:346-396 | a position that is not remapped leads to the renamed result exactly when that result did not move |
| KindMigration.CanonicalizeResultKinds | theHarvester/lib/database.py:318-411 | every run with an alias is migrated, every other run untouched, and legacy observations keep everything but a renamed kind |
| KindMigration.UpdateKinds | theHarvester/lib/database.py:407-411 | one update per alias in any order renames each kind once |
| KindMigration.Rebuild | theHarvester/lib/database.py:322-405 | the deletes, inserts and the recount of one run |
| JsonLines.DecodeUndoesEncode | theHarvester/lib/completed_result.py:71-88 | reading back what was written succeeds, and gives the records, exactly when none holds U+0085, U+2028 or U+2029 |
| JsonLines.OneLine | theHarvester/lib/completed_result.py:82 | text without breaks and one ending, CRLF counting as one, is one line |
| ResultJsonl.ParseRecords | theHarvester/lib/completed_result.py:94-168 | the loop that rewrites the findings in place |
| ResultJsonl.ParseRecord | theHarvester/lib/completed_result.py:93-135 | the checks of one record, each of which raises, and what the record becomes |
| ResultJsonl.ParseStructured | theHarvester/lib/completed_result.py:136-167 | which structured part is accepted for which type of result, and what is kept of it |
| ResultJsonl.FindingReadsBack | theHarvester/lib/completed_result.py:94-168 | a printed finding parses to the same type, value, sources, actions and details |
| ResultJsonl.ParseUndoesPrint | theHarvester/lib/completed_result.py:524-566 | the findings printed for a run parse to the same, exactly when its Shodan hosts are canonical |
| ResultJsonl.PrintedFileParses | theHarvester/lib/completed_result.py:493-510 | the whole file parses exactly under both conditions |
| ResultFindings.GroupSources | theHarvester/lib/completed_result.py:525-529 | the loop that groups the sources of every result |
| ResultFindings.GroupActions | theHarvester/lib/completed_result.py:530-532 | the loops that group the actions of every result |
| ResultFindings.ResultRecords | theHarvester/lib/completed_result.py:524-566 | the loop over the results: one record each, in order, or none when the details of a prefix are too large |
| ResultFindings.PrintedTells | theHarvester/lib/completed_result.py:545-565 | a printed finding names exactly the sources and actions of the run that found its result, its scope, and exactly the structured evidence the run holds of it |
| ResultFindings.ParsedFindingsTellTheRun | theHarvester/lib/completed_result.py:79-168 | so does every finding parsed from what was printed, one per result and in order |
| ResultFindings.PrintedFileTellsTheRun | theHarvester/lib/completed_result.py:493-510 | and every finding of the whole printed file |
| ResultJsonl.ParsingIsIdempotent | theHarvester/lib/completed_result.py:94-168 | a parsed finding parses to itself |
| ReverseDns.YieldRange | theHarvester/discovery/dnssearch.py:172-179 | one range yields its hosts not seen before, in order |
| ReverseDns.Addresses | theHarvester/discovery/dnssearch.py:172-179 | the address order lists exactly the usable addresses of the ranges, each once, at its first appearance |
| ReverseDns.HostsExact | theHarvester/discovery/dnssearch.py:106-113 | a range lists exactly the addresses of its block, without the first and last of a block larger than a pair, in ascending order |
| ReverseDns.AllHostsExact | theHarvester/discovery/dnssearch.py:172-179 | the order of all ranges holds exactly what is usable in one of them |
| ReverseDns.OnlyUsableAreSent | theHarvester/discovery/dnssearch.py:172-236 | in every interleaving only usable addresses of the ranges are sent |
| ReverseDns.PrefetchLosesNothing | theHarvester/discovery/dnssearch.py:181-214 | the prefetched part and the rest are the whole order, and the workers are the least of concurrency, limit and addresses |
| ReverseDns.ReverseRun.NextAddress | theHarvester/discovery/dnssearch.py:197-214 | hands out the next address within the limit, else records why it stopped |
| ReverseDns.ReverseRun.RecordCompletion | theHarvester/discovery/dnssearch.py:216-236 | a worker that comes back keeps the pool sound: no more completions than addresses issued, no more of those than the limit |
| ReverseDns.EveryStateIsSafe | theHarvester/discovery/dnssearch.py:172-236 | in every interleaving completed <= issued <= limit with at most the worker count in flight |
| ReverseDns.NothingIsRepeated | theHarvester/discovery/dnssearch.py:172-236 | issued addresses are a duplicate-free prefix of the order, and answers are among them |
| ReverseDns.CompleteRun | theHarvester/discovery/dnssearch.py:172-272 | an undisturbed run completes min(limit, N) addresses and reports the query limit exactly when N exceeds it |
| ReverseDns.EveryRunEnds | theHarvester/discovery/dnssearch.py:216-236 | every run ends within a bound fixed by limit and workers |
| CnameWalk.Query | theHarvester/discovery/takeover.py:48-130 | no name is asked twice, at most 32 are, and the report is decided by the names passed |
| CnameWalk.ChainHasNoRepeats | theHarvester/discovery/takeover.py:92-96 | the reported chain never repeats a name |
| CnameWalk.TrailsAgree | theHarvester/discovery/takeover.py:48-106 | the walk from a name has no choice |
| CnameWalk.WalkDecides | theHarvester/discovery/takeover.py:92-130 | a cycle is reported exactly when a visited name is re-entered within 32 names, the hop limit exactly when 32 distinct names all alias, else the classification of the name at which the walk ends |
| CnameWalk.TerminalMeans | theHarvester/discovery/takeover.py:107-119 | what the classification says, both ways: when a name resolves, does not exist or has no data, when it is free of error, and that the error reported is the least fault, a DNS error beside an address included |
| CnameWalk.SingleValuedChain | theHarvester/discovery/takeover.py:92-96 | with one target per name the chain is the names after the first, and the name led to |
| CnameWalk.ReportIsAccepted | theHarvester/lib/takeover_evidence.py:41-53 | every report of a walk meets the conditions of the DNS outcome constructor |
| TakeoverVerdict.MatchedIffCondition | theHarvester/discovery/takeover.py:209-238 | for a valid HTTP rule something matched exactly when its whole condition holds |
| TakeoverVerdict.MatchResponse | theHarvester/discovery/takeover.py:209-238 | the nine checks one after the other give the predicates that hold, in order, or nothing |
| TakeoverVerdict.RuleMatchesDns | theHarvester/discovery/takeover.py:157-158 | a rule matches an outcome exactly when it matches some name of its chain |
| TakeoverVerdict.RulesMatching | theHarvester/discovery/takeover.py:369 | the loops keep the rules that every outcome matches, in order |
| TakeoverVerdict.OutcomeErrors | theHarvester/discovery/takeover.py:172-177 | the names of what went wrong |
| TakeoverVerdict.OutcomesDisagree | theHarvester/discovery/takeover.py:168-169 | more than one distinct view exactly when two outcomes differ in chain or terminal |
| TakeoverVerdict.WildcardRuleState | theHarvester/discovery/takeover.py:185-206 | the comparison resolver by resolver and what it amounts to |
| TakeoverVerdict.WildcardIsDecided | theHarvester/discovery/takeover.py:185-206 | after the disagreement checks the wildcard state is the same for every rule and never disagreement |
| TakeoverVerdict.TerminalIsUnanimous | theHarvester/discovery/takeover.py:425-438 | if one resolver's terminal matches, all do |
| TakeoverVerdict.RuleDisagreementIsDisagreement | theHarvester/discovery/takeover.py:180-182 | a rule that only some resolvers match implies that the resolvers disagree |
| TakeoverVerdict.TakeoverScanner.RetainRules | theHarvester/discovery/takeover.py:401-410 | wildcard filtering keeps all candidate rules or none, and names the reason once |
| TakeoverVerdict.TakeoverScanner.MatchDnsRules | theHarvester/discovery/takeover.py:423-438 | the DNS indicators, with the partial branch never taken; it raises exactly when a rule that fires cannot be cited |
| TakeoverVerdict.TakeoverScanner.MatchHttpRules | theHarvester/discovery/takeover.py:458-475 | the first scheme that matches speaks for each HTTP rule; it raises exactly when a rule that matched cannot be cited |
| TakeoverVerdict.TakeoverScanner.EvaluateRules | theHarvester/discovery/takeover.py:423-508 | the last part of a scan: what is recorded, how many requests are sent, and exactly when it raises |
| TakeoverVerdict.TakeoverScanner.CheckControl | theHarvester/discovery/takeover.py:385-484 | the part of a scan from the wildcard control on |
| TakeoverVerdict.TakeoverScanner.ScanCandidate | theHarvester/discovery/takeover.py:351-484 | the recorded outcome, the counters, and exactly when the scan raises; TakeoverDecision says what that outcome is, from the rules and the answers alone |
| TakeoverVerdict.IndicatorsAreSound | theHarvester/discovery/takeover.py:351-484 | every indicator's rule matches every resolver, resolvers agree without error, the control is distinct, the rule's condition holds |
| TakeoverDecision.CandidatesExact | theHarvester/discovery/takeover.py:369 | the rules in question are exactly those every resolver matches, each where it stood |
| TakeoverDecision.IndicatorsAreExact | theHarvester/discovery/takeover.py:401-484 | an indicator is recorded exactly when candidate and control are well apart and it is the citation of a rule that fires |
| TakeoverDecision.RulesThatFireAreCited | theHarvester/discovery/takeover.py:351-484 | a check that does not raise records exactly the indicators that stand for the rules that fire: their names, the first scheme that shows the condition, the predicates that hold |
| TakeoverDecision.RuleIsCitedIffItFires | theHarvester/discovery/takeover.py:351-484 | a rule with an id of its own is cited exactly when every resolver matches it, its condition holds, and the control is distinct |
| TakeoverDecision.StatusIsDecided | theHarvester/discovery/takeover.py:351-508 | the status for all answers: an indicator exactly when a rule fires against a distinct control, nothing found exactly when no rule matches or none fires and both requests were answered |
| TakeoverDecision.EvidenceIsRecorded | theHarvester/discovery/takeover.py:382-484 | the control is recorded exactly when it was asked for, both HTTP answers exactly when the host was |
| TakeoverDecision.ErrorsAreDecided | theHarvester/discovery/takeover.py:351-484 | the errors recorded are exactly those due, name by name, each once and in order |
| TakeoverDecision.RequestsAreDecided | theHarvester/discovery/takeover.py:439-451 | two requests are sent exactly when an HTTP rule matches, the control is distinct, and no DNS rule that fires is refused |
| TakeoverDecision.RaisesIff | theHarvester/discovery/takeover.py:351-484 | when a check raises, told from the rules: an overlong error name, a rule that fires and cannot be cited, an answer that cannot be recorded, or two that fire under one id and differ |
| TakeoverVerdict.VerdictIsValid | theHarvester/lib/takeover_evidence.py:257-343 | a check that does not raise concludes with an outcome that meets every condition of the constructor |
| TakeoverVerdict.AcceptedIffRecordable | theHarvester/lib/takeover_evidence.py:99-113 | the HTTP outcome constructor accepts an answer exactly when its status is in range and its Location is neither blank nor overlong |
| TakeoverVerdict.DnsAcceptedIffCitable | theHarvester/lib/takeover_evidence.py:166-201 | the indicator constructor accepts a DNS rule exactly when its names fit and it repeats no terminal code |
| TakeoverVerdict.HttpAcceptedIffCitable | theHarvester/lib/takeover_evidence.py:166-201 | it accepts an HTTP rule that matched exactly when its names and the matched patterns fit |
| TakeoverVerdict.EvaluatedAccepted | theHarvester/lib/takeover_evidence.py:257-343 | the candidate constructor accepts an evaluated outcome exactly when no two different indicators cite one rule id |
| TakeoverEvidence.InOrderIffNoClash | theHarvester/lib/takeover_evidence.py:275-279 | sorted and deduplicated indicators are accepted exactly when none of them clash |
| TakeoverEvidence.ConstructDns | theHarvester/lib/takeover_evidence.py:41-53 | the DNS outcome is refused exactly for a name that is not canonical, a repeated name, an error text that does not fit, or an error without a name |
| TakeoverEvidence.ConstructHttp | theHarvester/lib/takeover_evidence.py:99-113 | the HTTP outcome is refused exactly for a status out of range, a text that does not fit, or a failure without a name |
| TakeoverEvidence.ConstructIndicator | theHarvester/lib/takeover_evidence.py:166-201 | the indicator is refused exactly when one of its checks fails, taken in order |
| TakeoverEvidence.ConstructOutcome | theHarvester/lib/takeover_evidence.py:257-343 | the candidate outcome is refused exactly when one of its checks fails, taken in order |
| TakeoverVerdict.TidyRulesRaise | theHarvester/discovery/takeover.py:351-484 | with rules that are short and repeat nothing, a check raises exactly when it asks over HTTP and an answer cannot be recorded |
| TakeoverVerdict.BlankLocationRaises | theHarvester/lib/takeover_evidence.py:20-30 | a Location of one ideographic space ends the scan |
| TakeoverVerdict.RepeatedCodeRaises | theHarvester/lib/takeover_evidence.py:169-170 | a rule that lists a terminal code twice is accepted as a rule and ends the scan when it fires |
| TakeoverVerdict.SameIdRaises | theHarvester/lib/takeover_evidence.py:277-279 | two rules whose ids differ only in their margins are accepted as rules and end the scan when both fire |
| TakeoverVerdict.ControlStaysInside | theHarvester/discovery/takeover.py:161-165 | the wildcard control is asked inside the authorised target |
| TakeoverVerdict.AfterFirstDotExact | theHarvester/discovery/takeover.py:162 | the control takes the place of the first label: what follows the first dot is kept |
| TakeoverWorkers.EveryRunIsSafe | theHarvester/discovery/takeover.py:545-563 | in every interleaving no host is recorded twice and the three counts add up to the outcomes |
| TakeoverWorkers.CompleteRunRecordsAll | theHarvester/discovery/takeover.py:526-563 | an undisturbed scan records every host exactly once |
| ApiScanBudget.FetchResponse | theHarvester/discovery/api_endpoints.py:721-772 | at most 11 requests, every followed redirect on the target over HTTP or HTTPS, which overlong answers raise, the final assertion unreachable |
| ApiScanBudget.EveryRunKeepsBudget | theHarvester/discovery/api_endpoints.py:573-578 | in every interleaving the requests sent are the successful claims and stay within the limit |
| ApiScanBudget.EveryUrlIsBounded | theHarvester/discovery/api_endpoints.py:642-719 | no URL costs more than 3 * 3 * 11 requests |
| ApiScanBudget.NoClaimAfterRefusal | theHarvester/discovery/api_endpoints.py:573-578 | after one claim fails none succeeds |
| ApiScanBudget.StepMovesJob | theHarvester/discovery/api_endpoints.py:656-719 | the methods follow one another without a gap, each only after an answer of no use, until none is left; attempts and redirects count up one by one |
| ApiScanBudget.LimitedIsRetriedIff | theHarvester/discovery/api_endpoints.py:774-788 | a 429 or 503 is retried exactly while attempts are left and no limit was hit, with the same method |
| ApiScanBudget.AttemptsAreCounted | theHarvester/discovery/api_endpoints.py:656-680 | in every interleaving a method is asked again only for a limited reply, and at most twice |
| ApiScanBudget.GivesUpAfterThree | theHarvester/discovery/api_endpoints.py:774-788 | a scan gives up on a URL for rate limits only after three limited replies to one method |
| ApiScanBudget.StopReasonIs | theHarvester/discovery/api_endpoints.py:774-788 | the stop reason is rate-limited exactly when the last attempt of some URL was answered 429 and nothing was refused or failed, before or after; none exactly when nothing of the kind happened |
| ApiScanBudget.EveryRunEnds | theHarvester/discovery/api_endpoints.py:642-788 | whatever the target answers, n URLs are done within 117 n steps |
| ApiScanIndex.ApiIndexes.ProcessResponse | theHarvester/discovery/api_endpoints.py:804-985 | the URL is filed in every index exactly when this response puts it there: 401 and 403 need authentication, 429 or an announced limit is a rate limit, and so on; every other URL stays as its own last response filed it |
| ApiScanIndex.ApiIndexes.DescribeResponse | theHarvester/discovery/api_endpoints.py:883-947 | the description of a response, field by field |
| ApiScanIndex.ApiIndexes.ProcessAll | theHarvester/discovery/api_endpoints.py:804-985 | after any sequence of responses every URL is filed by its last one that had a status, and no other URL is filed |
| ApiScanIndex.LastOfIsLatest | theHarvester/discovery/api_endpoints.py:819-822 | the last response of a URL is one with a status after which none such comes |
| ApiScanIndex.DescribeKeeps | theHarvester/discovery/api_endpoints.py:883-947 | what a description keeps of a response, the headers about limits exactly when one announces a limit |
| ApiScanIndex.ApiIndexes.OrderResults | theHarvester/discovery/api_endpoints.py:566-571 | ordering all six dictionaries keeps the filters, loses nothing on the list, and the key order depends only on the list |
| ApiScanIndex.OrderKeeps | theHarvester/discovery/api_endpoints.py:566-571 | ordering one dictionary by the list keeps every entry whose key is on it |
| ApiScanIndex.PickedInOrder | theHarvester/discovery/api_endpoints.py:566-571 | ordering keeps the listed entries where the list has them |
| GithubPaging.SearchGithubCode.ConsumeAnswer | theHarvester/discovery/githubcode.py:150-205 | what one answer does: what is kept, the very page it leads to, when a page is asked again, and when and why the search ends |
| GithubPaging.SearchGithubCode.ConsumeSuccess | theHarvester/discovery/githubcode.py:150-177 | the part for a successful answer: refused content, the rest of the limit, the page it names |
| GithubPaging.SearchGithubCode.Process | theHarvester/discovery/githubcode.py:138-207 | the pages asked are page 1, then each the page named by the answer before it or the same again; at most 4 * limit requests and 4 per page, never back to a page; what is kept; and exactly why it ended |
| GithubPaging.LinkedPagesAreAllRead | theHarvester/discovery/githubcode.py:138-207 | of a provider that links page 1 to n the search asks for exactly pages 1 to n, keeps every fragment and reports nothing, with room enough or, without a limit, distinct pages |
| QuotaPaging.SearchTomba.DoSearch | theHarvester/discovery/tombasearch.py:84-110 | consecutive pages within the quota; with an honest provider the entries collected are the wanted window, or its affordable prefix |
| QuotaPaging.SearchTomba.WantedIsMost | theHarvester/discovery/tombasearch.py:70-82 | what a search wants is the most entries that plan, domain and caller allow |
| QuotaPaging.SearchTomba.Plan | theHarvester/discovery/tombasearch.py:70-86 | page size, wanted entries and needed requests as the search works them out |
| QuotaPaging.SearchTomba.PageArithmetic | theHarvester/discovery/tombasearch.py:84-110 | skip and take of page i cut exactly its part of the window |
| QuotaPaging.SearchTomba.EnoughQuotaCollectsAll | theHarvester/discovery/tombasearch.py:84-110 | with enough quota the window is complete |
| QuotaPaging.SearchTomba.QuotaReportIsExact | theHarvester/discovery/tombasearch.py:84-110 | exhaustion is reported exactly when the quota is below the need |
| QuotaPaging.SearchHunter.DoSearch | theHarvester/discovery/huntersearch.py:83-110 | the free and the paid plan |
| QuotaPaging.SearchHunter.WantedIsMost | theHarvester/discovery/huntersearch.py:83-98 | what a paid search wants is the most that domain and caller allow, what it reaches the most of it at 100 a request |
| QuotaPaging.SearchHunter.Plan | theHarvester/discovery/huntersearch.py:83-98 | needed requests and reach as the search works them out |
| QuotaPaging.SearchHunter.PaidSearch | theHarvester/discovery/huntersearch.py:91-110 | the offsets partition the window into pages of at most 100 and collect its affordable prefix |
| QuotaPaging.SearchHunter.FreeSearch | theHarvester/discovery/huntersearch.py:83-90 | one request, whatever quota is left |
| QuotaPaging.SearchHunter.QuotaReportIsExact | theHarvester/discovery/huntersearch.py:83-110 | exhaustion is reported exactly when the quota is below the need |
| Ordering.SortedDetermined | theHarvester/lib/completed_result.py:272-277 | a sorted, deduplicated tuple is determined by its elements |
| Ordering.SortedFixedPoint | theHarvester/lib/completed_result.py:272-277 | equal to its own sorted set means strictly sorted |

## Left out

- HTTP, DNS, TLS, proxies, SQLite and asyncio themselves: a fetch or query is any returned value, a statement one atomic step, scheduling a free choice between awaits.
- JSON text, ISO timestamps, UUIDs and regular expressions: opaque values with assumed encode and decode inverses, or predicates; times are integers.
- The field checks inside virtual-host, Shodan and takeover details: one predicate each says that the details read back as themselves.
- Sorting of network observations compares times as instants, where the code compares their ISO text; of virtual hosts, the code lets a missing and an empty field tie, the model does not.
- A duration that is not a number passes the constructor but is NULL in SQLite; durations are real numbers here.
- SELECT and INSERT act on sequences of rows owned by the store object; paging, indices and the ORM are not modelled.
- KindMigration.CanonicalizeResultKinds: does not remap ASN attributions or keep details, because the code rebuilds only results, origins, artifacts and counts.
- Schema bootstrap, WAL selection, export and import of database files.
- SQLite's own limits: an artifact of 2^63 bytes or more and a text with a lone surrogate cannot be stored, so "exactly" means exactly for values SQLite can hold.
- A Shodan host whose details are not canonical and details of the wrong shape raise different messages on loading; both are one error here.
- ReverseDns.CompleteRun: the runtime limit strikes only while some worker has not stopped; one that fires in the instant the last worker ends is not modelled.
- HostnameComparison.LoadHostnameComparisonRun: takes the rows of a run that exists; the lookup of its id is that of the full loader. The JSON of a classification is one predicate on its text.
- CompletedResult.status and the summary record of a printed run: one branch each over execution statuses.
- RunLifecycleStore.create may write any status and marks; records begin queued here.
- GithubPaging.SearchGithubCode.Process: without a limit no bound is stated, because termination then depends on the provider; a script of answers that runs out is cut off.
- A GitHub answer of 403 is retried by the code, so access-denied reports come from 401 alone.
- TakeoverEvidence.AcceptsDns: the resolver's address is taken to be canonical, and normalize_hostname is any function.
- TakeoverVerdict.TakeoverScanner.ScanCandidate: other exceptions of the HTTP client end the scan and are not modelled, nor are the counters of DNS and request errors.
- ApiScanIndex.ApiIndexes.ProcessResponse: header values, previews and parsed parameters are left out of a result; what a URL or a body says about a schema is one predicate each.
- ApiScanBudget: retry delays, timeouts and cancellation appear only as a step that ends a job; the request of schema detection is counted as claimed, which a positive limit guarantees.
- Other provider adapters, argument parsing, reports, banners, logging and table printing.

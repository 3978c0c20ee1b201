# Verified models of ducklink's host algorithms

ducklink runs DuckDB as a WebAssembly component inside a native host. This project models the host's self-contained
algorithms and protocols in Dafny and proves what they are for: what every step keeps, what whole runs guarantee, what one
routine undoes of another. `dafny verify dfyconfig.toml` checks all of it.

| file | what it models |
|---|---|
| `SubExt.dfy` | the sub-extension loader: aliases, placeholder digests, registry, blob store, failures at every step |
| `CronProtocol.dfy`, `CronDouble.dfy`, `CronTick.dfy`, `CronContended.dfy` | cron drivers sharing job and lease tables, as a step system; when a window can fire twice; the tick loop as a run of it; who holds a contended lease |
| `SqlWalk.dfy`, `SqlLexemes.dfy`, `SqlText.dfy`, `Literals.dfy`, `Utf8.dfy`, `Attach.dfy`, `AttachLayout.dfy`, `Values.dfy`, `ValuesLayout.dfy`, `Apostrophes.dfy`, `HexText.dfy`, `Decimal.dfy` | the SQL text walkers of the write interceptor, what they make of any layout of the same text, and the round trips between printed and parsed forms |
| `Calendar.dfy`, `AmzDate.dfy`, `Percent.dfy`, `SignedHeaders.dfy`, `HandlerParams.dfy` | dates, timestamps, percent-encoding and canonical requests for request signing, and the HTTP front end's decoder and parameter binding |
| `Bencode.dfy` | bencode values printed as JSON, and a JSON reader (sections 4 to 7 of RFC 8259) that gets the value back |
| `DeltaLog.dfy`, `DeltaRewrite.dfy`, `DeltaTopLevel.dfy`, `DeltaResolve.dfy`, `DeltaEndToEnd.dfy` | replay of a Delta log, the search for `delta_scan` calls, and their rewrite end to end |
| `Replicate.dfy` | snapshot replication over a bucket whose uploads fail, generations over many runs, and restore beside a running backup |
| `Resolver.dfy`, `Suite.dfy`, `SuiteDigest.dfy`, `SuiteLanguages.dfy` | provider resolution, and the canonical suite text and its digest pre-image in Rust and in Python |
| `Builds.dfy` | the registry of content-hashed builds |
| `Sorting.dfy`, `Chars.dfy`, `Wrappers.dfy` | stable sorting and string order, character classes, shared types |

Code that loops over variables or changes fields is a method or a class proved against a specification function; the
properties are proved about that function and about the states it runs through.

Where the code and its own comments disagree, the model follows the code, and a theorem says exactly when they agree:

* `has_bridge` and "`bridge_path` is some" are documented as equivalent; they differ for an alias without paths of its own
  (`SubExt.BridgeAgreement`).
* A repeated load of an alias is documented to return the upstream's id; it returns an id nobody registered
  (`SubExt.RepeatIdAgrees`, `SubExt.LoadTwice`).
* Leases do not give at-most-once execution across drivers: it holds for a job exactly when no two drivers share it
  (`CronDouble.FiresTwiceExactlyWhen`). A failed catalog switch keeps its lease until the time is over.
* A contended row is taken for one that another driver holds; it can be the driver's own lease from an earlier tick
  (`CronContended.ContendedByAnotherExactlyWhen`, `CronContended.DriverContendsWithItself`).
* `is_multi_statement` is not "more than one non-empty statement" (`SqlWalk.MultiMeansSeveralExactlyWhen`), and
  `split_statements` drops blank pieces but not comment-only ones (`SqlWalk.DroppedAsDocumentedExactlyWhen`).
* The literal readers are exact for ASCII only (`Attach.AttachRoundTrip`).
* The parenthesis tracker of the VALUES parser falls out of step on doubled quotes; the rows come back exactly when it is in
  step at the end of each (`Apostrophes.ApostropheCondition`), and otherwise rows can run together
  (`Apostrophes.TwoRowsBecomeOne`).
* `delta_scan` calls in comments and behind literals are rewritten although only top-level ones are documented
  (`DeltaTopLevel.TopLevelExactlyWhen`); a file added again after a removal is listed twice
  (`DeltaLog.DuplicateFreeExactlyWhen`).
* The generation of a replica is documented as monotonic; it rises exactly within one run behind a reported success
  (`Replicate.GenerationRisesExactlyWhen`).
* The Rust and Python suite digests are documented as byte-identical; they are on suites whose lines agree
  (`SuiteLanguages.DigestsAgreeExactlyWhen`). The Rust pre-image is ambiguous in a case of its own
  (`SuiteDigest.TwinExactlyWhen`).

## Model

| member | source | states |
|---|---|---|
| SubExt.SubExtLoader.Materialize | crates/ducklink-host/src/sub_ext.rs:337-365 | After any call, failed at whatever step or not, the invariant holds: every materialized un-aliased sub-extension has its id registered and its digest cached with bytes in the CAS, every materialized alias has its upstream materialized, and no alias registers its own id. Every plan handed to the composer is the file with exactly the digests that are nonempty and all zero bytes replaced, each by the cached digest of the mapped upstream. Nothing already there is lost; success returns `-composed` behind the sub-extension the aliases lead to; without an environment fault, failure means the sub-extension cannot be composed, and the error names the file that could not be used |
| SubExt.SubExtLoader.constructor | crates/ducklink-host/src/sub_ext.rs:220-240 | An empty loader over an acyclic configuration satisfies the invariant |
| SubExt.SubExtLoader.RegisterPrebuilt | crates/ducklink-host/src/sub_ext.rs:379-429 | The prebuilt shortcut: registered first, digest cached and bytes stored before it counts as materialized, the invariant kept at every failure |
| SubExt.SubExtLoader.ChainResolve | crates/ducklink-host/src/sub_ext.rs:451-489 | One zero-digest component: its upstream is materialized on success and the digest returned is the one the splice calls for |
| SubExt.SubExtLoader.ComposePlan | crates/ducklink-host/src/sub_ext.rs:431-517 | The plan-driven path: the loop over the components yields the spliced plan or stops with the invariant kept |
| SubExt.SubExtLoader.ComposeAndRegister | crates/ducklink-host/src/sub_ext.rs:491-564 | Compose, cache the digest, register, mark: the order in which the effects appear keeps the invariant when any of them fails |
| SubExt.LoadTwice | crates/ducklink-host/src/sub_ext.rs:340-365 | A repeated load succeeds after a successful one and gives the same id exactly when the sub-extension is not an alias or was materialized before; for an alias the second id is one that nobody registered |
| SubExt.RepeatIdAgrees | crates/ducklink-host/src/sub_ext.rs:340-342 | The id of a repeated call equals the first exactly for un-aliased sub-extensions |
| SubExt.DigestsOrderIndependent | crates/ducklink-host/src/sub_ext.rs:451-523 | Two loaders over one configuration, whatever was loaded in whatever order and with whatever failures, cache the same digest for the same sub-extension |
| SubExt.DigestRankIndependent | crates/ducklink-host/src/sub_ext.rs:451-489 | The digest of a sub-extension depends on the configuration alone, not on the rank that shows it acyclic |
| SubExt.SplicedShape | crates/ducklink-host/src/sub_ext.rs:451-489 | The spliced plan has the components of the file in order; each differs from the file only where the digest is nonempty and all zero bytes, and there it is the digest of the mapped upstream |
| SubExt.SplicedIsFilled | crates/ducklink-host/src/sub_ext.rs:451-517 | In a reachable state the spliced plan handed to the composer differs only in its placeholders, each filled from the cache |
| SubExt.ComposeOutcome | crates/ducklink-host/src/sub_ext.rs:514-532 | A composable plan composes, and all its inputs are in the CAS |
| SubExt.LandingMaterialized | crates/ducklink-host/src/sub_ext.rs:356-365 | Whatever a materialized alias leads to is materialized |
| SubExt.LandingDescends | crates/ducklink-host/src/sub_ext.rs:356-365 | Following aliases never climbs in rank |
| SubExt.ReturnedIdRegistered | crates/ducklink-host/src/sub_ext.rs:337-365 | The own id of a materialized sub-extension is registered exactly when it is no alias, or someone else had registered that id before |
| SubExt.StuckIsNotComposable | crates/ducklink-host/src/sub_ext.rs:455-487 | A placeholder without a mapping, or mapped to an alias (which never gets a digest), makes a plan impossible to compose |
| SubExt.OverPrebuiltComposableExactlyWhen | crates/ducklink-host/src/sub_ext.rs:451-532 | A plan whose placeholders all derive from prebuilt sub-extensions with a file can be composed exactly when its other blobs were there from the start and the composer accepts the plan with the digests of those files put in; its digest is that of the composition |
| SubExt.LoadKeepsInv | crates/ducklink-host/src/sub_ext.rs:419-428 | The common end of both paths, from cached digest to materialized mark, keeps the invariant |
| SubExt.RegisterKeepsInv | crates/ducklink-host/src/sub_ext.rs:387-396 | A registration alone, before anything is cached, keeps the invariant |
| SubExt.AliasKeepsInv | crates/ducklink-host/src/sub_ext.rs:356-365 | Marking an alias once its upstream is materialized keeps the invariant |
| SubExt.SettleKeepsInv | crates/ducklink-host/src/sub_ext.rs:551-563 | Registering and marking a settled sub-extension keeps the invariant |
| SubExt.ProviderIdInjective | crates/ducklink-host/src/sub_ext.rs:68-70 | Different sub-extensions have different provider ids |
| SubExt.BridgeAgreement | crates/ducklink-host/src/sub_ext.rs:282-313 | The documented invariant (a bridge exists exactly when it has a path) holds exactly unless the sub-extension is an alias with no path of its own whose upstream has one |
| SubExt.ExplicitBridgeWins | crates/ducklink-host/src/sub_ext.rs:303-313 | An explicit bridge path is preferred to the prebuilt file; without either there is no path |
| SubExt.BridgeDisagreementExists | crates/ducklink-host/src/sub_ext.rs:296-313 | A configuration in which that invariant fails |
| CronProtocol.MutualExclusionUntilExpiry | crates/ducklink-host/src/cron_cli.rs:1047-1068 | In every run of any drivers, with crashes and slow jobs, two drivers between acquiring and releasing the same lease means one of the two leases has expired |
| CronProtocol.StolenLeaseSurvivesRelease | crates/ducklink-host/src/cron_cli.rs:1134-1140 | A release by a driver whose lease was stolen leaves the lease table as it is |
| CronProtocol.StepKeepsLeaseInv | crates/ducklink-host/src/cron_cli.rs:949-1146 | Every step of every driver, of the clock and every crash keeps: a holder's row is its own or its time is over |
| CronProtocol.RunKeepsLeaseInv | crates/ducklink-host/src/cron_cli.rs:949-1146 | The same over whole runs |
| CronProtocol.StepKeepsWindowInv | crates/ducklink-host/src/cron_cli.rs:998-1010 | Every step keeps: no driver has fired a window twice, fired windows are behind their job's next run, and the rows a driver has still to fire are unfired by it |
| CronProtocol.RunKeepsWindowInv | crates/ducklink-host/src/cron_cli.rs:998-1010 | Over whole runs, and no job is lost, retargeted or set back |
| CronProtocol.StepMovesJobsOn | crates/ducklink-host/src/cron_cli.rs:1002-1010 | No step drops a job, changes its node or pulls its next run back, when the advance goes past now |
| CronProtocol.EachDriverFiresAWindowOnce | crates/ducklink-host/src/cron_cli.rs:949-1146 | In every run with any number of drivers, one driver never fires a window of a job twice, and never fires a job targeted at another node |
| CronProtocol.SingleDriverFiresAWindowOnce | crates/ducklink-host/src/cron_cli.rs:949-1146 | With one driver no window fires twice, whatever the crash points |
| CronDouble.FiresTwiceExactlyWhen | crates/ducklink-host/src/cron_cli.rs:949-1146 | Of the runs of any drivers from given tables, one executes some window of a job twice if and only if the job is active and scheduled and two different drivers may take it; so at-most-once holds for every job that no two drivers share |
| CronDouble.TwoDriversCanFireOneWindow | crates/ducklink-host/src/cron_cli.rs:965-1010 | For every such job in any tables, a run in which both drivers execute its window: both read before either advances, and the second acquires what the first has released, past whatever other rows are due |
| CronDouble.TwiceMeansShared | crates/ducklink-host/src/cron_cli.rs:949-1146 | A window executed twice means two drivers that may take the job, which was active and scheduled from the start |
| CronDouble.RunKeepsOnlyArmed | crates/ducklink-host/src/cron_cli.rs:965-1010 | Over whole runs, whatever is listed or executed was active and scheduled from the start |
| CronDouble.FiresRow | crates/ducklink-host/src/cron_cli.rs:1031-1143 | A driver that has read its list can work through it, contended rows included, to execute any row whose lease is free, and leaves that lease free |
| CronProtocol.PassedWindowIsNeverDueAgain | crates/ducklink-host/src/cron_cli.rs:1002-1010 | Once a window has fired or been advanced past, the job is never due for it again, for any driver at any time |
| CronProtocol.DueWindowIsUnfired | crates/ducklink-host/src/cron_cli.rs:1222-1227 | A window the due query shows has not been fired by anyone |
| CronTick.CronStore.Tick | crates/ducklink-host/src/cron_cli.rs:949-1146 | With other drivers acting between any two statements, a successful tick: its own statements are exactly the clock, the due list of a state on the way, the pre-advance, and for every row in order those of its one outcome; the pre-advance moves exactly the due rows to their next time; a row is contended exactly when an unexpired lease was there as it was asked for, and skipped only if it names a catalog; a saved outcome sets the last status to fired, failed or skipped and adds one run row that is ok only for a job that succeeded, an unsaved one adds nothing; the counts are the numbers of rows that ran and that were contended, the executions added exactly the rows that ran, each released or stolen unless the release failed; a skipped row keeps its lease until now plus the lifetime; no other lease of this driver changes. A failed tick stops at the due list, at the pre-advance or at an acquire, with the rows before done in the same way |
| CronTick.CronStore.ReadList | crates/ducklink-host/src/cron_cli.rs:955-997 | Clock and due query: the list is exactly the due rows of the state in which it is read |
| CronTick.CronStore.BeginTick | crates/ducklink-host/src/cron_cli.rs:955-1025 | Clock, due query and, unless the list is empty, pre-advance, in this order and nothing else; the pre-advance gives each due row its next time, computed from the one it was due for; no lease of the driver changes and nothing executes |
| CronTick.CronStore.TickRows | crates/ducklink-host/src/cron_cli.rs:1031-1143 | The loop over the due rows: each gets one outcome, whose statements in row order are all the driver does, with what it found of the lease and what it leaves of it; a failed acquire ends the loop with the rows before it done |
| CronTick.CronStore.TickRow | crates/ducklink-host/src/cron_cli.rs:1043-1142 | One row: contended exactly when the lease is not free as it is asked for, skipped only with a catalog to switch to, else run; each outcome has its own statements and leaves the lease as stated |
| CronTick.CronStore.FinishRow | crates/ducklink-host/src/cron_cli.rs:1070-1142 | A leased row run to its end by exactly execution, record and release: one execution, lease released or stolen unless the release fails |
| CronTick.CronStore.TryAcquire | crates/ducklink-host/src/cron_cli.rs:1043-1068 | The upsert takes an absent or expired row and nothing else, as one protocol step |
| CronTick.CronStore.SkipJob | crates/ducklink-host/src/cron_cli.rs:1082-1094 | The failed catalog switch records the status skipped and a bad run row, if it records anything, and goes on without releasing the lease |
| CronTick.CronStore.ExecuteJob | crates/ducklink-host/src/cron_cli.rs:1077-1111 | Exactly one execution of the row's window |
| CronTick.CronStore.SaveOutcome | crates/ducklink-host/src/cron_cli.rs:1112-1129 | If saved, the last status is fired for a job that succeeded and failed for one that did not, and one run row with this tick time says the same; if not, neither changes; nor do leases and executions |
| CronTick.CronStore.TryRelease | crates/ducklink-host/src/cron_cli.rs:1131-1140 | The release frees the row only while this driver holds it |
| CronTick.CronStore.QueryDue | crates/ducklink-host/src/cron_cli.rs:960-997 | The due list is exactly the active due rows for this node, ordered by next run |
| CronTick.SelectDue | crates/ducklink-host/src/cron_cli.rs:1222-1227 | The due query: every due job once, ordered by next run |
| CronTick.DueListMeans | crates/ducklink-host/src/cron_cli.rs:1222-1227 | The due list in plain terms: exactly the active rows of this node, or of none, whose time is now or past, with that time and their catalog, once each and by time |
| CronTick.CronStore.Run | crates/ducklink-host/src/cron_cli.rs:873-916 | As many rounds as asked for, each a wait in which the others go on and one whole tick, completed or interrupted as Tick states, from where the last ended |
| CronTick.OthersRely | crates/ducklink-host/src/cron_cli.rs:949-1146 | What any run of the other drivers leaves a driver: its state, its executions, and its unexpired leases |
| CronTick.OtherStepRely | crates/ducklink-host/src/cron_cli.rs:1047-1068 | The same for one step of another driver |
| CronTick.RowsGrow | crates/ducklink-host/src/cron_cli.rs:1031-1143 | Another row of the tick leaves the earlier rows done and settled, and adds its own outcome |
| CronTick.SettledRowStays | crates/ducklink-host/src/cron_cli.rs:1134-1140 | Once a row is settled, later rows of the tick leave it settled |
| CronTick.After | crates/ducklink-host/src/cron_cli.rs:1043-1142 | What one turn on a row does to the lease table, the executions and the driver |
| CronContended.ContendedByAnotherExactlyWhen | crates/ducklink-host/src/cron_cli.rs:1043-1068 | The code takes a contended row for one that another driver holds; in a completed tick that is so exactly unless the driver itself held the lease unexpired when the tick began and nobody has taken it over since, which nobody can before it expires |
| CronContended.LeftoversHaveACause | crates/ducklink-host/src/cron_cli.rs:1082-1140 | In any run, a lease that a driver holds between two rows is free, was held from the start, or was left by a failed catalog switch, a failed release or a crash |
| CronContended.TidyDriverContendsWithOthers | crates/ducklink-host/src/cron_cli.rs:1043-1068 | So a driver that starts without leases and meets none of the three finds rows contended by other drivers only |
| CronContended.DriverContendsWithItself | crates/ducklink-host/src/cron_cli.rs:1082-1140 | After each of the three, with no other driver at all and a job due again before the lease runs out, the driver finds the row contended, by its own lease |
| SqlWalk.SkipComment | crates/ducklink-host/src/at5_intercept.rs:161-180 | The end of the comment at a position, which moves exactly when one starts there |
| SqlWalk.SplitStatements | crates/ducklink-host/src/at5_intercept.rs:201-257 | The loop returns the non-blank segments between top-level semicolons |
| SqlWalk.IsMultiStatement | crates/ducklink-host/src/at5_intercept.rs:259-306 | The loop decides whether a loud character follows the first top-level semicolon |
| SqlWalk.PiecesAreFinal | crates/ducklink-host/src/at5_intercept.rs:201-306 | Every piece, scanned afresh, splits to exactly itself and is never a multi-statement |
| SqlWalk.SegmentsHaveNoCut | crates/ducklink-host/src/at5_intercept.rs:201-257 | No segment has a top-level semicolon when read alone, though its quotes and comments are scanned anew |
| SqlWalk.SegmentsRebuild | crates/ducklink-host/src/at5_intercept.rs:201-257 | Segments joined by semicolons are the text from any statement start on |
| SqlWalk.BatchRebuilds | crates/ducklink-host/src/at5_intercept.rs:201-257 | Segments joined by semicolons are the batch, and each is a piece or white space |
| SqlWalk.NotMultiMeansAtMostTwo | crates/ducklink-host/src/at5_intercept.rs:259-306 | A batch that is not a multi-statement has at most two segments, so at most two pieces |
| SqlWalk.MultiBySegments | crates/ducklink-host/src/at5_intercept.rs:259-306 | A batch is a multi-statement exactly when it has three segments or more, or two of which the second is loud when read alone |
| SqlWalk.LoudInside | crates/ducklink-host/src/at5_intercept.rs:259-306 | Text is loud exactly when its first segment, read alone, is, or another top-level semicolon follows |
| SqlWalk.MultiMeansSeveralExactlyWhen | crates/ducklink-host/src/at5_intercept.rs:258-306 | The test agrees with "more than one non-blank statement" exactly: always with one segment, with two when the second is loud just if both are non-blank, with more when two are non-blank |
| SqlWalk.DroppedExactlyWhenBlank | crates/ducklink-host/src/at5_intercept.rs:193-257 | A segment is dropped exactly when it is white space |
| SqlWalk.DroppedAsDocumentedExactlyWhen | crates/ducklink-host/src/at5_intercept.rs:193-257 | The pieces are those documented, without comment-only statements, exactly when no segment is a comment alone |
| SqlWalk.CommentIsKept | crates/ducklink-host/src/at5_intercept.rs:193-257 | Every batch that is one line comment is returned as a piece |
| SqlWalk.MultiWithoutPieces | crates/ducklink-host/src/at5_intercept.rs:258-306 | An input where the documented meaning fails one way: two bare semicolons |
| SqlWalk.TwoPiecesButNotMulti | crates/ducklink-host/src/at5_intercept.rs:258-306 | An input where it fails the other way: a quoted literal behind the semicolon does not count |
| SqlLexemes.PiecesAreStatements | crates/ducklink-host/src/at5_intercept.rs:201-257 | A batch written as literals, quoted identifiers, line and block comments, semicolons and other characters splits at exactly its semicolon lexemes, whatever quotes, comment marks and semicolons the others hold |
| SqlLexemes.EveryTextIsLexed | crates/ducklink-host/src/at5_intercept.rs:161-306 | And every text is written so, with at most one literal, identifier or block comment left open at its end |
| SqlLexemes.MultiExactlyWhen | crates/ducklink-host/src/at5_intercept.rs:259-306 | A batch is a multi-statement exactly when behind a semicolon lexeme there is another, or a character outside quotes and comments that is no ASCII white space |
| SqlLexemes.HidesItsText | crates/ducklink-host/src/at5_intercept.rs:208-239 | A literal, identifier or comment between any two texts joins the last statement of the one and the first of the other uncut |
| SqlText.SplitTopLevelCommas | crates/ducklink-host/src/at5_intercept.rs:452-500 | The loop over quote, depth and buffer gathers the parts of the specification |
| SqlText.GatherLiteral | crates/ducklink-host/src/at5_intercept.rs:452-500 | A quoted literal, whatever commas, brackets and doubled quotes it holds, is never split |
| SqlText.UndoubleDoubled | crates/ducklink-host/src/at5_intercept.rs:402-408 | Undoing doubled quotes recovers the text |
| SqlText.StripQuote | crates/ducklink-host/src/at5_intercept.rs:402-408 | Stripping a written literal gives its text |
| Literals.LiteralReads | crates/ducklink-host/src/at5_intercept.rs:410-430 | A written literal is read as its text, the bytes of non-ASCII characters one by one, up to its closing quote |
| Literals.LiteralIsWritten | crates/ducklink-host/src/at5_intercept.rs:410-430 | And everything the reader accepts was written so |
| Utf8.BytesAsCharsIsIdentity | crates/ducklink-host/src/at5_intercept.rs:410-430 | Pushing bytes as characters keeps a text exactly when it is ASCII |
| Attach.ParseSingleQuotedString | crates/ducklink-host/src/at5_intercept.rs:410-430 | The byte loop reads exactly such a literal and the text behind it |
| Attach.AttachReads | crates/ducklink-host/src/at5_intercept.rs:319-373 | Every printed attach specification is parsed back with the same alias, type, options and flags, the dsn byte by byte |
| Attach.AttachRoundTrip | crates/ducklink-host/src/at5_intercept.rs:319-500 | The round trip is exact if and only if the dsn is ASCII |
| AttachLayout.AnyLayoutReads | crates/ducklink-host/src/at5_intercept.rs:319-400 | With keywords in any case, any white space, TYPE, READ_ONLY, pairs and other words in any order, values quoted or bare, and an optional semicolon, a statement is read as its dsn byte by byte, its alias, the last type it names, and its flags and pairs in order; without a type it is not recognised |
| Attach.OptionListReads | crates/ducklink-host/src/at5_intercept.rs:375-400 | The parenthesised options come back in order with their values unquoted |
| Attach.TargetReads | crates/ducklink-host/src/at5_intercept.rs:319-373 | Alias, type and options come back |
| Attach.IfNotExistsReads | crates/ducklink-host/src/at5_intercept.rs:319-373 | The flag comes back, present or not |
| HexText.HexRoundTrip | crates/ducklink-host/src/at5_intercept.rs:1297-1320 | Decoding hex text gives the bytes back |
| HexText.HexValIs | crates/ducklink-host/src/at5_intercept.rs:1313-1320 | The digits are those of the hexadecimal alphabet in either case, by position |
| Values.DecodeHex | crates/ducklink-host/src/at5_intercept.rs:1297-1320 | The loop decodes pair by pair and refuses odd lengths and other characters |
| Values.BalancedClose | crates/ducklink-host/src/at5_intercept.rs:1189-1227 | The loop finds the closing parenthesis by the specification's quote tracking, which does not skip both halves of a doubled quote |
| Values.ParseValuesTuples | crates/ducklink-host/src/at5_intercept.rs:1229-1265 | The loop reads the rows of the specification, stopping at junk, a semicolon or an unclosed tuple |
| Values.RowsRoundTrip | crates/ducklink-host/src/at5_intercept.rs:1229-1320 | For every nonempty list of rows of NULLs, 64-bit integers, blobs and strings without apostrophes, printing and parsing gives the same rows |
| Values.OneTuple | crates/ducklink-host/src/at5_intercept.rs:1229-1265 | One printed tuple is read as its row and parsing goes on behind it |
| Values.CellRoundTrip | crates/ducklink-host/src/at5_intercept.rs:1270-1295 | A printed value is classified as itself |
| ValuesLayout.RowsInAnyLayout | crates/ducklink-host/src/at5_intercept.rs:1229-1295 | Rows with any white space around cells, with any ASCII white space and commas before, between and behind tuples, with NULL and hex digits in either case, signed numbers and bracketed expressions, and with any text behind that opens no tuple, are read in order |
| Chars.AsciiSpaces | crates/ducklink-host/src/at5_intercept.rs:1229-1265 | The white space skipped between tuples is, on ASCII, the white space trimmed off cells, but for the vertical tab |
| ValuesLayout.OpenTupleLosesAll | crates/ducklink-host/src/at5_intercept.rs:1229-1265 | A tuple left open behind them loses all the rows |
| ValuesLayout.CrossesBalanced | crates/ducklink-host/src/at5_intercept.rs:1189-1227 | Balanced text, with nested parentheses, literals without apostrophes and quoted identifiers, is crossed whole by the search for the closing parenthesis |
| ValuesLayout.GathersBalanced | crates/ducklink-host/src/at5_intercept.rs:452-500 | And by the search for the commas between cells, which brackets hide as well |
| ValuesLayout.Spelled | crates/ducklink-host/src/at5_intercept.rs:1270-1295 | Every spelling of a value is classified as that value |
| ValuesLayout.HexAnyCase | crates/ducklink-host/src/at5_intercept.rs:1297-1320 | Hex text decodes to given bytes exactly when it spells them, in either case |
| Apostrophes.RowsReadExactlyWhen | crates/ducklink-host/src/at5_intercept.rs:1189-1265 | For every nonempty list of rows of any strings, 64-bit integers, blobs and NULLs, printing and parsing gives the same rows if and only if each row, printed alone, is found to close at its last character |
| Apostrophes.ApostropheCondition | crates/ducklink-host/src/at5_intercept.rs:1189-1265 | For strings without parentheses and double quotes that holds exactly when the tracker is in step at the end of every row: the last cell that is an empty literal or holds an apostrophe is empty or ends with one |
| Apostrophes.ClosesExactlyWhenInStep | crates/ducklink-host/src/at5_intercept.rs:1189-1227 | A row closes at its end exactly when it is in step, cell by cell |
| Apostrophes.MisreadsTuple | crates/ducklink-host/src/at5_intercept.rs:1229-1265 | A row not closed at its end is never read as itself, whatever follows it |
| Apostrophes.Longer | crates/ducklink-host/src/at5_intercept.rs:1229-1265 | A row cut too late gives other cells |
| Apostrophes.Shorter | crates/ducklink-host/src/at5_intercept.rs:1229-1265 | A row cut too early gives other cells |
| Apostrophes.LoneStringRefused | crates/ducklink-host/src/at5_intercept.rs:1189-1265 | A single string that leaves the tracker out of step is not recognised at all |
| Apostrophes.TwoRowsBecomeOne | crates/ducklink-host/src/at5_intercept.rs:1189-1265 | But two rows, the first left out of step and the second ending with an apostrophe, are read as one row of a single string that contains the text between them |
| Apostrophes.TrackQuoted | crates/ducklink-host/src/at5_intercept.rs:1197-1212 | Where the parenthesis tracker stands behind a literal with doubled quotes that it met in code or in a literal |
| Decimal.ParseSigned | crates/ducklink-host/src/at5_intercept.rs:1270-1295 | A printed integer parses as itself exactly within 64 bits |
| Calendar.CivilIsCorrect | crates/ducklink-host/src/sigv4.rs:98-110 | For every day count, negative ones included, the result is a valid proleptic Gregorian date whose day number, counted year by year and month by month from 1970, is that day count |
| Calendar.CivilInvertsDayNumber | crates/ducklink-host/src/sigv4.rs:98-110 | Every valid date is the result for its own day number, so the conversion is a bijection |
| Calendar.DayNumberMonotone | crates/ducklink-host/src/sigv4.rs:98-110 | Later dates have larger day numbers |
| Calendar.YearOfEra | crates/ducklink-host/src/sigv4.rs:102-104 | The quotient formula gives the year within the 400-year era, split into centuries, leap cycles and years |
| Calendar.FromMarchIsCorrect | crates/ducklink-host/src/sigv4.rs:105-109 | The 153-day month rule and the January and February carry give the right date |
| Calendar.DaysBeforeYearClosed | crates/ducklink-host/src/sigv4.rs:98-110 | The days before a year, defined by recursion, in closed form |
| AmzDate.TimestampLength | crates/ducklink-host/src/sigv4.rs:90-96 | A timestamp has 16 characters exactly before the year 10000 |
| AmzDate.ScopeIsDate | crates/ducklink-host/src/sigv4.rs:129 | The first 8 characters, which the signer slices off, are year, month and day |
| AmzDate.TimestampShape | crates/ducklink-host/src/sigv4.rs:90-96 | A timestamp is the date and the time of day as fixed-width numerals around a T |
| AmzDate.TimestampOrder | crates/ducklink-host/src/sigv4.rs:90-96 | Timestamps before the year 10000 compare as text exactly as their times |
| SignedHeaders.OrderIrrelevantExactlyWhen | crates/ducklink-host/src/sigv4.rs:131-143 | The order in which the caller lists headers leaves the canonical list alone if and only if no lower-cased name has two different trimmed values |
| SignedHeaders.OrderIsIrrelevant | crates/ducklink-host/src/sigv4.rs:131-136 | Two listings of the same headers, one value for each name, sort to the same list |
| SignedHeaders.OrderMatters | crates/ducklink-host/src/sigv4.rs:131-136 | Swapping two values of one name changes the canonical list |
| SignedHeaders.RequestIsDetermined | crates/ducklink-host/src/sigv4.rs:131-147 | Two requests have one canonical text exactly when verb, path, query, canonical headers and payload hash agree (single-line parts, no colon in names) |
| SignedHeaders.RequestLines | crates/ducklink-host/src/sigv4.rs:138-147 | Cut at its newlines the canonical text is verb, path, query, one `name:value` line for each sorted header, an empty line, the names between semicolons, and the payload hash |
| SignedHeaders.HeadersAreNormalized | crates/ducklink-host/src/sigv4.rs:131-136 | The sorted list holds each header of the caller once, its name in lower case and its value without white space at either end, by ascending name |
| Sorting.StrLeqIsAscending | crates/ducklink-host/src/sigv4.rs:136 | The order of names is that of their first difference, a prefix first |
| Percent.EncodeSegment | crates/ducklink-host/src/sigv4.rs:58-69 | The loop encodes byte by byte |
| Percent.PercentDecode | crates/ducklink-host/src/httpd.rs:393-421 | The loop decodes as specified, a stray percent sign or short escape standing for itself |
| Percent.PathIsBytewise | crates/ducklink-host/src/sigv4.rs:72-77 | Splitting at slashes, encoding and joining is one encoding byte by byte |
| Percent.DecodeUndoesEncode | crates/ducklink-host/src/sigv4.rs:53-77 | Decoding an encoded key gives the key back, for every key |
| Percent.EncodeInjective | crates/ducklink-host/src/sigv4.rs:53-77 | Different keys have different encodings |
| Percent.EncodingsAreTheCanonicalStrings | crates/ducklink-host/src/sigv4.rs:53-77 | The encodings are exactly the strings of unreserved characters, slashes and upper-case escapes of other bytes |
| Percent.UnreservedIs | crates/ducklink-host/src/sigv4.rs:50-55 | The bytes left alone are the letters, the digits and `-._~` |
| Percent.DecodesItems | crates/ducklink-host/src/httpd.rs:393-421 | Any text in form encoding is decoded item by item: plus signs to blanks, escapes with digits in either case to their byte, anything else, stray percent signs included, to itself |
| Percent.EveryTextHasItems | crates/ducklink-host/src/httpd.rs:393-421 | And every text is one in form encoding |
| Percent.SlashesAreKept | crates/ducklink-host/src/sigv4.rs:72-77 | The number of slashes stays |
| HandlerParams.OrderedHandlerParams | crates/ducklink-host/src/httpd.rs:647-691 | The names of the five parameters that follow a dollar sign in the handler, by first appearance, are bound in that order, each to what it asks of the request |
| HandlerParams.BindInOrder | crates/ducklink-host/src/httpd.rs:658-691 | The scan binds one value for each known parameter that occurs behind a dollar sign |
| HandlerParams.BoundByFirstAppearance | crates/ducklink-host/src/httpd.rs:647-691 | Each known name that occurs is bound once, none else, in the order of first appearance that positional binding needs |
| HandlerParams.NoNamesWithin | crates/ducklink-host/src/httpd.rs:672-688 | Jumping over a scanned name skips no parameter |
| Bencode.BenToJson | fuzz/fuzz_targets/bencode_decode.rs:48-77 | The recursive printer appends exactly the JSON text of the value |
| Bencode.ListToJson | fuzz/fuzz_targets/bencode_decode.rs:53-62 | The loop over a list appends its items with commas |
| Bencode.DictToJson | fuzz/fuzz_targets/bencode_decode.rs:63-76 | The loop over the sorted entries appends the members |
| Bencode.EscapeJsonString | fuzz/fuzz_targets/bencode_decode.rs:30-46 | The loop appends the quoted and escaped text |
| Bencode.BytesToJsonString | fuzz/fuzz_targets/bencode_decode.rs:17-28 | UTF-8 is shown as text, anything else as lower-case hex |
| Bencode.ShownBytes | fuzz/fuzz_targets/bencode_decode.rs:17-28 | UTF-8 is shown as its text; other bytes as lower-case hex from which they can be read back |
| Bencode.EscapeLength | fuzz/fuzz_targets/bencode_decode.rs:30-46 | A character stands for itself unless JSON asks for an escape, and the six-character escape is used only where there is none of two |
| Bencode.JsonRoundTrip | fuzz/fuzz_targets/bencode_decode.rs:17-77 | A JSON reader recovers from the text the whole value tree and consumes all of it, for every nesting depth |
| Bencode.JsonReads | fuzz/fuzz_targets/bencode_decode.rs:48-77 | The same with any text behind that cannot continue a number |
| Bencode.EscapedReads | fuzz/fuzz_targets/bencode_decode.rs:30-46 | Every string, control characters included, is read back from its escaped form |
| Bencode.SameTextSameTree | fuzz/fuzz_targets/bencode_decode.rs:48-77 | Equal texts come from equal trees |
| Bencode.MembersAscend | fuzz/fuzz_targets/bencode_decode.rs:63-76 | The members are the entries, in ascending order of key bytes |
| Bencode.DictOrderIsIrrelevant | fuzz/fuzz_targets/bencode_decode.rs:63-76 | With distinct keys the text does not depend on the order the dictionary came in |
| DeltaLog.ActiveFiles | crates/ducklink-host/src/delta_rewrite.rs:36-71 | The loop over the log returns the specified list |
| DeltaLog.ActiveExactly | crates/ducklink-host/src/delta_rewrite.rs:36-71 | A path is listed exactly when its last action is an add, a remove counting after an add on one line |
| DeltaLog.ListedAsOftenAsActivated | crates/ducklink-host/src/delta_rewrite.rs:36-71 | An active path is listed as often as it went from inactive to active |
| DeltaLog.DuplicateFreeExactlyWhen | crates/ducklink-host/src/delta_rewrite.rs:36-71 | The list has no duplicates exactly when every listed path became active once |
| DeltaLog.FirstAddOrderExactlyWhen | crates/ducklink-host/src/delta_rewrite.rs:36-71 | The list is the active paths in first-add order if and only if none of them became active twice |
| DeltaLog.ReAddDuplicates | crates/ducklink-host/src/delta_rewrite.rs:36-71 | Add, remove, add lists the path twice |
| DeltaRewrite.FindDeltaScanCalls | crates/ducklink-host/src/delta_rewrite.rs:116-191 | The search returns the left-to-right matches |
| DeltaRewrite.TryCall | crates/ducklink-host/src/delta_rewrite.rs:128-188 | The checks behind a found name accept exactly the grammar |
| DeltaRewrite.WrittenCallMatches | crates/ducklink-host/src/delta_rewrite.rs:128-188 | A call written with any white space around any directory is a match up to its closing parenthesis, its directory the literal undone |
| DeltaRewrite.MatchIsWritten | crates/ducklink-host/src/delta_rewrite.rs:128-188 | And every match is a call written so |
| DeltaRewrite.CallsAreOrdered | crates/ducklink-host/src/delta_rewrite.rs:116-191 | The ranges lie in the text, are disjoint, increase, and each is a match |
| DeltaRewrite.CallsAreComplete | crates/ducklink-host/src/delta_rewrite.rs:116-191 | Every match is found, or starts inside one that is |
| DeltaRewrite.NoOverlap | crates/ducklink-host/src/delta_rewrite.rs:123-126 | Resuming behind a rejected name loses no other occurrence |
| DeltaTopLevel.TopLevelExactlyWhen | crates/ducklink-host/src/delta_rewrite.rs:111-191 | The search returns only top-level calls, by the statement splitter's walk, if and only if every match in a literal or comment lies inside a top-level call; and exactly then it returns the documented list, all top-level calls left to right |
| DeltaTopLevel.NoNameElsewhere | crates/ducklink-host/src/delta_rewrite.rs:111-191 | So it does for every text in which the name never occurs in a literal or a comment |
| DeltaTopLevel.WalksCall | crates/ducklink-host/src/delta_rewrite.rs:137-182 | A call holds no comment and closes its literal: behind it the walk is at top level again |
| DeltaTopLevel.FoundInsideComment | crates/ducklink-host/src/delta_rewrite.rs:111-191 | A call written in a line comment is returned, with its directory, though it is not at top level |
| DeltaTopLevel.FoundInsideLiteral | crates/ducklink-host/src/delta_rewrite.rs:111-191 | So is one whose name ends a string literal: the text up to the next literal is taken for its directory |
| DeltaRewrite.RewriteDeltaScan | crates/ducklink-host/src/delta_rewrite.rs:265-288 | The result is the input with each range replaced, or left when nothing resolves |
| DeltaRewrite.InputIsGapsAndCalls | crates/ducklink-host/src/delta_rewrite.rs:265-288 | The same interleaving with the calls themselves is the input, so no character outside the ranges changes |
| DeltaRewrite.NothingResolves | crates/ducklink-host/src/delta_rewrite.rs:265-288 | When nothing resolves the replacements are the calls, so rewriting is the identity |
| DeltaResolve.ResolveGuestDir | crates/ducklink-host/src/delta_rewrite.rs:197-233 | No result exactly when no mount covers the directory; otherwise the first of the deepest mounts, matched by whole path components |
| DeltaResolve.ReplacementNamesActiveFiles | crates/ducklink-host/src/delta_rewrite.rs:240-258 | The replacement SQL exists exactly when there are active files, and its list, split and unquoted, names exactly their paths in order |
| DeltaResolve.QuotedListReads | crates/ducklink-host/src/delta_rewrite.rs:245-256 | A quoted list splits and unquotes to its paths, whatever they contain |
| DeltaEndToEnd.RewriteSql | crates/ducklink-host/src/delta_rewrite.rs:265-288 | The whole rewrite: each range replaced by what its directory resolves to, through mount, log and active files, or left |
| DeltaEndToEnd.EachCall | crates/ducklink-host/src/delta_rewrite.rs:265-288 | Each call found becomes the active files of the table it names, and stands as it was when the mount, the log or every file is missing |
| DeltaEndToEnd.ReplacementNamesTheTable | crates/ducklink-host/src/delta_rewrite.rs:273-278 | A directory is replaced exactly when it is mounted, its log can be read and some path's last action is an add; and then by a list naming exactly those paths below the directory |
| DeltaEndToEnd.ReplaceDir | crates/ducklink-host/src/delta_rewrite.rs:273-278 | The chain of calls computes that replacement |
| DeltaEndToEnd.CommentIsRewritten | crates/ducklink-host/src/delta_rewrite.rs:265-288 | A comment that looks like a call of a readable table comes out rewritten |
| Replicate.Replica.SnapshotOnce | crates/ducklink-host/src/replicate.rs:317-370 | One attempt uploads snapshot, pointer, state in that order and stops at the first failure; the pointer moves only to a stored snapshot, a success has generation one higher, an early failure leaves the pointer, and a failure of the last upload has already published |
| Replicate.SuccessDeposits | crates/ducklink-host/src/replicate.rs:328-358 | After a success the bucket holds, under the prefix, the compressed database under the snapshot name, that name in `latest`, and in `state.json` the state with its sizes and names |
| Replicate.Replica.RunBackup | crates/ducklink-host/src/replicate.rs:374-410 | Generations of the reported snapshots are 1, 2, 3, ... under rising timestamps, all still stored, whatever failed in between; only the first attempt's error ends the run |
| Replicate.Replica.RunRestore | crates/ducklink-host/src/replicate.rs:415-468 | With a backup uploading between any two reads, a restore yields exactly the database published when it read the pointer; it succeeds online exactly when something is published; the file name is the argument, the recorded name or the default |
| Replicate.Replica.PutObject | crates/ducklink-host/src/replicate.rs:216-232 | A PUT is one step: reported, lost, or done with its reply lost |
| Replicate.RunKeepsInv | crates/ducklink-host/src/replicate.rs:317-410 | At every point of every run, whatever uploads fail: the pointer is absent or names a fully uploaded snapshot, and stored snapshots stay |
| Replicate.StepKeepsInv | crates/ducklink-host/src/replicate.rs:336-358 | The same for one upload |
| Replicate.RestoreDuringBackup | crates/ducklink-host/src/replicate.rs:415-468 | Reading the pointer now and the snapshot any number of uploads later gives the database published now |
| Replicate.PublishedIsLast | crates/ducklink-host/src/replicate.rs:353-355 | The published snapshot is the last whose pointer upload took effect |
| Replicate.PublishedIsLastHeard | crates/ducklink-host/src/replicate.rs:353-355 | It is the last whose pointer upload reported success exactly when the reply to the last effective one was not lost |
| Replicate.AttemptPublishes | crates/ducklink-host/src/replicate.rs:317-370 | What each way of ending an attempt means for the pointer and the state file |
| Replicate.RepeatedTimestampReplaces | crates/ducklink-host/src/replicate.rs:334-336 | A repeated timestamp would let an unpublished snapshot replace the published one |
| Replicate.SnapshotKeysDistinct | crates/ducklink-host/src/replicate.rs:72-78 | Snapshots have distinct objects, none of them the pointer or the state file, under any prefix |
| Replicate.GenerationRisesExactlyWhen | crates/ducklink-host/src/replicate.rs:83-86 | Over any runs on one bucket, whatever uploads fail: of two consecutive state files that took effect, the later has the larger generation if and only if both are of one run and the earlier attempt reported success |
| Replicate.RunRises | crates/ducklink-host/src/replicate.rs:374-410 | Within a run the posted generations start at 1 and rise by one behind a reported success, and stay behind an unreported one |
| Replicate.SecondRunStartsAgain | crates/ducklink-host/src/replicate.rs:392-393 | Two runs on one bucket leave generation 1 twice |
| Replicate.LostReplyRepeatsGeneration | crates/ducklink-host/src/replicate.rs:356-358 | A state file stored without its reply has its generation used again |
| Replicate.RunPostsAreOfSteps | crates/ducklink-host/src/replicate.rs:356-358 | The posts of a run are the state uploads that took effect among its steps |
| Replicate.LastPostIsState | crates/ducklink-host/src/replicate.rs:419-424 | The last post is the state file a restore finds |
| Resolver.Resolve | crates/ducklink-host/src/resolver.rs:439-558 | The loop, the stable sort and the insertion produce the specified answer |
| Resolver.PicksTheChoice | crates/ducklink-host/src/resolver.rs:439-558 | Past the dependency gate, resolution succeeds exactly when some provider passes every gate, and names the first that need not be safe for a browser, or else the first of all; the gate itself opens exactly when every required component is present, and otherwise the error names exactly those that are not |
| Resolver.HeadIsChoice | crates/ducklink-host/src/resolver.rs:518-521 | The head of the stably sorted entrants is the admissible provider preferred to all others |
| Resolver.GateMeansAdmissible | crates/ducklink-host/src/resolver.rs:479-516 | The gate sequence accepts exactly the certified, trusted, available, undenied and unforced-out providers; a held suite requires a record pinned to it even of the reference |
| Resolver.GateReason | crates/ducklink-host/src/resolver.rs:279-516 | Which reason a rejected provider is given: the record, then the runtime, then the deny list, then the forced id; and what note an accepted one carries |
| Resolver.RankPrefers | crates/ducklink-host/src/resolver.rs:242-254 | Of two wasm providers the one that need not be safe for a browser ranks better |
| Resolver.VerdictNames | crates/ducklink-host/src/resolver.rs:479-550 | A verdict carries the id of its provider and the name of its kind |
| Resolver.OneVerdictEach | crates/ducklink-host/src/resolver.rs:479-550 | The reasoning is a rearrangement of one verdict for each provider, the choice first and the only winner, every other with its first failed gate or lost on precedence |
| Resolver.NoneAdmissible | crates/ducklink-host/src/resolver.rs:479-556 | Without a choice the reasoning is each provider with the gate it fails, in manifest order |
| Resolver.DenyingAnId | crates/ducklink-host/src/resolver.rs:499-503 | Denying an id leaves the resolved provider and artifact exactly when it is not the chosen id; the denied id is never resolved, and no failure becomes a success |
| Resolver.ForcingAnId | crates/ducklink-host/src/resolver.rs:504-514 | Forcing an id leaves the resolved provider and artifact exactly when it is the chosen id; only that id is resolved, and where none was forced before no failure becomes a success |
| Resolver.AddingAProvider | crates/ducklink-host/src/resolver.rs:518-521 | A provider added last takes over exactly when it is admissible and need not be safe for a browser while the choice is |
| Suite.PythonNormal | tooling/conformance.py:69-91 | Both Python loops compute the specified normal form |
| Suite.NormalTwice | crates/ducklink-host/src/resolver.rs:378-401 | Normalisation is idempotent, in both languages and for both parts |
| Suite.NormalReadsBack | crates/ducklink-host/src/resolver.rs:378-401 | A normal form splits into exactly the kept lines |
| Suite.SameNormalSameLines | crates/ducklink-host/src/resolver.rs:378-401 | Two texts have one normal form exactly when the same stripped lines remain |
| Suite.IgnoredExactly | crates/ducklink-host/src/resolver.rs:378-401 | A line is ignored exactly when it is blank or its indentation is followed by a comment mark |
| Suite.BlindToIgnoredLines | crates/ducklink-host/src/resolver.rs:378-401 | Inserting an ignored line anywhere leaves the normal form alone |
| Suite.BlindToTrailingSpace | crates/ducklink-host/src/resolver.rs:378-401 | So does white space at the end of any line |
| SuiteDigest.PreImageInjective | crates/ducklink-host/src/resolver.rs:369-376 | The digest pre-image tells the parts apart when no SQL part holds U+001E |
| SuiteDigest.SameBytesSameSuite | crates/ducklink-host/src/resolver.rs:369-376 | Two suites hash the same UTF-8 bytes exactly when the same lines remain of both parts, under that condition |
| SuiteDigest.BytesInjective | crates/ducklink-host/src/resolver.rs:369-376 | UTF-8 encoding is injective |
| SuiteDigest.PythonIsFree | tooling/conformance.py:94-97 | The Python normal form never holds U+001E, so the condition always holds there |
| SuiteDigest.TwinExactlyWhen | crates/ducklink-host/src/resolver.rs:346-376 | In Rust another suite, with other kept lines, has the same pre-image if and only if both parts keep a line and U+001E alone is a kept SQL line other than the first, with only lines behind it that the expected part would keep too, or a kept expected line other than the last, with only lines in front that the SQL part would keep |
| SuiteDigest.RustCollides | crates/ducklink-host/src/resolver.rs:369-376 | Two different suites in normal form with one pre-image |
| SuiteDigest.HashedLines | crates/ducklink-host/src/resolver.rs:369-376 | What is hashed, line by line: the domain, the kept SQL lines (or an empty line), the separator, the kept expected lines |
| SuiteDigest.EdgesAreSafe | crates/ducklink-host/src/resolver.rs:369-376 | U+001E on the first SQL line or the last expected line makes nothing ambiguous |
| SuiteDigest.CommentKeepsApart | crates/ducklink-host/src/resolver.rs:369-376 | Nor does it on an expected line behind one that SQL would take for a comment |
| SuiteLanguages.LanguagesAgree | tooling/conformance.py:69-91 | On text whose line ends are LF or CRLF and that has no other Python line break or information separator, Rust and Python compute the same normal form |
| SuiteLanguages.LanguagesAgreeExactlyWhen | tooling/conformance.py:69-97 | For every text the two normal forms are equal if and only if they agree on each of its lines between newlines: what Rust keeps of a line is canonical for Python too, and of what Rust drops Python keeps nothing |
| SuiteLanguages.DigestsAgreeExactlyWhen | tooling/conformance.py:94-97 | For every suite Rust and Python hash the same bytes if and only if they agree on each line of both parts |
| SuiteLanguages.KeptLineAgreesExactlyWhen | tooling/conformance.py:69-91 | A line that Rust keeps agrees exactly when it holds no other Python line break, ends in no Python-only white space, and is no comment behind Python-only indentation |
| SuiteLanguages.PythonByLine | tooling/conformance.py:69-91 | The Python loops too can be taken newline by newline |
| SuiteLanguages.LanguagesDiffer | tooling/conformance.py:69-91 | Each other line break of Python, and the unit separator, sets them apart, and no other character does |
| SuiteLanguages.PythonCharacters | tooling/conformance.py:69-91 | Which characters end a line and which are white space in either language |
| Builds.MembersOf | tooling/builds.py:115-124 | The two loops list the core members, then the component members |
| Builds.SamePreImage | tooling/builds.py:79-82 | Two member lists hash the same text exactly when they hold the same members equally often (no tab or newline in names, no newline in hashes) |
| Builds.SameSetSameParts | tooling/builds.py:79-82 | Two records hash the same text exactly when they embed the same core extensions and components, each equally often |
| Builds.PreImageHolds | tooling/builds.py:79-124 | The hashed text: a line for each core extension with its name and the hash of the name, a line for each component with its name and hash, in ascending order |
| Builds.TabInNameCollides | tooling/builds.py:79-82 | A tab in a name lets different members write the same line |
| Builds.NewlineInHashCollides | tooling/builds.py:79-82 | So does a newline in a hash |
| Builds.Database.UpsertBuild | tooling/builds.py:205-226 | The whole new registry and the answer: appended, replaced with the old creation time, or untouched on a conflict |
| Builds.Database.FindBuild | tooling/builds.py:102-106 | The first record of that name |
| Builds.Database.RecordAll | tooling/builds.py:205-226 | Over any run of recordings names stay unique and no record loses its place, set hash or creation time |
| Builds.UpsertKeeps | tooling/builds.py:205-226 | One recording keeps names unique, identities frozen and records of other names as they were; a conflict changes nothing |
| Builds.UpsertAnswers | tooling/builds.py:205-226 | The answer is new, unchanged or conflict exactly by whether the name is absent, present with this set hash, or with another |
| Builds.FirstWins | tooling/builds.py:205-226 | From an empty registry, the first record of a name fixes the set hash and creation time for ever |
| Builds.AgainExactlyWhenSameParts | tooling/builds.py:205-226 | Recording a name again is accepted exactly when the record embeds the same parts equally often, in any order, and is a conflict otherwise, unless the hash itself collides |

## Left out

- Hashes, HMAC, lz4, the composer, UTF-8 validation of byte strings, `cron_advance` and the JSON of log lines are abstract functions, with only the axioms a property needs: a digest function, a decompressor that undoes the compressor, an advance past now, hashes free of newlines.
- The acyclicity of the alias and derived-from maps is a precondition of the loader's constructor, since the code has no cycle guard.
- The configuration maps of the loader do not change after construction, and whether a second registration under one id replaces the first is left open (both are allowed).
- Machine integers are unbounded here: wrap-around of counters and generations, the saturating sum of the lease expiry and day counts near the limits of 64 bits are not modelled.
- Texts are sequences of characters where the code indexes bytes; every scanner decides on ASCII bytes alone, so positions fall on the same characters.
- Floating-point literals and expression-shaped cells are one opaque fall-through in `Values`.
- `Apostrophes.ApostropheCondition`: for strings that hold parentheses or double quotes the closed form is not given; `Apostrophes.RowsReadExactlyWhen` covers them by scanning each printed row.
- `Bencode.JsonRoundTrip`: the reader knows integers and escapes of single code units only, because the printer writes nothing else.
- `Replicate.Replica.RunBackup`: the endless loop is cut after any number of rounds, and the clock is taken to rise strictly between snapshots; `Replicate.RepeatedTimestampReplaces` says why it must.
- `CronTick.CronStore.Tick`: each SQL statement is one atomic step, and a job whose own SQL edits the cron tables is not modelled.
- `CronTick.CronStore.SaveOutcome`: the status update and the run insert, which the code sends as one batch, are one step, so a failure between the two is not modelled; no lease or window depends on either.
- Forcing and rescheduling of jobs, trimming of run history and restoring of the catalog after a job; none of them touches a lease.
- `CronTick.CronStore.Interfere` is a contract for whatever the other drivers do between two statements; its body does nothing.
- `DeltaRewrite.RewriteDeltaScan`: takes an arbitrary resolver; `DeltaEndToEnd.RewriteSql` gives it the code's own, with the reading of a log as a function of mount and relative path.
- `DeltaResolve.ResolveGuestDir`: the path join of host directory and remainder is left to that log reader, since its treatment of absolute remainders is the library's.
- `SignedHeaders.RequestIsDetermined`: the key derivation and the final signature are not modelled.
- `Percent.PercentDecode`: the lossy conversion of the decoded bytes to text is not modelled.
- Reasons of rejected providers are constructors instead of sentences; native and remote providers are always rejected, as in this version.
- In `Builds`, fields that play no part in set hashes are one opaque field, and a stored record is a value: the aliasing of the caller's dictionary is not modelled. A conflict, which ends the original process, is an answer.
- Sockets, TLS, HTTP framing, object-store transport, environment lookup, file reading, argument parsing, wasm drivers, table rendering, metrics text and help text.
- `UPDATE` and `DELETE` parsing, the `RETURNING` and `ON CONFLICT` probes, `plan_shape.rs`, `window_frame.rs` and publish planning, which would add only easy members or substring probes without an exact meaning.

# A verified model of neo4j-exporter

neo4j-exporter is a Prometheus exporter that probes Neo4j servers. This project models the parts of it where
state, concurrency or text handling make mistakes easy, and proves what they promise.

* **Driver pool and reload** (`ConnectionIdentity`, `PoolSpec`, `Pool`, `PoolProtocol`, `PoolSharing`,
  `SharedDatabase`, `GraceWindow`). The pool is a class
  whose fields are updated in place, with the stale list kept in a real array that is filtered over itself. `PoolProtocol`
  is a state machine whose steps are the stretches of a call between two points at which another thread can run.
  Both use the same specification functions, those of `PoolSpec`.
* **Configuration** (`Schema`, `Secrets`, `ConfigSpec`, `Config`, `ConfigLaws`, `Lookup`, `ListedIdentity`). From the placeholders
  in the text of the file to which target answers a probe.
* **Server** (`Server`, `ServerProtocol`, `ReloadOverlap`). Configuration and pool together, one request at a time and overlapping.
* **One probe** (`Capabilities`, `CapabilityProtocol`, `Bolt`, `ProbeFanOut`, `ErrorMap`, `LostUpdate`). The capability cache and
  the collector goroutines, as state machines over their atomic steps.
* **Text** (`OpenMetrics`, `GoQuote`, `SlowQueries`, `SlowQueryReader`, `Utf8`, `LogText`, `CollapsedText`, `PageBytes`, `PageFields`). What is printed, and what a reader that follows
  OpenMetrics 1.0.0 (section "ABNF") or RFC 3629 (section 4) makes of it.
* **Aggregation** (`Transactions`, `TransactionLaws`, `MapSum`, `Cardinality`). Loops that have to agree with a direct sum or
  stay within a bound, for every order of rows and maps.

`dafny verify dfyconfig.toml` checks everything.

A method that ranges over a Go map picks the next key arbitrarily, so what is proved holds for every order. File system,
environment and clock are parameters (`World`, `now`): each call is given what it would see. Hashes stand for their
preimage, and strings are sequences of Unicode scalar values except in `Utf8`, `LogText`, `CollapsedText` and `PageBytes`, where they are bytes.

## Where code and documentation differ

The model follows the code. The theorems named here are in the table below; where a promise fails on some input, `FailingInputs`
(with `SampleConfig`), `ListedIdentity`, `GraceWindow`, `LostUpdate`, `ReloadOverlap` or `CapabilityProtocol` has one such input.

* The reload documentation (`docs/CONFIGURATION.md:157`) says a removed driver is closed after 30 seconds so that probes
  drain. Time closes nothing: it is closed by the first reload whose clock reading is later than that (`RetiredClosedIff`,
  `OpenPastDeadline`), and
  the clock is read before the lock, so a probe that gets its driver between the two can see it closed earlier than 30 seconds
  after it got it (`WindowSafeIff`).
* `internal/neo4jclient/driver.go:49-52` names URI, user and password as the identity; the auth mode is part of it too, and the separator is
  not escaped (`ListedKeysSafeIff`). The database is not part of it: a shared entry queries the
  database of its first creator while the label is the probed target's (`LabelIsRightIff`, `SecondDatabaseNotRead`).
* Drivers made through `default_target` do not survive a reload (`DefaultTargetDriversDropped`,
  `DroppedByNextReload`), and overlapping reloads can drop what the newer one lists (`DropsCurrentIff`).
* `internal/neo4jclient/capabilities.go:83-84` says a configuration reload invalidates the capability cache. Nothing calls
  `InvalidateCapabilities`; and if something did, a call in progress could undo it (`InvalidationEffectiveIff`, `InvalidationLost`).
* `ProbeResult.Errors` is documented as collector to error. Without a lock it is that exactly when at most one
  collector fails (`RecordingExactIff`).
* `CHANGELOG.md:67` caps index names at 500 distinct values; the code uses up to 501 (`NameLabelsBounded`).
* The query preview is escaped twice (`PreviewExactIff`), and gauge lines use Go's quoting, which OpenMetrics reads
  differently for unprintable characters (`GaugeNamesTransactionIff`).
* `default_target` may name a module that is not defined (`FoundModuleDefinedIff`) and may switch authentication off for hosts that are not local
  (`NoAuthStaysLocalIff`).

## Model

| member | source | states |
|---|---|---|
| `ConnectionIdentity.KeyDeterminesIdentity` | internal/neo4jclient/driver.go:53-61 | As long as only the password may contain the separator, two targets have the same pool key exactly when scheme, address, user, password and auth all agree. |
| `ListedIdentity.ListedKeysSafeIff` | internal/neo4jclient/driver.go:53-61 | On targets a loadable configuration can list, where the scheme never holds the separator: equal keys mean equal connections exactly when at most one of address, user name, password and auth may hold it. |
| `ListedIdentity.TwinsCollide` | internal/neo4jclient/driver.go:59 | For any two of those four fields, a loadable configuration with two listed targets whose different connections have one key. |
| `DriverPool.Pool.Get` | internal/neo4jclient/pool.go:65-82 | A live key gives its entry and changes nothing; a new key adds one fresh entry with this target's settings, no capabilities, and a driver opened for the target's scheme and address with its user and the password read at dialling; each error says which reading of the password or the library failed, and adds nothing. The accounting invariant, and that every driver goes where its key says, are kept. |
| `DriverPool.HeldEntryIsForTarget` | internal/neo4jclient/pool.go:65-82 | Any entry the pool holds for a target, new or old, was opened for the target's own scheme, address, user and authentication, if no separator occurs outside passwords. |
| `DriverPool.Pool.Reconcile` | internal/neo4jclient/pool.go:86-112 | Entries become the old ones restricted to the listed keys; the stale list becomes the not-overdue part of old-plus-retired in order; the overdue part, and only it, is closed, one call each. |
| `DriverPool.Pool.Compact` | internal/neo4jclient/pool.go:102-110 | Filtering the list over its own array leaves the survivors of the list as it was before and closes each other record once: no write clobbers a record still to be read. |
| `DriverPool.Pool.CloseAll` | internal/neo4jclient/pool.go:115-128 | The pool ends empty and every entry it held, live or stale, is closed exactly once more than before. |
| `PoolSpec.CompactionConserves` | internal/neo4jclient/pool.go:102-110 | Kept records and closed entries together are the old list, as multisets. |
| `PoolSharing.SharedConnectionIff` | internal/neo4jclient/pool.go:65-82 | In every run from the empty pool, two lookups with no reconcile and no shutdown between them, but any number of other lookups by any threads, return the same entry exactly when their five identity fields agree. |
| `PoolSharing.SameEntrySameKey` | internal/neo4jclient/pool.go:65-112 | Whatever lies between, reloads and shutdowns included, one entry is only ever returned for one key. |
| `PoolSharing.LiveKeysWereKept` | internal/neo4jclient/pool.go:86-101 | In every interleaving, a live driver made before a locked reconcile has its key in that reconcile's set of kept keys. |
| `SharedDatabase.Serve` | internal/neo4jclient/pool.go:65-82 | Any number of lookups on an empty pool: two return the same entry exactly when their keys are equal, and each entry has the settings of the first request that could make it. |
| `SharedDatabase.LabelIsRightIff` | internal/neo4jclient/query.go:21-27 | A probe queries the database its label names exactly when the first request that could make the shared entry named the same database. |
| `FailingInputs.SecondDatabaseNotRead` | internal/collector/indexes.go:55-58 | A loadable configuration with two listed targets that share an entry and name different databases: for the second one the label names a database that is not queried. |
| `PoolSpec.CompactionPartitions` | internal/neo4jclient/pool.go:103-109 | A record stays exactly when it is not overdue; an entry is closed exactly when some overdue record has it. |
| `PoolSpec.CompactionKeepsOrder` | internal/neo4jclient/pool.go:102-110 | The survivors sit at strictly increasing positions of the old list. |
| `PoolSpec.FreshlyRetiredSurvives` | internal/neo4jclient/pool.go:94-110 | With a non-negative grace period nothing retired by a call is closed by it. |
| `PoolProtocol.EveryDriverInOnePlace` | internal/neo4jclient/pool.go:65-128 | In every reachable state of any interleaving, every driver made is at exactly one place: under one live key, at one stale position, at one position of what one running shutdown still has to close, or at one position of the log of closings. So none is lost and none closed twice. |
| `PoolProtocol.GracePeriodHonoured` | internal/neo4jclient/pool.go:86-112 | In every run a driver is closed only by a shutdown that took it over or more than the grace period after the clock reading that retired it; whoever was handed it no later than that reading has the whole period. |
| `GraceWindow.WindowSafeIff` | internal/neo4jclient/pool.go:94-98 | Over all runs, a driver handed out at time t and retired with clock reading r outlives t plus the grace period exactly when t <= r: the reading is taken before the lock, so a probe in between can lose part of its window. |
| `GraceWindow.ClosedTooSoon` | internal/neo4jclient/pool.go:94-111 | The run that shows it, for every grace period, reading and later hand-out. |
| `GraceWindow.RetiredClosedIff` | internal/neo4jclient/pool.go:86-112 | Over every run without a shutdown, a retired driver ends up closed exactly when some reconcile in between had a clock reading past its deadline. |
| `GraceWindow.OpenPastDeadline` | internal/neo4jclient/pool.go:94-110 | For every clock reading and however late: a run in which the driver retired at that reading is still open. |
| `GraceWindow.OnlyReloadsClose` | internal/neo4jclient/pool.go:86-128 | No run without a reconcile or a shutdown closes any driver. |
| `Capability.Entry.Capabilities` | internal/neo4jclient/capabilities.go:21-81 | A full cache is returned as it is; otherwise the answer of one probe is derived and stored; a failed probe returns nothing and leaves the cache empty. |
| `Capability.DerivedFrom` | internal/neo4jclient/capabilities.go:32-75 | Version and edition come from the first row of the first query, the APOC version from that of the second, each flag from its own procedure name, the extended flag from the four monitor flags. |
| `CapabilityProtocol.EveryAnswerWasProbed` | internal/neo4jclient/capabilities.go:21-81 | In every interleaving each success is the outcome of one complete probe and its extended flag is the disjunction of the four monitor flags. |
| `CapabilityProtocol.CacheStaysFull` | internal/neo4jclient/capabilities.go:21-89 | In every run without an invalidation a full cache stays full, and without a stored success the cache is what it was, whatever probes failed. |
| `CapabilityProtocol.SerialProbesOncePerInvalidation` | internal/neo4jclient/capabilities.go:10-11 | If calls do not overlap, the server is probed successfully at most once, and once more per invalidation. |
| `CapabilityProtocol.OverlappingCallsBothProbe` | internal/neo4jclient/capabilities.go:22-28 | Overlapping first calls both probe and may return different answers, so the "once" of the comment needs the absence of overlap. |
| `CapabilityProtocol.InvalidationEffectiveIff` | internal/neo4jclient/capabilities.go:83-89 | After an invalidation every later answer comes from a probe finished after it, in all continuations, exactly when no call has been answered without having stored. |
| `CapabilityProtocol.InvalidationLost` | internal/neo4jclient/capabilities.go:77-88 | A reachable state in which an invalidation does not take effect: a first call that has been answered but has not stored. |
| `ProbeFanOut.SelectCollectors` | internal/probe/orchestrator.go:129-165 | Each once: never a collector that is absent or disabled, always one that is enabled, always one on `auto` that is not APOC; `jolokia` exactly when the target has a Jolokia block; each APOC collector on `auto` exactly when its own capability is there. |
| `ProbeFanOut.SelectionIsUnique` | internal/probe/orchestrator.go:131-163 | That promise leaves no choice: toggles, capabilities and target decide the selection. |
| `ProbeFanOut.SelectedHaveGauges` | internal/probe/orchestrator.go:88-122 | At the join exactly the collectors so promised have a success value and a duration. |
| `ProbeFanOut.DurationIsMeasured` | internal/probe/orchestrator.go:105-109 | The duration shown for a collector is the one figure its goroutine measured. |
| `ProbeFanOut.AutoSelectedIffListed` | internal/probe/orchestrator.go:136-156 | In every interleaving of the cache, one probe of the entry decides for all APOC collectors on `auto`: each runs exactly when that probe listed its procedure; without an answer none runs. |
| `BoltProbe.Collect` | internal/collector/bolt.go:18-46 | The flag ends up exactly when nil is returned; the two durations are set exactly when their call succeeded. |
| `ProbeFanOut.JoinedGauges` | internal/probe/orchestrator.go:88-122 | In every interleaving, at the join every selected collector has one success value, 1 exactly if it returned nil, and a duration, no other collector has any; up is 1 exactly if bolt was selected and succeeded. |
| `ErrorMap.AtomicRecordingIsExact` | internal/probe/orchestrator.go:175-180 | If recording an error were one step, the map would hold exactly the failing collectors with their errors. |
| `ErrorMap.UnlockedRecordingKeepsSome` | internal/probe/orchestrator.go:105-116 | As it is (check, allocate, load, write; no lock), in every interleaving only real failures are recorded, and the map is empty exactly if nothing failed. |
| `LostUpdate.RecordingExactIff` | internal/probe/orchestrator.go:175-180 | The map is exact in all interleavings exactly when at most one selected collector fails. |
| `LostUpdate.Race` | internal/probe/orchestrator.go:110-116 | For any two failing collectors, a run after which one of the errors is gone. |
| `Config.Config.ApplyDefaults` | internal/config/config.go:164-204 | The three loops over modules, targets and default target amount to `Defaulted`. |
| `Config.Config.Validate` | internal/config/config.go:218-271 | Nil is returned exactly for accepted configurations, which then have every target's module written in; the errors are those of the first failing check, in the order of the checks. |
| `Config.Config.Find` | internal/config/config.go:276-301 | The two searches and the fallback compute `FindTarget`. |
| `Config.LoadFile` | internal/config/config.go:143-162 | Loading succeeds exactly when reading, expanding, parsing and validating do, with the defaulted and completed value. |
| `Config.Manager.Reload` | internal/config/config.go:336-349 | A successful load replaces the active configuration, any failure leaves the very same object active. |
| `ConfigLaws.AcceptedIff` | internal/config/config.go:218-271 | The ordered checks accept exactly the well-formed configurations: default module defined, collectors known, names distinct and non-empty, modules defined, Bolt and Jolokia settings complete with exactly one Bolt password source. |
| `ConfigLaws.DefaultsIdempotent` | internal/config/config.go:164-216 | Applying defaults twice is applying them once. |
| `ConfigLaws.DefaultValues` | internal/config/config.go:164-216 | Each setting that is absent becomes its documented value, each that is present stays, field by field for globals, modules and targets. |
| `ConfigLaws.AddressNeverMissing` | internal/config/config.go:247-249 | After defaults no configuration can be refused for a missing address: that check is unreachable. |
| `ConfigLaws.LoadedIsFixpoint` | internal/config/config.go:157-161 | A loaded configuration is well-formed and unchanged by defaulting and validating it again. |
| `ConfigLaws.LoadableIff` | internal/config/config.go:143-162 | With some parser, a file can be loaded as a configuration exactly when that is well-formed and in normal form. |
| `ConfigLaws.LastGoodLoadWins` | internal/config/config.go:334-349 | Over any sequence of reloads the active configuration is the one of the last reload that could load one, or the initial one. |
| `ConfigLaws.AlwaysSound` | internal/config/config.go:334-349 | Whatever the file turns into between reloads, the active configuration is well-formed and in normal form. |
| `ConfigLaws.ListedPasswords` | internal/config/auth.go:49-82 | For listed targets both password lookups fail in one way only, an unreadable file; the Bolt one exactly when authentication is on, no password is written and the file cannot be read. |
| `Schema.BoltPasswordIs` | internal/config/auth.go:49-64 | No password without authentication, else the setting, else the trimmed file, else an error. |
| `Schema.TrimRightExact` | internal/config/auth.go:61 | What is cut off a secret file is exactly the blanks, tabs and line ends it ends in. |
| `Lookup.LookupTotalIff` | internal/config/config.go:276-301 | Nothing is found exactly when no listed target answers and there is no default target. |
| `Lookup.FoundByName` | internal/config/config.go:277-281 | Every listed target is found by its name. |
| `Lookup.FoundByAddressIff` | internal/config/config.go:276-290 | A listed target is found by its address exactly when that is also its name, or no name and no earlier address equals it. |
| `FailingInputs.ShadowedByAddress` | internal/config/config.go:286-290 | A loadable configuration in which a listed target is not found by its address. |
| `Lookup.PortMayBeOmitted` | internal/config/config.go:282-285 | A host without port and with the Bolt port are found alike when neither is a target name. |
| `Lookup.FoundIsComplete` | internal/config/config.go:206-216 | Any found target has a port, a known scheme, a database and a module name. |
| `Lookup.FallbackIsDefaultTarget` | internal/config/config.go:291-299 | A query nothing listed answers gets the default target's own Bolt and Jolokia settings, at the query's address, with the default module if it names none. |
| `Lookup.FoundPassword` | internal/config/auth.go:49-64 | The Bolt password of any found target is missing only because its file cannot be read. |
| `Lookup.NoAuthStaysLocalIff` | internal/config/config.go:369-375 | Every found target without authentication is local exactly when the default target does not itself switch authentication off. |
| `FailingInputs.RemoteWithoutAuth` | internal/config/config.go:264-267 | A loadable configuration and a query that yields a remote target without authentication. |
| `Lookup.FoundModuleDefinedIff` | internal/config/config.go:264-270 | Every found target names a defined module exactly when the default target does; validation does not check that. |
| `FailingInputs.UndefinedModule` | internal/config/config.go:264-270 | The same query yields a target whose module is not defined. |
| `Server.Server.HandleReload` | cmd/neo4j-exporter/main.go:96-109 | A failed reload changes neither configuration nor pool. After a successful one every live key is that of a target now listed, dropped entries are on the stale list with their deadline, and what was overdue is closed. |
| `Server.Server.HandleProbe` | internal/probe/handler.go:74-90 | A probe gets a driver exactly when a target is found, the module in force is defined, the key can be hashed and the key is live or a driver can be made; each of the errors occurs exactly in its case; the driver is the one live under the target's key. |
| `Server.ProbeErrors` | internal/probe/handler.go:80-90 | Under an active configuration: the module in force is the one asked for or else the target's; a listed target never lacks it; the only password error is an unreadable file. |
| `Server.KeptIff` | internal/neo4jclient/pool.go:87-101 | With no separator outside passwords, a key survives a reload exactly when some listed target then has the identity it was made from. |
| `Server.DefaultTargetDriversDropped` | cmd/neo4j-exporter/main.go:102-107 | A driver made through the default target is dropped by the next successful reload unless the new list has its address. |
| `FailingInputs.DroppedByNextReload` | cmd/neo4j-exporter/main.go:107 | A loadable configuration and a query whose driver is dropped by a reload that changes nothing. |
| `ServerProtocol.LiveKeysHaveAnOrigin` | cmd/neo4j-exporter/main.go:102-128 | In every interleaving of reloads and probes each live key is what some probe hashes under a well-formed configuration that has been active. |
| `ServerProtocol.SurvivorsAreListed` | cmd/neo4j-exporter/main.go:107 | In every interleaving a driver that outlives a reconcile has the key of a target listed in the very configuration the reconciling thread had read. |
| `ReloadOverlap.DropsCurrentIff` | cmd/neo4j-exporter/main.go:102-107 | In every interleaving a reconcile drops a driver the current configuration lists exactly when a live key is listed there and not in the configuration the thread had read; never if that was the current one and passwords are as they were. |
| `ReloadOverlap.OverlapDropsCurrent` | cmd/neo4j-exporter/main.go:102-128 | Two overlapping reloads of which the older drops a driver that the newer has just listed. |
| `Secrets.ExpandSecrets` | internal/config/auth.go:23-44 | The two scans give the expansion defined on factorisations, or the leftmost failure. |
| `Secrets.PlaceholderIs` | internal/config/auth.go:19-20 | The two patterns written out: capitals, digits and underscores not beginning with a digit; any path without a brace. |
| `Secrets.FactorisationDecides` | internal/config/auth.go:24-39 | The scanner works on that factorisation, whichever way it was found. |
| `Secrets.PlainTextUnchanged` | internal/config/auth.go:23-44 | Text without placeholders passes unchanged. |
| `Secrets.ExpansionIs` | internal/config/auth.go:23-44 | For any text, if all files can be read, the result is the leftmost factorisation of what the environment pass leaves, with every hole filled. |
| `Secrets.FileTextInPlace` | internal/config/auth.go:29-39 | In any surrounding text the trimmed content of a file stands verbatim where its placeholder stood: it is never scanned again. |
| `Secrets.EnvTextInPlace` | internal/config/auth.go:24-29 | In any surrounding text the second pass reads an environment value verbatim where its placeholder stood, so a value may form file placeholders. |
| `Secrets.ExpansionFailsIff` | internal/config/auth.go:28-43 | The expansion fails exactly when a file placeholder of the text after the environment pass is unreadable, and reports the leftmost. |
| `OpenMetrics.ThreePassesAreOne` | internal/probe/slowqueries.go:194-199 | The three replacements do not interfere: together they escape each character once. |
| `OpenMetrics.JoinLabels` | internal/probe/slowqueries.go:174-192 | The builder loop writes exactly the labels with a value, comma-separated. |
| `OpenMetrics.NonEmptyKeepsOrder` | internal/probe/slowqueries.go:177-180 | The labels written are exactly those with a value, at increasing positions of the list. |
| `OpenMetrics.LabelSetReadsBack` | internal/probe/slowqueries.go:174-192 | Reading the written text by the label grammar gives the labels with a value, in order, for any values. |
| `GoQuote.QuotedReadsBackIff` | internal/probe/slowqueries.go:142-143 | A text written with `%q` reads back as itself exactly when every character is printable or a newline. |
| `SlowQueries.WritePage` | internal/probe/slowqueries.go:120-170 | The page is the six family blocks in order and the end mark, each line with its newline. |
| `SlowQueryReader.PageFraming` | internal/probe/slowqueries.go:120-170 | The i-th sample of each of the six families, found at its place among the lines of the text, reads back as what row i says. |
| `PageFields.InfoOnPage` | internal/probe/slowqueries.go:120-138 | Line 3 + i is the info line of row i: for each of its six keys a reader finds a label exactly when the row's own field is not empty, with that text, and no other key but the preview. |
| `PageFields.ElapsedOnPage` | internal/probe/slowqueries.go:139-144 | Under its name stands row i's elapsed time, for row i's transaction. |
| `PageFields.CpuOnPage` | internal/probe/slowqueries.go:145-150 | Under its name stands row i's CPU time. |
| `PageFields.WaitOnPage` | internal/probe/slowqueries.go:151-156 | Under its name stands row i's waiting time. |
| `PageFields.PageFaultsOnPage` | internal/probe/slowqueries.go:157-162 | Under its name stands row i's number of page faults, 0 for nil. |
| `PageFields.AllocatedOnPage` | internal/probe/slowqueries.go:163-168 | Under its name stands row i's allocated bytes, 0 for nil. |
| `SlowQueryReader.PageLength` | internal/probe/slowqueries.go:120-170 | For n rows, none included, the text is 13 + 6n lines ending in `# EOF`. |
| `PageBytes.PageValidIff` | internal/probe/slowqueries.go:120-170 | The bytes sent are valid UTF-8 exactly when query texts are hidden or no row's collapsed query is cut inside a code point. |
| `PageBytes.PageIsEncoded` | internal/probe/slowqueries.go:120-170 | With the previews' texts known, the bytes sent are the UTF-8 encoding of the page as written line by line. |
| `SlowQueryReader.PreviewExactIff` | internal/probe/slowqueries.go:133-135 | The preview is escaped twice: on the info line a reader finds its once-escaped text, which is the preview exactly when nothing in it needed escaping. |
| `FailingInputs.PreviewWithBackslash` | internal/probe/slowqueries.go:133-135 | A query of one quote, which a reader of the info line finds with a backslash. |
| `SlowQueryReader.GaugeNamesTransactionIff` | internal/probe/slowqueries.go:141-168 | A gauge line names its transaction to a reader exactly when `%q` and OpenMetrics write every character of the name alike. |
| `FailingInputs.MisreadTransaction` | internal/probe/slowqueries.go:147-148 | A transaction id that is read back differently. |
| `Utf8.TrimUTF8` | internal/jolokiaclient/client.go:114-122 | Short text is returned as it is; otherwise the cut is at the last byte position within the limit that is no continuation byte, or at 0. |
| `Utf8.TrimIsLongestWhole` | internal/jolokiaclient/client.go:118-121 | On valid text that is the longest prefix of whole code points within the limit, valid with its ellipsis, at most three bytes short. |
| `LogText.TruncateValidIff` | internal/probe/slowqueries.go:209-216 | The log form of valid text is valid exactly when the cut falls inside no code point of the collapsed text. |
| `CollapsedText.CollapseIsCollapsed` | internal/probe/slowqueries.go:210-211 | For any bytes: the collapsed text has the same solid runes in the same order, nothing before the first or after the last, and between two of them a single blank exactly when there was white space. |
| `CollapsedText.TidyUnchanged` | internal/probe/slowqueries.go:210-211 | A text already of that form is left as it is. |
| `CollapsedText.CollapseTwice` | internal/probe/slowqueries.go:210-211 | Collapsing twice is collapsing once. |
| `LogText.TruncatedIs` | internal/probe/slowqueries.go:212-215 | A collapsed text within the limit is kept, a longer one is its first bytes and the ellipsis. |
| `FailingInputs.CutInsideLetter` | internal/probe/slowqueries.go:215 | A valid text whose cut is not valid. |
| `LogText.TruncatedIsOneLine` | internal/probe/slowqueries.go:209-216 | The log form of any text, valid or not, is a single line. |
| `Transactions.Collect` | internal/collector/transactions.go:103-142 | In place over shared accumulators, the gauges end as the fold of the rows per named database, and the active gauge as the last row per label pair. |
| `TransactionLaws.TwoLevelsAreOne` | internal/collector/transactions.go:22-40 | For any order of the groups, each quantity equals the direct sum over the database's transactions with nulls as zero, and the longest time is their maximum. |
| `TransactionLaws.Columns` | internal/collector/transactions.go:32-39 | Which column each quantity is, nulls counting as zero. |
| `TransactionLaws.GaugedIff` | internal/collector/transactions.go:105-110 | A named database has gauges exactly when it has a transaction. |
| `TransactionLaws.ActiveIsCount` | internal/collector/transactions.go:111 | For a named status the active gauge is the number of transactions. |
| `TransactionLaws.NamelessStatusIff` | internal/collector/transactions.go:107-111 | Null and empty status share a label: that gauge counts both exactly when one of them is absent. |
| `FailingInputs.NamelessStatusLost` | internal/collector/transactions.go:107-111 | Two transactions of which the gauge shows one. |
| `Cardinality.CollectIndexes` | internal/collector/indexes.go:49-84 | The histogram counts every row and sums to the row count; each per-index gauge shows the last value set per label pair. |
| `Cardinality.ShownIsLast` | internal/collector/indexes.go:67-80 | Each series shows the column of its gauge from the last row with its labels that sets it; the population only while POPULATING. |
| `Cardinality.HistogramCounts` | internal/collector/indexes.go:62-65 | Under one state, type and entity the histogram is the number of rows that have them. |
| `Cardinality.CapIsDefaulted` | internal/collector/indexes.go:49-52 | The cap is 500 unless set. |
| `Cardinality.NameLabelsBounded` | internal/collector/indexes.go:67-70 | At most cap + 1 name labels are used; more than the cap exactly when there are more rows, the first cap names are distinct and none is `<truncated>`. |
| `Cardinality.NamesAreThoseShown` | internal/collector/indexes.go:67-74 | Those labels are the ones that have a read-count series. |
| `Cardinality.UnderCapExact` | internal/collector/indexes.go:67-80 | With distinct names each index under the cap keeps its own value. |
| `FailingInputs.OneLabelTooMany` | internal/collector/indexes.go:67-70 | For every cap, indexes that put cap + 1 labels in use. |
| `Cardinality.EmitMapBounded` | internal/collector/apoc_meta.go:76-87 | In any order of the map: min(size, cap) keys with their values, and beyond the cap one further key under the common label. |
| `Cardinality.SeriesBounded` | internal/collector/apoc_meta.go:76-87 | Exactly min(size, cap + 1) series unless a shown key is itself `<truncated>`; the common one exists exactly beyond the cap and carries the value of a key not shown. |
| `FailingInputs.SeriesMerged` | internal/collector/apoc_meta.go:79-83 | A map with a key `<truncated>` that loses a series. |
| `Cardinality.NothingLostIff` | internal/collector/apoc_meta.go:76-87 | Positive counts still add up exactly when at most one key exceeds the cap. |
| `FailingInputs.CountLost` | internal/collector/apoc_meta.go:79-81 | Three keys under a cap of one: the sum shrinks. |

## Left out

- HTTP serving, flags, logging, signal delivery, and the timeouts of probes and collectors: input and output only.
- The Neo4j driver, Bolt, Jolokia and TLS: calls into other code, whose outcomes are parameters. A driver is closed when `Close` is called; its error is ignored, as in the code.
- YAML and the regular-expression engine: loading starts from a parser given as a function, and the two fixed patterns are written out as a scanner. A file name or path is compared as text.
- SHA-256 and SHA-1: a pool key is identified with the text that is hashed, and the query hash is a function of the query.
- File modes: which password files `checkSecretFileMode` accepts is part of the world a call sees.
- Prometheus registries: a gauge vector is a map from labels to a number; the constant database label of the index and metadata gauges is not carried along.
- DriverPool.NewDriver: the three pool settings and the user agent are not modelled, because they are handed to the library and never read again.
- The early return of a probe whose driver cannot be made: `HandleProbe` gives the error, the one gauge it sets is not modelled.
- The server, databases, constraints, settings, APOC store/tx/ids/kernel and Jolokia collectors, and the plain-text slow-query page: field-by-field copying.
- ErrorMap.UnlockedRecordingKeepsSome: does not model what Go leaves undefined in a data race on a map (a crash, a torn write), because the source gives no meaning to it; the steps are the reads and writes of the code in order.
- CapabilityProtocol.EveryAnswerWasProbed: the three queries of a probe are one step, because nothing between them touches shared state.
- SlowQueries.WritePage: printed numbers are any text without blanks or newlines, and the cut query text is a function of the query, because number formatting is the library's and the cut works on bytes; `PageBytes` has the page with the real cut.
- Transactions.Collect: integers in place of floating point, because rounding is not the point; `GroupRow` and `Answers` are what the grouping query is taken to return.
- Cardinality.CollectIndexes: integers in place of floating point, as above; the database label is the same on every series and is modelled in `SharedDatabase` only.
- BoltProbe.Collect: durations are parameters; the registration of the two gauges is not modelled.

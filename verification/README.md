# OpenSnow: a verified model

This Dafny project models the stateful and lexical cores of the OpenSnow data warehouse and proves what
they promise: over every input, every run, or every interleaving.

Verify everything with `dafny verify dfyconfig.toml`.

## What is modelled

- **The audit log** (`AuditEncoding`, `AuditChain`, `AuditCatalog`, `WarehouseGate`). One table interleaves a hash chain
  per account. The bytes hashed for a row are decoded again, so they determine its fields. The verifier's
  loop is proved to find the first row that is unlinked or wrongly hashed, and from that follow head
  commitment, where an edit, a replacement or a deletion shows (and exactly when it does not), and that
  interleaved appends keep every chain valid. The enterprise warehouse gate writes to the same log and
  keeps a quota; who it lets in, why it denies, and where an account's warehouses come from is told on the fields of
  the entitlement. SHA-256 is an arbitrary function; a law that needs freedom from collisions asks for it
  only on the byte strings hashed in the rows at hand.
- **The SQL front end** (`Text`, `Literals`, `SqlSplit`, `SqlRegions`, `SqlCommands`, `SqlReading`, `SqlTools`,
  `SqlDispatch`, `WarehouseCommands`, `WarehouseReading`, `ColonPath`, `Qualify`). The hand-written lexers are loops proved against specifications without
  lookahead or backtracking: an automaton for splitting, a one-pass function for colon paths, a list of
  occurrences for QUALIFY. The laws (re-splitting, conservation of text, normal form, termination of
  rewriting) are about those specifications. What each of them takes for a literal, a comment, a word or a name is
  proved against a second description, by searching and by positions in the text, that shares nothing with the first.
  The agent's SQL printers are undone by the engine's parsers.
- **Materialized views** (`WarehousePaths`, `MaterializedViews`, `ViewCommands`, `ViewAgreement`, `ViewRuns`,
  `ViewStarts`).
  Catalog rows, Parquet files and session registrations, through creates, refreshes, drops, table commands and
  restarts. Three things decide whether they agree: what key the session makes of a name (DataFusion folds case
  and reads quotes and a schema in front, so names can share a key), which files a registered source covers (a
  path, a URL, a directory or a pattern), and where a path leads from the working directory of the process (the
  file system goes up at two dots). The first two are DataFusion's and parameters here; the third is computed.
  For every command the exact condition under which it keeps the agreement is proved, and from them that a run
  agrees throughout exactly when each command meets its own. The same is done for the stores from which a
  server can start at all.
- **The engine worker** (`EngineHandle`). A state machine over callers, a channel of 64 and one worker;
  every interleaving answers as a sequential run of the messages in the order the channel took them. The
  worker's methods are proved to take the steps of that state machine.
- **The sealed secret store** (`SealedPayload`, `KeyRotation`, `SecretStore`, `SecretCalls`, `SecretMeaning`,
  `SecretOverlap`). A growing key ring, two payload formats, an active/revoked row machine and a bulk re-seal loop refine a plain map from handles
  to secrets. With rotations and re-sealings taken apart into their steps, exactly when an interleaving still
  does. Encryption is an ideal AEAD (section 2 of RFC 5116): decryption under the same key, nonce and
  associated data inverts encryption, and nothing else is asked of it.
- **OIDC login transactions** (`OidcLogin`, `OidcOverlap`). With atomic calls each state completes at most
  once, and the session matches its own start (section 3.1.3.7 of OpenID Connect Core 1.0, section 4.6 of
  RFC 7636). With completions taken apart into read, check and mark, exactly when a second one succeeds.
- **The TPC-H generator** (`TpchRandom`, `TpchPartsupp`, `TpchOrders`). Which parts have four different
  suppliers, and how orders and line items fit together (section 4.2.3 of the TPC-H specification).
  Sums of prices are over the reals.

A class or a method stands where the program changes state in place or loops; it is proved against a
function of the old state, and the laws are lemmas about that function. External operations (digest,
encryption, query evaluation, JSON, random tokens) are parameters.

## Where the code and its documentation differ

The model follows the code.

- `append_audit_event` is documented to make any update or deletion of a row detectable
  (`crates/opensnow-catalog/src/lib.rs:1772-1773`). Deleting rows is noticed exactly when rows remain on
  both sides (`DeletionIsNoticedIff`), and replacing the newest row by one that is linked and hashed is
  not noticed (`ReplacementIsNoticedIff`): the head hash has to be kept elsewhere, and then it commits to
  the whole history (`HeadCommitment`).
- An append behind a legacy row that follows hashed rows links to the empty hash and makes the chain
  invalid (`AppendKeepsValidIff`, `LegacyBehindHashed`).
- The partsupp formula repeats suppliers. At whole scale factors all parts have four different suppliers
  only from 80 on (240 when divisible by three), and at every scale factor below 0.11 some part repeats
  one (`WholeScaleSuppliersDifferIff`, `SmallScaleSuppliersRepeat`), so part and supplier are not the key
  that TPC-H makes them.
- A line item's part and supplier are drawn independently, so that the pair need not be in the part-supplier
  table; it is exactly when the part's stride reaches the supplier (`LineIsListedIff`), and every part leaves
  some supplier out (`SomeSupplierIsUnlisted`).
- A materialized view named AS can be printed by the tool and is not read back (`ViewToolRoundTrip`).
- Views whose names share a key share a registration: creating `v` beside `V` takes the registration of `V`
  away, and a restart takes that of `v` (`CreateViewAgreesIff`, `FoldedNamesShareRegistration`).
- DROP MATERIALIZED VIEW of a name that is no view deregisters before it fails. It leaves the stores unchanged
  exactly when nothing is registered under the name's key (`RefusedDropUnchangedIff`), and in agreement exactly
  when no view has that key (`DropViewAgreesIff`); `public.v`, `V` and `"v"` break it (`RefusedDropTakesRegistration`).
- CREATE TABLE AS and DROP TABLE of a name with a view's key take the view's registration away, and DROP TABLE
  pastes any word into a path, which can lead to a view's file (`CreateTableAsAgreesIff`, `DropTableAgreesIff`,
  `DropTableOfPathDeletesView`), also by climbing out of the working directory under which the root is relative
  (`ClimbingDropDeletesView`).
- A view's file registered by its URL is read under a second key, which stays behind on a missing file when the
  view is dropped (`RegisterAgreesIff`, `UrlRegistrationOutlivesView`).
- A table file whose stem has a view's key keeps the view from being registered at the start (`RestartAgreesIff`).
- CREATE TABLE AS replaces any registration of its name's key, so tables `A` and `a` of one key are both written,
  and then no start comes up (`ApplyCanStartIff`, `FoldedTablesStopStart`).
- The colon of a cast is taken for a path when the text before it ends in a name that has no path yet: `x::int`
  becomes `get_path(x, ''):int`, `a:b::int` keeps its cast, and `a:b:c::int` loses it (`CastSurvivesIff`,
  `CastsOfColumnAndPath`, `CastOfSecondPathIsLost`).
- Re-sealing reads the secret and writes it back under two locks. A rotation in between is answered with success
  and undone exactly when the handle is still active at the write and the values differ (`ResealLosesIff`,
  `RotationInBetweenIsLost`). A rotation that a revocation overtakes succeeds without storing anything, which only
  the state in its answer shows (`AnswerTellsIfStored`).
- A completion checks that its login is pending before it takes the lock again to mark it, so overlapping
  completions of one login both succeed (`OverlappingAttemptsComplete`), and only overlapping ones
  (`SecondCompletionHadRead`). It does not look at whether the connection is still enabled
  (`EnabledIsNotRechecked`).
- The hexadecimal reader also takes upper-case digits and a plus sign, which no writer prints: a text that
  decodes is what would be printed exactly when it holds lower-case digits only (`ReprintsIff`, `OtherSpellings`).

## Model

| member | source | states |
|---|---|---|
| AuditEncoding.Hasher.FeedField | crates/opensnow-catalog/src/lib.rs:345-348 | feeding a field appends its 64-bit little-endian length and its bytes |
| AuditEncoding.ComputeAuditEntryHash | crates/opensnow-catalog/src/lib.rs:318-342 | the step-by-step hashing digests tag, previous hash, account, tagged optional organization and event, in this order |
| AuditEncoding.EncodingRoundTrip | crates/opensnow-catalog/src/lib.rs:311-342 | a decoder inverts the length-prefixed encoding, in both directions, for all fields shorter than 2^64 |
| AuditEncoding.EncodingIsInjective | crates/opensnow-catalog/src/lib.rs:315-317 | the bytes hashed determine previous hash, account, organization and event |
| AuditEncoding.FieldIs | crates/opensnow-catalog/src/lib.rs:345-348 | a field is its length as eight bytes, the lowest first, and then its bytes |
| AuditEncoding.LayoutIs | crates/opensnow-catalog/src/lib.rs:318-342 | the bytes are the text opensnow-audit-chain/v1, then previous hash, account, organization behind a byte 1 (or a byte 0 alone) and event |
| AuditChain.VerifyRows | crates/opensnow-catalog/src/lib.rs:1828-1875 | the verification loop, with its two counters and expected hash, computes the verdict defined row by row |
| AuditChain.VerdictIs | crates/opensnow-catalog/src/lib.rs:1803-1813 | valid exactly when every hashed row is linked and carries its own hash; otherwise the first bad row and its reason are reported and the hashed rows before it counted |
| AuditChain.HeadCommits | crates/opensnow-catalog/src/lib.rs:1828-1866 | chains in order with the same last hash agree row by row, counted from the end |
| AuditChain.HeadCommitment | crates/opensnow-catalog/src/lib.rs:1814-1876 | if two lists verify and their last hashed rows carry the same hash, the hashed rows of the shorter are a suffix of the longer's in organization, event and both hashes |
| AuditChain.HashesAreDistinct | crates/opensnow-catalog/src/lib.rs:1784-1797 | a chain built by appends holds no hash twice |
| AuditChain.EditIsLocated | crates/opensnow-catalog/src/lib.rs:1852-1863 | changing one row's organization or event is reported at that row, with exactly the rows before it verified |
| AuditChain.ReplacementIsNoticedIff | crates/opensnow-catalog/src/lib.rs:1772-1773 | replacing one row goes unnoticed exactly when nothing but its number changed, or it is the newest and is itself linked and hashed |
| AuditChain.DeletionIsNoticedIff | crates/opensnow-catalog/src/lib.rs:1772-1773 | deleting a run of hashed rows is noticed exactly when rows remain on both sides, and is then reported at the first row after it |
| AuditChain.SelectionIsNoticedIff | crates/opensnow-catalog/src/lib.rs:1772-1773 | whatever is left of a chain, with any gaps, repetitions and changes of order, verifies exactly when it is one contiguous stretch; otherwise the first row that does not follow is reported |
| AuditChain.AppendLeavesOthers | crates/opensnow-catalog/src/lib.rs:1784-1791 | an append for one account never changes another's verdict |
| AuditChain.AppendKeepsValidIff | crates/opensnow-catalog/src/lib.rs:1784-1797 | an append leaves its account valid exactly when it was valid and nothing was hashed yet or its newest row is hashed |
| AuditChain.LegacyBehindHashed | crates/opensnow-catalog/src/lib.rs:1784-1797 | a table that verifies and that the next append breaks |
| AuditChain.RunsKeepChainsValid | crates/opensnow-catalog/src/lib.rs:1774-1801 | however appends of any accounts interleave over a legacy table, each account verifies, with its appends counted as verified and its legacy rows as pre-chain |
| AuditCatalog.Catalog.AppendAuditEvent | crates/opensnow-catalog/src/lib.rs:1774-1801 | the new row links to the account's newest row and is hashed, and nothing else changes |
| AuditCatalog.Catalog.VerifyAuditChain | crates/opensnow-catalog/src/lib.rs:1814-1876 | the verdict is about the account's own rows in order |
| AuditCatalog.Catalog.CreateEnterpriseWarehouse | crates/opensnow-catalog/src/lib.rs:968-1021 | the gate counts, decides, inserts the warehouse with its resources and audits in the program's order, with every field of the event, which holds of the entitlement the four ids only: a denial only audits, a taken name changes nothing |
| AuditCatalog.StepCounts | crates/opensnow-auth/src/contract.rs:616-624 | a step adds a warehouse to an account only below the limit of the entitlement presented |
| AuditCatalog.RunKeepsQuotaAndChain | crates/opensnow-catalog/src/lib.rs:926-1021 | over every run an account never holds more than the larger of its initial count and the limit, and its chain stays valid with one verified entry per row written |
| AuditCatalog.LogAccountsForWarehouses | crates/opensnow-catalog/src/lib.rs:968-1021 | over every run the account's Allowed events of the warehouse gate grow by exactly the warehouses it gained and its Denied ones by exactly its refusals, for any serialisation from which action and result can be read back |
| WarehouseGate.GateIs | crates/opensnow-auth/src/contract.rs:616-624 | a warehouse is created exactly for a free name and an entitlement that is active or trialing, has the feature warehouse.activate, is the organization's own and has room; a denial names the first condition that fails |
| WarehouseGate.CountIsOwn | crates/opensnow-catalog/src/lib.rs:926-937 | the gate counts the warehouses of the account and its organization |
| WarehouseGate.DecisionIsLogged | crates/opensnow-catalog/src/lib.rs:985-1021 | each decision adds one row to the account's log, whose event has these fields; a taken name adds none |
| WarehouseGate.GainsAreGranted | crates/opensnow-catalog/src/lib.rs:968-1021 | over every run an account gains exactly as many warehouses as it made entitled requests under names free at their turn |
| WarehouseGate.RunNumbers | crates/opensnow-catalog/src/lib.rs:1774-1801 | over every run the rows keep ascending numbers, one for each row written |
| SqlSplit.CopyLineComment | crates/opensnow-core/src/commands.rs:199-209 | copying a line comment reads what the automaton reads |
| SqlSplit.CopyBlockComment | crates/opensnow-core/src/commands.rs:211-222 | copying a block comment reads what the automaton reads |
| SqlSplit.SplitSqlStatements | crates/opensnow-core/src/commands.rs:178-245 | the loop with one character of lookahead emits the pieces the lookahead-free automaton separates, which `SqlRegions.SplitIsCutting` describes without it |
| SqlSplit.RejoinResplitIff | crates/opensnow-core/src/commands.rs:178-245 | a list of statements survives joining with newline-semicolon and splitting exactly when its members are trimmed, non-empty, hold no separator and are left finishable |
| SqlSplit.ResplitIsStable | crates/opensnow-core/src/commands.rs:178-245 | split, join, split gives the same list, and each statement re-splits to itself |
| SqlSplit.SplitConservesText | crates/opensnow-core/src/commands.rs:224-243 | apart from whitespace, the statements together are the input without its top-level semicolons |
| SqlSplit.SeparatorsAreExact | crates/opensnow-core/src/commands.rs:184-239 | the list of separators holds exactly the positions at which the automaton, having read what is before, separates |
| SqlRegions.SplitIsCutting | crates/opensnow-core/src/commands.rs:178-245 | the statements are the trimmed, non-blank pieces between the semicolons outside every literal and comment, where a literal reaches to its next quote, a line comment to its newline and a block comment to its first closer, or to the end |
| SqlRegions.LiteralHoldsNoSeparator | crates/opensnow-core/src/commands.rs:224-235 | between single or double quotes nothing separates, and the separators before and behind are as they would be without the literal |
| SqlRegions.LineCommentHoldsNoSeparator | crates/opensnow-core/src/commands.rs:199-209 | nor between two dashes and the end of the line |
| SqlRegions.BlockCommentHoldsNoSeparator | crates/opensnow-core/src/commands.rs:211-222 | nor between a slash and star and the first star and slash behind them |
| SqlRegions.SeparatorsAreUnquoted | crates/opensnow-core/src/commands.rs:184-239 | in a text without comments the separators are exactly the semicolons at which no quote is open |
| Literals.LiteralCloses | crates/opensnow-compat/src/rewriter.rs:62-76 | a literal is open from its quote up to the next one of its kind, whatever stands between |
| SqlCommands.StripLeadingSqlComments | crates/opensnow-core/src/commands.rs:101-128 | the loop terminates and strips whitespace and ended comments, an unended line comment taking all and an unended block comment nothing |
| SqlCommands.StripKeepsSeparators | crates/opensnow-core/src/commands.rs:95-128 | what is stripped is a prefix without separators that ends where the splitter is in its normal state, so both see the same later separators |
| SqlCommands.StripIsIdempotent | crates/opensnow-core/src/commands.rs:101-128 | stripping again changes nothing |
| SqlRegions.StripIsPreamble | crates/opensnow-core/src/commands.rs:101-128 | exactly the whitespace and the ended comments at the start are removed, so that the rest starts with neither |
| SqlCommands.ValidationIsStable | crates/opensnow-core/src/commands.rs:340-366 | an accepted query is one statement without separators, holds the text of the input, and is accepted again unchanged |
| SqlCommands.ValidationIgnoresLeadingBlanks | crates/opensnow-core/src/commands.rs:340-358 | whitespace before a query does not change its validation |
| SqlReading.ValidationIff | crates/opensnow-core/src/commands.rs:340-366 | a query is accepted exactly when it is one statement whose first word, behind one parenthesis and then comments, blanks and parentheses, is SELECT or WITH in any case; that statement is the result |
| SqlCommands.KeywordSequenceEnd | crates/opensnow-core/src/commands.rs:320-338 | the loop over offsets reads the expected keywords as whitespace-separated tokens |
| SqlReading.KeywordsIff | crates/opensnow-core/src/commands.rs:320-338 | the keywords are read exactly when these words, in any case, stand there one after the other between blanks, and the reading ends where the last one does |
| SqlCommands.FindAsClause | crates/opensnow-core/src/commands.rs:264-318 | the scan with doubled quotes finds what the quote toggle finds, and the query starts behind the blanks |
| SqlCommands.FindAsIsLeast | crates/opensnow-core/src/commands.rs:264-318 | the clause found is the least AS, as a word, outside every literal opened after the start |
| SqlReading.FindAsIff | crates/opensnow-core/src/commands.rs:264-318 | the clause found is the first AS, in any case and part of no identifier, outside the literals opened behind the start; its query starts behind the blanks |
| SqlReading.SafeIdentifierIff | crates/opensnow-core/src/commands.rs:130-138 | a safe name has 1 to 128 ASCII letters, digits and underscores, and no digit first |
| SqlReading.ParseCreateViewIs | crates/opensnow-core/src/commands.rs:864-893 | behind the keywords stand the name, the first AS and the query; the first of clause, query and name that is missing or not valid is reported |
| SqlReading.HeaderIsNeeded | crates/opensnow-core/src/commands.rs:864-874 | a text is refused for its keywords exactly when they are not there |
| SqlTools.ViewToolRoundTrip | crates/opensnow-agent/src/warehouse_tools.rs:182-187 | a printed view reaches the view handler, whose parser recovers name and query exactly when the name is not AS; a query that does not validate is refused |
| SqlTools.ParsePrintedView | crates/opensnow-core/src/commands.rs:864-893 | the parser recovers the printed name and the validated query for every safe name other than AS |
| SqlTools.PrintedViewDispatches | crates/opensnow-core/src/commands.rs:15-57 | none of the earlier handlers takes a printed view |
| SqlDispatch.DispatchIs | crates/opensnow-core/src/commands.rs:15-93 | the first matching prefix, in any case, decides which handler takes a statement; CREATE TABLE goes to its handler only with an AS and without the word EXTERNAL |
| SqlDispatch.ContainsKeywordIff | crates/opensnow-core/src/commands.rs:255-262 | a keyword is contained exactly when some whole run of identifier characters is that word, in any case |
| WarehouseCommands.CreateWarehouseText | crates/opensnow-agent/src/warehouse_tools.rs:88-118 | the clause built in a loop is the printed text, or the size's error |
| WarehouseCommands.WarehouseTable.HandleCreateWarehouse | crates/opensnow-core/src/commands.rs:406-503 | the handler's token loop stores what the parser reads, and on every error leaves the catalog unchanged |
| WarehouseCommands.IntegerRoundTrip | crates/opensnow-core/src/commands.rs:170-176 | a printed integer is read back exactly when it fits in 64 bits |
| WarehouseReading.IntegerIff | crates/opensnow-core/src/commands.rs:170-176 | an integer is digits with at most one sign, plus or minus, and within 64 bits; its value is that of its digits |
| WarehouseCommands.SizeIs | crates/opensnow-core/src/commands.rs:160-168 | a size is accepted exactly when it is one of the five in any case, and is stored in small letters |
| WarehouseReading.TokensRun | crates/opensnow-core/src/commands.rs:429-433 | a run without blanks, equals signs, commas and semicolons is one token without the quotes around it |
| WarehouseReading.UnquoteIs | crates/opensnow-core/src/commands.rs:432-432 | single quotes at the ends are taken off, and then double quotes |
| WarehouseReading.OptionsAre | crates/opensnow-core/src/commands.rs:434-480 | options are read from left to right; each sets its own value, or stops the reading for a missing value, an unknown option, a bad size or a bad integer |
| WarehouseReading.RangesAre | crates/opensnow-core/src/commands.rs:483-503 | a warehouse is created only with 0 <= min <= max and no negative suspension time, and the first bound that fails is reported |
| WarehouseReading.ArgumentsAre | crates/opensnow-core/src/commands.rs:409-412 | blanks around the arguments and semicolons behind them are taken off |
| WarehouseReading.WarehouseIs | crates/opensnow-core/src/commands.rs:406-503 | the name comes first, the defaults are small, 0, 4 and 300, and options are read only when the text has the word WITH |
| WarehouseCommands.ParsePrintedWarehouse | crates/opensnow-core/src/commands.rs:406-489 | the parser recovers name, size and integers (defaults small, 0, 4, 300) from the printed text, then checks their ranges |
| WarehouseCommands.WarehouseToolRoundTrip | crates/opensnow-agent/src/warehouse_tools.rs:88-118 | the tool's text reaches the warehouse handler and succeeds in parsing exactly when 0 <= min <= max and suspend >= 0, with the values asked for |
| WarehouseReading.ToolSizeRoundTrip | crates/opensnow-agent/src/warehouse_tools.rs:88-118 | the statement the tool prints creates a warehouse of the size asked for, or a small one |
| ColonPath.RewriteColonPaths | crates/opensnow-compat/src/rewriter.rs:56-112 | the loop that walks back over its own output computes the one-pass function that never does |
| ColonPath.LiteralIsCopied | crates/opensnow-compat/src/rewriter.rs:62-76 | quoted literals are copied unchanged, and the text before and after them is rewritten independently |
| ColonPath.ColonPathBecomesCall | crates/opensnow-compat/src/rewriter.rs:79-105 | outside literals, a dotted name, a colon and a path become the text get_path(name, 'path'), and nothing else changes |
| ColonPath.CallReadsBack | crates/opensnow-compat/src/rewriter.rs:79-105 | reading the call back, the column is its first argument, up to the comma, and the path its second, between the quotes |
| ColonPath.DottedNamesAreRead | crates/opensnow-compat/src/rewriter.rs:79-105 | t.payload:user.name becomes get_path(t.payload, 'user.name') |
| ColonPath.OnePassNormalizes | crates/opensnow-compat/src/rewriter.rs:56-112 | no colon of the output outside literals follows an identifier character, a second pass changes nothing, and exactly the texts in this form are unchanged |
| ColonPath.CastSurvivesIff | crates/opensnow-compat/src/rewriter.rs:79-105 | two colons outside literals survive exactly when a scan of the text before them ends in no name, or in the path behind one; otherwise that name becomes a call with an empty path and one colon is lost |
| ColonPath.CastsOfColumnAndPath | crates/opensnow-compat/src/rewriter.rs:79-105 | the cast of a column is lost, the cast of a colon path is kept |
| ColonPath.CastOfSecondPathIsLost | crates/opensnow-compat/src/rewriter.rs:79-105 | behind a colon path a second colon starts no path, so that a cast behind the next name is lost |
| Qualify.FindKeyword | crates/opensnow-compat/src/rewriter.rs:114-149 | the scan returns the least top-level keyword, or none when there is none |
| Qualify.OccurrencesAreExact | crates/opensnow-compat/src/rewriter.rs:114-149 | the occurrences are exactly the keyword as a word, outside single quotes, at depth at most zero |
| Qualify.KeywordsAreExact | crates/opensnow-compat/src/rewriter.rs:114-149 | the keywords found are the words QUALIFY, in any case, with an even number of quotes before them and no more parentheses opened than closed outside strings |
| Qualify.RewriteIs | crates/opensnow-compat/src/rewriter.rs:36-53 | the text becomes SELECT * FROM (before) AS __q WHERE behind, around its first such keyword, and is unchanged without one |
| Qualify.RewriteRemovesOne | crates/opensnow-compat/src/rewriter.rs:36-53 | one rewriting removes the first top-level occurrence and moves the others by one distance, adding none, whatever parentheses surround them |
| Qualify.RewriteFully | crates/opensnow-compat/src/rewriter.rs:36-53 | rewriting repeatedly terminates with no top-level occurrence left |
| WarehousePaths.ViewFileIs | crates/opensnow-core/src/engine.rs:643-649 | a view's path leads into the views' directory below the root, whatever slashes the root ends in |
| WarehousePaths.StepIs | crates/opensnow-core/src/commands.rs:1055-1060 | a step of a path stays for an empty component and a dot, goes up for two dots, but not above the root, and down for any other name |
| WarehousePaths.UriIs | crates/opensnow-core/src/engine.rs:643-649 | a path of the warehouse is the root without the slashes at its end, one slash, and the relative path without those at its start |
| WarehousePaths.ViewFilesAreDistinct | crates/opensnow-core/src/commands.rs:847-850 | different views have different files |
| WarehousePaths.TableFilesAreNoViews | crates/opensnow-core/src/commands.rs:774-776 | no view shares a file with one that the tables' directory lists |
| WarehousePaths.PathOfTableLeadsToView | crates/opensnow-core/src/commands.rs:1055-1060 | a name that goes up from the tables' directory leads to a view's file |
| WarehousePaths.ClimbingPathLeadsToView | crates/opensnow-core/src/commands.rs:1055-1060 | under a relative root, a name that climbs out of the working directory and comes back by the full path leads to a view's file |
| MaterializedViews.Engine.DeregisterTable | crates/opensnow-core/src/commands.rs:856-857 | the key that the name resolves to is freed; a name without a schema is refused |
| MaterializedViews.Engine.RegisterParquet | crates/opensnow-core/src/engine.rs:502-509 | a source, which may be a path, a URL, a directory or a pattern, is registered under the name's key, and refused when it cannot be read, when the name has no key or when the key is taken |
| MaterializedViews.Engine.MaterializeQueryToParquet | crates/opensnow-core/src/commands.rs:831-862 | a failing or empty query changes nothing; otherwise the file is replaced and registered anew under the name's key |
| MaterializedViews.Engine.HandleCreateMaterializedView | crates/opensnow-core/src/commands.rs:864-931 | parsing, duplicate check, materialization and catalog row in the program's order, with the three stores after each outcome |
| MaterializedViews.Engine.HandleRefreshMaterializedView | crates/opensnow-core/src/commands.rs:933-984 | the stored SQL of the view of exactly this name is materialized again, or nothing changes |
| MaterializedViews.Engine.HandleDropMaterializedView | crates/opensnow-core/src/commands.rs:986-1046 | the key of the name read is freed; then file and row of the view of exactly this name go, or the drop is refused |
| MaterializedViews.Engine.HandleCtas | crates/opensnow-core/src/commands.rs:750-806 | a table's file is written and registered under the name's key, replacing what had it; an empty answer changes nothing |
| MaterializedViews.Engine.HandleDropTable | crates/opensnow-core/src/commands.rs:1048-1060 | any word without its quotes is deregistered and pasted into the path of the file to remove |
| MaterializedViews.Engine.RegisterWarehouseTables | crates/opensnow-cli/src/main.rs:722-742 | the files of the tables' directory are registered under their stems until one is refused |
| MaterializedViews.Engine.RegisterMaterializedViews | crates/opensnow-core/src/engine.rs:472-500 | the loop over the listing registers every view whose file is there and whose key is free, passing over the others |
| MaterializedViews.ViewNameRoundTrip | crates/opensnow-agent/src/warehouse_tools.rs:198-217 | the statements the refresh and drop tools print reach their handlers, which read the name back |
| MaterializedViews.NameIsReadAmong | crates/opensnow-core/src/commands.rs:936-945 | the name is read with any blanks around it and any semicolons behind it |
| MaterializedViews.NoNameIsRead | crates/opensnow-core/src/commands.rs:936-945 | blanks and semicolons alone are no name |
| ViewCommands.CreateViewIs | crates/opensnow-core/src/commands.rs:864-931 | what a create answers and leaves in each of the three stores, for every outcome of parsing, lookup, query and registration |
| ViewCommands.RefreshViewIs | crates/opensnow-core/src/commands.rs:933-984 | the same for a refresh, which runs the stored SQL of exactly the name it reads |
| ViewCommands.DropViewIs | crates/opensnow-core/src/commands.rs:986-1046 | a drop frees the key of the name it reads, and only for a view of exactly that name removes file and row |
| ViewCommands.ParseCreateTableIs | crates/opensnow-core/src/commands.rs:750-760 | a table is defined like a view, but its name is looked at before its query |
| ViewCommands.CreateTableIs | crates/opensnow-core/src/commands.rs:750-806 | what CREATE TABLE AS answers and leaves in each store; an empty answer changes nothing and is no error |
| ViewCommands.DropTableIs | crates/opensnow-core/src/commands.rs:1048-1060 | DROP TABLE frees the key of the word it was given and removes the file at root/opensnow/public/word.parquet |
| ViewCommands.RegisterIs | crates/opensnow-core/src/engine.rs:502-509 | a source is registered when it can be read and the name has a key that is free; the first that fails is reported |
| ViewCommands.RegisterViewIs | crates/opensnow-core/src/engine.rs:472-500 | a view is brought back exactly when its file is there, can be read, and its key is free |
| ViewCommands.WithoutQuotesAppends | crates/opensnow-core/src/commands.rs:1049-1049 | taking the quotes out works piece by piece and leaves no quote |
| ViewCommands.TableArgumentIs | crates/opensnow-core/src/commands.rs:77-92 | the name is the fifth word behind IF EXISTS in any case, and the third otherwise |
| ViewAgreement.ViewIsQueryable | crates/opensnow-core/src/engine.rs:468-500 | in agreeing stores, querying a view by any name of its key reads its own file alone, with the answer of its last create or refresh |
| ViewAgreement.KeysAreDistinct | crates/opensnow-core/src/commands.rs:856-859 | in agreeing stores no two views share a key |
| ViewAgreement.CreateViewAgreesIff | crates/opensnow-core/src/commands.rs:864-931 | a create that writes keeps the agreement exactly when its name has a key that no view has, its path is read as just its file, and no source under another key covers that file; any other changes nothing |
| ViewAgreement.RefreshViewAgrees | crates/opensnow-core/src/commands.rs:933-984 | a refresh always keeps the agreement, with the stored SQL's answer as the view's data |
| ViewAgreement.DropViewAgreesIff | crates/opensnow-core/src/commands.rs:986-1046 | a dropped name has neither row nor file, no registration reads its file any more, and the others are kept; a refused drop keeps the agreement exactly when no view has the key of the name read |
| ViewAgreement.RefusedDropUnchangedIff | crates/opensnow-core/src/commands.rs:1001-1026 | a refused drop changes nothing exactly when it reads no name, or one without a key, or one whose key is free |
| ViewAgreement.CreateTableAsAgreesIff | crates/opensnow-core/src/commands.rs:750-806 | a CREATE TABLE AS that writes keeps the agreement exactly when no view has its name's key and the path it registers covers no view's file |
| ViewAgreement.DropTableAgreesIff | crates/opensnow-core/src/commands.rs:1048-1060 | DROP TABLE keeps the agreement exactly when its name has no schema, or has no view's key and leads to no view's file |
| ViewAgreement.RegisterAgreesIff | crates/opensnow-core/src/engine.rs:502-509 | registering a source keeps the agreement exactly when it is refused or covers no view's file, however it is spelled |
| ViewRuns.TablesRegisterIff | crates/opensnow-cli/src/main.rs:722-742 | listed tables are registered exactly when each can be read and has a key, free and shared with no other |
| ViewRuns.RestartAgreesIff | crates/opensnow-core/src/engine.rs:472-500 | a start that comes up registers exactly the tables on disk and the views, and keeps the agreement exactly when no table file's stem has a view's key and none is read as a view's file |
| ViewRuns.ApplyAgreesIff | crates/opensnow-core/src/commands.rs:831-1060 | every command keeps the agreement exactly under its condition on names, paths and covered files |
| ViewRuns.RunAgreesIff | crates/opensnow-core/src/commands.rs:831-1060 | the three stores agree throughout a run of creates, refreshes, drops, table commands and restarts exactly when every command meets its condition |
| ViewRuns.EmptyWarehouseAgrees | crates/opensnow-core/src/engine.rs:472-500 | in an empty warehouse the stores agree, so runs from it are covered |
| ViewRuns.FirstViewAgrees | crates/opensnow-core/src/commands.rs:864-931 | creating one view in an empty warehouse gives stores that agree and hold just that view |
| ViewRuns.RefusedDropTakesRegistration | crates/opensnow-core/src/commands.rs:1001-1026 | dropping `public.v`, `V` or `"v"`, where the session reads them as `v`, is refused and takes the registration of `v` away |
| ViewRuns.FoldedNamesShareRegistration | crates/opensnow-core/src/commands.rs:856-859 | creating `v` beside `V` under one key leaves two rows on one registration, and the next restart registers the other file |
| ViewRuns.DropTableOfPathDeletesView | crates/opensnow-core/src/commands.rs:1048-1060 | DROP TABLE ../materialized_views/v deletes the file of the view v |
| ViewRuns.LeadingDropDeletesView | crates/opensnow-core/src/commands.rs:1048-1060 | DROP TABLE of any word that leads to a view's file deletes the file and leaves the row |
| ViewRuns.ClimbingDropDeletesView | crates/opensnow-core/src/commands.rs:1048-1060 | with root `data` in `/srv`, DROP TABLE ../../../../srv/data/opensnow/materialized_views/v deletes the file of the view v |
| ViewRuns.UrlRegistrationOutlivesView | crates/opensnow-agent/src/warehouse_tools.rs:131-148 | registering a view's file by its URL breaks the agreement, and dropping the view leaves that registration on a file that is gone |
| ViewRuns.DropTableTakesRegistration | crates/opensnow-core/src/commands.rs:1048-1053 | DROP TABLE of a name with a view's key takes the view's registration away |
| ViewRuns.TableNameRoundTrip | crates/opensnow-agent/src/warehouse_tools.rs:157-169 | from the statements the table tool prints, with and without IF EXISTS, the name is read back |
| ViewStarts.StartComesUpIff | crates/opensnow-cli/src/main.rs:722-742 | a start on what the tables' directory lists, in any order, comes up exactly when every table on disk can be read and has a key that no other has |
| ViewStarts.ApplyChangesDisk | crates/opensnow-core/src/commands.rs:750-1060 | after a command a table is on disk exactly when CREATE TABLE AS wrote it, or it was there and no DROP TABLE leads to its file |
| ViewStarts.ApplyCanStartIff | crates/opensnow-core/src/commands.rs:750-806 | a command leaves stores that can start exactly when a table it newly writes has a key that no table on disk has |
| ViewStarts.RunCanStartIff | crates/opensnow-core/src/commands.rs:750-1060 | over an agreeing run the server can start at every moment exactly when every table newly written had a key of its own |
| ViewStarts.EmptyWarehouseCanStart | crates/opensnow-cli/src/main.rs:726-728 | an empty warehouse can start |
| ViewStarts.FoldedTablesStopStart | crates/opensnow-core/src/commands.rs:788-789 | CREATE TABLE AS of `a` beside `A` under one key leaves both files, and the next start is refused |
| EngineHandle.Worker.TrySend | crates/opensnow-core/src/engine_handle.rs:65-65 | a message is taken exactly when the system can accept it, that is while fewer than 64 wait, and then the system's step is taken |
| EngineHandle.Worker.Receive | crates/opensnow-core/src/engine_handle.rs:80-132 | one turn of the loop is the system's step: the oldest message is run and answered, unless it only records history or its caller has gone |
| EngineHandle.Worker.Loop | crates/opensnow-core/src/engine_handle.rs:80-132 | draining the queue is a run of the system that runs its messages in order and answers each with the engine's result at its turn |
| EngineHandle.Drained | crates/opensnow-core/src/engine_handle.rs:80-132 | processing any number of waiting messages runs them in order and answers each at its turn |
| EngineHandle.RunKeepsInv | crates/opensnow-core/src/engine_handle.rs:64-136 | in every interleaving the queue is the unprocessed end of the log, requests are taken once, and replies never change |
| EngineHandle.StepsAre | crates/opensnow-core/src/engine_handle.rs:64-166 | what every event needs and does: requests are made once, taken while fewer than 64 wait, run oldest first, answered unless they record history or their caller has gone, and delivered once |
| EngineHandle.RepliesAreSequential | crates/opensnow-core/src/engine_handle.rs:64-166 | every reply is the engine's answer after running all earlier messages one by one, none is run twice, none is missing, and at most 64 wait |
| EngineHandle.TakenBeforeMadeRunsBefore | crates/opensnow-core/src/engine_handle.rs:190-210 | a message taken before a request was made runs before it, so an awaited send is visible to later requests |
| SealedPayload.HexEncodeBytes | crates/opensnow-auth/src/secrets.rs:903-911 | the loop prints two lower-case digits a byte |
| SealedPayload.HexRoundTrip | crates/opensnow-auth/src/secrets.rs:903-923 | decoding inverts encoding, and the printed text holds no dot |
| SealedPayload.ReprintsIff | crates/opensnow-auth/src/secrets.rs:903-923 | a text that decodes is the encoding of its bytes exactly when it holds lower-case digits only |
| SealedPayload.OtherSpellings | crates/opensnow-auth/src/secrets.rs:913-923 | `+a` and `AB` decode and are printed otherwise |
| SealedPayload.PayloadSplits | crates/opensnow-auth/src/secrets.rs:541-632 | both formats split back into the fields that were printed |
| SealedPayload.SealedOpens | crates/opensnow-auth/src/secrets.rs:541-662 | a payload opens under any ring that still has its key under its id |
| SealedPayload.RunRingKeeps | crates/opensnow-auth/src/secrets.rs:447-509 | every run of key operations keeps the ring usable and never changes a registered key |
| SealedPayload.SealedStaysReadable | crates/opensnow-auth/src/secrets.rs:438-509 | a payload sealed at any point opens to its plaintext in every later state of the key ring |
| KeyRotation.CurrentIsLastPromoted | crates/opensnow-auth/src/secrets.rs:447-494 | after any history of key operations the current id is that of the last accepted promotion or accepted addition as current key, or the first one when there is none; an addition is accepted exactly when its id is not empty, has no dot and is new, and there is a master key |
| KeyRotation.RegisteredKeyIs | crates/opensnow-auth/src/secrets.rs:473-494 | a key that was accepted stays under its id, derived from the master key it came with |
| KeyRotation.RotationMigrates | crates/opensnow-auth/src/secrets.rs:438-450 | after a key was added as the current one and the organization re-sealed, every active payload names that key and opens under it alone, to the secret it held |
| SecretStore.TrustedSecretStore.LocalDev | crates/opensnow-auth/src/secrets.rs:419-436 | opening a database keeps the rows that are there and has the legacy key as current key, unless the master key is empty |
| SecretStore.TrustedSecretStore.AddDataKey | crates/opensnow-auth/src/secrets.rs:473-494 | the first of empty id, dotted id, empty master key and known id is reported and changes nothing; otherwise the derived key is appended and, if asked, made current |
| SecretStore.TrustedSecretStore.SetCurrentKey | crates/opensnow-auth/src/secrets.rs:460-466 | only a registered key becomes current |
| SecretStore.TrustedSecretStore.CreateSecret | crates/opensnow-auth/src/secrets.rs:780-810 | a new active row of version 1 is inserted in key order, or nothing changes |
| SecretStore.TrustedSecretStore.RotateSecret | crates/opensnow-auth/src/secrets.rs:823-848 | an active row is sealed anew one version on; empty, missing and revoked are refused |
| SecretStore.TrustedSecretStore.RevokeSecret | crates/opensnow-auth/src/secrets.rs:850-863 | a row that exists becomes revoked, whatever it was |
| SecretStore.TrustedSecretStore.ResolveSecret | crates/opensnow-auth/src/secrets.rs:865-882 | only an active row is opened |
| SecretStore.TrustedSecretStore.ResealSecret | crates/opensnow-auth/src/secrets.rs:670-690 | the opened value is rotated in under the current key |
| SecretStore.TrustedSecretStore.ResealAllSecrets | crates/opensnow-auth/src/secrets.rs:695-708 | the loop re-seals the active handles in order and stops at the first error |
| SecretCalls.CreateIs | crates/opensnow-auth/src/secrets.rs:780-810 | what a create answers and leaves in the table: an active row of version 1, or a refusal for an empty secret or a handle that is there |
| SecretCalls.RotateIs | crates/opensnow-auth/src/secrets.rs:823-848 | what a rotation answers and leaves: the next version under a new payload, or a refusal for an empty secret or a revoked row; versions are reported in 32 bits |
| SecretCalls.RevokeIs | crates/opensnow-auth/src/secrets.rs:850-863 | a revoked row keeps everything but its state |
| SecretCalls.ResolveIs | crates/opensnow-auth/src/secrets.rs:865-882 | only an active row is opened; re-sealing it is a rotation with what was opened |
| SecretCalls.MissingIsNotFound | crates/opensnow-auth/src/secrets.rs:823-882 | a handle without a row is not found by any call |
| SecretCalls.PassStopsAtError | crates/opensnow-auth/src/secrets.rs:695-708 | from any store a re-sealing pass takes the active handles one after the other and stops at the first that is refused, keeping what was done |
| SecretCalls.SealIs | crates/opensnow-auth/src/secrets.rs:541-580 | sealing encrypts under the current key and binds the format, and in the newer format the id, as associated data; the payload's text is given |
| SecretCalls.OldPayloadOpens | crates/opensnow-auth/src/secrets.rs:590-609 | what comes of a payload of the older format, for every fault of its fields in order |
| SecretCalls.NewPayloadOpens | crates/opensnow-auth/src/secrets.rs:610-625 | the same for the newer format, under the key it names |
| SecretCalls.OtherPayloadsAreRefused | crates/opensnow-auth/src/secrets.rs:590-632 | texts with missing fields or another format are refused as such |
| SecretCalls.HexPairIff | crates/opensnow-auth/src/secrets.rs:913-923 | two characters are read exactly when they are hexadecimal digits, or a plus sign and one |
| SecretStore.FreshStoreInv | crates/opensnow-auth/src/secrets.rs:419-436 | a new store has what every run keeps |
| SecretStore.RunKeepsInv | crates/opensnow-auth/src/secrets.rs:780-882 | in every run every stored payload opens to a non-empty secret and the table stays in key order |
| SecretStore.ActiveHandlesSorted | crates/opensnow-auth/src/secrets.rs:812-821 | the listing is in ascending order of handles, none twice |
| SecretStore.ResealAllMigrates | crates/opensnow-auth/src/secrets.rs:692-708 | on a reachable store the pass succeeds, seals every active handle of the organization under the current key with the same value and the version plus one, touches no other row, and returns exactly the active handles in order |
| SecretMeaning.RunRefines | crates/opensnow-auth/src/secrets.rs:780-882 | after every run each handle stands for what a plain map of secrets says; keys and re-sealing mean nothing |
| SecretMeaning.ResolveRefines | crates/opensnow-auth/src/secrets.rs:865-882 | after every run resolving answers from that map: the last value written, or missing, or revoked |
| SecretMeaning.RevokedForGood | crates/opensnow-auth/src/secrets.rs:850-882 | no run brings a revoked secret back |
| SecretMeaning.OpensAgainIff | crates/opensnow-auth/src/secrets.rs:590-632 | under keys that agree on its id, a payload that opened opens again exactly when that id is registered |
| SecretMeaning.ReopenedIff | crates/opensnow-auth/src/secrets.rs:419-466 | after a restart that re-registers keys, every stored payload opens and every handle stands for what it did exactly when every key id the payloads name is registered again |
| SecretOverlap.UninterruptedIsAtomic | crates/opensnow-auth/src/secrets.rs:670-690 | the steps of a re-sealing, and those of a rotation, are the atomic calls when nothing comes between them |
| SecretOverlap.StartsAre | crates/opensnow-auth/src/secrets.rs:670-686 | a re-sealing starts with what is read, or with the refusal, and a rotation with what it was given |
| SecretOverlap.AfterKeepsInv | crates/opensnow-auth/src/secrets.rs:823-848 | in every interleaving every stored payload opens to a non-empty secret, and so would every value in hand |
| SecretOverlap.HeldIsOneWay | crates/opensnow-auth/src/secrets.rs:823-863 | in every interleaving no handle disappears and no revoked one becomes active |
| SecretOverlap.OverlapRefinesIff | crates/opensnow-auth/src/secrets.rs:670-690 | an interleaving refines the plain map, in which re-sealing means nothing, up to any moment exactly when no write of a re-sealing has lost a secret by then |
| SecretOverlap.ResealLosesIff | crates/opensnow-auth/src/secrets.rs:670-690 | in every interleaving a re-sealing loses a secret exactly when its handle was active at its read, is active at its write, and stands for another secret by then |
| SecretOverlap.RotationInBetweenIsLost | crates/opensnow-auth/src/secrets.rs:686-689 | a rotation between the read and the write of a re-sealing is undone |
| SecretOverlap.AnswerTellsIfStored | crates/opensnow-auth/src/secrets.rs:836-847 | once checked, a rotation or re-sealing answers with success, and has stored its value exactly when the state it answers with is active |
| OidcLogin.SsoStore.StartOidcLogin | crates/opensnow-auth/src/sso.rs:771-818 | a start for an enabled OIDC connection stores a pending transaction, and every refusal changes nothing |
| OidcLogin.StartIs | crates/opensnow-auth/src/sso.rs:771-818 | the first of missing connection, disabled, not OIDC and known state is reported; otherwise the transaction is pending with what was given |
| OidcLogin.SsoStore.CompleteOidcLogin | crates/opensnow-auth/src/sso.rs:891-963 | the checks run in the program's order; a failed attempt changes nothing and a successful one consumes its transaction |
| OidcLogin.CompletionIs | crates/opensnow-auth/src/sso.rs:891-963 | the first check on the fields that fails is reported; when all hold, the session has the transaction's connection, the claims' subject and email, and exactly the roles given |
| OidcLogin.DomainCheckIff | crates/opensnow-auth/src/sso.rs:927-941 | an email passes exactly when it is a local part, an at-sign and a domain without one, and the domain is character by character, up to case, one of those allowed |
| OidcLogin.ApplyIdpRoleMappings | crates/opensnow-auth/src/sso.rs:965-1004 | the loop collects the role of each applicable mapping once |
| OidcLogin.MappedRolesAre | crates/opensnow-auth/src/sso.rs:983-1002 | a role is found exactly when some mapping of the connection gives it whose claim is there and is, or lists, the expected text up to case |
| OidcLogin.SsoStore.UpsertIdpConnection | crates/opensnow-auth/src/sso.rs:516-597 | an upsert replaces the connection and keeps the transactions and mappings that name it |
| OidcLogin.SsoStore.UpsertIdpRoleMapping | crates/opensnow-auth/src/sso.rs:711-739 | a mapping is added once, in role order, and refused without its connection or when another has its primary key |
| OidcLogin.SsoStore.DeleteIdpConnection | crates/opensnow-auth/src/sso.rs:702-709 | deleting a connection deletes its transactions and mappings |
| OidcLogin.DeleteIs | crates/opensnow-auth/src/sso.rs:702-709 | exactly the connection and the transactions and mappings that name it are gone, and everything else is as it was |
| OidcLogin.MappingIsAddedOnce | crates/opensnow-auth/src/sso.rs:711-739 | a mapping is added once and kept in role order; it is refused exactly without its connection, or when it is new and another one has its primary key |
| OidcLogin.CompletesAtMostOnce | crates/opensnow-auth/src/sso.rs:891-963 | in every run with fresh tokens each state completes at most once |
| OidcLogin.PendingUntilCompleted | crates/opensnow-auth/src/sso.rs:897-953 | a started login stays pending as started through all failed attempts, until it completes or its connection is deleted |
| OidcLogin.SessionMatchesStart | crates/opensnow-auth/src/sso.rs:891-963 | the session carries the account and connection of its own start, with matching nonce, verifier, issuer and audience, an email in one of the allowed domains, and exactly the matched roles or PUBLIC |
| OidcLogin.EnabledIsNotRechecked | crates/opensnow-auth/src/sso.rs:919-963 | switching the enabled flag changes the outcome of no completion, only of starts |
| OidcLogin.RolesAreExact | crates/opensnow-auth/src/sso.rs:943-948 | the roles ascend, so none is there twice, and are exactly those given, or PUBLIC alone |
| OidcOverlap.UninterruptedIsAtomic | crates/opensnow-auth/src/sso.rs:891-963 | read, check and mark without interruption are the atomic completion |
| OidcOverlap.CallsAndReadsAre | crates/opensnow-auth/src/sso.rs:897-913 | calls between the steps are those of the store, and a read fails exactly when its login is not pending |
| OidcOverlap.AttemptCompletesIff | crates/opensnow-auth/src/sso.rs:897-963 | in every interleaving an attempt completes exactly when the login was pending at its read and its checks passed, whatever happened since |
| OidcOverlap.SecondCompletionHadRead | crates/opensnow-auth/src/sso.rs:897-953 | in every interleaving with fresh tokens a second completion of a login succeeds only if it had read before the first was marked |
| OidcOverlap.OverlappingAttemptsComplete | crates/opensnow-auth/src/sso.rs:897-953 | two admissible attempts that both read before either marks both complete |
| TpchRandom.Rng.NextRange | crates/opensnow-core/src/bench.rs:463-480 | a draw lies in its range and is the new 64-bit state reduced to it |
| TpchRandom.CountsAre | crates/opensnow-core/src/bench.rs:835-882 | at whole scale factors there are 200000 parts, 100 suppliers, 150000 customers and 1500000 orders to one, and never fewer than 100, 10, 100 and 1000 |
| TpchPartsupp.GenPartsupp | crates/opensnow-core/src/bench.rs:835-856 | the nested loops give every part four rows whose keys refer to existing parts and suppliers, with columns of equal length |
| TpchPartsupp.SuppliersDifferIff | crates/opensnow-core/src/bench.rs:850-850 | a part's four suppliers differ exactly when the supplier count divides none of d, 2d and 3d |
| TpchPartsupp.TableSuppliersDifferIff | crates/opensnow-core/src/bench.rs:847-856 | all parts have four different suppliers exactly when the last stride stays below a third, half or all of the supplier count |
| TpchPartsupp.WholeScaleSuppliersDifferIff | crates/opensnow-core/src/bench.rs:835-856 | at whole scale factors that is from 80 on, or from 240 on for multiples of three |
| TpchPartsupp.SmallScaleSuppliersRepeat | crates/opensnow-core/src/bench.rs:835-856 | below scale factor 0.11 some part repeats a supplier |
| TpchOrders.GenLine | crates/opensnow-core/src/bench.rs:928-952 | a line refers to an existing part and supplier and its amounts lie in their ranges |
| TpchOrders.GenLines | crates/opensnow-core/src/bench.rs:925-953 | the inner loop appends consecutively numbered lines, accumulates their total and leaves earlier totals alone |
| TpchOrders.GenOrdersAndLineitem | crates/opensnow-core/src/bench.rs:878-964 | both tables have columns of equal length, customers exist, line numbers run on from order to order, and each total is its order's |
| TpchOrders.OrdersAgreeWithLines | crates/opensnow-core/src/bench.rs:916-964 | every order has one block of one to seven lines numbered from 1, and its total is their sum |
| TpchOrders.LineKeysDiffer | crates/opensnow-core/src/bench.rs:937-940 | order and line number together identify a line |
| TpchOrders.LinesReferToOrders | crates/opensnow-core/src/bench.rs:916-964 | every line belongs to an order of the table |
| TpchOrders.LineIsListedIff | crates/opensnow-core/src/bench.rs:928-929 | a line's part and supplier are a row of the part-supplier table exactly when the part's stride reaches the supplier |
| TpchOrders.SomeSupplierIsUnlisted | crates/opensnow-core/src/bench.rs:928-929 | of five suppliers or more every part leaves one out that a line can draw |

## Left out

- DataFusion planning and execution, Arrow batches, Parquet bytes and object stores: a query is a function of its text and the registered tables, a write replaces a file's contents, and writes do not fail.
- SQLite: tables are sequences and maps with the stated keys, calls are atomic, and timestamps, migrations and unused columns do not appear.
- ViewRuns.RunAgreesIff: the warehouse is local, the file system has no links and no folding of case, and the directories on a path exist; the working directory, the reading of a name as a table reference and what a source covers do not change during a run. COPY INTO and the ingest of files are not among the commands.
- ViewStarts.RunCanStartIff: the Parquet files in the tables' directory are taken to be readable, as those that the program writes are.
- SecretStore.TrustedSecretStore.ResealSecret: one atomic step here; the steps it takes are in `SecretOverlap`, where the metadata of an answer is read together with the write, and where the listing of a bulk pass is not apart from its re-sealings.
- EngineHandle.RepliesAreSequential: the worker thread does not die and the runtime schedules fairly or not at all; only safety is stated, not that a request is answered eventually.
- SecretMeaning.ReopenedIff: a key registered again under its id is the same key; nothing is said about opening under another one.
- SecretStore.ResealAllMigrates: encryption does not fail; the ring operations of `with_rotated_key` and `register_decrypt_key` are both `AddDataKey`.
- SecretStore.TrustedSecretStore.CreateSecret: the descriptor, provider and time columns of a row are not modelled.
- OidcLogin.SsoStore.UpsertIdpRoleMapping: the checks that ids are safe, and the deletion of single mappings, are not modelled.
- OidcLogin.SsoStore.UpsertIdpConnection: validation, the normalisation of domains and the client secret are not modelled.
- OidcLogin.SsoStore.CompleteOidcLogin: one atomic step here; the steps it takes are in `OidcOverlap`, where the checks on connection and mappings are still one step.
- OidcLogin.CompletesAtMostOnce: for atomic calls; two starts never draw the same state.
- OidcLogin.SsoStore.StartOidcLogin: the authorization URL and the PKCE challenge it carries are not modelled; discovery, code exchange and key fetching happen outside.
- AuditCatalog.LogAccountsForWarehouses: JSON is any serialisation from which an event's action and result can be read back; times and ids are plain values.
- SqlCommands.FindAsClause: comments are not skipped, because the code does not skip them.
- ColonPath.RewriteColonPaths: non-ASCII letters are no identifier characters here; the Qualify model likewise takes upper-casing as ASCII, so that it keeps lengths.
- Qualify.RewriteFully: the program rewrites once; repeating it is this project's way of saying that nothing is added.
- TpchPartsupp.GenPartsupp: the values drawn are placed in their ranges and not tied to positions of the random sequence.
- TpchOrders.GenOrdersAndLineitem: sums are over the reals, without rounding.
- The other six TPC-H tables, the queries, phone numbers and the floating-point draws: they would add only easy members.
- Handlers for ALTER, USE, COPY, SHOW and DESCRIBE beyond their dispatch, and the CREATE OR REPLACE rewriting.
- Roles, privileges, SCIM, billing, JWT keys, the distributed crate, metrics and formatting of results.

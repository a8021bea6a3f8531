# Verification of the review host's hard parts

This Dafny project models the parts of the host whose correctness is not
visible from one function, and proves what they promise. `dafny verify
dfyconfig.toml` checks all of it.

**Directory lookup and mail** (`cordware/graph.py`). `look_up_all` is a
transition system: a pool of threads with a program counter each, the shared
`stopped` cell, a queue the main thread cancels from while threads still take
from it, and a collection that races with threads still at work. A run is any
sequence of enabled steps; the directory, the scheduler and the end of the
budget are whatever the run says (`LookUp`, `LookUpSafety`, `LookUpTheorems`,
`LookUpTight`, `LookUpBudget`). The retrying GET and the mailer are loops against an arbitrary
transport (`GraphHttp`); the filter's string literals have a reader
(`ODataLiteral`).

**Visibility cells** (five migrations). The generator of the CHECK constraint
is modelled for any table of modes under SQL's three truth values (`SqlCheck`),
and the text it writes is read back by a reader of SQL (`SqlText`,
`SqlReading`, `SqlMeaning`).
The chain of data migrations runs over arrays of rows, and the order of grants
says what "no wider" means (`ViewPolicy`, `ViewPolicyTheorems`).

**Audit log** (`app/services/audit.py`). Details are JSON values in named slots
with the shape check and an arbitrary registry (`AuditSchema`); the table is
what a filter selects from (`AuditQuery`); the log is an object with its rows,
its id counter and the context variable of `fired_by`, and runs are scripts of
writes, extracts, raises, blocks and handlers (`AuditLog`, `AuditRuns`). Paging
is a walk over a growing table (`AuditPaging`), and the date filter is held
against the printed dates (`AuditDates`).

**Codecs.** The Gregorian calendar is a proven bijection, and the one of a
count of days that uses no month table (`Calendar`); the date-time box and the ISO 8601 duration are parsed and printed as text
(`DateTimeBox`, `IsoDuration`, `ReleaseWindow`, with `Text` for decimals).

**Loops against rules.** Duplicate blocks (`Duplication`), the two-pass
self-review classifier (`SelfReview`), renumbering (`Renumber`), field keys
(`FieldKeys`), the rule tree (`RuleIds`), the line fit and the time split of
the pace audit (`LeastSquares`, `PaceSplit`). `JsonValues`, `Ordering`, `Sets`,
`Sums` and `Wrappers` are small helpers.

## Where a promise fails

Each of these is a result of the model: an input, and the exact condition.

- The self-review classifier keeps one group key per (instrument, reviewer),
  so a reviewer who is a member of two groups of one instrument has only the
  last one flagged. It is exact if and only if nobody is
  (`SelfReview.FlagsExactly`), as when identifiers are unique under its own
  fold (`SelfReview.UniqueRevieweesSuffice`). The service keeps them unique
  under `str.lower` (app/services/reviewees.py:117-134), the classifier compares
  under `casefold`: `straße@example.org` and `strasse@example.org` are two
  reviewees to the one and the same person to the other
  (`SelfReview.TwoSpellingsOfOneself`).
- The audit date filter and the printed date disagree in one case, west of UTC
  in the calendar's first hours (`AuditDates.FilterAgreesWithPrint`,
  `AuditDates.FirstInstantIsLost`).
- Downgrade and upgrade give a closing instant back if and only if its window is
  open for a positive whole number of seconds whose text fits the 16-character
  column (`ReleaseWindow.WindowSurvives`). Half a second is lost
  (`ReleaseWindow.HalfSecondIsLost`); a text too long stops the downgrade on
  Postgres (`IsoDuration.ColumnOverflows`), which can happen to a stored offset
  that itself fits (`ReleaseWindow.StoredOffsetOutgrows`).
- A rendered date-time box is read back, without its seconds, if and only if
  its instant is in the entry range (`DateTimeBox.BoxReadsBack`,
  `DateTimeBox.FirstInstantIsRefused`).
- `fired_by` is documented to mark every event written in its block whose
  schema allows a context. The code marks canonical calls only
  (`AuditRuns.StampedExactly`, `AuditRuns.BareCallIsUnmarked`).
- The contract step's downgrade raises if and only if the pair it takes from
  some row, the ongoing one or failing that the released one, has a granularity
  and no identification (`ViewPolicyTheorems.Downgrade`,
  `ViewPolicyTheorems.HalfSetPair`). It can be undone if and only if no pair is
  half-set and two windows that are both on agree
  (`ViewPolicyTheorems.DowngradeInverts`, `ViewPolicyTheorems.WindowsThatDiffer`).
- The field migration's account says an entry without an id is matched by its
  label's slug. The code matches by id only and gives it a second field under
  the slug and a number (`FieldKeys.SlugIsNoMatch`, `FieldKeys.SecondScore`).
- The visibility chain is to carry each grant over unwidened. It takes a row
  that names no window as throughout, where the row's reader had skipped it, so
  such a row is widened if and only if it is enabled and its cell may hold some
  mode within its pair (`ViewPolicyTheorems.WidenedExactly`,
  `ViewPolicyTheorems.UnnamedWindowIsWidened`). No other cell is, the reviewer's
  ongoing one aside, which has one legal value.
- The generated CHECK means what it is for if and only if every window of its
  table allows something and no mode is stored with a blank text
  (`SqlMeaning.TextTruthfulExactly`); both hold of the migration's own table
  (`ViewPolicy.CellCheckText`). On a null audience, which the column refuses, it
  can be unknown (`SqlCheck.CheckExact`).

## Model

| member | source | states |
|---|---|---|
| `LookUpTheorems.ResultExplained` | cordware/graph.py:457-490 | In every interleaving, against any directory and whenever the budget ends, a returned result has exactly the distinct input keys, and each outcome is `classify` of that key's own answer, that key's own error, the recorded sign-in failure for a key never asked, or `timeout`; `timeout` only if the budget ran out, and never for a key finished at any earlier moment and collected after it; `NOT_FOUND` only where the directory answered with an empty list |
| `LookUpTheorems.FinishedIsKept` | cordware/graph.py:481-490 | A finished lookup stays finished and is collected with its own outcome, however the rest of the run goes |
| `LookUpTheorems.CollectedExplained` | cordware/graph.py:485-490 | The same for each single outcome at the moment it is collected, racing with threads still at work, seen from any earlier state of the run |
| `LookUpTheorems.NoTimeoutWithinBudget` | cordware/graph.py:479-490 | If the wait ended because all lookups had finished, no outcome is `timeout`: every key was answered or skipped for the sign-in |
| `LookUpTheorems.RaisesOnlyADirectoryCrash` | cordware/graph.py:471-490 | The call raises only if a directory call raised something that is no `GraphError` |
| `LookUpTheorems.CallsBounded` | cordware/graph.py:463-480 | At every moment of every interleaving no key has been asked twice, and at most `workers` asked keys are unanswered |
| `LookUpTheorems.RefusalStops` | cordware/graph.py:467-477 | From any moment at which some key has been answered with a refused sign-in, 401 or 403, and its future is settled: a refusal is recorded and never changes, at most `workers - 1` more calls start, and every key settled without being asked carries it, whatever other lookups in flight fail with |
| `LookUpTheorems.RefusalIsRecorded` | cordware/graph.py:473-476 | In every reachable state, once a key answered with a refused sign-in has its future settled, a refusal is recorded |
| `LookUpTheorems.RecordedRefusalStops` | cordware/graph.py:467-477 | The same from the moment of recording, where the recorded failure is one some call did fail with |
| `LookUpTight.BoundIsReached` | cordware/graph.py:467-480 | For every number of workers and every input with that many distinct keys, some interleaving makes all `workers - 1` further calls: the bound is the best there is |
| `LookUpTheorems.EveryRunEnds` | cordware/graph.py:457-490 | Every interleaving has at most 8 steps a distinct key and 4 more, and one that only the budget could move on has returned or raised |
| `LookUpTheorems.NeverStuck` | cordware/graph.py:479-490 | In every state the invariant allows, before return or raise, some step other than the budget running out is possible |
| `LookUpTheorems.AnyoneMayMove` | cordware/graph.py:467-490 | In every state the invariant allows the budget may run out of a wait, an idle thread may take a waiting key, every busy thread may make its next step, and a call in flight may be answered by any page, any exception and any directory error: no scheduler or directory is left out |
| `LookUpBudget.BudgetHolds` | cordware/graph.py:481-490 | Once the wait is over, by the budget or not, the main thread makes at most two steps a distinct key and two more however the pool and the directory are interleaved with it, and at every moment until it has returned or raised its next step is possible |
| `LookUpBudget.FinishesAlone` | cordware/graph.py:481-490 | From any such moment it can finish with no step of anyone else's: it never depends on a lookup still in flight |
| `LookUpBudget.MainIsNeverBlocked` | cordware/graph.py:484-490 | Past the wait the main thread's next step is always possible |
| `LookUpTheorems.RunLength` | cordware/graph.py:457-490 | Each step uses up a measure of the work left, so no interleaving is longer than the measure at its start |
| `LookUpSafety.RunInv` | cordware/graph.py:457-490 | The pool invariant (who holds which key, what is recorded, what each settled future may hold) survives every interleaving |
| `LookUpSafety.StepInv` | cordware/graph.py:467-490 | Each single step of the main thread or of a pool thread keeps the invariant |
| `LookUpSafety.InitInv` | cordware/graph.py:463-480 | The invariant holds when the pool is made |
| `LookUpTheorems.RunExtends` | cordware/graph.py:464-480 | Along every interleaving calls, answers and the recorded failure are only ever added to |
| `LookUp.Distinct` | cordware/graph.py:463 | The de-duplicated keys are exactly the input's, without repeats |
| `LookUp.ClassifyMeaning` | cordware/graph.py:420-440 | `NOT_FOUND` exactly for an empty answer; an account is named exactly when every row is one account and its last row's mail or sign-in name folds to the key; `OK` exactly when it is the mail; the account named is that last row; the match type tells which field it was; several accounts are reported exactly when there are, with their number |
| `LookUp.DistinctInOrder` | cordware/graph.py:463 | They stand in the order of their first occurrences |
| `LookUp.OutcomesTellApart` | cordware/graph.py:420-454 | An error outcome is never mistaken for an answer, nor one kind of failure for another; it carries its kind, no account and no match, and advises signing in again exactly for 401 and 403 |
| `LookUp.ByIdSize` | cordware/graph.py:423-428 | The dictionary by id has one entry exactly when all rows are one account, none exactly when there are no rows |
| `ODataLiteral.LiteralExact` | cordware/graph.py:157-159 | Reading a string literal gives back a value and the rest exactly when the text is that value's literal followed by that rest (which does not go on with a quote): quoting and reading are inverse in both directions |
| `GraphHttp.Get` | cordware/graph.py:220-249 | Against any transport: at most retries + 1 calls, each but the last earning its wait; success only with a 2xx body, otherwise the error of the last reply; total sleep at most the sum of max(30, 2^a) for a < retries; the line after the loop is never reached |
| `GraphHttp.RetryAfter` | cordware/graph.py:162-169 | The wait is never negative, for a missing, malformed, infinite or NaN header too |
| `GraphHttp.FirstHeaderDecides` | cordware/graph.py:162-169 | The first `Retry-After`, whatever the case of its name, decides the wait: the finite number it holds, nothing for a negative one, a second for what is no number; without one it is a second |
| `GraphHttp.AnyCase` | cordware/graph.py:162-169 | The name is `Retry-After` in any case, and no name of another length |
| `GraphHttp.RetriesExactly` | cordware/graph.py:220-249 | Another attempt follows exactly a dropped connection or a 5xx, after 1, 2, 4 seconds and so on, and a 429 whose wait is at most 30 seconds, after that wait |
| `GraphHttp.SendMail` | cordware/graph.py:585-609 | A second post exactly after a first 429 whose wait is within the limit; the result is that of the last post; every post before it was answered with 429, so at most one message was accepted; the line after the loop is never reached |
| `SqlCheck.CheckExact` | alembic/versions/e5c1a9d3b7f2_view_policy_cell_check.py:62-83 | For any table of modes whatever: on a row with an audience the CHECK is never unknown and is true exactly when that audience's rule admits both cells with NULL read as blank; on a null audience it is never true, and unknown exactly when some rule admits both |
| `SqlCheck.TruthfulExactly` | alembic/versions/e5c1a9d3b7f2_view_policy_cell_check.py:62-83 | The condition the generator is about is true of exactly the legal rows among those with an audience, for all nullable texts, if and only if no rule has a mode stored with a blank text beside a window that allows anything |
| `SqlMeaning.TextTruthfulExactly` | alembic/versions/e5c1a9d3b7f2_view_policy_cell_check.py:62-83 | For the SQL text itself, of any quote-free table of modes: SQL can read it and finds it true of exactly the legal rows, and unknown of none, if and only if there is a rule, every window allows something, and no mode is blank |
| `SqlMeaning.TextMeansCheck` | alembic/versions/e5c1a9d3b7f2_view_policy_cell_check.py:62-83 | SQL can read the text exactly when there is a rule and every window allows something, and then it reads, on every row, that condition |
| `SqlReading.CheckLexes` | alembic/versions/e5c1a9d3b7f2_view_policy_cell_check.py:62-83 | The text consists of exactly the intended words, marks and quoted texts |
| `SqlMeaning.ClauseFails` | alembic/versions/e5c1a9d3b7f2_view_policy_cell_check.py:75 | A clause with an empty window is no condition: nothing stands between its parentheses |
| `SqlCheck.LeakingRow` | alembic/versions/e5c1a9d3b7f2_view_policy_cell_check.py:67-74 | A rule that has one lets a concrete half-set row through |
| `SqlCheck.BlankModeLeaks` | alembic/versions/e5c1a9d3b7f2_view_policy_cell_check.py:67-74 | A blank mode is matched by a cell that holds NULL in its place, which no mode stores |
| `SqlCheck.AdmittedIsLegal` | alembic/versions/e5c1a9d3b7f2_view_policy_cell_check.py:62-75 | Without blank modes a window admits exactly its legal cells |
| `SqlCheck.WindowExact` | alembic/versions/e5c1a9d3b7f2_view_policy_cell_check.py:62-75 | One window's disjunction, for any modes: true or false, never unknown, and true exactly on the cells it admits with NULL read as blank |
| `SqlCheck.ClauseExact` | alembic/versions/e5c1a9d3b7f2_view_policy_cell_check.py:78-83 | One audience's clause, in all three truth values, for any rule |
| `SqlText.BuildWindowSql` | alembic/versions/e5c1a9d3b7f2_view_policy_cell_check.py:62-75 | The loop that appends terms and joins them writes one window's text |
| `SqlCheck.PlainComparisonLeaks` | alembic/versions/e5c1a9d3b7f2_view_policy_cell_check.py:70-74 | Why each column goes through COALESCE: without it a half-set pair reads unknown, which a CHECK lets pass |
| `ViewPolicy.CellCheckExact` | alembic/versions/e5c1a9d3b7f2_view_policy_cell_check.py:52-83 | The migration's own constraint is true exactly for the three audiences with both cells allowed, and never unknown on a row with an audience |
| `ViewPolicyTheorems.CellCheckColumns` | alembic/versions/e5c1a9d3b7f2_view_policy_cell_check.py:52-83 | In the columns' texts: the constraint, and SQL's reading of the migration's own text, are true of exactly these rows: a reviewer with `row`/`identified` while the review runs and that or nothing after release, a reviewee with both ongoing columns null, an observer with nothing or `aggregated`/`deidentified` while it runs, and for the last two any of the three pairs or nothing after release |
| `ViewPolicy.CellCheckText` | alembic/versions/e5c1a9d3b7f2_view_policy_cell_check.py:52-83 | SQL reads the text the migration writes, and on every row finds what that constraint says |
| `ViewPolicy.LegalIsAllowed` | alembic/versions/e5c1a9d3b7f2_view_policy_cell_check.py:52-59 | A stored pair is legal for the CHECK exactly when it is the pair of an allowed mode |
| `ViewPolicy.Normalize` | alembic/versions/e5c1a9d3b7f2_view_policy_cell_check.py:107-148 | Refuses exactly a table with an unknown audience, naming those rows in order and changing nothing; otherwise every row is normalized and the rewritten ids are exactly the changed rows', in table order |
| `ViewPolicy.UnknownIdsMeaning` | alembic/versions/e5c1a9d3b7f2_view_policy_cell_check.py:115-121 | The refused ids are exactly those of rows with an unknown audience |
| `ViewPolicy.NormalizeFirst` | alembic/versions/14db60023e88_normalize_legacy_view_policy_cells.py:86-121 | The first normalization rewrites the rows of the three audiences and leaves all others |
| `ViewPolicy.Rewrite` | alembic/versions/14db60023e88_normalize_legacy_view_policy_cells.py:95-121 | The loop both normalizations share writes each row's target and lists the ids that changed |
| `ViewPolicyTheorems.NormalizedIsNearest` | alembic/versions/14db60023e88_normalize_legacy_view_policy_cells.py:65-78 | Normalizing a cell gives the widest legal mode not wider than what the cell granted (the reviewer's ongoing cell has its one legal value), and a legal cell is left as it is |
| `ViewPolicyTheorems.FixedExactlyWhenLegal` | alembic/versions/e5c1a9d3b7f2_view_policy_cell_check.py:93-148 | The rows a normalization leaves alone are exactly those the constraint accepts, and those of no known audience |
| `ViewPolicyTheorems.NormalizedIsLegal` | alembic/versions/e5c1a9d3b7f2_view_policy_cell_check.py:93-148 | A normalized row of a known audience satisfies the constraint |
| `ViewPolicyTheorems.SecondNormalizationIsIdle` | alembic/versions/e5c1a9d3b7f2_view_policy_cell_check.py:107-148 | Normalizing again changes nothing |
| `ViewPolicyTheorems.SummaryOffIsAbsorbed` | alembic/versions/e2a7c4f9b130_reviewer_released_summary_off.py:33-42 | Turning the reviewer's released summary off first does not change where normalization ends |
| `ViewPolicy.SummaryOff` | alembic/versions/e2a7c4f9b130_reviewer_released_summary_off.py:33-42 | A reviewer row whose released granularity is aggregated ends with both released columns null and all else as it was; every other row is unchanged |
| `ViewPolicy.Expand` | alembic/versions/a7e3b1d92c64_participants_s14_per_window_visibility_.py:99-138 | The backfill loop writes both window pairs of each enabled row |
| `ViewPolicyTheorems.ExpandGrants` | alembic/versions/a7e3b1d92c64_participants_s14_per_window_visibility_.py:106-125 | After the backfill each window grants exactly what the migration reads the legacy triple to grant there, a missing, empty or `always` window as throughout |
| `ViewPolicyTheorems.ChainLands` | alembic/versions/14db60023e88_normalize_legacy_view_policy_cells.py:65-121 | Every legacy row of a known audience, pushed through the whole chain, satisfies the constraint, each window at the widest legal mode within the grant as the migration reads it, the reviewer's ongoing cell excepted |
| `ViewPolicyTheorems.MigratedColumns` | alembic/versions/14db60023e88_normalize_legacy_view_policy_cells.py:65-121 | In the columns' texts, where every legacy row of a known audience ends: the four columns it holds are given by its audience, its legacy pair and the windows it names, so a reviewee row always ends with both ongoing columns null; the row meets the rule, and nothing else in it changes |
| `ViewPolicyTheorems.NormalizedCells` | alembic/versions/e5c1a9d3b7f2_view_policy_cell_check.py:93-104 | The same for normalizing one cell of any texts |
| `ViewPolicyTheorems.WidenedExactly` | alembic/versions/a7e3b1d92c64_participants_s14_per_window_visibility_.py:106-125 | Against what the row's reader granted, who skipped a row that names no window, a cell is widened if and only if the row is enabled, names no window, and the cell may hold some mode within its pair; the reviewer's ongoing cell excepted |
| `ViewPolicyTheorems.UnnamedWindowIsWidened` | alembic/versions/a7e3b1d92c64_participants_s14_per_window_visibility_.py:109-118 | At an input: an enabled reviewee row of named rows with no window showed nothing and shows named rows after release |
| `ViewPolicyTheorems.Upgrade` | alembic/versions/e5c1a9d3b7f2_view_policy_cell_check.py:107-148 | The chain over a table is refused exactly for an unknown audience; otherwise every row ends inside the constraint and the second normalization reports no row |
| `ViewPolicyTheorems.Downgrade` | alembic/versions/b8f4c2a91d35_participants_s14_contract_drop_legacy_visibility_cols.py:92-130 | The backfill of the contract step's downgrade raises exactly when some row's ongoing pair has a granularity and no identification, or its ongoing granularity is null and its released pair has one and no identification; otherwise every row gets its legacy triple |
| `ViewPolicyTheorems.HalfSetPair` | alembic/versions/b8f4c2a91d35_participants_s14_contract_drop_legacy_visibility_cols.py:101-111 | A half-set released pair stops it when the ongoing window is off, and is passed over when the ongoing pair is whole |
| `ViewPolicyTheorems.DowngradeInverts` | alembic/versions/b8f4c2a91d35_participants_s14_contract_drop_legacy_visibility_cols.py:99-130 | Downgrade then expand gives both windows back exactly when neither pair is half-set and two windows that are both on agree |
| `ViewPolicyTheorems.WindowsThatDiffer` | alembic/versions/b8f4c2a91d35_participants_s14_contract_drop_legacy_visibility_cols.py:102-117 | A legal observer row, summarized while ongoing and raw after release, comes back summarized in both |
| `AuditSchema.ComposeCanonical` | app/services/audit.py:299-323 | The step-by-step filling of the body gives, slot by slot, what each argument puts there; an empty body is no detail |
| `AuditSchema.StampKeepsValidity` | app/services/audit.py:289-296 | Adding `fired_by` never turns a valid detail invalid, and turns an invalid one valid only if the context's own `fired_by` was no scalar |
| `AuditSchema.ValidateExactly` | app/services/audit.py:845-890 | The check finds nothing exactly in no detail and in one that has only the nine keys, each of its own shape (counts that read as non-negative integers, refs by keys ending in `_id`, a context of scalars), a registered type, and no key beyond those the type allows; otherwise it names the first fault: the shape, the type, or a key |
| `AuditSchema.BodyReads` | app/services/audit.py:63-108 | What each payload writes: changes as the old value then the new one, a snapshot as it is, counts as integers, records in order under `added`, `removed` and `updated` |
| `AuditSchema.CountDecidesNothing` | app/services/audit.py:845-890 | Validity does not depend on the value of a non-negative row count |
| `AuditSchema.RecountedIsComposed` | app/services/audit.py:1112-1131 | Patching the count into a composed detail gives the detail composed with the new count |
| `AuditLog.AuditLog.WriteEvent` | app/services/audit.py:148-252 | Raises and writes nothing exactly when two calling styles are mixed, or in strict mode the detail is not one its type may carry; otherwise it appends exactly the row the call describes under the source in force |
| `AuditLog.RefusedExactly` | app/services/audit.py:148-252 | The same of the refusal alone, and which of the two it is |
| `AuditLog.AuditLog.RecordExtract` | app/services/audit.py:1078-1132 | Write, count again, patch: the outcome is that of writing the true count at once; the recorded and returned count is the number of rows the filter keeps with this event in the table; the second check never raises |
| `AuditLog.OneTrueCount` | app/services/audit.py:1085-1093 | There is only one count an extract event can truthfully record |
| `AuditLog.RecordsTheTruth` | app/services/audit.py:1101-1132 | The count recorded is that one |
| `AuditLog.OneRefusal` | app/services/audit.py:1115-1120 | If one count is refused every count is, for the same reason |
| `AuditLog.SameFate` | app/services/audit.py:990-1041 | Whether the filter keeps an extract event does not depend on the count it records |
| `AuditLog.AuditLog.Run` | app/services/audit.py:273-286 | Whatever the nesting of blocks and wherever it raises, a run leaves the source as it found it, and does to the table what a run does in which each block hands its source to its own body only |
| `AuditRuns.StrictRunStaysSound` | app/services/audit.py:148-296 | After any run of writes and extracts in strict mode, nested and raising at will, every detail it stored has a registered type, only keys that type allows and none outside the nine, non-negative counts, refs by `_id` keys, a context of scalars and the other keys' shapes; and if that held of the whole table before, it does after |
| `AuditRuns.RunOnlyAppends` | app/services/audit.py:148-252 | A run leaves every earlier row in place and unchanged, and gives later rows later ids |
| `AuditRuns.ExtractsStayHonest` | app/services/audit.py:1078-1132 | After any run, every extract it recorded has left a row that counts exactly what that extract's own filter keeps of the table up to and with the row, and that row is still there |
| `AuditRuns.ExtractsAreExecuted` | app/services/audit.py:1078-1132 | Where no other code writes that event type, every extract event a run adds is one of those |
| `AuditRuns.RowSpeaksForItself` | app/services/audit.py:1078-1132 | Whoever reads a filter off such a row's stored context, stamped or not, counts for the row's session, over the table up to it, the number the row records |
| `AuditRuns.ContextInDetail` | app/services/audit.py:1102-1110 | The row's context, without the stamp, is its filter's description |
| `AuditRuns.RunExtends` | app/services/audit.py:148-252 | A run leaves the rows before it where they were, whatever their ids |
| `AuditRuns.StampedExactly` | app/services/audit.py:179-206 | Inside a block a canonical call whose schema allows a context carries the block's source and is otherwise the same; every other call, legacy-style ones included, is untouched |
| `AuditRuns.BareCallIsUnmarked` | app/services/audit.py:179-206 | A call with only a type and a summary carries no stamp, though its schema allows a context |
| `AuditRuns.BlockBreaksNoRun` | app/services/audit.py:273-296 | Wrapping any run in a `fired_by` block, under any outer source or none, never makes it raise |
| `AuditRuns.StampRefusesNothing` | app/services/audit.py:289-296 | A stamp refuses no call that passes under any other source |
| `AuditQuery.CountOneMore` | app/services/audit.py:1044-1075 | One more row adds one to the count exactly if the filter keeps it |
| `AuditQuery.KeepsReadsNoText` | app/services/audit.py:990-1041 | No clause of the filter reads the summary or the detail |
| `AuditQuery.InactiveKeepsAll` | app/services/audit.py:996-1041 | With no filter active every row of the session is kept, so the early return makes no difference |
| `AuditQuery.DescribeFilters` | app/services/audit.py:961-987 | The step-by-step description says of each active dimension what the specification says of it, and nothing of the others |
| `AuditQuery.DescriptionNamesFilter` | app/services/audit.py:966-987 | Two filters described alike, whose types and severities hold no comma, keep the same events: the comma-joined texts split back |
| `AuditQuery.SelectedMembers` | app/services/audit.py:990-1041 | A listing selects exactly the rows its filter keeps |
| `AuditQuery.ApplyFilters` | app/services/audit.py:990-1041 | One clause is appended for each active dimension, and a row meets all of them exactly when the filter keeps it |
| `AuditQuery.SelectedExactly` | app/services/audit.py:990-1041 | Read off the rows: a listing selects exactly those of the session that have one of the types, one of the severities and the folded actor address, where each is asked for, and whose printed date lies between the two, save the rows lost before the calendar's first local day |
| `AuditPaging.Walk` | app/services/audit.py:1135-1179 | Walking the viewer to its end, each page from the last row's id, while the table grows between pages, shows exactly the rows the filter kept at the start, once each, in descending id, as many as the count; and how many pages that takes |
| `AuditPaging.PageContinues` | app/services/audit.py:1160-1166 | A page asked for later starts where the rows shown so far left off, whatever was appended meanwhile |
| `AuditPaging.WalkDuringRuns` | app/web/views/_audit_log.py:203-208 | The same walk with any runs of this log's own writes and extracts between the pages |
| `AuditPaging.RunsAreHistory` | app/services/audit.py:148-252 | Such runs only ever append to the table the walk started on, each starting where the one before it ended |
| `AuditDates.FilterAgreesWithPrint` | app/services/audit.py:1012-1040 | The date filter keeps an event exactly when the day `format_date` prints for it lies between the two dates, for every instant and date and every offset, if and only if it is not the one failing case: a filter from the calendar's first day on an instant whose local day would lie before it |
| `AuditDates.LostExactly` | app/services/audit.py:1012-1040 | So an event is kept exactly when its printed date lies between the two and it is not that one case |
| `AuditDates.FilterAgreesInEntryRange` | app/services/audit.py:1012-1040 | For instants a person can enter they always agree |
| `AuditDates.FirstInstantIsLost` | app/services/audit.py:1012-1040 | The failing case at an input: an hour west of UTC, the calendar's first instant prints as its first day and is left out by a filter from that day |
| `AuditDates.FromBound` | app/services/audit.py:1021-1034 | The lower clause alone, with the calendar-edge bound dropped |
| `AuditDates.ToBound` | app/services/audit.py:1021-1040 | The upper clause alone, with both calendar-edge bounds dropped |
| `DateTimeBox.BoxReadsBack` | app/services/date_formatting.py:206-253 | In a zone of whole minutes, parsing a rendered box gives the instant with its seconds dropped if and only if the instant is in the entry range |
| `DateTimeBox.FirstInstantIsRefused` | app/services/date_formatting.py:206-253 | The calendar's first instant is rendered and then refused |
| `DateTimeBox.TextReadsBack` | app/services/date_formatting.py:245-264 | Rendering what an accepted text names gives `box_text` of that text |
| `DateTimeBox.ParseOfFormat` | app/services/date_formatting.py:206-253 | What parsing a rendered box gives, for every instant, in or out of range |
| `DateTimeBox.AcceptedExactly` | app/services/date_formatting.py:206-227 | A text is accepted exactly when its stripped form has the box's shape, names a date with its month's length and a time of day, and the instant they name, by a count of days that uses no month table, is a day or more clear of either end of the calendar; and it is read as that instant |
| `DateTimeBox.BoxShows` | app/services/date_formatting.py:58-107 | A box shows the year, month and day of the one real date of the wall clock's day, and the hours and minutes gone of that day; the wall clock is the instant moved by the offset, or not moved where that leaves the calendar |
| `DateTimeBox.DateExactlyOf` | app/services/date_formatting.py:58-63 | A wall clock's date is the one real date whose count of days is its own |
| `DateTimeBox.AcceptedConvertsAnywhere` | app/services/date_formatting.py:58-107 | The one-day margin: converting an accepted instant into any zone never takes the overflow fallback |
| `DateTimeBox.SeparatorsAlike` | app/services/date_formatting.py:256-264 | `box_text` changes nothing about how a text parses |
| `DateTimeBox.DateTextInjective` | app/services/date_formatting.py:42-47 | Two dates never print alike, since the year always has four digits |
| `Calendar.FromOrdinalOfOrdinal` | app/services/date_formatting.py:58-63 | Days and dates correspond one to one: reading the date of a date's number gives it back |
| `Calendar.OrdinalOfFromOrdinal` | app/services/date_formatting.py:58-63 | And numbering the date of a day gives the day back |
| `Calendar.YearInRange` | app/services/date_formatting.py:58-63 | The four-digit years are exactly the first 3,652,059 days |
| `Calendar.OrdinalExactly` | app/services/date_formatting.py:58-63 | A date's number is its count of days in years that begin in March, `365y + y/4 - y/100 + y/400 + (153m + 2)/5 + d - 306`, which needs no leap rule and no month's length |
| `Calendar.DateExactly` | app/services/date_formatting.py:139-150 | The dates are those by the lengths of the months and the leap rule, written out |
| `Calendar.DayNumberExactly` | app/services/date_formatting.py:58-63 | The date of a day is the one real date with that count |
| `Calendar.OrdinalOrders` | app/services/audit.py:1028-1040 | Days are numbered in the order of year, month and day |
| `Calendar.KnownDays` | app/services/date_formatting.py:58-63 | Four known days: 1970-01-01, 2000-02-29, 2026-05-01 and 9999-12-31 |
| `IsoDuration.MatchExact` | alembic/versions/f4a92b3c6d18_participants_s12_visibility_window_and_.py:73-92 | The matcher accepts exactly the grammar's texts and captures the parts that made them; no text has two readings |
| `IsoDuration.ParseExact` | alembic/versions/f4a92b3c6d18_participants_s12_visibility_window_and_.py:86-109 | The parser reads exactly the texts that say a duration of the grammar naming some unit, with its sign and its seconds: years of 31,536,000, months of 2,592,000, days, hours, minutes and seconds; and overflows exactly past what a `timedelta` holds |
| `IsoDuration.EncodeParsesBack` | alembic/versions/f4a92b3c6d18_participants_s12_visibility_window_and_.py:181-205 | What the downgrade writes parses back to the same number of seconds, for every positive number a `timedelta` holds, and past that it overflows |
| `IsoDuration.EncodeInjective` | alembic/versions/f4a92b3c6d18_participants_s12_visibility_window_and_.py:181-205 | No two positive durations share a text |
| `IsoDuration.EncodeFitsColumn` | alembic/versions/f4a92b3c6d18_participants_s12_visibility_window_and_.py:172-205 | Every total under 10,000 days fits the 16-character column |
| `IsoDuration.EncodeFitsExactly` | alembic/versions/f4a92b3c6d18_participants_s12_visibility_window_and_.py:172-205 | A duration's text fits the 16-character column if and only if its width, counted from its days, hours, minutes and seconds, does |
| `IsoDuration.EncodeWidth` | alembic/versions/f4a92b3c6d18_participants_s12_visibility_window_and_.py:189-204 | The text is exactly that wide |
| `IsoDuration.ColumnOverflows` | alembic/versions/f4a92b3c6d18_participants_s12_visibility_window_and_.py:172-205 | At an input: ten thousand days and a full clock take 17 characters, ten thousand days alone take 7 |
| `IsoDuration.EncodeSeconds` | alembic/versions/f4a92b3c6d18_participants_s12_visibility_window_and_.py:189-204 | The encoder's steps write that text |
| `ReleaseWindow.Upgrade` | alembic/versions/f4a92b3c6d18_participants_s12_visibility_window_and_.py:132-153 | The upgrade's loop raises exactly when some row's offset says a closing instant no `datetime` can hold; otherwise each row gets the closing instant its offset names, or none for an unreadable offset |
| `ReleaseWindow.UpgradeOverflows` | alembic/versions/f4a92b3c6d18_participants_s12_visibility_window_and_.py:140-153 | The same for one row, in terms of what its text says |
| `ReleaseWindow.UpgradeExactly` | alembic/versions/f4a92b3c6d18_participants_s12_visibility_window_and_.py:132-153 | A row that does not overflow gets, whatever the sign, its start moved by a million microseconds for each second its offset says, none without a start or when its offset says nothing, and keeps the rest |
| `ReleaseWindow.Downgrade` | alembic/versions/f4a92b3c6d18_participants_s12_visibility_window_and_.py:172-208 | The downgrade's loop is refused exactly when some window of a whole second or more has a duration wider than the 16-character column; otherwise it writes an offset for exactly those windows |
| `ReleaseWindow.DowngradeRefused` | alembic/versions/f4a92b3c6d18_participants_s12_visibility_window_and_.py:172-208 | The same for one row |
| `ReleaseWindow.WindowSurvives` | alembic/versions/f4a92b3c6d18_participants_s12_visibility_window_and_.py:132-208 | Where the downgrade is not refused, upgrading again never raises; and the two give a session its closing instant back if and only if it had none, or is open for a positive whole number of seconds whose text fits the column |
| `ReleaseWindow.HalfSecondIsLost` | alembic/versions/f4a92b3c6d18_participants_s12_visibility_window_and_.py:185-188 | A window of half a second is not given back |
| `ReleaseWindow.UpgradedWindowSurvives` | alembic/versions/f4a92b3c6d18_participants_s12_visibility_window_and_.py:132-208 | Upgrade, downgrade, upgrade: of the stored positive offsets, exactly those whose duration written anew fits the column keep their instant; the others stop the downgrade |
| `ReleaseWindow.StoredOffsetOutgrows` | alembic/versions/f4a92b3c6d18_participants_s12_visibility_window_and_.py:132-208 | At an input: a stored offset of 14 characters, in seconds alone, stops the downgrade |
| `ReleaseWindow.OffsetReadsBack` | alembic/versions/f4a92b3c6d18_participants_s12_visibility_window_and_.py:132-153 | An encoded offset upgrades to the instant it was made from |
| `Duplication.CountDuplicated` | tools/code_metrics.py:108-126 | For each block size a line is seen exactly when some block of that size through it equals a block at another place, and the count is the number of such lines |
| `Duplication.Curve` | tools/code_metrics.py:98-126 | The printed counts are those for blocks of 6, 10, 15 and 25 lines, never rise as the size grows, and never pass the total; nothing is printed exactly when there are no lines |
| `Duplication.TotalByFile` | tools/code_metrics.py:100-101 | The total is the lines of all files together |
| `Duplication.SmallerBlocksMarkMore` | tools/code_metrics.py:117-121 | A line in a repeated block is in a repeated block of every smaller size |
| `Duplication.CountFalls` | tools/code_metrics.py:108-122 | So the count only falls as the size grows, for any two sizes |
| `Duplication.CountWithinTotal` | tools/code_metrics.py:122-126 | The count is at most the number of lines |
| `Duplication.MarksMeetRule` | tools/code_metrics.py:112-121 | The dictionaries' marking agrees with the rule |
| `Duplication.JoinInjective` | tools/code_metrics.py:114 | Joining the same number of lines with line breaks loses nothing |
| `Duplication.IndexWindows` | tools/code_metrics.py:112-116 | `locations` lists every block's place once under its key, and `windows` counts them |
| `Duplication.MarkRepeated` | tools/code_metrics.py:117-121 | `seen` holds exactly the lines of the blocks listed at least twice |
| `SelfReview.ClassifySession` | alembic/versions/b4e8c2a9d1f6_assignment_is_self_review.py:82-190 | The two passes flag exactly the ids the specification of their outcome names; relationships read only when needed make no difference |
| `SelfReview.FlagsExactly` | alembic/versions/b4e8c2a9d1f6_assignment_is_self_review.py:165-190 | They flag exactly the whole-group rule's rows if and only if no reviewer is a member of two groups of one instrument |
| `SelfReview.FlagsByTags` | alembic/versions/b4e8c2a9d1f6_assignment_is_self_review.py:70-197 | In the columns' terms: the flagged rows are exactly those to oneself by an address, and on a group instrument those who agree, in each tag `group_kind` lists as `r1` to `r3` and `p1` to `p3`, with a row there to oneself, if and only if no reviewer is a member of two groups of one instrument |
| `SelfReview.KeysByTags` | alembic/versions/b4e8c2a9d1f6_assignment_is_self_review.py:141-165 | Rows of one `group_kind` share a key exactly when they agree in the tags it lists |
| `SelfReview.ListedByCode` | alembic/versions/b4e8c2a9d1f6_assignment_is_self_review.py:42-65 | A source is in the boundary exactly when its own code stands between the commas |
| `SelfReview.UniqueRevieweesSuffice` | alembic/versions/b4e8c2a9d1f6_assignment_is_self_review.py:165-190 | Where no two reviewees' identifiers fold alike under the classifier's own fold, that condition holds and the classifier is exact |
| `SelfReview.TwoSpellingsOfOneself` | alembic/versions/b4e8c2a9d1f6_assignment_is_self_review.py:76-79 | Two well-formed addresses that agree under `casefold` and differ under `lower`, in two groups, leave the first group unflagged |
| `SelfReview.TwoSelvesTwoGroups` | alembic/versions/b4e8c2a9d1f6_assignment_is_self_review.py:165-190 | So do any two identifiers that fold to the reviewer's email, under any fold |
| `SelfReview.FlaggedIsSelfReview` | alembic/versions/b4e8c2a9d1f6_assignment_is_self_review.py:165-190 | With no assumption, every flagged row is a self-review, and each (instrument, reviewer, group) is flagged whole or not at all |
| `SelfReview.OrderDoesNotMatter` | alembic/versions/b4e8c2a9d1f6_assignment_is_self_review.py:165-190 | Where that condition holds the row order does not matter |
| `SelfReview.DecodeGroupKind` | alembic/versions/b4e8c2a9d1f6_assignment_is_self_review.py:59-73 | The loop gives the sources the codes name, in order |
| `SelfReview.KeysByAssignment` | alembic/versions/b4e8c2a9d1f6_assignment_is_self_review.py:147-163 | Exactly the group assignments get a key, and it is their group's |
| `SelfReview.FirstPass` | alembic/versions/b4e8c2a9d1f6_assignment_is_self_review.py:165-175 | The first pass holds, for each (instrument, reviewer), the last self pair's key |
| `SelfReview.SecondPass` | alembic/versions/b4e8c2a9d1f6_assignment_is_self_review.py:177-190 | The second pass flags by that key |
| `SelfReview.UnreadRelationships` | alembic/versions/b4e8c2a9d1f6_assignment_is_self_review.py:119-145 | Leaving the relationships unread when no boundary needs them changes no key |
| `SelfReview.UpdateFlagged` | alembic/versions/b4e8c2a9d1f6_assignment_is_self_review.py:216-226 | The chunks hold each flagged id exactly once, in order, at most 500 a statement, and exactly those rows change |
| `Renumber.RenumberDuplicates` | alembic/versions/d2f7a3c9b5e4_instruments_session_seq_unique.py:31-58 | The two loops give each row the number the specification gives it |
| `Renumber.OneOrder` | alembic/versions/d2f7a3c9b5e4_instruments_session_seq_unique.py:40-44 | Rows are read by session and then by id: of two rows exactly one order is that one |
| `Renumber.HighestNumbers` | alembic/versions/d2f7a3c9b5e4_instruments_session_seq_unique.py:45-47 | The first loop finds each session's highest number |
| `Renumber.RenumberedIsUnique` | alembic/versions/d2f7a3c9b5e4_instruments_session_seq_unique.py:31-58 | Afterwards no two rows of a session share a number |
| `Renumber.LowestKeeps` | alembic/versions/d2f7a3c9b5e4_instruments_session_seq_unique.py:31-58 | The lowest id of each number keeps it, every other holder gets one above the session's original highest |
| `Renumber.NewNumbersRise` | alembic/versions/d2f7a3c9b5e4_instruments_session_seq_unique.py:48-58 | The new numbers rise with the id |
| `Renumber.IdleExactlyWhenUnique` | alembic/versions/d2f7a3c9b5e4_instruments_session_seq_unique.py:31-58 | It changes nothing exactly when no number repeats, so a second run changes nothing |
| `Renumber.RanksAreContiguous` | alembic/versions/b7d4f2a9c153_instruments_session_seq.py:41-51 | The rank backfill numbers each session's rows exactly 1 to n |
| `Renumber.BackfillNeedsNoRenumbering` | alembic/versions/b7d4f2a9c153_instruments_session_seq.py:41-51 | Its ranks rise with the id, and renumbering leaves them alone |
| `Renumber.RankCounts` | alembic/versions/b7d4f2a9c153_instruments_session_seq.py:41-51 | The correlated count counts the rows up to this one |
| `FieldKeys.UniqueFieldKey` | alembic/versions/c3a7e9d8b154_segment_18j_wave_3_pr_iii_retire_band2_response_fields_json.py:68-76 | The search ends for every finite set, with the base or the base with the least free suffix from 2, and adds it to the set |
| `FieldKeys.FirstFreeExactly` | alembic/versions/c3a7e9d8b154_segment_18j_wave_3_pr_iii_retire_band2_response_fields_json.py:68-76 | The first free candidate is the base, or where that is in use the base with the least number from 2 on that is free, and nothing else |
| `FieldKeys.UsedBound` | alembic/versions/c3a7e9d8b154_segment_18j_wave_3_pr_iii_retire_band2_response_fields_json.py:72-75 | A finite set cannot hold more candidates than it has members |
| `FieldKeys.SlugShape` | alembic/versions/c3a7e9d8b154_segment_18j_wave_3_pr_iii_retire_band2_response_fields_json.py:61-65 | Every slug is a letter followed by letters, digits and underscores, at most 64 in all |
| `FieldKeys.RunBecomesUnderscore` | alembic/versions/c3a7e9d8b154_segment_18j_wave_3_pr_iii_retire_band2_response_fields_json.py:61-65 | Key characters stay, and each run of others becomes one underscore |
| `FieldKeys.SlugIsCore` | alembic/versions/c3a7e9d8b154_segment_18j_wave_3_pr_iii_retire_band2_response_fields_json.py:61-65 | The slug is what stands between the underscores at either end, or `field`, with `f_` before anything but a letter, cut to 64 |
| `FieldKeys.MigrateFields` | alembic/versions/c3a7e9d8b154_segment_18j_wave_3_pr_iii_retire_band2_response_fields_json.py:172-260 | The loop stops exactly on a named entry whose id passes `isdigit` and makes `int` raise, or whose width makes it raise what is not caught. Otherwise each named JSON entry keeps the field its id names or gets a new row, with a free key and every column read from the entry, in order; its clamped width goes to that field; keys and ids stay distinct and existing rows unchanged |
| `FieldKeys.ColumnsFit` | alembic/versions/c3a7e9d8b154_segment_18j_wave_3_pr_iii_retire_band2_response_fields_json.py:187-237 | What an entry copies into a row fits the columns: one of four types, help text of 1 to 1,000 characters, and bounds that `float` reads, NaN and the infinities among them |
| `FieldKeys.ColumnsByKey` | alembic/versions/c3a7e9d8b154_segment_18j_wave_3_pr_iii_retire_band2_response_fields_json.py:187-237 | Each copied column comes from its own key of the entry, with its own default |
| `FieldKeys.TypeAndHelpByKey` | alembic/versions/c3a7e9d8b154_segment_18j_wave_3_pr_iii_retire_band2_response_fields_json.py:187-237 | The four types by their names, and the help text cut to 1,000 |
| `FieldKeys.EntryByKey` | alembic/versions/c3a7e9d8b154_segment_18j_wave_3_pr_iii_retire_band2_response_fields_json.py:172-186 | The name, the id and the width come from their own keys; an id is an integer, a flag, or a text of digits |
| `FieldKeys.StopsExactly` | alembic/versions/c3a7e9d8b154_segment_18j_wave_3_pr_iii_retire_band2_response_fields_json.py:172-260 | In the entry's own keys, which entries stop the loop: named ones whose id is a text that passes `isdigit` and is no integer, or whose width makes `int` raise what is not caught |
| `FieldKeys.EntryLeaves` | alembic/versions/c3a7e9d8b154_segment_18j_wave_3_pr_iii_retire_band2_response_fields_json.py:180-260 | What a named entry leaves: no row when its id names a field, else one in its place with the label's first 255 characters; and a width of 40 or more, cut to 1,200, under that field |
| `JsonValues.FalsyExactly` | alembic/versions/c3a7e9d8b154_segment_18j_wave_3_pr_iii_retire_band2_response_fields_json.py:175-226 | Exactly nothing and the zero or empty value of each kind are false |
| `FieldKeys.SlugIsNoMatch` | alembic/versions/c3a7e9d8b154_segment_18j_wave_3_pr_iii_retire_band2_response_fields_json.py:178-186 | The docstring's account (lines 14-17) of when an entry gets a row holds if and only if it is not an entry without an id whose slug is taken; that one gets a second row, under the slug and a number |
| `FieldKeys.SecondScore` | alembic/versions/c3a7e9d8b154_segment_18j_wave_3_pr_iii_retire_band2_response_fields_json.py:178-186 | At an input: the entry `Score` beside a field `score` needs no row by that account, and gets one under `score2` |
| `FieldKeys.WidthsWithinBounds` | alembic/versions/c3a7e9d8b154_segment_18j_wave_3_pr_iii_retire_band2_response_fields_json.py:250-260 | Each width is an old one or lies between 40 and 1200 and belongs to a field |
| `RuleIds.DuplicateId` | app/schemas/rules.py:334-345 | The stack ends on every forest of rules, refuses exactly when two nodes anywhere share an id, and the id it names is one that occurs twice |
| `RuleIds.DistinctMeansOnce` | app/schemas/rules.py:334-345 | Distinct places hold distinct ids exactly when no id occurs twice |
| `LeastSquares.FitIsBest` | tools/pace_audit.py:325-331 | Over exact reals the printed line has the least squared error of all lines, for any points and with no spread in x too; with spread it is the only such line |
| `LeastSquares.ErrorsAboutFit` | tools/pace_audit.py:326-331 | Any line's error is what no line avoids, plus squares of its distance from the fit in slope and in height |
| `LeastSquares.ErrorsAround` | tools/pace_audit.py:326-331 | Any line's error, split around any centre |
| `LeastSquares.SlopeTimesSpread` | tools/pace_audit.py:327-330 | The slope times the spread is the cross product, with or without spread, and without spread the slope is 0 |
| `PaceSplit.SplitAll` | tools/pace_audit.py:193-208 | The loop gives each row the durations its own times and the merge before it determine |
| `PaceSplit.CycleIsItsParts` | tools/pace_audit.py:196-208 | A branch's cycle is turn plus iteration plus wait to merge; a stamped turn is wait plus build, neither negative |
| `PaceSplit.SpansByMoment` | tools/pace_audit.py:193-208 | Which two moments each duration lies between, and when it is there |
| `PaceSplit.CyclesTelescope` | tools/pace_audit.py:192-208 | The cycles add up to the time from the first merge to the last |
| `Text.ValueOfDecimal` | alembic/versions/c3a7e9d8b154_segment_18j_wave_3_pr_iii_retire_band2_response_fields_json.py:74 | Decimal text reads back as the number written |
| `Text.DecimalInjective` | alembic/versions/c3a7e9d8b154_segment_18j_wave_3_pr_iii_retire_band2_response_fields_json.py:72-75 | So suffixes differ when their numbers do |
| `Text.LowerExactly` | app/services/audit.py:1004-1013 | Two texts fold alike exactly when they are the same but for the case of ASCII letters |
| `Text.StrippedIsSpace` | app/services/date_formatting.py:206-227 | What is stripped from either end is space, and nothing else is lost |
| `Text.SplitOfJoin` | app/services/audit.py:968-978 | Splitting what was joined gives the pieces back, when none holds the separator |
| `Text.SplitOfJoinExactly` | app/services/audit.py:968-978 | For a non-empty list it does so if and only if no piece holds the separator |
| `Text.PaddedOfValue` | app/services/date_formatting.py:42-47 | A run of digits is the zero-padded text of its value |
| `Text.ValueOfPadded` | app/services/date_formatting.py:42-47 | And zero-padded text reads back as the number |
| `Ordering.SortedMeaning` | alembic/versions/e5c1a9d3b7f2_view_policy_cell_check.py:115 | Sorting gives the same numbers in ascending order |
| `Ordering.SortedSet` | alembic/versions/b4e8c2a9d1f6_assignment_is_self_review.py:217 | Sorting a set gives each member once, ascending |

## Left out

- HTTP, sockets, threads, locks, clocks and sleeping: a transport is a function
  from the attempt to its reply, time is a parameter, and interleavings are
  step sequences. A lock-protected block is one step.
- `_error_code`, `_users` and JSON bodies of the directory: a reply's body is
  text and an answer a list of users.
- LookUp.Classify: the note's wording is a constructor, not the English text.
- Case folding: `str.lower` and `str.casefold` on addresses are arbitrary
  functions; header names and audit emails use ASCII lower case.
- Text: Unicode digits, which a regular expression's `\d` and `int` accept in a
  duration, are not modelled, nor is Python's limit on the digits of one
  integer. A Unicode digit in a date-time box is refused here as there.
- DateTimeBox: zones have a fixed offset; daylight-saving transitions, where
  the round trips do not hold, and zone lookup by name are left out, and
  `gmt_offset_label` with them. Hour 24 is refused, as Python before 3.14 does.
- ReleaseWindow.WindowSurvives: `total_seconds` is exact here, while Python
  rounds it to a float past about 270 years. The column refuses a longer text,
  as Postgres does; SQLite would store it.
- Schema changes, SQLAlchemy and transactions: only rows move. Where a loop
  raises half-way the database undoes the step, and the model says only when
  it raises.
- AuditSchema.Validate: the registry is an arbitrary map, and the integer the
  shape check reads from a text is an arbitrary function. Dates are already
  ISO texts, so `_serialise` has nothing to do.
- AuditLog.AuditLog.WriteEvent: the deprecation and schema warnings, the
  report to a session's owners after a write, and gaps in the id sequence are
  left out.
- AuditQuery.DescribeFilters: a zone is its name with a fixed offset.
- AuditPaging.Walk: between pages rows are appended with later ids; a
  transaction that commits an earlier id late is not modelled.
- Duplication.CountDuplicated: the digest is assumed injective; reading files,
  percentages and the list of worst files are left out.
- SelfReview.ClassifySession: one session's rows with their joins are given;
  the loop over sessions only repeats it.
- FieldKeys.MigrateFields: `float`, `int`, `isdigit` beyond ASCII and the text of
  a value that is no text are arbitrary functions; the rewriting of
  `band2_state` around the loop is left out.
- SqlMeaning.TextMeansCheck: audiences and modes hold no quote, which the
  generator does not double; the reader knows the part of SQL the text uses.
- LeastSquares.FitIsBest: over exact reals; floating-point rounding and the
  printed decimals are left out.
- PaceSplit.SplitAll: the rows are given in merge order; reading them from git
  is left out.
- RuleIds.DuplicateId: leaf rules carry their id only, and the operand rules of
  `Predicate` are left out as single-function checks.
- `app/services/account_listing.py`, `tools/practice_kit.py`,
  `tools/_harness_common.py`, the relationships backfill `e43454fceb1c` and
  `_normalised`: their properties follow from one body each.
- The rules engine, lifecycle and scheduled-event services are not part of this
  model.

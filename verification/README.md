# Costcrew's ledgers and crew, modelled and proved

Costcrew keeps a set of small databases honest by hand: a ledger of AI calls read from gateway
exports, cloud bills read from synced folders, a provider's own usage reports and their
reconciliation with the gateway, the settlement of live spend into cents, a planner that routes
work to analysts, and the life cycles of anomalies, halts and mandates. This project models the
algorithms that write those tables and proves what they keep, over every input, every run and
every sequence of imports.

`dafny verify dfyconfig.toml` checks everything. A table is a map from its primary key to a row;
a file is its hash, its parsed rows in order and whether it could be read to its end; a
transaction or savepoint is a copy restored on failure. Code that changes tables is a class whose
methods are proved against a function of the old state, and the laws are lemmas about that
function. Where the code ranges over a map, the model takes the keys in an arbitrary order.

## The modules

| files | what they hold |
|---|---|
| `Arith`, `CheckedSums`, `Tables`, `Grouping`, `Sorting`, `Text`, `Lists`, `Wrappers` | 64-bit wrapping, rounding of ratios, guarded sums, SUM and GROUP BY over maps, sorting by a strict total order, text and comma-joined lists |
| `CallLedger`, `CallIdentity`, `CallHistory`, `CallOrder`, `CallMoney`, `CallCharges` | the gateway's call ledger: which call a row is, superseding copies of one call, importing again, the order of the files and the money it can cost, its days and its attribution |
| `CloudLedger`, `CloudSummary`, `CapReader` | the cloud bill: replacement by path, the figures of an import, the byte-capped reader |
| `Charges`, `Books`, `Estate` | the derived charges table, what it says of the raw rows, and the store in which both imports run |
| `Decimals`, `FocusDecimal`, `JsonNumbers`, `StrictJson` | exact decimals, E notation, JSON numbers and the strict JSON reader |
| `UsageFile`, `ProviderUsage`, `Reconcile` | provider usage files, day replacement and the reconciliation |
| `Settlement` | largest-remainder settlement of live spend |
| `Routing`, `Cadence`, `PlanAnswer` | deterministic planning and the check on a model's answer |
| `Anomalies`, `Halts`, `Mandate`, `Startup`, `Tallies` | life cycles, halts, startup passes, the refusal tally |

The conditions the laws of whole runs share are these: a hash fixes what is in a gateway file
(`OneContent`) and on which days a cloud file reports its rows, whatever the settings
(`OneSetOfDays`); a walk lists a path once (`Folder`); and the tables of roles and rights fit
together (`Startup.Sound`). That a hash is read through one door (`OneDoor`) is asked only where
the last of the newest files is named as a call's holder; with it no call is contested
(`OneDoorIsUncontested`).

## What came out

The main results hold as the code's comments promise them. These are the places where they do
not hold without a condition; each has a lemma with the input and the exact condition.

- The key that tells copies of a call joins run, instant, model and figures with bars, so a bar in
  a run or a model can make two calls one (`BarMovesTheInstant`). A key tells its call from every
  other exactly when neither holds a bar (`KeyTellsTheCallIff`); such a call, once carried by a
  readable file, is never without a row in the ledger (`NoCallLeavesTheLedger`).
- One file's bytes under two doors take a call away from the first door
  (`SharedBytesLeaveOneDoor`). A carried call is lost in no order of the files, and the generation
  kept for it is the same in every order, exactly when no file of the newest generation carrying
  it has its bytes read under another door (`LostInNoOrderIff`, `GenerationIsOrderFreeIff`); in one
  given order the last of the newest holds it exactly when its bytes are not read elsewhere after
  it (`LatestHoldsIff`). Where every export repeats a call equally often, what a call is billed
  depends on the order exactly when it is contested, files of different bytes have it, and it
  costs something (`MoneyIsOrderFreeIff`).
- A file moved between doors can take two imports to settle (`MovedFileNeedsTwoImports`). Two
  always settle (`ThirdImportChangesNothing`), one does from an empty store
  (`ImportTwiceFromEmpty`), and otherwise one does exactly when no call was held by a file newer
  than any the folder has for it, whose bytes the folder holds under another door, and which the
  files after those bytes leave elsewhere than the whole folder does
  (`SecondImportChangesNothingIff`).
- A cloud row that the same bytes left under earlier settings, and that the present settings
  refuse, stays in the table and among the charges, because the replacement of a path spares the
  file's own hash (`NarrowedSettingsLeaveTheirRows`). A kept file is all its path holds exactly when
  there is no such row (`KeptFileIsItsPathIff`).
- A duplicate of a cloud file is skipped before the stale rows of its own path are cleared
  (`DuplicateLeavesItsPathStale`). A file that is read to its end within the limits clears its path
  of other content exactly when no earlier file of the folder has its bytes, or kept files have
  every such row (`ReadRevisionReplacesIff`; for every file, `ClearsItsPathIff`). Which files an
  import keeps is told from the folder alone (`KeptIff`).
- A service that vanishes from a rebuilt day stays attributed: a newer export that files a call
  under another unit leaves the older unit's row standing (`MovedTeamStaysAttributed`,
  `VanishedServiceStaysAttributed`, `ExactIffNoServiceVanished`).
- The decimal reader accepts a sign after the point, so "1.+5" reads as 1.05; an accepted text is
  a plain decimal exactly when no sign stands there (`SignInTheFraction`,
  `AcceptedIsPlainIffNoSignAfterPoint`). A plain decimal with a very long fraction is refused
  because the digits past the sixth must themselves fit 64 bits (`LongFractionIsRefused`).
- A reconciliation cell is added up unguarded, so a provider total can be reported short of its
  lines by whole multiples of 64 bits (`WrappedCellIsReported`). By how many is told exactly
  (`MoneyIsConserved`); the gateway's side never is short (`GatewayIsConserved`), and the provider's,
  where it gives no credits, exactly when some day and model leaves 64 bits by itself
  (`ProviderIsConservedIff`). The running sum of the import that stores such lines
  (`internal/connectors/providerusage.go:1288`) refuses them unless a credit of about that size
  sorts before them: imports that bring no credits never store a day of a connector, and so never
  a cell, that leaves 64 bits (`CreditFreeImportFits`, `NoCellLeaves64Bits`).
- A gap is subtracted unguarded, and one past 64 bits wraps: the highest gateway figure against a
  credit of one is called matched and against a credit of ten is called under, where the rule says
  over (`WrappedGapIsMisjudged`). A covered row is judged by the rule exactly when its true gap fits
  64 bits, but for one pair of figures that is matched either way (`StatusIsMeantIff`,
  `RowsAreJudged`); the reported total gap is the difference of the totals exactly when that fits
  (`Reconcile`), and the total of the rows' gaps exactly when as many of them wrapped as it did
  (`GapIsTheGapsIff`).
- Whether reconciliation totals are refused can depend on the order a map is ranged over; the
  lists for which it cannot are characterised (`RefusedInNoOrder`).
- With at most one triage analyst at work on a desk, an anomaly is given to the desk's triage
  name whatever that analyst's state or headroom (`NamedIsWellRoutedIff`, `SuspendedTriageIsNamed`).
- Assigning an open anomaly to nobody erases the explanation it carries, also one that was
  assigned to somebody after it was explained (`AssigningKeepsTheReasonIff`). Accepting one writes
  the acceptance's own words over the explanation, although the comment says that it stands
  (`AcceptingKeepsTheReasonIff`); both are written out in `ExplanationIsLost`.
- A halt cannot be lifted while somebody it suspended is gone from the roster
  (`LiftSucceedsIff`, `LiftFailsWhileSomebodyIsGone`). A lift makes everybody it reaches active and
  blanks the reason: an analyst restricted for a reason while the desk was halted is back at work
  without it (`DecisionDuringAHaltIsLost`, `LiftKeepsADecisionIff`).
- The backfill overwrites words somebody chose in the hire form: either parent it offers, the
  weekly report, the desk as audience, whenever the row lacks something else and the role says
  another (`FormDefaultsAreOverwritten`, `ChosenParentIsOverwritten`); column by column,
  `DecisionsStandIff` says when. Its comment promises that such an analyst keeps every word.
- An analyst somebody deliberately gave to the seeding account is moved to the desk's owner at the
  next start, although the comment says that no decision is overridden (`PlacementStandsIff`).
- Each startup pass is done after one start, but the four together are not: a row whose rights
  are all retired is emptied by the third pass and filled by the first on the next start, and a
  suspended analyst's row so emptied has its default words overwritten then. When the first start
  is the last to change a row is told exactly, and the second always is (`FirstStartIsTheLastIff`,
  `RetiredRightTakesTwoStarts`, `SecondStartIsTheLast`).

The code and its comments disagree in three more places, and the model follows the code:
`chooseAnalyst` puts the preferred engine before headroom although its first comment says
headroom first (`internal/crew/plan.go:833-839`); `ValidatePlanAnswer` reads the first fenced
block although the comment on its pattern says the last (`internal/crew/plan_ask.go:37-41`); and
`SettleLiveSpend` returns the whole run's cents, not only what a call newly booked.

## Model

| member | source | states |
|---|---|---|
| CallLedger.LedgerIsExactlyTheHistory | internal/connectors/tokenfusefocus.go:403-452 | after any sequence of imports the table holds, row for row and value for value, the rows of the files that still hold their calls, although each import puts back rows an earlier one deleted |
| CallLedger.HolderIsLatestOfNewest | internal/connectors/tokenfusefocus.go:1437-1461 | with one door per hash, the file that holds a call is the last one read among those of the highest export generation carrying it |
| CallLedger.OneSurvivor | internal/connectors/tokenfusefocus.go:1437-1461 | a stored row survives from one reading of its file only |
| CallHistory.StoredIffHolderHas | internal/connectors/tokenfusefocus.go:403-452 | a row is stored exactly when the file holding its call carries it, with that file's values |
| CallHistory.OneFilePerCall | internal/connectors/tokenfusefocus.go:1437-1461 | all rows of one call on one door come from one file, the latest of the newest generation |
| CallHistory.CallIsOnDoor | internal/connectors/tokenfusefocus.go:1437-1461 | a call is on a door exactly when some file holds it there |
| CallHistory.SameHoldersSameTable | internal/connectors/tokenfusefocus.go:403-452 | histories in which each call is held by the same file leave the same table |
| CallHistory.SameTableSameHolders | internal/connectors/tokenfusefocus.go:403-452 | and one table has one holder for each call |
| CallHistory.TracesMeet | internal/connectors/tokenfusefocus.go:1437-1461 | whoever held a call before, reading the same files ends alike once one of them carries it from an export as new |
| CallHistory.ImportTwiceFromEmpty | internal/connectors/tokenfusefocus.go:358-373 | from an empty store a second import of the same folders leaves the table the first left, shared bytes or not |
| CallHistory.ThirdImportChangesNothing | internal/connectors/tokenfusefocus.go:358-373 | whatever was imported before, two imports of the same folders settle the table |
| CallHistory.SecondImportChangesNothingIff | internal/connectors/tokenfusefocus.go:358-373 | one import settles it if and only if no call was held by a newer file whose bytes the folder has under another door with other files deciding after them; with one door per hash it always does |
| CallOrder.KeyTellsTheMoney | internal/connectors/tokenfusefocus.go:183-200 | two calls of one key carry the same amount, tokens and blocked flag |
| CallIdentity.KeyIsTheCall | internal/connectors/tokenfusefocus.go:183-200 | without a bar in instant or model, two calls have one key if and only if run, instant, model, both token counts, amount and blocked flag are equal; agent, team and day do not count |
| CallIdentity.KeyTellsTheCallIff | internal/connectors/tokenfusefocus.go:197-200 | a key tells its call from every other if and only if neither its run nor its model holds a bar |
| CallIdentity.BarMovesTheInstant | internal/connectors/tokenfusefocus.go:197-200 | two calls of different instants with one key |
| CallIdentity.RowLeavesIff | internal/connectors/tokenfusefocus.go:1437-1461 | a row is deleted if and only if it gives way to a row of the same run, instant, model, figures and flag: one of another file on the door, of no more optional columns, to the file's; the file's own to one of more columns |
| CallIdentity.NoCallLeavesTheLedger | internal/connectors/tokenfusefocus.go:403-452 | after any history every call some readable file carried has a row, all seven of its fields, whatever was imported after it and through whichever door; and every row is a line of a readable file as that file has it |
| CallOrder.TotalIsOrderFree | internal/connectors/tokenfusefocus.go:1437-1461 | from an empty store the total billed does not depend on the order of the files, when no call is contested and every export repeats a call equally often |
| CallOrder.OneDoorIsUncontested | internal/connectors/tokenfusefocus.go:1437-1461 | with one door per hash no call is contested, so the laws of uncontested calls hold |
| CallMoney.MoneyIsOrderFreeIff | internal/connectors/tokenfusefocus.go:1437-1461 | what a call is billed is the same in every order of the files if and only if it is uncontested on both doors, or one file's bytes alone have it, or no readable copy of it costs anything |
| CallMoney.OrdersDiffer | internal/connectors/tokenfusefocus.go:1437-1461 | for any other call, two orders of the same files that bill it differently |
| CallMoney.OneHashOneMoney | internal/connectors/tokenfusefocus.go:1437-1461 | a call only one file's bytes have is billed once, through whichever doors those are read |
| CallMoney.TotalIsOrderFreeCallByCall | internal/connectors/tokenfusefocus.go:1437-1461 | the total billed is the same in every order when that holds of every call |
| CallOrder.LatestHoldsIff | internal/connectors/tokenfusefocus.go:1437-1461 | in a given order the last read of the newest generation holds a call if and only if its bytes are not read through another door afterwards |
| CallOrder.LostInNoOrderIff | internal/connectors/tokenfusefocus.go:1437-1461 | a call a readable file carries is lost in no order of the files if and only if no newest file carrying it has its bytes under another door |
| CallOrder.NoCallIsLost | internal/connectors/tokenfusefocus.go:1437-1461 | such a call is on the door exactly when some readable file carries it there |
| CallOrder.GenerationIsOrderFreeIff | internal/connectors/tokenfusefocus.go:676-690 | the generation kept for a call is the same in every order of the files if and only if its bytes are not so contested |
| CallHistory.SharedBytesLeaveOneDoor | internal/connectors/tokenfusefocus.go:1437-1461 | bytes shared by two doors: a concrete history in which a carried call is on its door no more |
| CallHistory.MovedFileNeedsTwoImports | internal/connectors/tokenfusefocus.go:403-452 | a file moved between doors: a concrete folder whose second import changes the table again |
| CallCharges.StepTouches | internal/connectors/tokenfusefocus.go:432-452 | reading one file leaves every day as it was but those of its rows and of the rows it superseded |
| CallCharges.SupersededAreTheDeleted | internal/connectors/tokenfusefocus.go:1437-1461 | the days reported for the two deletions are those of the rows they delete and no others |
| CallCharges.SameCallsSameEntries | internal/connectors/tokenfusefocus.go:1612-1676 | days whose calls stand have unchanged ledger entries, blocked calls counting for nothing |
| CallCharges.OneTopAgent | internal/connectors/tokenfusefocus.go:1688-1748 | the agent a service's day is attributed to is one agent, by money and then by name |
| CallCharges.LeadersAreTopAgents | internal/connectors/tokenfusefocus.go:1688-1748 | picking leaders while groups go by in any order picks each service's top agent |
| CallCharges.ExactIffNoServiceVanished | internal/connectors/tokenfusefocus.go:1688-1748 | a rebuilt day is attributed exactly as its calls say if and only if every service attributed before is still live |
| CallCharges.UntouchedDayStaysAttributed | internal/connectors/tokenfusefocus.go:1688-1748 | a day no row moved on keeps its services attributed to their top agents |
| CallCharges.MovedTeamStaysAttributed | internal/connectors/tokenfusefocus.go:1688-1748 | two imports of one call, the second under another unit: the first unit's attribution row outlives its call |
| CallCharges.VanishedServiceStaysAttributed | internal/connectors/tokenfusefocus.go:1688-1748 | the two exports written out |
| Books.GatewayIsBooked | internal/connectors/tokenfusefocus.go:1612-1676 | there is a charge for a day, team, provider, model and invoice exactly when a call of theirs was neither blocked nor priced off the book; it is the nearest cent to the sum of those calls' micros, beside the sum of their tokens |
| Books.TopAgentIsNamed | internal/connectors/tokenfusefocus.go:1688-1748 | a service of a day with such calls is attributed to an agent who made some, whom nobody outspent, and of equals the first by name |
| Charges.Cents | internal/money/money.go:303-314 | the cent nearest to an exact amount, half a cent away from zero |
| Charges.IncrementalEqualsRecomputed | internal/connectors/tokenfusefocus.go:1612-1676 | rebuilding only the days on which rows moved leaves what deriving every day from scratch would, and no other connector's charges move |
| Charges.RebuildInSteps | internal/connectors/tokenfusefocus.go:1612-1676 | rebuilding days one after another is rebuilding them together, whatever their order |
| Grouping.GroupBy | internal/connectors/tokenfusefocus.go:1640-1660 | one answer row per group with the exact sums of its rows, in whatever order rows are visited |
| CloudLedger.KeptIff | internal/connectors/cloudfocus.go:351-404 | a file is kept if and only if no earlier file that is not skipped has its bytes, it is read to its end, and its absolute amounts with those of the files kept before it fit 64 bits |
| CloudLedger.ImportClosedForm | internal/connectors/cloudfocus.go:351-418 | what an import leaves of any one row, in terms of the kept files and the table before, whatever settings that was stored under |
| CloudLedger.KeptFileAndLeftovers | internal/connectors/cloudfocus.go:661-685 | the rows at a kept file's path are that file's rows, and those of its bytes that only earlier settings accepted |
| CloudLedger.KeptLinesAreStored | internal/connectors/cloudfocus.go:569-687 | each accepted line of a kept file is stored under its hash and number, column for column, at the file's path |
| CloudLedger.KeptFileIsItsPathIff | internal/connectors/cloudfocus.go:681-684 | a kept file is all its path holds if and only if no row of its bytes is stored there that the present settings refuse |
| CloudLedger.NarrowedSettingsLeaveTheirRows | internal/connectors/cloudfocus.go:681-684 | a concrete file imported again under narrower settings, whose row stays in the table and the charges |
| CloudLedger.UnkeptPathStands | internal/connectors/cloudfocus.go:375-404 | a path none of whose files the folder keeps has its earlier version, but for rows a kept file has elsewhere |
| CloudLedger.BrokenRevisionLeavesItsPath | internal/connectors/cloudfocus.go:375-404 | a revision that breaks off leaves every row its path held, unless a kept file elsewhere has it |
| CloudLedger.OtherConnectorsStand | internal/connectors/cloudfocus.go:351-418 | no other connector's row moves |
| CloudLedger.AbsTotalIsTheMost | internal/connectors/cloudfocus.go:984-1027 | what bounds a kept file's amounts is the most any selection of them adds up to, either way: those above zero less those below |
| Books.CloudIsBooked | internal/connectors/cloudfocus.go:1188-1219 | there is a charge for a day, service, team, category and invoice exactly when the connector's rows with these do not come to nothing; it is the nearest cent to their sum, credits subtracted |
| CloudLedger.KeptIsDecidedByTheFolder | internal/connectors/cloudfocus.go:363-404 | which files are kept does not depend on what the table held |
| CloudLedger.ImportTwiceIsImportOnce | internal/connectors/cloudfocus.go:351-418 | importing a folder again under the same settings changes no row, whatever was stored before the first time |
| CloudLedger.ReachableTablesHoldOneHashPerPath | internal/connectors/cloudfocus.go:661-685 | in every table any sequence of imports reaches, each path of a connector holds one content |
| CloudLedger.ReachableDaysAreFixed | internal/connectors/cloudfocus.go:407-412 | after any imports, under any settings, the next folder finds its stored rows on the days it reports them on |
| CloudLedger.ImportTouches | internal/connectors/cloudfocus.go:407-412 | the days an import rebuilds cover every day on which a row was written or made stale |
| CloudLedger.ClearsItsPathIff | internal/connectors/cloudfocus.go:363-370 | a file of the folder clears its path of other content if and only if the folder keeps it or kept files have every such row |
| CloudLedger.ReadRevisionReplacesIff | internal/connectors/cloudfocus.go:363-404 | a file read to its end within the limits clears its path of other content if and only if no earlier file has its bytes, or kept files have every such row |
| CloudLedger.DuplicateLeavesItsPathStale | internal/connectors/cloudfocus.go:363-370 | a concrete folder in which a duplicate leaves other content standing at its own path |
| Estate.Store.ImportCalls | internal/connectors/tokenfusefocus.go:288-495 | over the store: the ledger gains exactly the files' history, every connector's charges are again the group-by of its raw rows on every day, every live service of every day has its top agent but where a generated estate took it, refused imports change nothing, and attribution moves only on the days the files report |
| Estate.Store.ReadFile | internal/connectors/tokenfusefocus.go:602-772 | a file's accepted rows are upserted in order by hash and row number, and a file that breaks off is reported |
| Estate.Store.DeriveCharges | internal/connectors/tokenfusefocus.go:1612-1676 | the touched days are cleared and derived again, nothing else is written |
| Estate.Store.DeriveAttribution | internal/connectors/tokenfusefocus.go:1688-1748 | on each touched day every live service is attributed to its top agent, and nothing is removed |
| Estate.Store.ImportCloud | internal/connectors/cloudfocus.go:276-437 | the same for a cloud folder after any earlier ones: the table is the import's, all charges are views again on every day, other charges and the attribution stand |
| Estate.ReachableStoreIsBooked | internal/connectors/tokenfusefocus.go:288-495 | whatever was imported in whatever order, every charge of the three connectors is its raw rows' sum, every service not lost with a generated estate is its top spender's, and no call has left the ledger |
| Estate.OthersAreKept | internal/connectors/tokenfusefocus.go:288-357 | an import leaves every charge of another connector as it was and none of a generated estate |
| Estate.Store.ReadCloudFile | internal/connectors/cloudfocus.go:569-687 | rows are written until the file ends or its absolute amounts would pass 64 bits, and only then is it kept |
| Estate.ReimportChangesNothing | internal/connectors/tokenfusefocus.go:358-373 | three imports of the same folders: the third changes no row, charge or attribution, the second none exactly when the first left nothing unsettled, and none at all into a store without exports |
| Estate.CloudReimportChangesNothing | internal/connectors/cloudfocus.go:405-412 | likewise the rows and charges of a cloud folder imported twice, whatever the store held |
| CloudSummary.Summary.Accept | internal/connectors/cloudfocus.go:984-1027 | a row is folded in unless the absolute total would pass 64 bits, and the summary still reports one pass over all it took |
| CloudSummary.Summary.Merge | internal/connectors/cloudfocus.go:1029-1064 | merging two files' summaries gives the summary of one pass over both: totals, categories, days, counts and first refusals |
| CloudSummary.Summary.Refuse | internal/connectors/cloudfocus.go:973-978 | a refusal is counted and, among the first twenty, named, and nothing else moves |
| CloudSummary.OneMoreAccepted | internal/connectors/cloudfocus.go:984-1027 | one more row is counted once, as credit, tagged, unusable, spread or correction exactly where it is one, and its amount added once |
| CloudSummary.OneMoreRefused | internal/connectors/cloudfocus.go:973-978 | one more refusal is counted with its reason and moves nothing else |
| CloudSummary.NothingFoldedYet | internal/connectors/cloudfocus.go:984-1027 | a summary that folded nothing reports nothing |
| CloudSummary.NamedUpTo | internal/connectors/cloudfocus.go:973-1027 | ten thousand sub accounts and twenty refusals are named, and where there are more that is said |
| CloudSummary.TotalIsTheCategories | internal/connectors/cloudfocus.go:984-1027 | the total is the sum of the category totals |
| CloudSummary.NoSelectionOverflows | internal/connectors/cloudfocus.go:984-1027 | no selection of the accepted amounts adds up past 64 bits |
| Tallies.RefusalTally.Add | internal/connectors/csvfolder.go:28-33 | every refusal is counted and the first twenty are named |
| Tallies.RefusalTally.AddAll | internal/connectors/csvfolder.go:36-44 | folding one tally into another is the tally of both lists read as one |
| Tallies.FirstOfJoin | internal/connectors/csvfolder.go:36-44 | cutting the second list first loses none of the names kept |
| CapReader.Capped.Read | internal/connectors/cloudfocus.go:519-534 | below the limit the stream's own answer; at it nothing more, and the named error exactly when a further byte came |
| CapReader.ReadAll | internal/connectors/cloudfocus.go:510-534 | however reads are chunked: the whole stream and its own ending when it fits, else exactly the first limit bytes and the named error |
| Arith.RoundAway | internal/connectors/providerusage.go:568-577 | quotient and remainder rounding gives the nearest whole number, ties away from zero |
| Arith.NearestAwayIsUnique | internal/connectors/providerusage.go:568-577 | there is one such number |
| Arith.NearestAwayScales | internal/connectors/providerusage.go:566-574 | bringing the ratio to lowest terms does not change it |
| Decimals.ExpandExponentIsExact | internal/connectors/cloudfocus.go:840-866 | E notation is expanded exactly when the mantissa is a plain decimal, into a plain decimal of exactly mantissa times ten to the exponent in all three point positions |
| Decimals.DecimalReads | internal/money/money.go:232-295 | a sign or none, digits, a point and digits are worth the digits over ten to the places, below zero behind a minus only |
| Decimals.WholeReads | internal/money/money.go:232-295 | a whole number is worth its digits, below zero behind a minus, where 64 bits hold it |
| Decimals.ParseMicrosIsExact | internal/money/money.go:232-295 | a plain decimal is read as its value in micros rounded once, exactly when that and its digits past the sixth fit 64 bits |
| Decimals.ScaleUp | internal/money/money.go:200-205 | whole times the unit plus part, exactly when both are non-negative and the result fits |
| Decimals.AcceptedIsPlainIffNoSignAfterPoint | internal/money/money.go:232-295 | an accepted text is a plain decimal if and only if no sign stands after its point |
| Decimals.SignInTheFraction | internal/money/money.go:256-285 | "1.+5" is accepted as 1,050,000 micros |
| Decimals.LongFractionIsRefused | internal/money/money.go:273-285 | a tenth of a micro with twenty-six places is refused |
| FocusDecimal.ParseFocusDecimal | internal/connectors/cloudfocus.go:805-835 | a FOCUS number is read as its value rounded once; it is out of range exactly from a thousand million on, unreadable past 64 characters, past ten to the forty or when its digits past the sixth leave 64 bits, and for nothing else; what is accepted is one but for a stray sign |
| FocusDecimal.NumberReads | internal/connectors/cloudfocus.go:805-866 | an e of either case multiplies what stands before it by the power of ten behind it |
| JsonNumbers.ReadPrints | internal/connectors/providerusage.go:541 | the pattern accepts exactly the numbers of section 6 of RFC 8259 and splits each in the one way it is written |
| JsonNumbers.LiteralIsWorth | internal/connectors/providerusage.go:550-585 | a literal is worth its digits over ten to the places behind the point times ten to its signed exponent |
| JsonNumbers.DecimalMicros | internal/connectors/providerusage.go:550-585 | a literal times ten to the shift, rounded once, or refused for its length, shape, exponent or size in that order |
| StrictJson.PrintedIsRead | internal/connectors/providerusage.go:340-405 | parsing inverts printing, whatever tokens follow, for every document within the bounds |
| StrictJson.ReadIsPrinted | internal/connectors/providerusage.go:340-405 | what is parsed is printed by the tokens consumed and lies within the bounds |
| StrictJson.Reader.Value | internal/connectors/providerusage.go:340-405 | the recursive reader over the decoder's position and node count answers as the parse does, error for error |
| StrictJson.Decode | internal/connectors/providerusage.go:316-331 | a value is answered if and only if the tokens spell it: each scalar its own token, items in order, fields in some order of their keys, within so many values and sixteen levels; every other sequence is refused |
| StrictJson.AcceptedIsSpelled | internal/connectors/providerusage.go:340-405 | the tokens that spell a value are those that print a document of it without a repeated key |
| UsageFile.UsageRows.Add | internal/connectors/providerusage.go:612-634 | a line is added exactly when its row stays within 64 bits or there are fewer than two million rows |
| UsageFile.TallyAddsUp | internal/connectors/providerusage.go:612-634 | each row holds the figures met under its key added up, and there is no other row |
| UsageFile.FiguresAreConserved | internal/connectors/providerusage.go:612-634 | token and micro sums over the rows are those over the lines |
| UsageFile.ParseUsageFile | internal/connectors/providerusage.go:655-747 | a file is accepted exactly when its last page ends it, it holds a bucket, no day comes twice and every line can be added; then it has a row exactly where a line is reported, and each row is the sum of its day's lines of one model, token type, key and scope |
| ProviderUsage.LastCarrierWins | internal/connectors/providerusage.go:1129-1148 | a day's figures come from the last file by name that carries it, among those whose bytes no earlier file had |
| ProviderUsage.UsageStore.Import | internal/connectors/providerusage.go:1085-1230 | a reported day holds the rows of the last file that reports it among the first of their bytes, and names that file; all else stands, no primary key collides, an error changes nothing, and without credits no day leaves 64 bits |
| ProviderUsage.ImportTwiceIsImportOnce | internal/connectors/providerusage.go:1196-1228 | a second import of the same folder changes neither table |
| ProviderUsage.ReportedSumsAreExact | internal/connectors/providerusage.go:1288-1316 | the reported cost, input and output tokens are the exact sums and no partial sum left 64 bits |
| ProviderUsage.SumsFitIff | internal/connectors/providerusage.go:1288-1316 | the sums are refused exactly where a partial sum of the costs or a direction's tokens leaves 64 bits |
| ProviderUsage.OneRowAdds | internal/connectors/providerusage.go:1288-1316 | a cost row adds to the cost, a usage row to the tokens of its direction, and to nothing else |
| ProviderUsage.KeyOrder | internal/connectors/providerusage.go:1232-1241 | rows are ordered by report, day, model, token type, key and scope |
| ProviderUsage.SumRows | internal/connectors/providerusage.go:1150-1176 | the sums are checked in the one ascending order of the rows' keys |
| ProviderUsage.CreditFreeImportFits | internal/connectors/providerusage.go:1278-1300 | an import that brings no credit leaves every day of every connector within 64 bits, if it was before |
| ProviderUsage.NoCellLeaves64Bits | internal/connectors/providerusage.go:1278-1300 | and then no model's cost on a day leaves them |
| Sorting.OneAscendingOrder | internal/connectors/providerusage.go:1232-1241 | a set has one ascending arrangement under a strict total order, so no result depends on the sort |
| Text.FirstDifferenceDecides | internal/connectors/providerusage.go:1232-1241 | texts are ordered by the first character that differs, and behind what they begin with |
| CheckedSums.AddMicros | internal/connectors/reconcile.go:326-332 | the wrap test answers the exact sum exactly when it fits 64 bits |
| CheckedSums.RefusedInNoOrder | internal/connectors/reconcile.go:298-315 | totals are refused in no order if and only if the amounts above zero and those below each fit by themselves |
| Reconcile.Join | internal/connectors/reconcile.go:193-286 | one row for each day and model either side knows, holding every figure of both sides as 64 bits keep it |
| Reconcile.LinesAreConserved | internal/connectors/reconcile.go:194-286 | every line lands in exactly one row, so the rows add up to the lines |
| Reconcile.OneLineMoves | internal/connectors/reconcile.go:193-286 | one more line moves figures of its own day and model only: a cost line the provider's money, a usage line the tokens of its direction if it has one, a gateway line all four of the gateway's |
| Reconcile.Reconcile | internal/connectors/reconcile.go:288-324 | one row exactly where a line is, with both sides and the gap as 64 bits keep them; marked covered exactly on covered days and answering that the provider is missing exactly on the others; gap and status of a covered row those of the true difference exactly when that fits; totals refused as the guard says; the total gap is the difference of the totals exactly when that fits; each status is counted as often as rows have it, and covered and missing days make up the window |
| Reconcile.RowsAreJudged | internal/connectors/reconcile.go:296-302 | where no gateway call is below zero and the gateway gives one line for a day and model, every covered row is judged by the rule on its true gap if and only if that gap fits 64 bits, the lowest figure against nothing apart; the gateway's figure is its line, the provider's its lines exactly when they fit |
| Reconcile.GapIsTheGapsIff | internal/connectors/reconcile.go:300-315 | the total gap and the rows' gaps, told by how often each left 64 bits: they agree if and only if that is equally often |
| Reconcile.MoneyIsConserved | internal/connectors/reconcile.go:298-315 | a reported total is the whole of its side's lines, less 64 bits for every time a cell left them |
| Reconcile.GatewayIsConserved | internal/connectors/reconcile.go:262-286 | the gateway's total is always the whole of its lines, one for a day and model |
| Reconcile.ProviderIsConservedIff | internal/connectors/reconcile.go:227-258 | where the provider gives no credits, its total is the whole of its lines if and only if every day and model stays within 64 bits |
| Reconcile.WrappedCellIsReported | internal/connectors/reconcile.go:227-258 | two concrete lines whose total is reported as -2 |
| Reconcile.SplitProductIsExact | internal/connectors/reconcile.go:344-348 | the split product is floor of magnitude times basis points over ten thousand, and no step of it leaves 64 bits |
| Reconcile.StatusIsMeantIff | internal/connectors/reconcile.go:300-302 | the status coded on the wrapped gap is the tolerance rule's on the true difference if and only if the row is not covered, the difference fits 64 bits, or the provider's figure is the lowest number against nothing under a tolerance of all of it |
| Reconcile.RuleInAmounts | internal/connectors/reconcile.go:335-361 | a covered difference is matched exactly within so many cents or so many basis points of the provider's figure, unrounded, and else under or over by its sign |
| Reconcile.WrappedGapIsMisjudged | internal/connectors/reconcile.go:335-361 | the highest gateway figure against a credit of ten is called under and against a credit of one matched, where the rule says over |
| Reconcile.Window | internal/connectors/reconcile.go:166-191 | a window asked for is granted exactly when it is neither back to front nor longer than 366 days; what is not asked for comes from the latest day and 31 days back, and a store without days answers that it has none exactly when a side is wanting |
| Reconcile.CountDays | internal/connectors/reconcile.go:288-294 | covered and missing days, which add up to the window |
| Settlement.Board.SettleLiveSpend | internal/crew/provenance.go:98-177 | the tasks that cost anything carry in all the run's exact cost rounded up once, each the floor or ceiling of its own; nobody has the odd cent behind somebody without it, by fraction and then by number; what else they spent stands, and a task that cost nothing is not written |
| Settlement.BehindRanksHigher | internal/crew/provenance.go:147-152 | whoever stands behind another by fraction and number is served later |
| Settlement.HandOut | internal/crew/provenance.go:147-157 | the remainders never run out before the bill is met |
| Settlement.ExtraIsCovered | internal/crew/provenance.go:132-157 | there are remainders enough, and no task without a fraction of a cent is given one |
| Settlement.RankIsPlace | internal/crew/provenance.go:147-152 | what a task is given depends on how many remainders precede its own, not on the sort |
| Settlement.OnlyLiveCentsMove | internal/crew/provenance.go:159-175 | spent minus live cents is unchanged for every task |
| Settlement.SettleTwiceIsSettleOnce | internal/crew/provenance.go:159-175 | a second settlement writes no task |
| Routing.CandidatesWithSkill | internal/crew/plan.go:795-809 | active analysts of the desk holding the skill, and only they |
| Routing.QualifiedAreThoseWhoQualify | internal/crew/plan.go:795-809 | each exactly as often as the roster has them |
| Routing.BeforeOrders | internal/crew/plan.go:874-887 | preferred engine, headroom and name make one consistent order that tells names apart |
| Routing.ChooseAnalyst | internal/crew/plan.go:840-889 | the best candidate with headroom, none exactly when all lack it, everybody dropped named |
| Routing.BestLeads | internal/crew/plan.go:840-889 | the choice has money left; nobody funded runs on the engine its class prefers unless it does, and none level there has more money left, or as much and an earlier name |
| Routing.ChoiceIsOrderFree | internal/crew/plan.go:840-889 | names being unique, the choice is the strict maximum of the set, whatever order it comes in |
| Routing.RoutedItem | internal/crew/plan.go:895-912 | the item goes to the best funded candidate at its guard, else to the supervisor at nothing |
| Routing.AnomalyItem | internal/crew/plan.go:225-253 | among two triage analysts or more the best with money left, or the supervisor when none has any; one or none leaves the desk's triage name |
| Routing.WhoIsNamed | internal/crew/plan.go:225-272 | the name of a desk with one triage analyst or none, and the price: that analyst's own guard, or fifteen where nobody bears the name |
| Routing.NamedIsWellRoutedIff | internal/crew/plan.go:229-250 | names being unique, the named item is well routed if and only if the analyst of that name is on the desk, qualifies and has money |
| Routing.SuspendedTriageIsNamed | internal/crew/plan.go:229-250 | a suspended triage analyst is still given its desk's anomalies |
| Cadence.CadenceDue | internal/crew/plan.go:323-417 | a note per halted desk, then exactly one item for each due analyst in roster order |
| Cadence.DueIff | internal/crew/plan.go:359-385 | work is due a day, a week, a fortnight or thirty days after the last that can be read, and on no other word |
| Cadence.FirstWordReads | internal/crew/plan.go:363-369 | the word is the first of the cadence, whatever white space, commas and words stand around it |
| Cadence.NobodyFundedOnAHaltedDesk | internal/crew/plan.go:339-415 | whoever is funded is active, due, funded and on no halted desk |
| Cadence.EverybodyDueIsFunded | internal/crew/plan.go:339-415 | and nobody who is all of that is left out |
| PlanAnswer.Validate | internal/crew/plan_ask.go:112-224 | an answer is accepted exactly when each item is acceptable and no ref comes twice; a refusal returns nothing |
| PlanAnswer.AcceptableMeans | internal/crew/plan_ask.go:112-224 | acceptance item by item is every item acceptable by itself with all refs different |
| PlanAnswer.AcceptedIsInHand | internal/crew/plan_ask.go:140-221 | an item is acceptable exactly when its ref is the plan's and it is such an item |
| PlanAnswer.ValidatePlanAnswer | internal/crew/plan_ask.go:83-224 | the same on the answer as written, against the roster by name, the later of two; each returned item is the written one, for an analyst in hand with money left, within both guards, and re-routed only to somebody at work, skilled and on the desk |
| PlanAnswer.AnswerNeverGrowsThePlan | internal/crew/plan_ask.go:194-221 | an accepted answer's budgets are within the plan's item for item, and its total within the plan's |
| Anomalies.EveryRunIsWellKept | internal/anomaly/anomaly.go:300-393 | after every run of the operations, closed rows and only they are stamped, explained and closed rows give a reason, stored answers name a class |
| Anomalies.ClosedStaysClosed | internal/anomaly/anomaly.go:206-393 | through every run a closed anomaly keeps its decision, an answered one its answer, a known one its row |
| Anomalies.DecisionsLead | internal/anomaly/anomaly.go:345-376 | each verb leads to its own state, with its reason or its analyst and the moment of closing or none, and moves nothing else |
| Anomalies.VerbIsTakenIff | internal/anomaly/anomaly.go:300-353 | an assignment, explanation or dismissal is taken of whatever is not closed, an acceptance of what is explained or worked on, all but the first for a reason |
| Anomalies.DetectingKeepsDecisions | internal/anomaly/anomaly.go:206-231 | detection changes nothing of a known row but its measures, and new ones arrive open |
| Anomalies.DetectingAgainChangesNothing | internal/anomaly/anomaly.go:113-184 | the same findings again, whatever was decided between, add nothing and change nothing |
| Anomalies.AssigningKeepsTheReasonIff | internal/anomaly/anomaly.go:300-307 | assigning leaves the reason as it was if and only if somebody is named, the anomaly is closed, or it had none |
| Anomalies.AcceptingKeepsTheReasonIff | internal/anomaly/anomaly.go:321-328 | accepting leaves the reason as it was if and only if the acceptance is refused or says the same words |
| Anomalies.ExplanationIsLost | internal/anomaly/anomaly.go:345-393 | two concrete runs: an explanation erased by assigning to somebody and then to nobody, and one overwritten by the acceptance |
| Anomalies.Book.Run | internal/anomaly/anomaly.go:113-184 | a pass reconciles its findings with what is stored and counts what was new |
| Anomalies.Book.Transition | internal/anomaly/anomaly.go:345-393 | a verb is refused for its reason, row or state in that order, or taken |
| Anomalies.Book.Save | internal/anomaly/hint.go:131-166 | an answer replaces what was there, a failure only a failure |
| Anomalies.NeedingHint | internal/anomaly/hint.go:210-231 | as many as allowed of the unanswered and open or all of them, each at most once; whatever is left out is worth less, or as much and earlier, or as much that day and later by id |
| Lists.JoinedListReadsBack | internal/crew/roster.go:212-225 | a list of items in order comes back from its column as it went in |
| Lists.ReadListIsItems | internal/crew/roster.go:212-225 | what any column reads as can be written back and read again unchanged |
| Halts.Console.ApplyHalt | internal/crew/halt.go:113-157 | everybody at work on the trimmed desk is suspended for the reason and remembered, nobody else moves and nobody on it is at work; a halted desk is left alone |
| Halts.Console.LiftHalt | internal/crew/halt.go:168-194 | the remembered are active again without a reason, in order up to one who is gone, nobody else moves, and the halt is cleared when nobody is |
| Halts.HaltRemembersWhoWorked | internal/crew/halt.go:130-157 | the joined list reads back as exactly those who were at work |
| Halts.HaltTwiceIsHaltOnce | internal/crew/halt.go:124-128 | a repeated halt keeps the start day, the reason and everything else |
| Halts.RosterChanges | internal/crew/roster.go:247-296 | in the runs laws range over, removing takes one name off the roster and nobody else, hiring adds a proper new name and moves nobody |
| Halts.HaltStopsTheDesk | internal/crew/halt.go:130-157 | a fresh halt stops its desk, is on record with reason, day, owner and who applied it, and leaves other halts alone |
| Halts.SetStateIff | internal/crew/roster.go:301-318 | one of five states is set of whoever is on the roster, out of work only for a reason, and back at work without one |
| Halts.ApplyThenLiftRestores | internal/crew/halt.go:113-194 | apply then lift with nothing between gives every state back |
| Halts.ReactivatedWereActiveAtTheHalt | internal/crew/halt.go:168-194 | in every run, whoever a lift reactivates was active on the desk when its current halt was applied |
| Halts.LiftSucceedsIff | internal/crew/halt.go:179-192 | a reasoned lift succeeds if and only if everybody suspended is still on the roster |
| Halts.LiftFailsWhileSomebodyIsGone | internal/crew/halt.go:179-192 | and otherwise leaves the halt standing for every further try |
| Halts.LiftKeepsADecisionIff | internal/crew/halt.go:179-188 | a lift leaves an analyst's row as it was if and only if the lift does not reach them, or they are active without a reason already |
| Halts.DecisionDuringAHaltIsLost | internal/crew/roster.go:301-318 | whoever was at work when the desk was halted and is put in another state for a reason meanwhile is made active by the lift, the reason gone |
| Mandate.StatementWritesWhatWasWanted | internal/crew/mandate.go:291-318 | the guarded statement writes exactly the row the code compared with |
| Mandate.BackfillFillsIn | internal/crew/mandate.go:203-325 | an incomplete row takes the role's own words or else the house's where a column is blank or default, and nothing else moves |
| Mandate.WholeRowIsLeftAlone | internal/crew/mandate.go:240-248 | a row with mission, rights, a date of its own and an owner is left alone |
| Mandate.ParentsClimb | internal/crew/mandate.go:248-251 | the parents given lead to the supervisor in two steps at most, nobody under themselves |
| Mandate.DecisionsStandIff | internal/crew/mandate.go:240-266 | for each column when it stands: a mission, rights, owner or date already there always, a parent, cadence or audience unless the row lacks something and the default word differs from the role's |
| Mandate.FormDefaultsAreOverwritten | internal/crew/mandate.go:203-325 | an analyst hired with no right ticked keeps neither parent the form offers, nor the weekly report, nor the desk as audience against its role |
| Mandate.ChosenParentIsOverwritten | internal/crew/mandate.go:248-251 | both written out: one hired under the supervisor, one under nobody |
| Mandate.SecondBackfillWritesNothing | internal/crew/mandate.go:203-325 | a second pass with the same owner changes and counts no row |
| Mandate.DroppedReadsBack | internal/crew/mandate.go:338-377 | the stored list reads back without a retired right, in the order it had |
| Mandate.DroppedIff | internal/crew/mandate.go:338-377 | right by right: what is left was there and is not retired, and a row without a retired right is left alone |
| Mandate.DropTwiceIsDropOnce | internal/crew/mandate.go:338-377 | dropping again drops nothing |
| Startup.RightsAreGrantable | internal/crew/mandate.go:87-110 | rights come from the skills or the floor, none of them retired, and only the suspended have none |
| Startup.RightsForIff | internal/crew/mandate.go:87-110 | somebody has the floor and what the skills earn, less what speaks to others when restricted, and nothing when suspended |
| Startup.NoRightTwice | internal/crew/mandate.go:87-110 | and each right once |
| Startup.RenamingOnlyAddsRights | internal/crew/mandate.go:408-461 | renaming loses no right and adds exactly what the renamed skills earn in that state |
| Startup.RenamedIff | internal/crew/mandate.go:408-461 | a row then has each skill under its new name where it has one and no other, and no old name; one without an old name is left alone |
| Startup.RenameTwiceIsRenameOnce | internal/crew/mandate.go:408-461 | renaming again renames nothing |
| Startup.FirstStartIsTheLastIff | cmd/costcrew/main.go:427-474 | the four passes settle any row in one start if and only if it is not left without rights by the third: at work with all rights retired and no skill renamed, or suspended, otherwise complete and with a default word to overwrite |
| Startup.RetiredRightTakesTwoStarts | internal/crew/mandate.go:338-377 | an analyst holding just the retired right is changed by two starts |
| Startup.SecondStartIsTheLast | cmd/costcrew/main.go:427-474 | however a row was left, the second start is the last to change it |
| Startup.PlacementStandsIff | internal/crew/owners.go:96-155 | whoever owns an analyst keeps it if and only if that is not the seeding account, called unclaimed where nobody is named, or the desk has no other owner; else the desk's owner has it, and placing twice is placing once |
| Startup.Analysts.BackfillMandate | internal/crew/mandate.go:203-325 | the pass over the table, counting exactly the rows it changed |
| Startup.Analysts.SeedOwners | internal/crew/owners.go:137-154 | desk by desk in any order, every analyst still with the seeding account goes to the owner of their desk, and nobody else moves |
| Startup.Analysts.DropRetiredRights | internal/crew/mandate.go:338-377 | the pass over the table: every row dropped of its retired rights, counting those that held one |
| Startup.Analysts.RenameRetiredSkills | internal/crew/mandate.go:408-461 | the pass over the table: every row renamed, counting those that held an old name |

## Left out

- CSV, gzip, hashing, folder walking and SQL itself: a file is a hash and a sequence of parsed rows or a failure, a table is a map, and errors of the database part way through an import are not modelled.
- Dry runs, journal events, sentences and every message's wording: errors are values of an enumeration.
- The commitments table, the gateway's own summary and its recount, and the call columns no rule reads (parent run, outcome, masking findings).
- Overflow of SQL's own SUM across imports and of the settlement's running total: amounts there are unbounded integers; where the code guards or wraps 64 bits itself, the model does too.
- The decoder below the strict JSON reader: separators and the spelling of tokens belong to it, so the model starts from its tokens. Which fields a page, bucket or result must carry is left out as well; a bucket is its day and its decoded lines.
- Lengths the code counts in bytes are counted in characters; they differ only for texts that are refused anyway or that no digit rule reads.
- The order in which reconciliation rows are listed, the sentence that names its scope, and the two queries that select rows in scope.
- Goal matching, blocked, returned and decision-request items of a plan: lookups that would only add easy members.
- Halts.RosterChanges: the remaining checks of hiring, transfer and removal are not modelled: a hire is its name check and comes in whatever state, a removal is unconditional; the laws of halts hold for more runs than the code allows.
- The tables of role texts, earned rights, retired rights and renamed skills are parameters with the conditions the shipped tables meet.
- The accounts the owner pass creates, the charges and tasks it moves after the analysts, and its counts.
- CallMoney.TotalIsOrderFreeCallByCall: one way only, because what one call gains by an order another can lose; call by call the condition is exact.
- Identifiers of anomalies are given; that their hash is injective is not claimed.
- HTTP, gateways, prompts, masking, sessions, options, answers, decisions, announcements, rightsizing, seats, seeding and the web handlers.

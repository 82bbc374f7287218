# Asset and inventory ledger — a Dafny model

This project models the batch (lot) ledger of the Asset-and-Inventory-Management-System desktop
application. Stock enters the central branch named "Store" as acquisition batches. Stock is then
issued from the Store to other branches or returned to the Store, and it is disposed of from the
Store. Every movement is a row in an append-only ledger of three tables:
- `asset_batches`: lots, each with its original quantity;
- `asset_transactions`: Issue/Return rows, each debiting one lot;
- `asset_disposal`: disposal rows, each debiting one Store lot.

A lot's availability is its quantity less the rows that debit it.

The application keeps the seven tables in SQLite. Its dialog handlers read and write them with SQL
inside Qt slots. The model lifts that logic out as follows:

- `Schema` holds one datatype per table row (db.py, models.py). It also holds the invariant that
  an AUTOINCREMENT key of a never-deleted ledger table is the row's position plus one, so
  ascending `batch_id` is creation order, which is the FIFO order.
- `Database.AssetDatabase` is a class whose fields are the seven tables as sequences. It also
  holds the AUTOINCREMENT counters of the master tables, which do have deletes. `Valid()` states:
  - the keys are ascending and below their counters;
  - the UNIQUE columns are unique (category name, branch name, govt property code);
  - the ledger is consistent (`LedgerOk`): every row references an existing lot, quantities are
    positive, no Transfer row exists, and every transaction debits a lot held at its `from`
    branch.
- Each dialog handler is a method in the module of its dialog, taking the database object
  (`db: AssetDatabase`) and modifying it. Each method states its outcome (the warning the handler
  shows, or `Done`) and the new state of every table.
- The three availability formulas of the source are functions in `Balance`:
  - `LedgerAvail` subtracts Issue, Transfer and Return rows, as in the SQL queries;
  - `IssueReturnAvail` subtracts Issue and Return rows, as in the issue dialog's per-lot read;
  - `DisposalAvail` subtracts Issue and Transfer rows and adds Return rows back, as in the
    disposal dialog.

  Lemmas prove where the three formulas agree.
- The FIFO allocation that both posting loops perform is `Fifo.Takes`. It walks lots in ascending
  id and takes `min(remaining, available)` from each. The two loops (`IssueDialog.PostRows` and
  `DisposalDialog.Walk`) are proved against it. Lemmas prove that the takes sum to the request,
  and that each take is positive and within its lot.
- The read-only reports are pure functions built from `Grouping` (filter, SUM per key, `HAVING >
  0`) and `Ordering` (SQLite's ORDER BY over NULL, integer and text values; insertion sort as the
  reference).

Unit conservation of Issue/Return is proved in `Conservation`. A posting lowers the source
branch's balance of the item by exactly the request, raises the destination's by the same amount,
and leaves the total over all branches unchanged.

On top of `Valid()`, the class states `Sound()` (`Balance.StockSound`): no Return row leaves the
branch that is currently named Store, and no lot's ledger balance is negative. The issue form
refuses the Store as a Return's branch, so Store lots carry no Return debits, and the disposal
dialog's read (which adds Returns back) equals the ledger balance there. So no disposal takes a
lot below zero. The constructor establishes `Sound()`. Each handler keeps it, with these
conditions:
- adding a branch (`BranchesDialog.AddBranch`, `BranchesDialog.InsertBranch`) and creating the
  default Store (`MainWindow.EnsureStoreBranch`) keep it when every reference is valid
  (`Linked()`) beforehand;
- a branch rename keeps it unless it gives the name Store to a branch that stock was returned
  from (see Findings).

## Model

| member | source | states |
|---|---|---|
| Schema.FirstWhere | db.py:165-174 | `fetch_one` of a filtered table yields a row of the table that passes the filter, or nothing exactly when no row passes |
| Schema.FirstWhereIsFirst | db.py:165-174 | the row `fetch_one` yields is the earliest match: every row before it fails the filter |
| Database.AssetDatabase.constructor | db.py:21-118 | freshly created tables are empty, and the invariants of the schema hold (`Valid`, `Linked` and `Sound`) |
| Database.Without | db.py:142-152 | `DELETE ... WHERE key = k` keeps exactly the rows with another key |
| Database.ReplacedKeys | db.py:142-152 | an `UPDATE ... WHERE key = k` that keeps the key keeps the AUTOINCREMENT keys ascending and below the counter |
| Database.ReplacedHasKey | db.py:142-152 | an update keeps every key, so every reference to the table still resolves |
| Database.FirstWhereSnoc | db.py:165-174 | after an INSERT, a lookup finds the old first match if there was one, else the new row if it matches |
| Database.FirstWhereWithout | db.py:142-152 | a DELETE of a key that no matching row has leaves a lookup's result unchanged |
| Database.FirstWhereSame | db.py:165-174 | two tables that differ only in rows the filter rejects give the same lookup result |
| Database.OnlyStore | gui.py:52-53 | with unique branch names, the branch found by the name Store is the only branch whose key is the Store's |
| Database.WithoutUnique | db.py:28 | deleting rows keeps a UNIQUE column unique |
| Database.WithoutKeys | db.py:27 | deleting rows keeps AUTOINCREMENT keys ascending and below the counter |
| Database.ReplacedUnique | db.py:48 | an update whose new value is not taken by another row keeps a UNIQUE column unique |
| Database.WithoutPresent | db.py:142-152 | deleting an existing key removes exactly one row |
| Fifo.TakesTotal | gui_issue_transfer.py:146-151 | over positive availabilities, the takes of the FIFO walk sum to min(request, total available) |
| Fifo.TakesBounded | gui_issue_transfer.py:150-151 | every take is positive, at most its lot's availability and at most the request |
| Fifo.TakesDrainEarlier | gui_issue_transfer.py:147-151 | every lot before the last one touched is drained completely |
| Balance.IssueReturnAvailGap | gui_issue_transfer.py:185-191 | the issue dialog's per-lot read exceeds the ledger availability by exactly the lot's Transfer debits |
| Balance.DisposalAvailGap | gui_disposal.py:37-46 | the disposal dialog's read exceeds the ledger availability by exactly twice the lot's Return debits |
| Balance.IssueReturnAvailAgrees | gui_issue_transfer.py:26 | with no Transfer rows (the type picker offers only Issue and Return), the issue read equals the ledger availability |
| Balance.DisposalAvailAgrees | gui_disposal.py:39-42 | for a lot with no Return rows against it, the disposal read equals the ledger availability |
| Balance.StoreBatchHasNoReturns | gui_issue_transfer.py:116-121 | when no Return row leaves the Store (`NoStoreReturns`) and every row debits a lot at its from-branch, no Return row debits a Store lot |
| Balance.DisposalAvailByIdFinds | gui_disposal.py:37-46 | the disposal read by id gives the first lot with that id, and 0 when there is none |
| Balance.DebitedSplit | gui_disposal.py:41-42 | the debits of disjoint row types add up |
| Balance.DebitedNonNegative | db.py:97 | with positive row quantities, debits are never negative |
| Movement.Select | gui_issue_transfer.py:137-144 | filtering keeps exactly the lots satisfying the WHERE clause, in ascending id |
| Movement.Candidates | gui_issue_transfer.py:137-144 | the candidates are exactly the lots of the item, source branch and year with positive availability, in ascending id |
| Movement.LotByLotIsPlan | gui_issue_transfer.py:146-151 | the index-by-index walk of the candidates is the FIFO allocation |
| Movement.CandidatesPositive | gui_issue_transfer.py:142 | with no Transfer rows, every candidate's read is positive and the reads sum to the pre-check total |
| Movement.PlanMeetsRequest | gui_issue_transfer.py:124-151 | a request within the pre-check total is met exactly; each take is positive and within its lot, and every lot but the last is drained |
| Movement.MoveRowsAt | gui_issue_transfer.py:153-166 | the j-th transaction row debits the j-th candidate with the j-th take and carries the request's type, branches, date, authority and remarks |
| Movement.DerivedAt | gui_issue_transfer.py:168-179 | the j-th derived lot sits at the destination and copies item, cost and year; its quantity is the j-th take, its method the type, its source "Issued to"/"Returned to" the destination's name |
| Conservation.MoveConserves | gui.py:201-203 | posting Issue/Return rows leaves the item's total balance unchanged, lowers the source branch by the sum of the takes and raises the destination by the same |
| Conservation.MoveBalance | gui_issue_transfer.py:146-180 | the balance after posting is the balance before, less what left the candidates, plus what the derived lots hold |
| Conservation.MovedEqualsArrived | gui_issue_transfer.py:179 | what leaves the candidates equals what the derived lots hold |
| Conservation.MovedFromSource | gui_issue_transfer.py:137-144 | at the source branch, what leaves is the sum of the takes |
| Conservation.NothingMovedFrom | gui_issue_transfer.py:110-121 | nothing leaves the destination, since it differs from the source |
| Conservation.ArrivedAtDestination | gui_issue_transfer.py:177-179 | the derived lots add the sum of the takes at the destination and nothing elsewhere |
| Conservation.FreshBatchAvail | gui_issue_transfer.py:177-179 | a lot no row references has its full quantity available |
| Conservation.BalanceAppendTxn | gui.py:61-65 | appending a transaction lowers a branch balance by exactly that row's debit on its lots |
| Conservation.DebitOnUnique | db.py:72 | a row debits the one lot whose position matches its `batch_id` |
| Movement.TakenFromLot | gui_issue_transfer.py:146-151 | over candidates in ascending id, the walk draws from the j-th candidate exactly its j-th take, and nothing past the last take |
| Movement.TakenFromOther | gui_issue_transfer.py:146-151 | the walk draws nothing from a lot that is not a candidate |
| Movement.DebitedAfterMoves | gui_issue_transfer.py:153-166 | the posted rows debit each lot by exactly what the walk draws from it, under the request's type only |
| Conservation.MoveStep | gui_issue_transfer.py:163-179 | one transaction row plus its derived lot moves the quantity from the debited lot's branch to the derived lot's branch |
| IssueDialog.DoneMeansCovered | gui_issue_transfer.py:123-151 | when the pre-check passes, the FIFO plan over the source lots sums to the request and stays within each lot |
| IssueDialog.PostOneLedger | gui_issue_transfer.py:163-179 | one transaction row with its derived lot keeps the ledger consistent |
| IssueDialog.PostOneReferences | gui_issue_transfer.py:163-179 | one posting keeps every row's item and branch references valid |
| IssueDialog.PlanStep | gui_issue_transfer.py:147-151 | one pass of the posting loop keeps the walk on the FIFO plan |
| IssueDialog.LoopDone | gui_issue_transfer.py:147-149 | when the candidates run out or the request is met, the takes are the FIFO plan |
| IssueDialog.PostedLedger | gui_issue_transfer.py:146-180 | posting the whole plan keeps the ledger consistent |
| IssueDialog.PostedReferences | gui_issue_transfer.py:146-180 | posting the whole plan keeps item and branch references valid |
| IssueDialog.PostRows | gui_issue_transfer.py:146-180 | the loop appends exactly the FIFO plan's transaction rows and derived lots, and every take is positive |
| IssueDialog.PostPlan | gui_issue_transfer.py:146-180 | as `PostRows`, and the extended tables keep the ledger consistent and the references valid |
| IssueDialog.IssueEffect | gui_issue_transfer.py:110-180 | a request within the availability of the candidates lowers the source by exactly the request, raises the destination by it, and keeps the total |
| IssueDialog.PostedKeepsLot | gui_issue_transfer.py:146-166 | a plan whose takes lie within their lots' ledger balances leaves no existing lot overdrawn |
| IssueDialog.PostedDerivedLot | gui_issue_transfer.py:168-179 | each derived lot's ledger balance is its whole, positive take |
| IssueDialog.PostedSound | gui_issue_transfer.py:116-121 | posting such a plan, with a Return leaving a branch other than the Store, keeps no Return leaving the Store and no lot overdrawn (`StockSound`) |
| IssueDialog.PlanSound | gui_issue_transfer.py:110-180 | with unique branch names, a passed pre-check posts a plan that keeps the stock sound, since the form refuses the Store as a Return's branch and no other branch is the Store |
| IssueDialog.PostedTables | gui_issue_transfer.py:136-180 | the tables that the posting computes are the ones that `Posted` describes |
| IssueDialog.PostValues | gui_issue_transfer.py:110-180 | a passed pre-check yields ledger-consistent tables that `Posted` describes; with unique branch names, a sound ledger stays sound, since the form refuses the Store as a Return's branch |
| IssueDialog.Commit | gui_issue_transfer.py:165-179 | stores the computed transactions and lots; masters and disposals are untouched |
| IssueDialog.PostIssue | gui_issue_transfer.py:136-183 | a passed pre-check posts the plan into the database |
| IssueDialog.Save | gui_issue_transfer.py:99-183 | the outcome is: no Store → error; missing item, branch or year (NULL year included) → warning; branch = Store → warning; request above the year's total → warning; otherwise Done. Every warning leaves the ledger unchanged; Done posts the FIFO plan. Masters and disposals are never touched. A sound ledger stays sound. |
| Reports.YearChoicesMeaning | gui_issue_transfer.py:80-90 | the year picker lists each year once, with a positive total; a year appears exactly when it has a candidate lot, and its total is the pre-check total |
| Reports.YearTotal | gui_issue_transfer.py:81-87 | the per-year SUM equals the total availability of that year's candidates |
| Reports.YearEntriesPositive | gui_issue_transfer.py:85 | only lots with positive availability enter the rollup |
| Reports.DisposeTableMeaning | gui_disposal.py:48-70 | the dispose table has one row per (item, year) group of positive Store lots; the row holds the group's item name, its year as text ("" for a NULL year) and its summed availability, and the rows are ordered by item name then year |
| Reports.DisposeEntriesShape | gui_disposal.py:49-57 | each Store lot contributes a positive amount under an (item name, year, item id) key |
| Reports.DisposeGroupsShape | gui_disposal.py:57-59 | each table group has a positive total and an item-name key |
| Reports.StockRegisterMeaning | gui.py:56-73 | the register has one row per (category, subcategory, item, branch, year) with positive summed balance; each total is the SUM of per-lot balances, each group appears once, and the rows are in key order |
| Disposals.Collect | gui_disposal.py:74-88 | a rejection names a row of the table |
| Disposals.CollectMeaning | gui_disposal.py:74-92 | the request is rejected exactly when a positive entry exceeds its row's availability, and then at the first such row; otherwise the picks are exactly the positive entries with their rows' item name and year and the entered quantity, in row order, each within its row, and non-empty exactly when some entry is positive |
| Disposals.CollectExact | gui_disposal.py:74-88 | a rejection is at the first exceeding row, and an accepted request yields one pick per positive entry, in row order |
| Disposals.CollectPicks | gui_disposal.py:74-88 | the collection loop computes `Collect` |
| Disposals.DisposalCandidates | gui_disposal.py:102-110 | the candidates are exactly the item's Store lots whose year is the row's year or NULL, with positive availability, in ascending id |
| Disposals.BatchByBatchIsPlan | gui_disposal.py:111-116 | the index-by-index walk is the FIFO allocation |
| Disposals.DisposalRowsAt | gui_disposal.py:117-128 | the j-th disposal row debits the j-th candidate with the j-th take and carries the confirmed date, method, authority and remarks |
| Disposals.DisposedAfterRows | gui_disposal.py:111-129 | after posting, each candidate's disposed sum has grown by exactly its take |
| Disposals.DisposedAfterWalk | gui_disposal.py:117-128 | the posted rows add to each lot's disposed units exactly what the walk draws from it |
| Disposals.DisposalKeepsBalances | gui_disposal.py:111-129 | for candidates that no Return row debits (as `StoreBatchHasNoReturns` gives for Store lots): the takes sum to min(request, availability); each touched lot loses exactly its take and stays non-negative; every lot but the last is drained; untouched lots keep their balance |
| Disposals.SumOfLedgerAvails | gui_disposal.py:102-110 | the candidates' availabilities sum to their total |
| DisposalDialog.CandidatesPositive | gui_disposal.py:102-110 | on a consistent ledger the disposal read of every candidate is positive and candidates are existing lots in ascending id |
| DisposalDialog.PickRowsMeaning | gui_disposal.py:111-129 | one pick posts one row per consumed candidate, each take positive, no larger than the disposal dialog's read of its lot and no larger than the pick; all lots but the last are drained and the total is min(pick, availability) |
| DisposalDialog.PickRowsLedger | gui_disposal.py:111-129 | one pick's rows keep the ledger consistent |
| DisposalDialog.DisposePick | gui_disposal.py:100-129 | the per-pick walk appends exactly the pick's FIFO disposal rows |
| DisposalDialog.Walk | gui_disposal.py:111-129 | the loop appends the disposal rows of the FIFO allocation over the candidates, reading each lot's availability after the rows already posted |
| DisposalDialog.WalkStep | gui_disposal.py:113-129 | one pass keeps the walk on the FIFO plan with the rows so far appended |
| DisposalDialog.WalkDone | gui_disposal.py:112-114 | when the candidates run out or the pick is met, the rows are the whole plan's |
| DisposalDialog.ReadsPlannedAvail | gui_disposal.py:115 | the per-id read inside the loop, after the rows already posted, equals the candidate's availability before the walk |
| DisposalDialog.PickWithinLedger | gui_disposal.py:37-46 | when no Return row leaves the Store, each candidate's disposal read is its ledger balance, so every take lies within that balance |
| DisposalDialog.WalkKeepsLot | gui_disposal.py:111-129 | a walk whose takes lie within their lots' ledger balances overdraws no lot |
| DisposalDialog.PickRowsSound | gui_disposal.py:98-129 | on a sound ledger one pick never takes a lot below zero |
| DisposalDialog.AfterPicksSound | gui_disposal.py:98-129 | on a sound ledger no sequence of picks takes a lot below zero |
| DisposalDialog.RenamedStoreOverdraws | gui_branches.py:55-68 | once the Store is renamed and a branch that stock was returned from takes the name Store, disposing of that branch's lot as the dialog reads it leaves the lot at -6 |
| DisposalDialog.AfterPicksLedger | gui_disposal.py:98-129 | posting all picks keeps the ledger consistent and only appends disposal rows |
| DisposalDialog.PostPicks | gui_disposal.py:98-129 | the loop over picks posts them in order, each after the rows of the ones before |
| DisposalDialog.DisposeTableNamesItems | gui_disposal.py:100 | every item name in the dispose table names an existing item |
| DisposalDialog.PicksNameItems | gui_disposal.py:100 | every collected pick's name finds its item |
| DisposalDialog.StoreDisposals | gui_disposal.py:125-128 | stores the new disposal table; batches, transactions and masters are untouched |
| DisposalDialog.DisposeSelected | gui_disposal.py:72-131 | the outcome is: an entry above its row → warning; no positive entry → info; confirmation declined → nothing; otherwise Done. Only Done changes the disposal table, by posting every pick in order. Batches, transactions and masters never change. A sound ledger stays sound. |
| AcquisitionDialog.NewLotBalance | gui_acquisition.py:84-87 | a new lot raises the balance of its own item and branch by its quantity and no other balance |
| AcquisitionDialog.NewLotLedger | gui_acquisition.py:84-87 | appending a positive lot with existing item and branch keeps the ledger consistent, the references valid and the stock sound; no row refers to the new lot |
| AcquisitionDialog.AppendLot | gui_acquisition.py:84-87 | appends exactly the lot; all else unchanged |
| AcquisitionDialog.Save | gui_acquisition.py:68-89 | a missing item, Store, method or year posts nothing; otherwise exactly one Store lot with the form's fields is appended and the Store's balance of the item rises by the quantity; a sound ledger stays sound |
| MainWindow.NamedIffTaken | gui.py:52-53 | the Store lookup finds nothing exactly when the name "Store" is not taken |
| MainWindow.EnsureStoreBranch | gui.py:51-54 | afterwards a Store branch exists; an existing one leaves the branches unchanged, so a second call changes nothing; otherwise exactly the default Store row is appended; the stock stays sound |
| MainWindow.StoreFoundLast | gui.py:52-54 | a Store row appended where none existed is the one the lookup then finds |
| BranchesDialog.AddBranch | gui_branches.py:47-53 | declined → nothing; a taken name → the UNIQUE constraint leaves the table unchanged; otherwise one row with name, address and remarks is appended |
| BranchesDialog.InsertBranch | gui_branches.py:51-52 | appends exactly the row |
| BranchesDialog.AppendBranchSound | gui_branches.py:51-52 | a new branch changes no existing branch's name, so the stock stays sound |
| BranchesDialog.RenameSound | gui_branches.py:66-67 | a rename keeps the stock sound unless it gives the name Store to a branch that stock was returned from |
| BranchesDialog.AppendBranchReferences | gui_branches.py:51-52 | a new branch keeps every reference valid |
| BranchesDialog.EditBranch | gui_branches.py:55-68 | no selection or unknown id → nothing; declined → nothing; a taken name → nothing; otherwise only the selected row is rewritten, with no Store guard; the stock stays sound unless the new name is Store and stock was returned from that branch |
| BranchesDialog.DeleteBranch | gui_branches.py:70-89 | no selection or unknown id → nothing; the Store branch → refused before the confirmation; declined → nothing; a branch holding a lot or named by a transaction → refused; otherwise only that row is removed; the stock stays sound |
| BranchesDialog.RemoveBranch | gui_branches.py:88 | removes exactly the rows with that id |
| BranchesDialog.UnusedBranchDeleteSound | gui_branches.py:83-88 | deleting a branch no lot or transaction uses keeps the stock sound |
| BranchesDialog.UnusedBranchDelete | gui_branches.py:83-88 | deleting a branch no lot or transaction uses keeps every reference valid |
| CategoriesDialog.AddCategory | gui_categories.py:47-53 | declined → nothing; a taken name → unchanged; otherwise one row is appended |
| CategoriesDialog.EditCategory | gui_categories.py:55-68 | no selection or unknown id → nothing; declined or taken name → nothing; otherwise only the selected row is rewritten |
| CategoriesDialog.DeleteCategory | gui_categories.py:70-84 | no selection → nothing; declined → nothing; a category with subcategories → refused; otherwise only that row is removed |
| SubCategoriesDialog.AddSubCategory | gui_subcategories.py:54-60 | declined → nothing; no category chosen → the NOT NULL constraint leaves the table unchanged; otherwise one row with category, name and remarks is appended |
| SubCategoriesDialog.EditSubCategory | gui_subcategories.py:62-75 | no selection or unknown id → nothing; declined → nothing; no category chosen → unchanged; otherwise only the selected row is rewritten |
| SubCategoriesDialog.DeleteSubCategory | gui_subcategories.py:77-91 | no selection → nothing; declined → nothing; a subcategory with items → refused; otherwise only that row is removed |
| ItemsDialog.AddItem | gui_items.py:58-74 | declined → nothing; no category or subcategory → warning; an empty govt code when items already exist → warning; a taken code → unchanged; otherwise one row with the form's fields is appended |
| ItemsDialog.InsertItem | gui_items.py:70-73 | appends exactly the row |
| ItemsDialog.EditItem | gui_items.py:76-94 | no selection or unknown id → nothing; declined → nothing; no category or subcategory → warning; a taken code → unchanged; otherwise only the selected row is rewritten |
| ItemsDialog.DeleteItem | gui_items.py:96-110 | no selection → nothing; declined → nothing; an item with lots → refused; otherwise only that row is removed |
| ItemsDialog.RemoveItem | gui_items.py:109 | removes exactly the rows with that id |
| ItemsDialog.UnusedItemDelete | gui_items.py:105-109 | deleting an item no lot uses keeps every reference valid |
| ReportDialogs.StockLines | gui_reports.py:42-52 | a line is shown exactly for an item whose acquired minus disposed is positive |
| ReportDialogs.StockReportMeaning | gui_reports.py:28-52 | each shown item's Acquired sums its acquisition lots (not Issue/Return-derived ones); Disposed sums disposals on those lots; Remaining = Acquired − Disposed > 0; an item appears exactly when that holds, once |
| ReportDialogs.StockReportIgnoresDerived | gui_reports.py:35 | adding Issue/Return-derived lots does not change the stock register report |
| ReportDialogs.BatchBalanceIsLedger | gui_reports.py:99-102 | the report's per-lot balance is the ledger availability |
| ReportDialogs.BranchBalanceMeaning | gui_reports.py:95-108 | (branch, item) is listed with its balance exactly when the balance is positive; each total is that balance; no group appears twice |
| ReportDialogs.BranchTotal | gui_reports.py:97-106 | the per-(branch, item) SUM of per-lot balances is the branch's balance of the item |
| ReportDialogs.BareColumnMiscounts | gui_reports.py:99-102 | with two lots in one group, the query as written reports 8 or 7 where the balance is 5 |
| ReportDialogs.BareColumnSingleBatch | gui_reports.py:99-102 | for a group of a single lot, the query as written is right |
| ReportDialogs.DisposalReportMeaning | gui_reports.py:158-174 | every disposal of an existing lot and item is listed, and only those; latest date first |
| ReportDialogs.AcquisitionHistoryMeaning | gui_reports.py:217-236 | every acquisition lot with its item and branch is listed, and only those; no Issue/Return-derived lot; latest date first |
| ReportDialogs.BranchNameOrEmpty | gui_reports.py:284-285 | a missing or unknown branch is shown as empty text, otherwise the branch's name |
| ReportDialogs.TransactionHistoryMeaning | gui_reports.py:279-301 | every transaction whose lot and item exist is listed, and only those; latest date first |
| Grouping.FilterMapFrom | gui_reports.py:32-35 | every produced row comes from a table row that passes the filter |
| Grouping.FilterMapTo | gui_reports.py:32-35 | every table row that passes the filter produces its row |
| Grouping.FilterMapDropped | gui_reports.py:35 | rows that fail the filter do not affect the result |
| Grouping.AggregateMeaning | gui.py:71-72 | GROUP BY/SUM/HAVING yields exactly one group per key with the key's total (positive when HAVING applies) |
| Grouping.RollupMeaning | gui.py:71-73 | as `AggregateMeaning`, and the groups are in key order |
| Grouping.TotalPositive | gui.py:72 | a key whose rows are all positive has a positive total |
| Ordering.KeyLeTotal | gui.py:73 | the ORDER BY comparison of keys is total |
| Ordering.Insert | gui.py:73 | inserting into an ordered sequence keeps it ordered and keeps its elements |
| Ordering.SortBy | gui_reports.py:164 | ordering is a sorted permutation of the rows |

## Left out

- Qt widgets, layouts, signals, message boxes and the `exec()` flows are not modelled. A dialog's
  answer is a boolean parameter, and a warning is an `Outcome` with no state change.
- CSV export (`export_csv`, `export_stock_csv`) is file I/O and is not modelled.
- Connection handling, `create_tables`' error printing, the `unit` column migration and the
  `users` table are left out. They do not take part in the ledger.
- Each SQL statement commits on its own, and `execute_query` swallows errors. The model treats an
  insert or update as either fully applied or refused by a constraint (UNIQUE, NOT NULL), and it
  commits a handler's rows together at the end.
- Foreign keys are not enforced by SQLite here. The model tracks references as an invariant
  (`Linked`) that the handlers preserve, not as a constraint the database enforces.
- `cost` is a REAL. It is carried as `Option<real>` and never computed with. Dates are opaque
  `yyyy-MM-dd` strings compared as text.
- Spin-box bounds (quantity at least 1, cost at least 0) are preconditions of the save methods.
- The list-widget text parsing (`int(text.split(":")[0])`) is replaced by an `Option<nat>`
  selection. The year picker's display text is not modelled.
- IssueDialog.Save: requires the type to be Issue or Return, the two types the picker offers. The
  handler's fall-through for any other type is not modelled.
- IssueDialog.Save: the handler crashes when no Store branch exists. This is modelled as the
  outcome `NoStore`, with no change.
- DisposalDialog.DisposeSelected: the handler crashes when a pick's item name is not found. This
  is modelled as a stop that keeps the rows already stored. `DisposalDialog.PicksNameItems`
  proves that the stop cannot happen when the entries come from the current dispose table.
- DisposalDialog.DisposeSelected: requires one entry per row of the dispose table computed from
  the current tables. The dialog is modal, so the table shown is the one loaded from them.
- Item names are not unique in the schema. The disposal handler looks an item up by name and
  takes the first match. The model does the same (`Schema.ItemNamed`), so with two items of one
  name the second item's rows dispose from the first item's lots.
- ORDER BY ties and GROUP BY output order are not pinned down by SQLite. The model proves that
  the output is sorted and a permutation of the rows, not which of several equal-key orders
  occurs.
- The Store branch can be renamed through the branch editor. The model allows it, as the source
  does, and every Store lookup is by name.
- BranchesDialog.EditBranch: keeps `Sound()` only when it does not give the name Store to a
  branch that stock was returned from. The source has no such guard; see Findings.
- BranchesDialog.DeleteBranch: the handler crashes on a selected id with no row, because it
  indexes the missing row of `fetch_one`. This is modelled as the outcome `NotFound`, with no
  change.
- ReportDialogs.StockReportMeaning: the stock register counts disposals only on acquisition lots.
  Units disposed from a Store lot derived from a Return are in no row's Disposed figure, as in the
  query. The model keeps this and proves nothing about Remaining against the ledger.

## Findings

| source | as written | input that shows it | evidently intended | confidence | as-written member | corrected member |
|---|---|---|---|---|---|---|
| gui_reports.py:99-102 | the branch-balance query subtracts the debits of `ab.batch_id`, a bare column inside a group of several lots, so SQLite uses one arbitrary lot of the group | one branch with two lots of 5 of one item, issued 2 from the first and 3 from the second: the report shows 8 or 7 | per-lot balance summed per (branch, item): 5 | not executed | ReportDialogs.BareColumnMiscounts | ReportDialogs.BranchBalanceMeaning |
| gui_branches.py:55-68, gui_disposal.py:37-46 | `edit_branch` renames any branch, the Store included, so a branch that stock was returned from can become the Store; the disposal read of its lots adds the Return back | Store renamed, then branch 2 (lot 2 of 5, 3 returned from it) renamed Store; dispose 8 of the item for that year: lot 2 ends at -6 | the Store keeps its identity, as `delete_branch` protects it, so no disposal overdraws a lot | not executed | DisposalDialog.RenamedStoreOverdraws | DisposalDialog.AfterPicksSound |

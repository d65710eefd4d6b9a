# Retail inventory manager: a Dafny model

This project models the reconciliation engine of the retail inventory
manager. The service keeps a list of retail SKUs with their on-hand
quantities in a JSON file. It decrements the quantities from the ERP's
recent sales orders (the sales check). It then pushes a cycle-count import
to the ERP (Fishbowl), built by merging two inventory queries with the
tracked quantities (the sync).

The model covers these parts of the system:

- the inventory store (SKUs, configuration, audit log) and the error log
  with its duplicate-notification rule (`data.py`);
- the cycle-data merge, the import matrix builder, the sales check, the
  manual and automated sync paths and the SKU lookup (`sync.py`,
  `modules.py`);
- the request validation of the JSON handlers and the dashboard counts
  (`app.py`);
- the `SessionLog` helper (`Logging.py`);
- the `FishbowlSession` lifecycle (`FishbowlSession.py`);
- the cell-range arithmetic of `GraphSession.update_excel_range`.

Everything is an immutable value. Each operation takes the state and returns
the new state with its answer. ERP replies, the clock (`Time`, one reading
per call), the signed-in user, the company name and today's date are
parameters. The modules are:

| file | module | models |
|---|---|---|
| common.dfy | `Common` | `Option`, Python's `s[-limit:]`, `str(n)`, `int(digits)` and `int()` of an ERP number |
| records.dfy | `Records` | ERP inventory rows, the `SnFlag` tri-state, matrix cells, query replies |
| errorlog.dfy | `ErrorLogs` | `ErrorLogger` |
| inventory.dfy | `Inventory` | `InventoryData` |
| merge.dfy | `CycleMerge` | `get_cycle_data` |
| matrix.dfy | `ImportMatrix` | `create_matrix` |
| sync.dfy | `SyncEngine` | `get_orders_since`, `run_sales_check`, `cycle_inventory`, both sync paths, `determine_sync`, `get_sku_info` |
| textnorm.dfy | `TextNorm` | `str.strip()` and `str.upper()` |
| api.dfy | `Api` | `index` counts, `api_update_config`, `api_add_sku`, `api_update_sku`, `api_sku_check` |
| sessionlog.dfy | `SessionLogs` | `SessionLog` |
| fishbowl.dfy | `FishbowlSessions` | `FishbowlSession` |
| graphrange.dfy | `GraphRanges` | the range computation of `update_excel_range` |

Some behaviour is modelled as the code has it, where a reader might expect
otherwise:

- The override map of the manual sync is keyed by SKU id. The merge looks
  it up by cycle-out part number, so an override only takes effect when a
  SKU id equals a part number.
- The manual path answers a bare empty list (`NoResult`) on every failure.
- `get_audit_log` returns the last `limit` entries of a list that new
  entries are prepended to, so it returns the oldest entries.
- A truthy push result for a missing matrix still stamps `last_sync_run`,
  and then `len(None)` raises.
- A null `inventory_method` selects the automated path.
- A SKU lookup whose query fails saves no fault entry: the handler's
  `log_error` raises `TypeError` while writing the exception object as
  JSON. The SKU-check route then logs an `api_error` and answers 500.
- An order row whose quantity or order count `int()` cannot read stops the
  sales check partway. The rows before it stay decremented, and
  `last_check_run` does not move, so the next check reads those orders
  again.
- An exception from the closing logout of `cycle_inventory` replaces
  whatever the push returned, even a truthy result.
- The cycle import is sent even from an inactive session.
- An explicit `login` returns a token without storing it.

## Model

| member | source | states |
|---|---|---|
| `Common.PyTail` | RetailInventoryManager/data.py:213-215 | `s[-limit:]` is a suffix: the last `limit` elements for a positive limit, all of them for zero, all but the first `-limit` for a negative limit |
| `Common.NatToDecimal` | Common/Clients/Microsoft/GraphSession.py:136-137 | `str(n)` is a non-empty digit string without a leading zero |
| `Common.DecimalRoundTrip` | Common/Clients/Microsoft/GraphSession.py:136-137 | `int(str(n)) == n` for every natural number |
| `Common.PyIntOf` | RetailInventoryManager/sync.py:378-379 | `int()` of a database number: a whole number unchanged; a decimal truncated toward zero (the result times the scale brackets the decimal from the zero side); anything unreadable raises (None) |
| `Records.Field` | RetailInventoryManager/modules.py:58-59 | `row[header]` yields a value for every import column; `PartNumber` and `Qty` yield the row's part number and quantity |
| `Records.PartSet` | RetailInventoryManager/sync.py:217 | the set holds exactly the truthy part numbers of the rows |
| `ErrorLogs.LogError` | RetailInventoryManager/data.py:341-388 | appends one unresolved entry with id `total_errors + 1` and the given type, message and source; the counter rises by one; it notifies exactly when no unresolved entry with the same type, message and source existed before; valid ids stay valid |
| `ErrorLogs.RepeatedErrorNotifiesOnce` | RetailInventoryManager/data.py:355-373 | logging the same error twice in a row never notifies the second time |
| `ErrorLogs.GetErrors` | RetailInventoryManager/data.py:390-408 | the listing is the filtered log (all entries, or the unresolved ones) cut by `[-limit:]` and reversed: exactly `min(limit, n)` entries for a positive limit, all for zero, all but the first `-limit` for a negative one, entry `i` being the pool's `i`-th newest; every entry is from the log and unresolved when asked for |
| `ErrorLogs.NewestFirst` | RetailInventoryManager/data.py:407-408 | `reversed(s[-limit:])`: the length cases of the tail, and element `i` is the `i`-th from the end of `s` |
| `ErrorLogs.GetErrorsNewestFirst` | RetailInventoryManager/data.py:404-408 | the listing is newest first: ids fall strictly along it |
| `ErrorLogs.Unresolved` | RetailInventoryManager/data.py:404-405 | keeps exactly the unresolved entries |
| `ErrorLogs.UnresolvedKeepsOrder` | RetailInventoryManager/data.py:404-405 | filtering keeps the log's order, so ids still grow along the result |
| `ErrorLogs.GetErrorById` | RetailInventoryManager/data.py:410-418 | returns an entry with the asked id from the log; returns None exactly when no entry has it |
| `ErrorLogs.Resolve` | RetailInventoryManager/data.py:436-438 | the entry becomes resolved and keeps its id |
| `ErrorLogs.MarkResolved` | RetailInventoryManager/data.py:420-442 | succeeds exactly when some entry has the id; then only the first such entry is replaced by its resolved form; otherwise nothing changes; the length and the counter never change |
| `ErrorLogs.ClearAllErrors` | RetailInventoryManager/data.py:444-461 | returns the number of entries removed, empties the log and resets the counter, so the next error gets id 1 |
| `ErrorLogs.GetStats` | RetailInventoryManager/data.py:463-476 | resolved + unresolved = current = the log's length; unresolved is the number of unresolved entries |
| `ErrorLogs.LogErrorRaisesUnresolved` | RetailInventoryManager/data.py:343-368 | a newly logged error raises the unresolved statistic by exactly one |
| `ErrorLogs.ResolveLowersUnresolved` | RetailInventoryManager/data.py:434-440 | resolving an open error lowers the unresolved statistic by one and leaves the current count alone |
| `Inventory.InitialStore` | RetailInventoryManager/data.py:33-48 | a new store has no SKUs and no audit entries; the method is `manual` and both run stamps are null |
| `Inventory.Audit` | RetailInventoryManager/data.py:114-126 | prepends an entry numbered `total_logs + 1`, bumps the counter and keeps audit ids valid |
| `Inventory.AddSku` | RetailInventoryManager/data.py:96-129 | stores the record under the key, replacing any earlier one; its initial quantity equals the available one and its order count is 0; an `add` entry carrying the record is prepended |
| `Inventory.UpdateSku` | RetailInventoryManager/data.py:131-162 | unknown SKU: nothing changes. A missing quantity raises. Otherwise it applies only name, quantity and notes; the initial quantity becomes the new quantity; the order count restarts at 0; part number and flag are kept; an `update` entry is prepended |
| `Inventory.DeleteSku` | RetailInventoryManager/data.py:164-187 | answers False and changes nothing for an unknown SKU; otherwise removes the key and prepends a `delete` entry holding the removed record |
| `Inventory.DecrementSku` | RetailInventoryManager/data.py:189-202 | unknown SKU: nothing changes. Otherwise the quantity falls by `qty` with no floor, the order count rises by `orders_count` and the user becomes `auto-sync`; no other SKU and no audit entry changes |
| `Inventory.UpdateConfig` | RetailInventoryManager/data.py:208-211 | the given keys take the given values, every other key keeps its value, SKUs and audit log are untouched |
| `Inventory.GetAuditLog` | RetailInventoryManager/data.py:213-215 | returns a suffix of the audit list: the last `limit` entries, or all of them for a zero limit |
| `Inventory.AuditListingKeepsOldest` | RetailInventoryManager/data.py:213-215 | every listed entry is older (smaller id) than every entry cut off, because entries are prepended |
| `Inventory.ClearAllLogs` | RetailInventoryManager/data.py:237-254 | returns the number of entries removed; the list is empty and the counter 0; SKUs and configuration are untouched |
| `Inventory.GetLogStats` | RetailInventoryManager/data.py:217-225 | reports the counter and the current list length |
| `Inventory.CurrentLogsBounded` | RetailInventoryManager/data.py:217-225 | with valid audit ids the list is never longer than the counter |
| `Inventory.GetLogById` | RetailInventoryManager/data.py:227-235 | returns an entry with the asked id; returns None exactly when no entry has it |
| `CycleMerge.FilterOut` | RetailInventoryManager/sync.py:244 | keeps exactly the rows whose part is not flagged for removal |
| `CycleMerge.FilterOutParts` | RetailInventoryManager/sync.py:244 | the surviving part numbers are the original ones minus the removed set |
| `CycleMerge.DictFold` | RetailInventoryManager/sync.py:247 | the dict has distinct keys, no empty key, and every value carries its own key as part number |
| `CycleMerge.DictFoldParts` | RetailInventoryManager/sync.py:247 | the dict's keys are exactly the truthy part numbers of the list |
| `CycleMerge.DictFoldLast` | RetailInventoryManager/sync.py:247 | each key holds the last row with that part number |
| `CycleMerge.DictFoldOrder` | RetailInventoryManager/sync.py:247-248 | keys are listed in order of each part's first appearance |
| `CycleMerge.DedupByPart` | RetailInventoryManager/sync.py:247-248 | the result has distinct, non-empty part numbers, the same part set as the input, the last row of each part, in first-appearance order |
| `CycleMerge.DedupLookup` | RetailInventoryManager/sync.py:247-248 | looking up a part in the de-duplicated list gives the input's last row for it |
| `CycleMerge.ScanMatchesReference` | RetailInventoryManager/sync.py:217-241 | the loop's QOH list is QOH followed by each first cycle-out row's contribution; `processed` is the set of parts seen; `to_remove` is the declarative removal set |
| `CycleMerge.ScanInventory` | RetailInventoryManager/sync.py:221-241 | the list the loop builds is QOH followed by the contributions |
| `CycleMerge.ScanRemovals` | RetailInventoryManager/sync.py:221-236 | the loop flags a part for removal exactly at the first row of a serialized part already on hand that is not an override key |
| `CycleMerge.AdditionsOrigin` | RetailInventoryManager/sync.py:225-241 | every added row is a cycle-out row or the override of a cycle-out part number; an override whose key no cycle-out row carries is never inserted |
| `CycleMerge.MergedLookup` | RetailInventoryManager/sync.py:244-248 | a removed part is absent from the result; any other part holds its last row among QOH plus additions |
| `CycleMerge.SerializedExistingRemoved` | RetailInventoryManager/sync.py:232-236 | a serialized part already on hand, with no override, is dropped from the result |
| `CycleMerge.BulkNewAdded` | RetailInventoryManager/sync.py:237-241 | a bulk part not on hand, with no override, appears in the result as its first cycle-out row |
| `CycleMerge.NoActionLeavesQoh` | RetailInventoryManager/sync.py:232-241 | a serialized new part or a bulk existing part keeps exactly its QOH row (or stays absent) |
| `CycleMerge.OverrideInserted` | RetailInventoryManager/sync.py:225-228 | a cycle-out part number that is an override key gets its override appended and is never flagged for removal |
| `CycleMerge.MergeCycleData` | RetailInventoryManager/sync.py:215-250 | the step-by-step loop, filter and dict equal the declarative merge (QOH plus contributions, minus removals, de-duplicated) |
| `CycleMerge.CycleDataFailure` | RetailInventoryManager/sync.py:252-260 | the error branch appends one `cycle_data_error` entry |
| `CycleMerge.GetCycleData` | RetailInventoryManager/sync.py:182-260 | a failed or empty query gives `[]` plus a logged `cycle_data_error`; otherwise the merge, with nothing logged |
| `ImportMatrix.FieldDefined` | RetailInventoryManager/modules.py:58-59 | `row[header]` succeeds exactly for the record's columns |
| `ImportMatrix.HeaderRow` | RetailInventoryManager/modules.py:55 | row 0 is the header names, one cell each |
| `ImportMatrix.ValueRow` | RetailInventoryManager/modules.py:57-60 | a record's row holds its value under each header, in header order |
| `ImportMatrix.PlaceholderRow` | RetailInventoryManager/modules.py:64-72 | placeholder row `i` is its serial followed by `len(headers) - 1` empty cells |
| `ImportMatrix.Placeholders` | RetailInventoryManager/modules.py:63-72 | a record's placeholder rows are rows `1..n` in order |
| `ImportMatrix.RecordRows` | RetailInventoryManager/modules.py:56-72 | each record contributes one row plus one per placeholder |
| `ImportMatrix.CreateMatrix` | RetailInventoryManager/modules.py:45-82 | empty headers or data give None with nothing logged; a header that is not a record column, or a serialized record whose `Qty` `int()` cannot read, gives None plus a `matrix_creation_error`; otherwise the matrix starts with the header row |
| `ImportMatrix.BodyLength` | RetailInventoryManager/modules.py:56-72 | the body has one row per record plus one per placeholder |
| `ImportMatrix.BodyRectangular` | RetailInventoryManager/modules.py:57-72 | every body row is as wide as the header |
| `ImportMatrix.RecordRowsContent` | RetailInventoryManager/modules.py:59-72 | a record's rows are its value row, then placeholder rows `1..max(0, Qty)` when it is serialized |
| `ImportMatrix.MatrixShape` | RetailInventoryManager/modules.py:54-73 | the matrix has `1 + len(data) + Σ max(0, int(Qty))` rows over serialized records, all `len(headers)` wide |
| `ImportMatrix.RecordPlacement` | RetailInventoryManager/modules.py:56-72 | record `k`'s rows sit at `1 + k + (placeholders before it)`, immediately followed by its own placeholders |
| `ImportMatrix.MatrixBody` | RetailInventoryManager/modules.py:54-73 | a created matrix is the header row followed by the records' rows |
| `ImportMatrix.PlaceholderSerialsDistinct` | RetailInventoryManager/modules.py:66 | the placeholder serials of one record are pairwise distinct |
| `ImportMatrix.SnCreatedCountsPlaceholders` | RetailInventoryManager/sync.py:455-456 | `len(matrix) - len(records) - 1` equals the number of placeholder rows |
| `SyncEngine.GetOrdersSince` | RetailInventoryManager/sync.py:116-180 | rows come back as the query gives them; a fault gives `[]` plus one logged entry whose type depends on the fault |
| `SyncEngine.WindowStart` | RetailInventoryManager/sync.py:345-351 | the window starts at the recorded `last_check_run` time; it starts one hour before now when the value is absent or falsy; it is None (`fromisoformat` raises) exactly when a truthy value is not a time |
| `SyncEngine.ProcessOrders` | RetailInventoryManager/sync.py:373-398 | the loop raises exactly when some row's `qty_sold` or `order_count` cannot be read by `int()`; otherwise `orders_processed` sums `int(order_count)` over all rows; `skus_updated` is at most the row count; no SKU appears or disappears; config and audit log are untouched |
| `SyncEngine.CastFailureKeepsEarlierRows` | RetailInventoryManager/sync.py:376-380 | the first unreadable row stops the loop with the store the rows before it produced |
| `SyncEngine.RunSalesCheck` | RetailInventoryManager/sync.py:334-431 | fails exactly when the recorded stamp is unreadable or some order row's numbers cannot be read; a failure keeps the config and logs a `sales_check_error`, and an unreadable stamp changes no state; the SKUs are what the loop over the fetched rows from the window start leaves, and a success reports that loop's counts; every success stamps `last_check_run` with now; no other config key changes |
| `SyncEngine.SalesCheckCastFailure` | RetailInventoryManager/sync.py:376-380 | an unreadable row fails the check, keeps the decrements of the rows before it and leaves `last_check_run` as it was |
| `SyncEngine.SalesCheckDecrements` | RetailInventoryManager/sync.py:376-398 | with one row per SKU, each applying row decrements its SKU once from the record as the check found it; every other SKU is unchanged; `skus_updated` counts the applying rows |
| `SyncEngine.SalesCheckEditGuard` | RetailInventoryManager/sync.py:388-392 | a SKU edited after the window start leaves the check unchanged, whether it succeeds or fails |
| `SyncEngine.WindowAdvances` | RetailInventoryManager/sync.py:358-401 | after a successful check the next window starts at that check's time |
| `SyncEngine.SalesCounts` | RetailInventoryManager/sync.py:376-418 | a successful check counts every row's orders and updates at most one SKU per row |
| `SyncEngine.EmptyCheckIdempotent` | RetailInventoryManager/sync.py:358-370 | a check with no orders reports (0, 0) and changes no SKU, again on a second run |
| `SyncEngine.ManualEditGuard` | RetailInventoryManager/sync.py:388-392 | a SKU edited after the window start is never decremented, however many rows name it |
| `SyncEngine.ProcessDistinct` | RetailInventoryManager/sync.py:376-398 | with one row per SKU and every row readable, each applying row decrements its SKU once from the original record; every other SKU is unchanged; `skus_updated` counts the applying rows |
| `SyncEngine.ReadableStep` | RetailInventoryManager/sync.py:376-398 | one more readable row is decremented exactly when it applies to the store the earlier rows left |
| `SyncEngine.DuplicateRowSkipped` | RetailInventoryManager/sync.py:383-396 | a second row for a SKU the loop just decremented is skipped, because the decrement stamped it with now |
| `SyncEngine.CycleInventory` | RetailInventoryManager/sync.py:267-301 | the push counts as done exactly on a truthy result; a fault is logged as `fishbowl_api_error` or `cycle_inventory_error`; an exception from the closing logout escapes exactly when the logout raised, unlogged by the helper |
| `SyncEngine.LogPushFault` | RetailInventoryManager/sync.py:282-299 | a push fault is appended under `fishbowl_api_error` for a call failure, else `cycle_inventory_error` |
| `SyncEngine.PushCycleData` | RetailInventoryManager/sync.py:446-456 | `last_sync_run` is stamped exactly on a truthy push; the logout's exception is passed on exactly when it was raised; counts exist exactly when the push succeeded and there was data with readable quantities, and then they are (records, placeholder rows) |
| `SyncEngine.FinishSync` | RetailInventoryManager/sync.py:449-483 | success exactly when the push was truthy and there was data with readable quantities; a failure's last logged entry is `automated_sync_error` on the automated path, and on the manual path `fishbowl_api_error` for a raised `CallFailure`, else `manual_sync_error`; a logout exception is the automated failure's reason; the manual path never reports a structured failure, the automated path never the bare list; SKUs untouched |
| `SyncEngine.AutomatedSync` | RetailInventoryManager/sync.py:433-483 | success exactly on a truthy push of non-empty merged data (no overrides) with readable quantities, with the records and placeholder counts; any failure is logged last as `automated_sync_error`, and a logout exception is its reason; `last_sync_run` moves only on a truthy push |
| `SyncEngine.BuildOverrides` | RetailInventoryManager/sync.py:500-514 | one override per tracked SKU id, carrying that SKU's part number, flag, available quantity (a whole number) and the retail location |
| `SyncEngine.ManualAfterCheck` | RetailInventoryManager/sync.py:500-564 | the merge uses overrides built from the SKUs as the sales check left them; success and counts as for the automated path; failures give the bare list, logged last as `fishbowl_api_error` for a raised `CallFailure`, else `manual_sync_error` |
| `SyncEngine.ManualSync` | RetailInventoryManager/sync.py:485-564 | the manual path never reports a structured failure |
| `SyncEngine.ManualAfterSales` | RetailInventoryManager/sync.py:492-564 | a failed sales check aborts with the bare list, no store change and a `fishbowl_api_error`; success needs a passing check and a truthy push; `last_sync_run` moves only when the sales check passed and the push was truthy |
| `SyncEngine.ManualSyncCounts` | RetailInventoryManager/sync.py:516-531 | after a passing check the reported counts are those of the merge with the post-check overrides |
| `SyncEngine.ManualAbortsOnFailedCheck` | RetailInventoryManager/sync.py:492-495 | a failed sales check gives the bare list and leaves the store as the sales check left it (untouched for an unreadable stamp); the log gains the `sales_check_error` then the `fishbowl_api_error` |
| `SyncEngine.ManualSyncDecrements` | RetailInventoryManager/sync.py:489-498 | through the manual path, with one row per SKU, each applying order row decrements its SKU once and every other SKU is unchanged |
| `SyncEngine.ManualAbort` | RetailInventoryManager/sync.py:547-555 | the abort leaves the store alone and appends a `fishbowl_api_error` |
| `SyncEngine.DetermineSync` | RetailInventoryManager/sync.py:303-319 | the manual dispatch never reports a structured failure; the automated one never the bare list |
| `SyncEngine.DispatchRule` | RetailInventoryManager/sync.py:310-319 | the manual path runs exactly when `inventory_method` is `manual` or absent |
| `SyncEngine.LastSyncOnlyAfterPush` | RetailInventoryManager/sync.py:449-452 | without a truthy push result `last_sync_run` never changes, on either path |
| `SyncEngine.LogoutFailureReported` | RetailInventoryManager/sync.py:300-301 | a raising closing logout fails either path with nothing stamped: the automated path reports it under `automated_sync_error`; on the manual path a `CallFailure` is logged as `fishbowl_api_error` with the bare list |
| `SyncEngine.GetSkuInfoAsWritten` | RetailInventoryManager/sync.py:28-114 | the lookup answers exactly when the query does: validated exactly when it returned a row, then with the first row's flag and part, and always `success`; a failed query raises out of the lookup (the handlers' `details={'reason': e}` cannot be written as JSON) and no fault entry is saved |
| `SyncEngine.GetSkuInfo` | RetailInventoryManager/sync.py:83-112 | the corrected lookup (see Findings): validated exactly when the lookup returned a row, then with the first row's flag and part; success exactly when the query did not fail; a fault is logged under its type |
| `SyncEngine.LookupsAgreeOnRows` | RetailInventoryManager/sync.py:60-81 | when the query answers, the lookup as written and the corrected one give the same answer and neither logs |
| `SyncEngine.FailedLookupRaises` | RetailInventoryManager/sync.py:83-97 | a failed login raises out of the lookup as written, where the corrected lookup logs a `fishbowl_api_error` and answers `success = false` |
| `TextNorm.LStrip` | RetailInventoryManager/app.py:354-359 | the result is a suffix, only whitespace was dropped, and it does not start with whitespace |
| `TextNorm.RStrip` | RetailInventoryManager/app.py:354-359 | the result is a prefix, only whitespace was dropped, and it does not end with whitespace |
| `TextNorm.StripSpec` | RetailInventoryManager/app.py:354-359 | `strip()` returns a middle slice with only whitespace around it and no whitespace at either end |
| `TextNorm.StripTrimmed` | RetailInventoryManager/app.py:354-359 | a string without whitespace at its ends is left alone |
| `TextNorm.StripIdempotent` | RetailInventoryManager/app.py:354-359 | stripping twice is stripping once |
| `TextNorm.Upper` | RetailInventoryManager/app.py:354 | upper-casing keeps the length and maps every character through the ASCII case map |
| `TextNorm.UpperFacts` | RetailInventoryManager/app.py:354 | upper-casing is idempotent and preserves trimmed ends |
| `TextNorm.NormalizeKey` | RetailInventoryManager/app.py:354 | `.strip().upper()` has no whitespace at its ends and no lower-case letter; it is empty exactly when the input is all whitespace |
| `TextNorm.NormalizeEmpty` | RetailInventoryManager/app.py:361 | `strip()` gives the empty string exactly for all-whitespace input |
| `TextNorm.NormalizeIdempotent` | RetailInventoryManager/app.py:354-366 | normalising a normalised key changes nothing |
| `Api.ParseInt` | RetailInventoryManager/app.py:242 | `int()` of text succeeds exactly when the stripped text is ASCII digits, or a sign followed by at least one digit; the value is the digits' decimal value, negated after `-`; any other text raises |
| `Api.ParseIntRoundTrip` | RetailInventoryManager/app.py:242 | `int(str(n)) == n` for every integer |
| `Api.ParseIntIgnoresPadding` | RetailInventoryManager/app.py:242 | `int()` gives the same answer with or without surrounding whitespace |
| `Api.PyInt` | RetailInventoryManager/app.py:242 | numbers convert as they are, booleans as 0 and 1, null raises |
| `Api.GetText` | RetailInventoryManager/app.py:354-359 | an absent field reads as the empty string; a present one is readable exactly when it is text |
| `Api.DashboardStats` | RetailInventoryManager/app.py:197-200 | the total is the number of SKUs |
| `Api.StatsPartition` | RetailInventoryManager/app.py:197-200 | the sold-out (qty ≤ 0) and low-stock (0 < qty ≤ 10) buckets are disjoint; with the rest they cover every SKU, so their counts sum to at most the total |
| `Api.IntervalVerdict` | RetailInventoryManager/app.py:241-255 | an interval goes on exactly when absent or a whole number from 1 to 180; it fails exactly when present but unreadable |
| `Api.ConfigUpdates` | RetailInventoryManager/app.py:231-257 | a valid request writes exactly the configuration keys it carries, with their converted values |
| `Api.ApiUpdateConfig` | RetailInventoryManager/app.py:227-273 | the config is saved exactly when every field is valid (all-or-nothing); it answers 500 exactly when the first bad field is unreadable, which logs an `api_error`; nothing is written otherwise; a restart is requested exactly when an interval is present; other keys keep their values |
| `Api.ConfigIgnoresOtherFields` | RetailInventoryManager/app.py:234-257 | fields other than the three configuration keys never change the answer or the store |
| `Api.ConfigSaveIdempotent` | RetailInventoryManager/app.py:257 | saving the same valid request twice leaves the store as the first save did |
| `Api.ConfigSavesCompose` | RetailInventoryManager/app.py:231-257 | two valid saves in a row leave the store as one save of the merged request, the second request's fields winning; the merged request is valid |
| `Api.AddQty` | RetailInventoryManager/app.py:356 | an absent quantity reads as 0 |
| `Api.ReadNewSku` | RetailInventoryManager/app.py:353-359 | fields are readable exactly when every text field is text (or absent) and the quantity converts; SKU and part are stripped and upper-cased, name and notes stripped |
| `Api.ApiAddSku` | RetailInventoryManager/app.py:349-389 | the handler answers 500 exactly when a field cannot be read |
| `Api.AddParsed` | RetailInventoryManager/app.py:361-389 | adds exactly when SKU and name are non-empty and the SKU is not stored, storing the record under the normalised key; otherwise the store is unchanged; only the 500 path logs |
| `Api.AddKeyIsNormal` | RetailInventoryManager/app.py:354-366 | the stored key normalises to itself, so the same SKU spelled differently maps to the same key |
| `Api.AddSameKeyRejected` | RetailInventoryManager/app.py:364-366 | a second add with the same normalised key is refused as a duplicate |
| `Api.AddSoldOutCounts` | RetailInventoryManager/app.py:197-200 | adding a SKU with nothing on hand raises total and sold-out by one and leaves low-stock alone |
| `Api.SoldOutAfterInsert` | RetailInventoryManager/app.py:197-200 | inserting a new key with quantity ≤ 0 adds exactly that key to the sold-out bucket |
| `Api.EditOf` | RetailInventoryManager/app.py:421-427 | an edit is readable exactly when name and notes (if present) are text and the quantity (if present) converts; it carries a quantity exactly when the request does |
| `Api.ApiUpdateSku` | RetailInventoryManager/app.py:415-449 | 500 with a logged `api_error` exactly when a field is unreadable or a stored SKU's edit lacks the quantity; 404 exactly for an unknown SKU; a saved edit sets name, notes and both quantities as given and keeps part and flag |
| `Api.UpdateIgnoresOtherFields` | RetailInventoryManager/app.py:421-427 | fields other than name, quantity and notes never change the answer or the store |
| `Api.ApiSkuCheck` | RetailInventoryManager/app.py:391-413 | 400 exactly when the SKU field is blank; 500 with one logged `api_error` exactly when the SKU field is not text or the lookup's query fails (the lookup raises); otherwise 200 with the lookup's successful answer and nothing logged |
| `SessionLogs.NewSessionLog` | src/common/Utils/Logging.py:13-15 | a new log has flag 0 and no messages |
| `SessionLogs.Log` | src/common/Utils/Logging.py:17-30 | the message is appended to its function's list, creating it the first time; other lists are untouched; an error sets the flag to 1, a plain message leaves it |
| `SessionLogs.SetErrorFlag` | src/common/Utils/Logging.py:38-40 | the flag becomes 1 and the messages stay |
| `SessionLogs.RemoveErrorFlag` | src/common/Utils/Logging.py:42-44 | the flag becomes 0 and the messages stay |
| `SessionLogs.RunFlag` | src/common/Utils/Logging.py:25-44 | after any calls the flag is the last value written (or the starting one), so it stays 0 or 1 |
| `SessionLogs.RunEntries` | src/common/Utils/Logging.py:28-30 | after any calls a function's list is its old list followed by exactly the messages logged under it, in order |
| `FishbowlSessions.LoginFromSpec` | src/common/Clients/Fishbowl/FishbowlSession.py:44-64 | at most `login_attempts` calls; a token is the first truthy one and every earlier call failed; no token means every attempt was spent |
| `FishbowlSessions.Login` | src/common/Clients/Fishbowl/FishbowlSession.py:44-64 | the retry loop returns what the reference returns, within the attempt bound, and only a truthy token |
| `FishbowlSessions.NewSession` | src/common/Clients/Fishbowl/FishbowlSession.py:25-41 | active exactly when auto-login is on and login returned a token; no call without auto-login; the call count starts at 0 |
| `FishbowlSessions.Logout` | src/common/Clients/Fishbowl/FishbowlSession.py:75-92 | inactive: answers {200, OK} with no call. Active and OK: it becomes inactive without a token and counts the call. Otherwise it raises with nothing changed |
| `FishbowlSessions.Query` | src/common/Clients/Fishbowl/FishbowlSession.py:95-112 | inactive: raises before any call. OK: counted and returned. Otherwise it logs out and raises |
| `FishbowlSessions.CycleInventory` | src/common/Clients/Fishbowl/FishbowlSession.py:115-129 | always calls the import, even inactive; OK is counted; otherwise it logs out and raises |
| `FishbowlSessions.CallCountCountsSuccesses` | src/common/Clients/Fishbowl/FishbowlSession.py:80-129 | the call count rises by exactly the number of OK answers an operation received |
| `FishbowlSessions.InactiveSessionCalls` | src/common/Clients/Fishbowl/FishbowlSession.py:90-121 | from an inactive session only the cycle import reaches the ERP, and without a token |
| `FishbowlSessions.RunOpsInvariant` | src/common/Clients/Fishbowl/FishbowlSession.py:75-129 | over any sequence of calls: active ⇔ token is kept; the call count never falls; no new token is gained; every query and logout carries a real token |
| `GraphRanges.ParseCell` | Common/Clients/Microsoft/GraphSession.py:131-133 | a match is a non-empty letter run followed by a non-empty digit run, which together form a prefix of the cell |
| `GraphRanges.ParseCellOf` | Common/Clients/Microsoft/GraphSession.py:131-133 | letters, digits and then a non-digit (or nothing) parse back to those letters and digits |
| `GraphRanges.ColumnName` | Common/Clients/Microsoft/GraphSession.py:135 | a column number's name is a non-empty string of capitals |
| `GraphRanges.ColumnRoundTrip` | Common/Clients/Microsoft/GraphSession.py:135 | reading a column name back gives its number |
| `GraphRanges.ColumnNameOfIndex` | Common/Clients/Microsoft/GraphSession.py:135 | every capitalised column name is the name of its own number, so names and numbers correspond one to one |
| `GraphRanges.FirstRaggedRow` | Common/Clients/Microsoft/GraphSession.py:126-129 | finds the first row whose width differs from row 0's; None exactly when the values are rectangular |
| `GraphRanges.UpdateRange` | Common/Clients/Microsoft/GraphSession.py:126-137 | empty values, the first ragged row (1-based), an unparsable cell and an empty first row are each reported; otherwise the range starts at the parsed cell and spans exactly `len(values)` rows and `len(values[0])` columns |
| `GraphRanges.AddressCorners` | Common/Clients/Microsoft/GraphSession.py:137 | the address text splits at its colon into the start cell and the end cell, each parsing back to its parts |
| `GraphRanges.EndColumnAsWritten` | Common/Clients/Microsoft/GraphSession.py:135 | the character arithmetic names the right column while a capital start's block ends at or before Z; past Z the right name has two or more letters, so one character is never right; 27 columns from A give `[`, not a letter; an empty row gives a column before the start |
| `GraphRanges.EndColumnAgreesWithinAlphabet` | Common/Clients/Microsoft/GraphSession.py:135 | for a single capital start column and a block ending at or before Z, both computations agree |
| `GraphRanges.EndColumnPastZ` | Common/Clients/Microsoft/GraphSession.py:135 | 27 columns from A give `[` where AA is right; an empty first row from B gives A, a range that runs backwards |

## Left out

- File persistence is not modelled: the JSON files, the read and write retries, temp-file renames and `_ensure_file_exists`'s recovery of a corrupt file. Each store is an in-memory value.
- Locks are not modelled: the store locks and `SALES_CHECK_LOCK`. The sales check is one atomic step.
- E-mail sending is not modelled. `log_error` returns whether it would notify.
- Flask routing, sessions and login, templates, and the scheduler's add, remove and reschedule jobs are not modelled. The signed-in user is a parameter.
- The browser UI, the ETL scripts and the CSV export helpers are not modelled.
- Network calls and SQL text are not modelled. Every ERP reply is an input datatype, and the query text is not represented.
- The clock is an abstract `Time` read once per call. Time formats (`isoformat`, `strftime`) and run durations are not modelled. An unparsable `last_check_run` is any set value that is not a timestamp.
- Human-readable messages and the `details` dictionaries of error entries are not modelled, except that `get_sku_info`'s handlers put an exception object in `details`, so their write raises and saves nothing (see Findings). Logged messages are fixed texts rather than Python's exception text, so the duplicate-notification rule compares those fixed texts.
- Printing and the wait between login attempts are not modelled.
- The session each ERP helper opens is folded into the helpers' reply parameters. A login failure is one kind of `ErpFault`. For `cycle_inventory`, a closing logout that raises is its own reply (`LogoutRaised`).
- The closing `session.logout()` of `get_sku_info`, `get_orders_since` and `get_cycle_data` is not modelled raising. Such an exception would escape the helper into its caller's handler; the model's replies for these helpers cover only faults inside their `try` blocks.
- `Records.Field`: every `CycleRecord` carries all eight columns, so `row[header]` fails only for a header outside them. The engine's own header list never is one, so on the sync paths `matrix_creation_error` arises only from a serialized record whose `Qty` `int()` cannot read.
- `SyncEngine.ProcessDistinct` states the per-SKU decrements only for readable rows. `SyncEngine.CastFailureKeepsEarlierRows` covers the loop that stops at an unreadable row.
- The text of the exception `int()` raises is not modelled. The sales check logs a fixed message for it.
- `sn_flag` in `api_add_sku` is stored as its truthiness (a `bool`), where the source stores the JSON value as sent. `Api.ReadNewSku` states this.
- JSON floats, lists and objects in request fields are not modelled. Fields are text, integers, booleans or null.
- `Api.ParseInt` models `int()` on text as an optional sign and ASCII digits. It leaves out underscores between digits and non-ASCII digits, which Python also accepts.
- `TextNorm.Upper` upper-cases ASCII letters only. Python's `upper()` also maps other scripts and can lengthen a string (`ß` becomes `SS`).
- `GraphRanges.ParseCell` reads ASCII digits only. Python's `\d` also matches other Unicode decimal digits.
- `FishbowlSessions.NewSession` does not model the constructor's `except` branch: a login call that raises, or a result without a `token` key. The login oracle only answers with or without a token.
- The HTTP request of `update_excel_range`, and Graph authentication, are not modelled.
- `GraphRanges.UpdateRange` is the corrected computation (see Findings). It always writes the end column in capitals, where the code keeps the start column's case. It rejects an empty first row (`NoColumns`).
- `Api.ApiAddSku` states only when the handler fails. Its full contract (validation, duplicate check, stored record) is on `Api.AddParsed`, which the handler calls with the parsed fields.
- `SyncEngine.DetermineSync` does not model its `except` branch (`sync_error`). None of the modelled steps raises out of the two paths.
- `Api.DashboardStats` states only the total in its own contract. The bucket counts are stated by `Api.StatsPartition` and `Api.SoldOutAfterInsert`.

## Findings

| source | as written | input that shows it | evidently intended | confidence | as-written member | corrected member |
|---|---|---|---|---|---|---|
| Common/Clients/Microsoft/GraphSession.py:135 | `end_col = chr(ord(start_col) + width - 1)`, arithmetic on one character | top-left `A1`, 27 columns: the end column is `[`, not a column (a two-letter start such as `AA1` makes `ord` raise) | Excel's bijective base-26 column numbering: 27 columns from A end at AA | high, not executed | `GraphRanges.EndColumnAsWritten` (`GraphRanges.EndColumnPastZ`) | `GraphRanges.UpdateRange` (`GraphRanges.ColumnRoundTrip`, `GraphRanges.ColumnNameOfIndex`) |
| RetailInventoryManager/sync.py:89 | `details={'sku_number': sku, 'reason': e}` passes the exception object, which `json.dump` cannot serialise; `_write_data` retries only `IOError`, so the `TypeError` escapes `log_error` and the lookup (the handler at sync.py:104 does the same) | a login or query failure for a non-blank SKU: no `fishbowl_api_error` is saved and `/api/sku-check` answers 500 with an `api_error` instead of `success = false` | `'reason': str(e)`, as every other call site writes it: the fault is logged and the lookup answers `success = false` | high, not executed | `SyncEngine.GetSkuInfoAsWritten` (`SyncEngine.FailedLookupRaises`, `Api.ApiSkuCheck`) | `SyncEngine.GetSkuInfo` (`SyncEngine.LookupsAgreeOnRows`) |
| Common/Clients/Microsoft/GraphSession.py:135 | an empty first row passes the rectangularity check and gives `width - 1 = -1` | top-left `B1`, values `[[]]`: the range is `B1:A1`, which runs backwards | no range for an empty block | medium, not executed | `GraphRanges.EndColumnAsWritten` (`GraphRanges.EndColumnPastZ`) | `GraphRanges.UpdateRange` (rejects with `NoColumns`) |

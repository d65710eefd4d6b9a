/** The sync engine (`FishbowlSync` in sync.py): the sales check that
    decrements tracked SKUs from recent orders, the two sync paths that push
    an import matrix to the ERP, the dispatch between them, and the SKU
    lookup. Every ERP reply is an input and the clock is one reading `now`
    per call. */
module SyncEngine {
  import opened Common
  import opened Records
  import opened ErrorLogs
  import opened Inventory
  import opened CycleMerge
  import opened ImportMatrix

  /** The engine's persistent state: the inventory store and the error log. */
  datatype Engine = Engine(store: Store, errors: ErrorLog)

  /** One row of the orders query: a SKU, the quantity sold (a `SUM`, so the
      database may hand it over as a decimal) and how many distinct orders
      carried it. */
  datatype OrderRow = OrderRow(sku: string, qtySold: ErpNumber, orderCount: ErpNumber)

  /** The loop passes both numbers of a row through `int()` before it looks
      at the SKU; a row where either raises stops the loop. */
  predicate Readable(row: OrderRow) {
    PyIntOf(row.qtySold).Some? && PyIntOf(row.orderCount).Some?
  }

  predicate AllReadable(rows: seq<OrderRow>) {
    forall i :: 0 <= i < |rows| ==> Readable(rows[i])
  }

  /** `int(qty_sold)` of a readable row. */
  function SoldQty(row: OrderRow): int {
    match PyIntOf(row.qtySold)
    case Some(n) => n
    case None => 0
  }

  /** `int(order_count)` of a readable row. */
  function OrderCount(row: OrderRow): int {
    match PyIntOf(row.orderCount)
    case Some(n) => n
    case None => 0
  }

  const FishbowlApiError: string := "fishbowl_api_error"
  const FishbowlQueryError: string := "fishbowl_query_error"
  const SalesCheckError: string := "sales_check_error"
  const CycleInventoryError: string := "cycle_inventory_error"
  const AutomatedSyncError: string := "automated_sync_error"
  const ManualSyncError: string := "manual_sync_error"

  /** The error type a failed ERP call is logged under: a call failure
      (failed login or non-OK status) or any other exception. */
  function FaultType(f: ErpFault): string {
    if f.CallFailure? then FishbowlApiError else FishbowlQueryError
  }

  // ---------------------------------------------------------------------
  // Orders since a point in time
  // ---------------------------------------------------------------------

  /** `get_orders_since`: the rows of the orders query; a failure is logged
      and swallowed into an empty list. */
  function GetOrdersSince(reply: QueryReply<OrderRow>, log: ErrorLog, now: Time): (r: (seq<OrderRow>, ErrorLog))
    ensures reply.QueryRows? ==> r == (reply.rows, log)
    ensures reply.QueryFailed? ==>
              && r.0 == []
              && Appended(log, r.1, FaultType(reply.fault))
  {
    match reply
    case QueryRows(rows) => (rows, log)
    case QueryFailed(f) =>
      ([], LogSystemError(log, FaultType(f), "Fishbowl call failed: " + f.reason,
                          "sync.py:get_orders_since", now))
  }

  // ---------------------------------------------------------------------
  // The sales check
  // ---------------------------------------------------------------------

  /** Python truthiness of a configuration value. */
  predicate Truthy(v: ConfigValue) {
    match v
    case CText(t) => t != ""
    case CInt(n) => n != 0
    case CBool(b) => b
    case CTime(_) => true
    case CNull => false
  }

  const OneHour: int := 3600

  /** The start of the order window: the recorded `last_check_run`, or one
      hour before now when it is absent or empty. A value that is set but is
      not a timestamp makes `fromisoformat` raise (None here). */
  function WindowStart(config: Config, now: Time): (r: Option<Time>)
    ensures forall t :: ConfigGet(config, "last_check_run") == Some(CTime(t)) ==> r == Some(t)
    ensures r.None? <==> exists v :: ConfigGet(config, "last_check_run") == Some(v) && !v.CTime? && Truthy(v)
    ensures (ConfigGet(config, "last_check_run").None? || ConfigGet(config, "last_check_run") == Some(CNull))
            ==> r == Some(now - OneHour)
  {
    match ConfigGet(config, "last_check_run")
    case None => Some(now - OneHour)
    case Some(v) =>
      if v.CTime? then Some(v.t)
      else if Truthy(v) then None
      else Some(now - OneHour)
  }

  /** The record after the sales check decremented it for one order row. */
  function Decremented(prev: TrackedSku, row: OrderRow, now: Time): TrackedSku {
    prev.(availableQty := prev.availableQty - SoldQty(row),
          ordersProcessed := prev.ordersProcessed + OrderCount(row),
          lastModified := now, modifiedBy := AutoSyncUser)
  }

  /** A row the sales check decrements: its SKU is tracked and was not edited
      after the window start. */
  predicate Applies(skus: map<string, TrackedSku>, since: Time, row: OrderRow) {
    row.sku in skus && !(skus[row.sku].lastModified > since)
  }

  /** What the loop over the order rows accumulates, and whether a cast
      raised (after which the loop has stopped). */
  datatype Tally = Tally(store: Store, skusUpdated: nat, ordersProcessed: int, raised: bool)

  /** Total `order_count` over the rows. */
  function SumOrders(rows: seq<OrderRow>): int {
    if rows == [] then 0 else SumOrders(rows[..|rows| - 1]) + OrderCount(rows[|rows| - 1])
  }

  /** The loop over the order rows, first `|rows|` iterations. Untracked and
      recently edited SKUs are skipped and every other row is decremented,
      until a row whose numbers `int()` cannot read: from there on nothing
      changes, and the decrements already made stay in the store. */
  function ProcessOrders(s: Store, rows: seq<OrderRow>, since: Time, now: Time): (r: Tally)
    ensures r.raised <==> !AllReadable(rows)
    ensures !r.raised ==> r.ordersProcessed == SumOrders(rows)
    ensures r.skusUpdated <= |rows|
    ensures r.store.skus.Keys == s.skus.Keys
    ensures r.store.config == s.config && r.store.auditLog == s.auditLog && r.store.totalLogs == s.totalLogs
  {
    if rows == [] then Tally(s, 0, 0, false)
    else
      var init := rows[..|rows| - 1];
      var row := rows[|rows| - 1];
      var t := ProcessOrders(s, init, since, now);
      assert AllReadable(rows) <==> AllReadable(init) && Readable(row) by {
        assert forall i :: 0 <= i < |init| ==> init[i] == rows[i];
      }
      if t.raised then t
      else if !Readable(row) then t.(raised := true)
      else
        var total := t.ordersProcessed + OrderCount(row);
        if Applies(t.store.skus, since, row) then
          Tally(DecrementSku(t.store, row.sku, SoldQty(row), OrderCount(row), now).0, t.skusUpdated + 1, total, false)
        else Tally(t.store, t.skusUpdated, total, false)
  }

  /** The first unreadable row ends the loop: the store is what the rows
      before it made of it, and the loop reports the raise. */
  lemma {:induction false} CastFailureKeepsEarlierRows(s: Store, rows: seq<OrderRow>, since: Time, now: Time, k: int)
    requires 0 <= k < |rows| && !Readable(rows[k]) && AllReadable(rows[..k])
    ensures var t := ProcessOrders(s, rows, since, now);
            t.raised && t.store == ProcessOrders(s, rows[..k], since, now).store
    decreases |rows|
  {
    var init := rows[..|rows| - 1];
    if k < |rows| - 1 {
      assert init[k] == rows[k] && init[..k] == rows[..k];
      CastFailureKeepsEarlierRows(s, init, since, now, k);
    } else {
      assert init == rows[..k];
    }
  }

  datatype SalesResult = SalesDone(ordersProcessed: int, skusUpdated: nat) | SalesFailed(error: string)

  /** The rows the loop sees: the query's rows, or none after a failure
      (which `get_orders_since` swallows). */
  function OrderRows(orders: QueryReply<OrderRow>): seq<OrderRow> {
    if orders.QueryRows? then orders.rows else []
  }

  /** `run_sales_check`: reads the window start, fetches the orders, applies
      them and records `now` as the new `last_check_run`. It fails when the
      recorded window start is not a timestamp (the store is left alone) or
      when a row's numbers cannot be read (the rows before it stay
      decremented); either way `last_check_run` stays where it was and a
      `sales_check_error` is logged. */
  function RunSalesCheck(e: Engine, orders: QueryReply<OrderRow>, now: Time): (r: (Engine, SalesResult))
    ensures r.1.SalesFailed? <==> WindowStart(e.store.config, now).None? || !AllReadable(OrderRows(orders))
    ensures r.1.SalesFailed? ==>
              && r.0.store.config == e.store.config
              && r.0.store.auditLog == e.store.auditLog
              && Appended(e.errors, r.0.errors, SalesCheckError)
    ensures WindowStart(e.store.config, now).None? ==> r.0.store == e.store
    ensures WindowStart(e.store.config, now).Some? ==>
              var t := ProcessOrders(e.store, OrderRows(orders), WindowStart(e.store.config, now).value, now);
              && r.0.store.skus == t.store.skus
              && (r.1.SalesDone? ==> r.1 == SalesDone(t.ordersProcessed, t.skusUpdated))
    ensures forall k :: k != "last_check_run" ==> ConfigGet(r.0.store.config, k) == ConfigGet(e.store.config, k)
    ensures r.1.SalesDone? ==>
              && ConfigGet(r.0.store.config, "last_check_run") == Some(CTime(now))
              && r.0.store.skus.Keys == e.store.skus.Keys
              && r.0.store.auditLog == e.store.auditLog
  {
    match WindowStart(e.store.config, now)
    case None =>
      (e.(errors := LogSystemError(e.errors, SalesCheckError, "Sales check error: invalid last_check_run",
                                   "sync.py:run_sales_check", now)),
       SalesFailed("invalid last_check_run"))
    case Some(since) =>
      var (rows, log) := GetOrdersSince(orders, e.errors, now);
      var stamp := map["last_check_run" := CTime(now)];
      if rows == [] then
        (Engine(UpdateConfig(e.store, stamp), log), SalesDone(0, 0))
      else
        var t := ProcessOrders(e.store, rows, since, now);
        if t.raised then
          (Engine(t.store, LogSystemError(log, SalesCheckError, "Sales check error: invalid literal for int()",
                                          "sync.py:run_sales_check", now)),
           SalesFailed("invalid literal for int()"))
        else (Engine(UpdateConfig(t.store, stamp), log), SalesDone(t.ordersProcessed, t.skusUpdated))
  }

  /** A row whose numbers cannot be read fails the check, keeps the
      decrements of the rows before it, and leaves the window where it was,
      so the next check reads the same orders again. */
  lemma SalesCheckCastFailure(e: Engine, orders: QueryReply<OrderRow>, now: Time, k: int)
    requires WindowStart(e.store.config, now).Some? && orders.QueryRows?
    requires 0 <= k < |orders.rows| && !Readable(orders.rows[k]) && AllReadable(orders.rows[..k])
    ensures var r := RunSalesCheck(e, orders, now);
            && r.1.SalesFailed?
            && r.0.store.skus
                 == ProcessOrders(e.store, orders.rows[..k], WindowStart(e.store.config, now).value, now).store.skus
            && ConfigGet(r.0.store.config, "last_check_run") == ConfigGet(e.store.config, "last_check_run")
  {
    CastFailureKeepsEarlierRows(e.store, orders.rows, WindowStart(e.store.config, now).value, now, k);
  }

  /** The window always advances: after a successful check the next check
      starts its window at the time of this one. */
  lemma WindowAdvances(e: Engine, orders: QueryReply<OrderRow>, now: Time, later: Time)
    requires RunSalesCheck(e, orders, now).1.SalesDone?
    ensures WindowStart(RunSalesCheck(e, orders, now).0.store.config, later) == Some(now)
  {
  }

  /** A successful check's counts: every row's orders are counted, and no
      more SKUs are updated than there are rows. */
  lemma SalesCounts(e: Engine, orders: QueryReply<OrderRow>, now: Time)
    requires RunSalesCheck(e, orders, now).1.SalesDone?
    ensures var res := RunSalesCheck(e, orders, now).1;
            && res.ordersProcessed == SumOrders(OrderRows(orders))
            && res.skusUpdated <= |OrderRows(orders)|
  {
  }

  /** A check that finds no orders (including a swallowed ERP failure)
      changes no SKU and reports zero counts. Run twice with no new orders,
      the second check reports (0, 0) again and moves the window to its own
      time. */
  lemma EmptyCheckIdempotent(e: Engine, now1: Time, now2: Time)
    requires WindowStart(e.store.config, now1).Some?
    ensures var (e1, r1) := RunSalesCheck(e, QueryRows([]), now1);
            var (e2, r2) := RunSalesCheck(e1, QueryRows([]), now2);
            && r1 == SalesDone(0, 0) && r2 == SalesDone(0, 0)
            && e2.store.skus == e1.store.skus == e.store.skus
            && WindowStart(e2.store.config, now2) == Some(now2)
  {
  }

  /** A SKU edited after the window start is never touched by the loop, even
      when several rows name it. */
  lemma {:induction false} ManualEditGuard(s: Store, rows: seq<OrderRow>, since: Time, now: Time, k: string)
    requires k in s.skus && s.skus[k].lastModified > since
    ensures ProcessOrders(s, rows, since, now).store.skus[k] == s.skus[k]
    decreases |rows|
  {
    if rows != [] {
      ManualEditGuard(s, rows[..|rows| - 1], since, now, k);
    }
  }

  predicate DistinctSkus(rows: seq<OrderRow>) {
    forall i, j :: 0 <= i < j < |rows| ==> rows[i].sku != rows[j].sku
  }

  /** The number of rows that apply to the store as it was before the loop. */
  function CountApplying(skus: map<string, TrackedSku>, since: Time, rows: seq<OrderRow>): nat {
    if rows == [] then 0
    else CountApplying(skus, since, rows[..|rows| - 1]) + (if Applies(skus, since, rows[|rows| - 1]) then 1 else 0)
  }

  /** With one row per SKU (as the grouped orders query returns them), each
      applying row decrements its SKU once from the original record, every
      other SKU is unchanged, and `skus_updated` counts the applying rows. */
  lemma {:induction false} ProcessDistinct(s: Store, rows: seq<OrderRow>, since: Time, now: Time)
    requires DistinctSkus(rows) && AllReadable(rows)
    ensures var t := ProcessOrders(s, rows, since, now);
            && t.skusUpdated == CountApplying(s.skus, since, rows)
            && (forall i :: 0 <= i < |rows| && Applies(s.skus, since, rows[i]) ==>
                  t.store.skus[rows[i].sku] == Decremented(s.skus[rows[i].sku], rows[i], now))
            && (forall k :: k in s.skus && (forall i :: 0 <= i < |rows| ==> rows[i].sku != k) ==>
                  t.store.skus[k] == s.skus[k])
    decreases |rows|
  {
    if rows != [] {
      var n := |rows| - 1;
      var init := rows[..n];
      var row := rows[n];
      assert DistinctSkus(init) && AllReadable(init) by {
        forall i, j | 0 <= i < j < |init| ensures init[i].sku != init[j].sku {
          assert init[i] == rows[i] && init[j] == rows[j];
        }
        assert forall i :: 0 <= i < |init| ==> init[i] == rows[i];
      }
      ProcessDistinct(s, init, since, now);
      var t0 := ProcessOrders(s, init, since, now);
      forall i | 0 <= i < n ensures init[i].sku != row.sku {
        assert init[i] == rows[i];
      }
      // The earlier rows name other SKUs, so the last row sees the original record.
      var t := ProcessOrders(s, rows, since, now);
      ReadableStep(s, rows, since, now);
      DistinctStep(s.skus, t0.store.skus, t.store.skus, init, row, since, now);
      assert rows == init + [row];
      assert CountApplying(s.skus, since, rows)
               == CountApplying(s.skus, since, init) + (if Applies(s.skus, since, row) then 1 else 0);
    }
  }

  /** One more readable row after readable rows: it is decremented exactly
      when it applies to the store the earlier rows left. */
  lemma ReadableStep(s: Store, rows: seq<OrderRow>, since: Time, now: Time)
    requires rows != [] && AllReadable(rows)
    ensures var t0 := ProcessOrders(s, rows[..|rows| - 1], since, now);
            var t := ProcessOrders(s, rows, since, now);
            var row := rows[|rows| - 1];
            && t.skusUpdated == t0.skusUpdated + (if Applies(t0.store.skus, since, row) then 1 else 0)
            && t.store.skus == if Applies(t0.store.skus, since, row)
                               then t0.store.skus[row.sku := Decremented(t0.store.skus[row.sku], row, now)]
                               else t0.store.skus
  {
    var init := rows[..|rows| - 1];
    assert AllReadable(init) by {
      forall i | 0 <= i < |init| ensures Readable(init[i]) {
        assert init[i] == rows[i];
      }
    }
    assert !ProcessOrders(s, init, since, now).raised && Readable(rows[|rows| - 1]);
  }

  /** One more row, whose SKU no earlier row names: the per-SKU facts of
      `ProcessDistinct` extend from the earlier rows to all of them. */
  lemma DistinctStep(orig: map<string, TrackedSku>, before: map<string, TrackedSku>, after: map<string, TrackedSku>,
                     init: seq<OrderRow>, row: OrderRow, since: Time, now: Time)
    requires forall i :: 0 <= i < |init| ==> init[i].sku != row.sku
    requires before.Keys == orig.Keys
    requires forall i :: 0 <= i < |init| && Applies(orig, since, init[i]) ==>
               before[init[i].sku] == Decremented(orig[init[i].sku], init[i], now)
    requires forall k :: k in orig && (forall i :: 0 <= i < |init| ==> init[i].sku != k) ==> before[k] == orig[k]
    requires after == if Applies(before, since, row) then before[row.sku := Decremented(before[row.sku], row, now)]
                      else before
    ensures Applies(before, since, row) == Applies(orig, since, row)
    ensures var rows := init + [row];
            && (forall i :: 0 <= i < |rows| && Applies(orig, since, rows[i]) ==>
                  after[rows[i].sku] == Decremented(orig[rows[i].sku], rows[i], now))
            && (forall k :: k in orig && (forall i :: 0 <= i < |rows| ==> rows[i].sku != k) ==>
                  after[k] == orig[k])
  {
    var rows := init + [row];
    assert row.sku in orig ==> before[row.sku] == orig[row.sku];
    forall i | 0 <= i < |rows| && Applies(orig, since, rows[i])
      ensures after[rows[i].sku] == Decremented(orig[rows[i].sku], rows[i], now)
    {
      if i < |init| {
        assert rows[i] == init[i];
      }
    }
    forall k | k in orig && (forall i :: 0 <= i < |rows| ==> rows[i].sku != k)
      ensures after[k] == orig[k]
    {
      assert rows[|init|].sku != k;
      forall i | 0 <= i < |init| ensures init[i].sku != k {
        assert init[i] == rows[i];
      }
    }
  }

  /** When the clock has moved past the window start, a second row for a SKU
      the loop just decremented is skipped: the decrement stamped the SKU
      with `now`, which the edit guard then reads as a manual edit. */
  lemma DuplicateRowSkipped(s: Store, row: OrderRow, since: Time, now: Time)
    requires Applies(s.skus, since, row) && Readable(row) && now > since
    ensures var t := ProcessOrders(s, [row, row], since, now);
            && t.skusUpdated == 1
            && t.store.skus[row.sku] == Decremented(s.skus[row.sku], row, now)
  {
    var rows := [row, row];
    assert rows[..1] == [row];
    assert [row][..0] == [];
    var t0 := ProcessOrders(s, [], since, now);
    var t1 := ProcessOrders(s, [row], since, now);
    assert t1.store.skus[row.sku] == Decremented(s.skus[row.sku], row, now);
    assert t1.skusUpdated == 1;
    assert !Applies(t1.store.skus, since, row);
  }

  /** The sales check applies the orders through the loop: with one row per
      SKU, each applying row decrements its SKU once from the original
      record, every other SKU is unchanged, and `skus_updated` counts the
      applying rows. */
  lemma SalesCheckDecrements(e: Engine, orders: QueryReply<OrderRow>, now: Time)
    requires RunSalesCheck(e, orders, now).1.SalesDone?
    requires DistinctSkus(OrderRows(orders))
    ensures var since := WindowStart(e.store.config, now).value;
            var rows := OrderRows(orders);
            var r := RunSalesCheck(e, orders, now);
            && r.1.skusUpdated == CountApplying(e.store.skus, since, rows)
            && (forall i :: 0 <= i < |rows| && Applies(e.store.skus, since, rows[i]) ==>
                  r.0.store.skus[rows[i].sku] == Decremented(e.store.skus[rows[i].sku], rows[i], now))
            && (forall k :: k in e.store.skus && (forall i :: 0 <= i < |rows| ==> rows[i].sku != k) ==>
                  r.0.store.skus[k] == e.store.skus[k])
  {
    ProcessDistinct(e.store, OrderRows(orders), WindowStart(e.store.config, now).value, now);
  }

  /** A SKU edited after the window start comes out of the sales check as it
      went in, whatever the orders and whether or not the check succeeds. */
  lemma SalesCheckEditGuard(e: Engine, orders: QueryReply<OrderRow>, now: Time, k: string)
    requires k in e.store.skus
    requires WindowStart(e.store.config, now).Some? && e.store.skus[k].lastModified > WindowStart(e.store.config, now).value
    ensures k in RunSalesCheck(e, orders, now).0.store.skus
    ensures RunSalesCheck(e, orders, now).0.store.skus[k] == e.store.skus[k]
  {
    ManualEditGuard(e.store, OrderRows(orders), WindowStart(e.store.config, now).value, now, k);
  }

  // ---------------------------------------------------------------------
  // Pushing a matrix and the two sync paths
  // ---------------------------------------------------------------------

  /** The ERP's answer to `cycle_inventory`: a result (truthy or not), a
      fault, or a closing logout that raised. In the last case the call
      itself may already have faulted (`handled`, which the helper logs
      first); whatever it returned, the logout's exception replaces it. */
  datatype PushReply =
    | Pushed(accepted: bool)
    | PushFailed(fault: ErpFault)
    | LogoutRaised(handled: Option<ErpFault>, raised: ErpFault)

  /** The error type `cycle_inventory` logs a fault under. */
  function PushFaultType(f: ErpFault): string {
    if f.CallFailure? then FishbowlApiError else CycleInventoryError
  }

  function LogPushFault(log: ErrorLog, f: ErpFault, now: Time): (r: ErrorLog)
    ensures Appended(log, r, PushFaultType(f))
  {
    LogSystemError(log, PushFaultType(f), "Fishbowl cycle out failed: " + f.reason, "sync.py:cycle_inventory", now)
  }

  /** What `cycle_inventory` hands back: whether its result was truthy, the
      exception that escaped from its closing logout, and the error log. */
  datatype PushCall = PushCall(truthy: bool, raised: Option<ErpFault>, errors: ErrorLog)

  /** `cycle_inventory` in sync.py: whether the result was truthy; a fault is
      logged (`fishbowl_api_error` for a call failure, else
      `cycle_inventory_error`) and reads as an empty result; an exception
      from the closing logout escapes the helper unlogged. */
  function CycleInventory(reply: PushReply, log: ErrorLog, now: Time): (r: PushCall)
    ensures r.truthy <==> reply == Pushed(true)
    ensures r.raised == if reply.LogoutRaised? then Some(reply.raised) else None
    ensures reply.Pushed? || (reply.LogoutRaised? && reply.handled.None?) ==> r.errors == log
    ensures reply.PushFailed? ==> Appended(log, r.errors, PushFaultType(reply.fault))
    ensures reply.LogoutRaised? && reply.handled.Some? ==>
              Appended(log, r.errors, PushFaultType(reply.handled.value))
  {
    match reply
    case Pushed(ok) => PushCall(ok, None, log)
    case PushFailed(f) => PushCall(false, None, LogPushFault(log, f, now))
    case LogoutRaised(handled, raised) =>
      PushCall(false, Some(raised), if handled.Some? then LogPushFault(log, handled.value, now) else log)
  }

  /** Everything the outside world contributes to one sync run. */
  datatype SyncInputs = SyncInputs(
    orders: QueryReply<OrderRow>,
    cycleOut: QueryReply<CycleRecord>,
    qoh: QueryReply<CycleRecord>,
    push: PushReply,
    company: string,
    today: string,
    now: Time)

  /** A sync's answer: success with its counts, a reported failure (the
      automated path), or the manual path's bare empty list. */
  datatype SyncResult = Synced(inventoryUpdated: nat, snCreated: int) | SyncFailed(error: string) | NoResult

  /** The tail both paths share once they hold the cycle data: build the
      matrix, push it, and on a truthy result stamp `last_sync_run` and
      report the counts. A truthy result for a missing matrix still stamps
      the time, then `len(None)` raises. An exception from the closing
      logout reaches the caller with nothing stamped. */
  datatype PushOutcome = PushOutcome(store: Store, errors: ErrorLog, counts: Option<(nat, int)>, stamped: bool,
                                     raised: Option<ErpFault>)

  function PushCycleData(s: Store, log: ErrorLog, data: seq<CycleRecord>, push: PushReply, now: Time)
    : (r: PushOutcome)
    ensures r.stamped <==> push == Pushed(true)
    ensures r.stamped ==> r.store == UpdateConfig(s, map["last_sync_run" := CTime(now)])
    ensures !r.stamped ==> r.store == s && r.counts.None?
    ensures r.raised == if push.LogoutRaised? then Some(push.raised) else None
    ensures r.counts.Some? <==> push == Pushed(true) && data != [] && AllQtyReadable(data)
    ensures r.counts.Some? ==> r.counts.value == (|data|, SerialCount(data))
  {
    var (m, log1) := CreateMatrix(ImportHeaders, data, log, now);
    var call := CycleInventory(push, log1, now);
    if call.truthy then
      var s1 := UpdateConfig(s, map["last_sync_run" := CTime(now)]);
      match m
      case None => PushOutcome(s1, call.errors, None, true, None)
      case Some(matrix) =>
        SnCreatedCountsPlaceholders(ImportHeaders, data, log, now);
        PushOutcome(s1, call.errors, Some((|data|, |matrix| - |data| - 1)), true, None)
    else PushOutcome(s, call.errors, None, false, call.raised)
  }

  const PushFailureReason: string := "Gathered inventory data but failed to cycle update in FB."
  const NoMatrixReason: string := "object of type 'NoneType' has no len()"

  /** The error log's newest entry has the given type. */
  predicate LastLogged(log: ErrorLog, errorType: string) {
    |log.errors| >= 1 && log.errors[|log.errors| - 1].errorType == errorType
  }

  /** An append is the newest entry. */
  lemma AppendedIsLast(before: ErrorLog, after: ErrorLog, errorType: string)
    requires Appended(before, after, errorType)
    ensures LastLogged(after, errorType)
  {
  }

  /** The type a failed sync is finally logged under: always
      `automated_sync_error` on the automated path; on the manual path a
      `CallFailure` escaping from the push lands in the `fishbowl_api_error`
      handler and anything else in the `manual_sync_error` one. */
  function SyncFailureType(push: PushReply, manual: bool): string {
    if !manual then AutomatedSyncError
    else if push.LogoutRaised? && push.raised.CallFailure? then FishbowlApiError
    else ManualSyncError
  }

  /** Reporting a push: the counts on success; otherwise the automated path
      logs an `automated_sync_error` and reports the failure, while the
      manual path logs the failure and returns the bare empty list. */
  function FinishSync(s: Store, log: ErrorLog, data: seq<CycleRecord>, push: PushReply, now: Time, manual: bool)
    : (r: (Engine, SyncResult))
    ensures r.1.Synced? <==> push == Pushed(true) && data != [] && AllQtyReadable(data)
    ensures r.1.Synced? ==> r.1 == Synced(|data|, SerialCount(data))
    ensures !r.1.Synced? ==> LastLogged(r.0.errors, SyncFailureType(push, manual))
    ensures !manual && push.LogoutRaised? ==> r.1 == SyncFailed(push.raised.reason)
    ensures manual ==> !r.1.SyncFailed?
    ensures !manual ==> !r.1.NoResult?
    ensures r.0.store.skus == s.skus
    ensures ConfigGet(r.0.store.config, "last_sync_run")
              == if push == Pushed(true) then Some(CTime(now)) else ConfigGet(s.config, "last_sync_run")
  {
    var out := PushCycleData(s, log, data, push, now);
    if out.counts.Some? then
      (Engine(out.store, out.errors), Synced(out.counts.value.0, out.counts.value.1))
    else if manual then
      var kind := SyncFailureType(push, true);
      var message := if kind == FishbowlApiError then "Fishbowl Sales Check API call failed"
                     else "Fishbowl Manual Sync API call failed";
      (Engine(out.store, LogSystemError(out.errors, kind, message, "sync.py:_run_manual_sync", now)),
       NoResult)
    else
      var reason := if out.raised.Some? then out.raised.value.reason
                    else if out.stamped then NoMatrixReason else PushFailureReason;
      (Engine(out.store, LogSystemError(out.errors, AutomatedSyncError, "Automated sync error: " + reason,
                                        "sync.py:_run_automated_sync", now)),
       SyncFailed(reason))
  }

  /** `_run_automated_sync`: merge without overrides, push, and report. */
  function AutomatedSync(e: Engine, inputs: SyncInputs): (r: (Engine, SyncResult))
    ensures var data := GetCycleData(inputs.cycleOut, inputs.qoh, map[], e.errors, inputs.now).0;
            && (r.1.Synced? <==> inputs.push == Pushed(true) && data != [] && AllQtyReadable(data))
            && (r.1.Synced? ==> r.1 == Synced(|data|, SerialCount(data)))
    ensures !r.1.Synced? ==> LastLogged(r.0.errors, AutomatedSyncError)
    ensures inputs.push.LogoutRaised? ==> r.1 == SyncFailed(inputs.push.raised.reason)
    ensures ConfigGet(r.0.store.config, "last_sync_run")
              == if inputs.push == Pushed(true) then Some(CTime(inputs.now))
                 else ConfigGet(e.store.config, "last_sync_run")
    ensures r.0.store.skus == e.store.skus
    ensures !r.1.NoResult?
  {
    var gc := GetCycleData(inputs.cycleOut, inputs.qoh, map[], e.errors, inputs.now);
    FinishSync(e.store, gc.1, gc.0, inputs.push, inputs.now, false)
  }

  /** The manual override for each tracked SKU, keyed by the SKU id: the
      SKU's part number and serialized flag, the retail location, its
      current available quantity and a dated note. */
  function BuildOverrides(skus: map<string, TrackedSku>, company: string, today: string): (ov: Overrides)
    ensures ov.Keys == skus.Keys
    ensures forall k :: k in ov ==>
              && ov[k].partNumber == skus[k].partNum
              && ov[k].qty == Whole(skus[k].availableQty)
              && ov[k].snFlag == (if skus[k].snFlag then Serialized else NonSerialized)
              && ov[k].location == company + " / Main-Retail Website Inventory"
  {
    map k | k in skus ::
      CycleRecord(skus[k].partNum, if skus[k].snFlag then Serialized else NonSerialized,
                  company + " / Main-Retail Website Inventory", Whole(skus[k].availableQty),
                  "Retail Website Inventory API Manual Override: " + today, "", "", "")
  }

  /** The manual path once the sales check passed: overrides from the SKUs
      as the sales check left them, the merge, the push and the report. */
  function ManualAfterCheck(checked: Engine, inputs: SyncInputs): (r: (Engine, SyncResult))
    ensures var ov := BuildOverrides(checked.store.skus, inputs.company, inputs.today);
            var data := GetCycleData(inputs.cycleOut, inputs.qoh, ov, checked.errors, inputs.now).0;
            && (r.1.Synced? <==> inputs.push == Pushed(true) && data != [] && AllQtyReadable(data))
            && (r.1.Synced? ==> r.1 == Synced(|data|, SerialCount(data)))
    ensures !r.1.Synced? ==> LastLogged(r.0.errors, SyncFailureType(inputs.push, true))
    ensures !r.1.SyncFailed?
    ensures r.0.store.skus == checked.store.skus
    ensures ConfigGet(r.0.store.config, "last_sync_run")
              == if inputs.push == Pushed(true) then Some(CTime(inputs.now))
                 else ConfigGet(checked.store.config, "last_sync_run")
  {
    var ov := BuildOverrides(checked.store.skus, inputs.company, inputs.today);
    var gc := GetCycleData(inputs.cycleOut, inputs.qoh, ov, checked.errors, inputs.now);
    FinishSync(checked.store, gc.1, gc.0, inputs.push, inputs.now, true)
  }

  /** `_run_manual_sync`: a sales check first, then the rest of the path on
      what the sales check returned. */
  function ManualSync(e: Engine, inputs: SyncInputs): (r: (Engine, SyncResult))
    ensures !r.1.SyncFailed?
  {
    ManualAfterSales(RunSalesCheck(e, inputs.orders, inputs.now), inputs)
  }

  /** The manual path given the sales check's outcome: a failed check aborts
      the run as a call failure; a passing one continues with the merge and
      the push. `last_sync_run` moves only when the sales check passed and the push
      was accepted. Every failure yields the bare empty list. */
  function ManualAfterSales(check: (Engine, SalesResult), inputs: SyncInputs): (r: (Engine, SyncResult))
    ensures !r.1.SyncFailed?
    ensures check.1.SalesFailed? ==>
              && r.1 == NoResult && r.0.store == check.0.store
              && Appended(check.0.errors, r.0.errors, FishbowlApiError)
    ensures r.1.Synced? ==> check.1.SalesDone? && inputs.push == Pushed(true)
    ensures check.1.SalesDone? && !r.1.Synced? ==> LastLogged(r.0.errors, SyncFailureType(inputs.push, true))
    ensures r.0.store.skus == check.0.store.skus
    ensures ConfigGet(r.0.store.config, "last_sync_run")
              == if inputs.push == Pushed(true) && check.1.SalesDone? then Some(CTime(inputs.now))
                 else ConfigGet(check.0.store.config, "last_sync_run")
  {
    if check.1.SalesFailed? then ManualAbort(check.0, inputs.now)
    else ManualAfterCheck(check.0, inputs)
  }

  /** After a passing sales check the manual path merges with overrides
      built from the SKUs as the sales check left them (decrements included), and
      reports as many records as that merge produced. */
  lemma ManualSyncCounts(e: Engine, inputs: SyncInputs)
    requires RunSalesCheck(e, inputs.orders, inputs.now).1.SalesDone?
    ensures var checked := RunSalesCheck(e, inputs.orders, inputs.now).0;
            var ov := BuildOverrides(checked.store.skus, inputs.company, inputs.today);
            var data := GetCycleData(inputs.cycleOut, inputs.qoh, ov, checked.errors, inputs.now).0;
            var r := ManualSync(e, inputs).1;
            && (r.Synced? <==> inputs.push == Pushed(true) && data != [] && AllQtyReadable(data))
            && (r.Synced? ==> r == Synced(|data|, SerialCount(data)))
  {
    var checked := RunSalesCheck(e, inputs.orders, inputs.now).0;
    assert ManualSync(e, inputs) == ManualAfterCheck(checked, inputs);
  }

  /** A failed sales check aborts the manual path: no SKU or configuration
      change beyond what the sales check made (none when the window start
      was unreadable, the decrements before an unreadable row otherwise),
      and a call failure logged right after the sales check's own error. */
  lemma ManualAbortsOnFailedCheck(e: Engine, inputs: SyncInputs)
    requires RunSalesCheck(e, inputs.orders, inputs.now).1.SalesFailed?
    ensures ManualSync(e, inputs).1 == NoResult
    ensures ManualSync(e, inputs).0.store == RunSalesCheck(e, inputs.orders, inputs.now).0.store
    ensures WindowStart(e.store.config, inputs.now).None? ==> ManualSync(e, inputs).0.store == e.store
    ensures var n := |e.errors.errors|;
            var log := ManualSync(e, inputs).0.errors.errors;
            && |log| == n + 2
            && log[n].errorType == SalesCheckError && log[n + 1].errorType == FishbowlApiError
  {
  }

  /** Through the manual path: the SKUs it leaves are exactly the ones the
      sales check left, so with one row per SKU each applying row is
      decremented once from the original record and every other SKU is
      unchanged. */
  lemma ManualSyncDecrements(e: Engine, inputs: SyncInputs)
    requires RunSalesCheck(e, inputs.orders, inputs.now).1.SalesDone?
    requires DistinctSkus(OrderRows(inputs.orders))
    ensures var since := WindowStart(e.store.config, inputs.now).value;
            var rows := OrderRows(inputs.orders);
            var skus := ManualSync(e, inputs).0.store.skus;
            && (forall i :: 0 <= i < |rows| && Applies(e.store.skus, since, rows[i]) ==>
                  skus[rows[i].sku] == Decremented(e.store.skus[rows[i].sku], rows[i], inputs.now))
            && (forall k :: k in e.store.skus && (forall i :: 0 <= i < |rows| ==> rows[i].sku != k) ==>
                  skus[k] == e.store.skus[k])
  {
    SalesCheckDecrements(e, inputs.orders, inputs.now);
  }

  /** A failed sales check aborts the manual path as a call failure. */
  function ManualAbort(checked: Engine, now: Time): (r: (Engine, SyncResult))
    ensures r.1 == NoResult && r.0.store == checked.store
    ensures Appended(checked.errors, r.0.errors, FishbowlApiError)
  {
    (checked.(errors := LogSystemError(checked.errors, FishbowlApiError,
                                       "Fishbowl Sales Check API call failed: Sales check failed during manual sync",
                                       "sync.py:_run_manual_sync", now)),
     NoResult)
  }

  /** The configured method selects the manual path when it is 'manual' or
      absent; any other value (including a null) selects the automated path. */
  predicate IsManual(config: Config) {
    var m := ConfigGet(config, "inventory_method");
    m.None? || m == Some(CText("manual"))
  }

  /** `determine_sync`. */
  function DetermineSync(e: Engine, inputs: SyncInputs): (r: (Engine, SyncResult))
    ensures IsManual(e.store.config) ==> !r.1.SyncFailed?
    ensures !IsManual(e.store.config) ==> !r.1.NoResult?
  {
    if IsManual(e.store.config) then ManualSync(e, inputs) else AutomatedSync(e, inputs)
  }

  /** The dispatch picks the manual path exactly for 'manual' or no method. */
  lemma DispatchRule(e: Engine, inputs: SyncInputs)
    ensures DetermineSync(e, inputs) ==
              if ConfigGet(e.store.config, "inventory_method") in {None, Some(CText("manual"))}
              then ManualSync(e, inputs) else AutomatedSync(e, inputs)
  {
  }

  /** A closing logout that raises fails the run on either path: nothing is
      stamped, the automated path reports the logout's exception under
      `automated_sync_error`, and on the manual path a raised `CallFailure`
      is logged as `fishbowl_api_error`. */
  lemma LogoutFailureReported(e: Engine, inputs: SyncInputs)
    requires inputs.push.LogoutRaised?
    ensures var r := DetermineSync(e, inputs);
            && !r.1.Synced?
            && ConfigGet(r.0.store.config, "last_sync_run") == ConfigGet(e.store.config, "last_sync_run")
            && (!IsManual(e.store.config) ==>
                  r.1 == SyncFailed(inputs.push.raised.reason) && LastLogged(r.0.errors, AutomatedSyncError))
            && (IsManual(e.store.config) && inputs.push.raised.CallFailure? ==>
                  r.1 == NoResult && LastLogged(r.0.errors, FishbowlApiError))
  {
    var r := DetermineSync(e, inputs);
    if IsManual(e.store.config) {
      var check := RunSalesCheck(e, inputs.orders, inputs.now);
      assert r == ManualAfterSales(check, inputs);
      if check.1.SalesFailed? {
        AppendedIsLast(check.0.errors, r.0.errors, FishbowlApiError);
      }
    } else {
      assert r == AutomatedSync(e, inputs);
    }
  }

  /** `last_sync_run` moves only on a truthy push result, on either path. */
  lemma LastSyncOnlyAfterPush(e: Engine, inputs: SyncInputs)
    requires inputs.push != Pushed(true)
    ensures ConfigGet(DetermineSync(e, inputs).0.store.config, "last_sync_run")
              == ConfigGet(e.store.config, "last_sync_run")
  {
  }

  // ---------------------------------------------------------------------
  // SKU lookup
  // ---------------------------------------------------------------------

  /** One row of the product lookup: the part behind the SKU and its
      serialized flag. */
  datatype ProductRow = ProductRow(partNumber: string, snFlag: SnFlag)

  datatype SkuInfo = SkuInfo(success: bool, validatedSku: bool, isSerialized: Option<SnFlag>, partNum: Option<string>)

  /** What `get_sku_info` hands back to its caller: the lookup's answer, or
      an exception that leaves it. */
  datatype SkuLookup = SkuAnswered(info: SkuInfo) | LookupRaised

  /** `get_sku_info` as written. A found product validates the SKU and
      reports the first row's flag and part, and no row is a successful
      "not found". A failed query reaches a handler that logs the exception
      object itself in the entry's details (sync.py:89, 104). Writing the
      log as JSON cannot serialise that object and raises `TypeError`
      (data.py:313). The write retries only on `IOError`, so the
      `TypeError` leaves `log_error` and the lookup, and no entry is saved
      (the temporary file is never renamed over the log). So the error log
      is the same after every call. */
  function GetSkuInfoAsWritten(reply: QueryReply<ProductRow>): (r: SkuLookup)
    ensures r.SkuAnswered? <==> reply.QueryRows?
    ensures r.SkuAnswered? ==>
              && r.info.success
              && (r.info.validatedSku <==> HasRows(reply))
              && (HasRows(reply) ==>
                    r.info.isSerialized == Some(reply.rows[0].snFlag) && r.info.partNum == Some(reply.rows[0].partNumber))
              && (!HasRows(reply) ==> r.info.isSerialized.None? && r.info.partNum.None?)
  {
    match reply
    case QueryRows(rows) =>
      if rows != [] then SkuAnswered(SkuInfo(true, true, Some(rows[0].snFlag), Some(rows[0].partNumber)))
      else SkuAnswered(SkuInfo(true, false, None, None))
    case QueryFailed(_) => LookupRaised
  }

  /** `get_sku_info` as its handlers evidently intend, logging the reason as
      text as every other call site does: a found product validates the SKU
      and reports the first row's flag and part; no row is a successful "not
      found"; a fault is logged under its type and reported as a failure. */
  function GetSkuInfo(reply: QueryReply<ProductRow>, log: ErrorLog, now: Time): (r: (SkuInfo, ErrorLog))
    ensures r.0.validatedSku <==> HasRows(reply)
    ensures r.0.success <==> reply.QueryRows?
    ensures HasRows(reply) ==>
              r.0.isSerialized == Some(reply.rows[0].snFlag) && r.0.partNum == Some(reply.rows[0].partNumber)
    ensures !HasRows(reply) ==> r.0.isSerialized.None? && r.0.partNum.None?
    ensures reply.QueryRows? ==> r.1 == log
    ensures reply.QueryFailed? ==>
              && Appended(log, r.1, FaultType(reply.fault))
  {
    match reply
    case QueryRows(rows) =>
      if rows != [] then (SkuInfo(true, true, Some(rows[0].snFlag), Some(rows[0].partNumber)), log)
      else (SkuInfo(true, false, None, None), log)
    case QueryFailed(f) =>
      (SkuInfo(false, false, None, None),
       LogSystemError(log, FaultType(f), "Fishbowl API call failed: " + f.reason, "sync.py:get_sku_info", now))
  }

  /** Where the query answers, the code as written and the intended lookup
      agree, and neither touches the error log. */
  lemma LookupsAgreeOnRows(reply: QueryReply<ProductRow>, log: ErrorLog, now: Time)
    requires reply.QueryRows?
    ensures GetSkuInfoAsWritten(reply) == SkuAnswered(GetSkuInfo(reply, log, now).0)
    ensures GetSkuInfo(reply, log, now).1 == log
  {
  }

  /** Where they part: a failed login raises out of the lookup as written,
      with nothing logged, where the intended lookup logs a
      `fishbowl_api_error` and answers `success = false`. */
  lemma FailedLookupRaises(log: ErrorLog, now: Time)
    ensures var reply: QueryReply<ProductRow> := QueryFailed(CallFailure("Failed to login to Fishbowl"));
            && GetSkuInfoAsWritten(reply) == LookupRaised
            && !GetSkuInfo(reply, log, now).0.success
            && Appended(log, GetSkuInfo(reply, log, now).1, FishbowlApiError)
  {
  }
}

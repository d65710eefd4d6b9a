/** The inventory store of the retail inventory manager (`InventoryData` in
    data.py) as an in-memory value: the tracked SKUs, the configuration map
    and the audit log with its id counter. Every operation reads the whole
    store and returns the new one; the JSON file, its lock and its retries
    are not modelled. */
module Inventory {
  import opened Common

  /** One tracked SKU. `availableQty` is never clamped: it goes negative
      when more is sold than was on hand. */
  datatype TrackedSku = TrackedSku(
    productName: string,
    availableQty: int,
    initialQty: int,
    lastModified: Time,
    modifiedBy: string,
    notes: string,
    snFlag: bool,
    partNum: string,
    ordersProcessed: int)

  /** A configuration value as the JSON file holds it. */
  datatype ConfigValue = CText(text: string) | CInt(n: int) | CBool(b: bool) | CTime(t: Time) | CNull

  type Config = map<string, ConfigValue>

  /** The fields a SKU edit may carry; anything else in the request is
      ignored by the store, so it has no place here. */
  datatype SkuUpdates = SkuUpdates(productName: Option<string>, availableQty: Option<int>, notes: Option<string>)

  datatype AuditAction = Added(added: TrackedSku) | Updated(updates: SkuUpdates) | Deleted(deleted: TrackedSku)

  datatype AuditEntry = AuditEntry(id: int, timestamp: Time, action: AuditAction, sku: string, user: string)

  datatype Store = Store(
    skus: map<string, TrackedSku>,
    config: Config,
    auditLog: seq<AuditEntry>,
    totalLogs: int,
    lastLog: Option<Time>)

  /** The user the sales check stamps on the SKUs it decrements. */
  const AutoSyncUser: string := "auto-sync"

  /** The content of a freshly created inventory file; the default sync
      interval comes from the environment. */
  function InitialStore(syncIntervalMinutes: int): (s: Store)
    ensures s.skus == map[] && s.auditLog == [] && s.totalLogs == 0
    ensures ConfigGet(s.config, "inventory_method") == Some(CText("manual"))
    ensures ConfigGet(s.config, "last_check_run") == Some(CNull)
    ensures ConfigGet(s.config, "last_sync_run") == Some(CNull)
    ensures ValidAudit(s)
  {
    Store(
      map[],
      map["last_sync_run" := CNull,
          "sync_interval_minutes" := CInt(syncIntervalMinutes),
          "auto_sync_enabled" := CBool(false),
          "inventory_method" := CText("manual"),
          "sales_interval_minutes" := CInt(180),
          "last_check_run" := CNull],
      [], 0, None)
  }

  /** Audit ids fall strictly from the head of the list (new entries are
      prepended) and lie between 1 and the counter. */
  predicate ValidAudit(s: Store) {
    && s.totalLogs >= 0
    && (forall i, j :: 0 <= i < j < |s.auditLog| ==> s.auditLog[i].id > s.auditLog[j].id)
    && (forall i :: 0 <= i < |s.auditLog| ==> 1 <= s.auditLog[i].id <= s.totalLogs)
  }

  /** Prepends an audit entry numbered one past the counter and bumps it. */
  function Audit(s: Store, action: AuditAction, sku: string, user: string, now: Time): (r: Store)
    ensures r.auditLog == [AuditEntry(s.totalLogs + 1, now, action, sku, user)] + s.auditLog
    ensures r.totalLogs == s.totalLogs + 1
    ensures r.skus == s.skus && r.config == s.config
    ensures ValidAudit(s) ==> ValidAudit(r)
  {
    s.(auditLog := [AuditEntry(s.totalLogs + 1, now, action, sku, user)] + s.auditLog,
       totalLogs := s.totalLogs + 1,
       lastLog := Some(now))
  }

  /** `add_sku`: stores a fresh record (replacing any record under that key)
      whose initial quantity is the available one and whose order count is
      zero, and prepends an 'add' audit entry carrying it. */
  function AddSku(s: Store, sku: string, productName: string, availableQty: int, modifiedBy: string,
                  notes: string, snFlag: bool, partNum: string, now: Time): (r: (Store, TrackedSku))
    ensures r.0.skus == s.skus[sku := r.1]
    ensures r.1.productName == productName && r.1.notes == notes
    ensures r.1.availableQty == availableQty && r.1.initialQty == availableQty
    ensures r.1.ordersProcessed == 0 && r.1.lastModified == now && r.1.modifiedBy == modifiedBy
    ensures r.1.snFlag == snFlag && r.1.partNum == partNum
    ensures r.0.auditLog == [AuditEntry(s.totalLogs + 1, now, Added(r.1), sku, modifiedBy)] + s.auditLog
    ensures r.0.totalLogs == s.totalLogs + 1 && r.0.config == s.config
    ensures ValidAudit(s) ==> ValidAudit(r.0)
  {
    var record := TrackedSku(productName, availableQty, availableQty, now, modifiedBy, notes,
                             snFlag, partNum, 0);
    var stored := s.(skus := s.skus[sku := record]);
    (Audit(stored, Added(record), sku, modifiedBy, now), record)
  }

  datatype UpdateOutcome =
    | UnknownSku                          // `None`: nothing written
    | MissingQuantity                     // `updates['available_qty']` raises: nothing written
    | SkuUpdated(store: Store, record: TrackedSku)

  /** `update_sku`: an edit applies only the name, quantity and notes, makes
      the new quantity the initial one, restarts the order count and
      prepends an 'update' entry. The quantity must be part of the edit. */
  function UpdateSku(s: Store, sku: string, updates: SkuUpdates, modifiedBy: string, now: Time): (r: UpdateOutcome)
    ensures r.UnknownSku? <==> sku !in s.skus
    ensures r.MissingQuantity? <==> sku in s.skus && updates.availableQty.None?
    ensures r.SkuUpdated? ==>
              var prev := s.skus[sku];
              && r.record.productName == (if updates.productName.Some? then updates.productName.value else prev.productName)
              && r.record.notes == (if updates.notes.Some? then updates.notes.value else prev.notes)
              && r.record.availableQty == updates.availableQty.value == r.record.initialQty
              && r.record.ordersProcessed == 0
              && r.record.lastModified == now && r.record.modifiedBy == modifiedBy
              && r.record.snFlag == prev.snFlag && r.record.partNum == prev.partNum
              && r.store.skus == s.skus[sku := r.record]
              && r.store.auditLog == [AuditEntry(s.totalLogs + 1, now, Updated(updates), sku, modifiedBy)] + s.auditLog
              && r.store.config == s.config
              && (ValidAudit(s) ==> ValidAudit(r.store))
  {
    if sku !in s.skus then UnknownSku
    else if updates.availableQty.None? then MissingQuantity
    else
      var prev := s.skus[sku];
      var qty := updates.availableQty.value;
      var record := prev.(
        productName := match updates.productName case Some(n) => n case None => prev.productName,
        availableQty := qty,
        notes := match updates.notes case Some(n) => n case None => prev.notes,
        initialQty := qty,
        ordersProcessed := 0,
        lastModified := now,
        modifiedBy := modifiedBy);
      SkuUpdated(Audit(s.(skus := s.skus[sku := record]), Updated(updates), sku, modifiedBy, now), record)
  }

  /** `delete_sku`: False for an unknown SKU (nothing changes); otherwise the
      key is gone and a 'delete' entry holds the removed record. */
  function DeleteSku(s: Store, sku: string, modifiedBy: string, now: Time): (r: (Store, bool))
    ensures r.1 <==> sku in s.skus
    ensures !r.1 ==> r.0 == s
    ensures r.1 ==> && r.0.skus == s.skus - {sku}
                    && r.0.auditLog == [AuditEntry(s.totalLogs + 1, now, Deleted(s.skus[sku]), sku, modifiedBy)] + s.auditLog
                    && r.0.config == s.config
    ensures ValidAudit(s) ==> ValidAudit(r.0)
  {
    if sku !in s.skus then (s, false)
    else (Audit(s.(skus := s.skus - {sku}), Deleted(s.skus[sku]), sku, modifiedBy, now), true)
  }

  /** `decrement_sku`: subtracts the sold quantity with no floor, adds the
      order count and stamps the auto-sync user; no audit entry is written
      and no other SKU changes. An unknown SKU changes nothing. */
  function DecrementSku(s: Store, sku: string, qty: int, ordersCount: int, now: Time): (r: (Store, Option<TrackedSku>))
    ensures r.1.None? <==> sku !in s.skus
    ensures r.1.None? ==> r.0 == s
    ensures r.1.Some? ==>
              var prev := s.skus[sku];
              && r.1.value == prev.(availableQty := prev.availableQty - qty,
                                   ordersProcessed := prev.ordersProcessed + ordersCount,
                                   lastModified := now, modifiedBy := AutoSyncUser)
              && r.0 == s.(skus := s.skus[sku := r.1.value])
  {
    if sku !in s.skus then (s, None)
    else
      var prev := s.skus[sku];
      var record := prev.(availableQty := prev.availableQty - qty,
                         ordersProcessed := prev.ordersProcessed + ordersCount,
                         lastModified := now, modifiedBy := AutoSyncUser);
      (s.(skus := s.skus[sku := record]), Some(record))
  }

  /** `update_config`: the given keys take the given values, every other key
      keeps its value, nothing else in the store changes. */
  function UpdateConfig(s: Store, updates: Config): (r: Store)
    ensures r.config.Keys == s.config.Keys + updates.Keys
    ensures forall k :: k in updates ==> r.config[k] == updates[k]
    ensures forall k :: k in s.config && k !in updates ==> r.config[k] == s.config[k]
    ensures r.skus == s.skus && r.auditLog == s.auditLog && r.totalLogs == s.totalLogs
  {
    s.(config := s.config + updates)
  }

  /** `config.get(key)`. */
  function ConfigGet(c: Config, key: string): Option<ConfigValue> {
    if key in c then Some(c[key]) else None
  }

  /** `get_audit_log`: the last `limit` list elements. Because entries are
      prepended, these are the OLDEST entries; a zero limit returns all. */
  function GetAuditLog(s: Store, limit: int): (r: seq<AuditEntry>)
    ensures |r| <= |s.auditLog| && r == s.auditLog[|s.auditLog| - |r|..]
    ensures limit == 0 ==> r == s.auditLog
    ensures limit > 0 ==> |r| == if limit < |s.auditLog| then limit else |s.auditLog|
  {
    PyTail(s.auditLog, limit)
  }

  /** Every entry the audit listing keeps is older (smaller id) than every
      entry it drops: the newest activity is what gets cut. */
  lemma AuditListingKeepsOldest(s: Store, limit: int)
    requires ValidAudit(s)
    ensures var r := GetAuditLog(s, limit);
            var cut := |s.auditLog| - |r|;
            forall i, j :: 0 <= i < |r| && 0 <= j < cut ==> r[i].id < s.auditLog[j].id
  {
    var r := GetAuditLog(s, limit);
    var cut := |s.auditLog| - |r|;
    forall i, j | 0 <= i < |r| && 0 <= j < cut ensures r[i].id < s.auditLog[j].id {
      assert r[i] == s.auditLog[cut + i];
    }
  }

  /** `clear_all_logs`: returns how many entries were removed and restarts the
      counter, so the next entry is numbered 1 again. SKUs and configuration
      are untouched. */
  function ClearAllLogs(s: Store): (r: (Store, int))
    ensures r.1 == |s.auditLog|
    ensures r.0.auditLog == [] && r.0.totalLogs == 0
    ensures r.0.skus == s.skus && r.0.config == s.config
    ensures ValidAudit(r.0)
  {
    (s.(auditLog := [], totalLogs := 0, lastLog := None), |s.auditLog|)
  }

  datatype LogStats = LogStats(totalLogs: int, lastLog: Option<Time>, currentLogs: int)

  /** `get_log_stats`. */
  function GetLogStats(s: Store): (r: LogStats)
    ensures r.currentLogs == |s.auditLog| && r.totalLogs == s.totalLogs
  {
    LogStats(s.totalLogs, s.lastLog, |s.auditLog|)
  }

  /** With valid ids the list can never be longer than the counter. */
  lemma {:induction false} CurrentLogsBounded(s: Store)
    requires ValidAudit(s)
    ensures GetLogStats(s).currentLogs <= GetLogStats(s).totalLogs
  {
    var log := s.auditLog;
    if log != [] {
      IdsAtLeastRemaining(log);
      assert log[0].id >= |log|;
    }
  }

  lemma {:induction false} IdsAtLeastRemaining(log: seq<AuditEntry>)
    requires forall i, j :: 0 <= i < j < |log| ==> log[i].id > log[j].id
    requires forall i :: 0 <= i < |log| ==> 1 <= log[i].id
    ensures forall i :: 0 <= i < |log| ==> log[i].id >= |log| - i
  {
    if log != [] {
      IdsAtLeastRemaining(log[1..]);
      forall i | 0 <= i < |log| ensures log[i].id >= |log| - i {
        if i > 0 {
          assert log[1..][i - 1] == log[i];
        } else if |log| > 1 {
          assert log[1..][0] == log[1];
        }
      }
    }
  }

  /** `get_log_by_id`: the first entry with that id, if any. */
  function GetLogById(s: Store, id: int): (r: Option<AuditEntry>)
    ensures r.Some? ==> r.value in s.auditLog && r.value.id == id
    ensures r.None? <==> forall i :: 0 <= i < |s.auditLog| ==> s.auditLog[i].id != id
  {
    FirstAuditWithId(s.auditLog, id)
  }

  function FirstAuditWithId(log: seq<AuditEntry>, id: int): (r: Option<AuditEntry>)
    ensures r.Some? ==> r.value in log && r.value.id == id
    ensures r.None? <==> forall i :: 0 <= i < |log| ==> log[i].id != id
  {
    if log == [] then None
    else if log[0].id == id then Some(log[0])
    else FirstAuditWithId(log[1..], id)
  }
}

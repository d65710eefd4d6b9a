/** The JSON handlers of the web front end (app.py) that change or inspect
    the inventory: the dashboard counts, the configuration edit, adding and
    editing a SKU and the SKU lookup. A request body is a flat JSON object;
    a handler either answers from it or, when reading a field raises, logs
    an `api_error` and answers 500. Sessions, templates and HTTP plumbing
    are not modelled; the signed-in user is a parameter. */
module Api {
  import opened Common
  import opened TextNorm
  import opened Records
  import opened ErrorLogs
  import opened Inventory
  import SyncEngine

  /** A JSON scalar as `request.get_json()` delivers it. */
  datatype Json = JStr(s: string) | JInt(n: int) | JBool(b: bool) | JNull

  type Request = map<string, Json>

  const ApiError: string := "api_error"

  // ---------------------------------------------------------------------
  // Reading request fields
  // ---------------------------------------------------------------------

  predicate IsSign(c: char) {
    c == '-' || c == '+'
  }

  /** Python's `int(text)`: surrounding whitespace, an optional sign and at
      least one ASCII digit; any other text raises (None). */
  function ParseInt(s: string): (r: Option<int>)
    ensures var t := Strip(s);
            r.Some? <==> (|t| >= 1 && AllDigits(t)) || (|t| >= 2 && IsSign(t[0]) && AllDigits(t[1..]))
    ensures var t := Strip(s);
            |t| >= 1 && AllDigits(t) ==> r == Some(DecimalValue(t) as int)
    ensures var t := Strip(s);
            |t| >= 2 && t[0] == '+' && AllDigits(t[1..]) ==> r == Some(DecimalValue(t[1..]) as int)
    ensures var t := Strip(s);
            |t| >= 2 && t[0] == '-' && AllDigits(t[1..]) ==> r == Some(-(DecimalValue(t[1..]) as int))
  {
    var t := Strip(s);
    var negative := t != [] && t[0] == '-';
    var digits := if t != [] && IsSign(t[0]) then t[1..] else t;
    if digits != [] && AllDigits(digits) then
      var magnitude: int := DecimalValue(digits);
      Some(if negative then -magnitude else magnitude)
    else None
  }

  /** `str(n)` for any integer. */
  function IntText(n: int): (s: string)
    ensures |s| >= 1 && Trimmed(s)
  {
    var digits := NatToDecimal(if n < 0 then -n else n);
    assert !IsSpace(digits[0]) && !IsSpace(digits[|digits| - 1]);
    if n < 0 then "-" + digits else digits
  }

  /** Parsing the rendering of a number gives the number back. */
  lemma ParseIntRoundTrip(n: int)
    ensures ParseInt(IntText(n)) == Some(n)
  {
    var m: nat := if n < 0 then -n else n;
    var digits := NatToDecimal(m);
    DecimalRoundTrip(m);
    StripTrimmed(IntText(n));
    if n < 0 {
      ParseDigits("-" + digits, digits);
    } else {
      ParseDigits(digits, digits);
    }
  }

  /** `t` is an optional minus sign followed by the digit string `d`. */
  lemma ParseDigits(t: string, d: string)
    requires |d| >= 1 && AllDigits(d) && Trimmed(t)
    requires t == d || t == "-" + d
    ensures ParseInt(t) == Some(if t == d then DecimalValue(d) as int else -(DecimalValue(d) as int))
  {
    StripTrimmed(t);
    if t != d {
      assert t[1..] == d;
    } else {
      assert !IsDigit('-') && !IsDigit('+');
    }
  }

  /** `int()` does not see whitespace around the number. */
  lemma ParseIntIgnoresPadding(s: string)
    ensures ParseInt(Strip(s)) == ParseInt(s)
  {
    StripIdempotent(s);
  }

  /** Python's `int(value)` on a JSON scalar: numbers as they are, booleans
      as 0 and 1, text parsed, null raises (None). */
  function PyInt(v: Json): (r: Option<int>)
    ensures v.JInt? ==> r == Some(v.n)
    ensures v.JNull? ==> r.None?
    ensures v.JBool? ==> r == Some(if v.b then 1 else 0)
  {
    match v
    case JStr(s) => ParseInt(s)
    case JInt(n) => Some(n)
    case JBool(b) => Some(if b then 1 else 0)
    case JNull => None
  }

  /** `req.get(key, '')` as text: an absent key is the empty string, a
      non-text value makes the following `.strip()` raise (None). */
  function GetText(req: Request, key: string): (r: Option<string>)
    ensures key !in req ==> r == Some("")
    ensures key in req ==> (r.Some? <==> req[key].JStr?)
  {
    if key !in req then Some("")
    else match req[key]
      case JStr(s) => Some(s)
      case _ => None
  }

  /** Python truthiness of a JSON scalar. */
  predicate JsonTruthy(v: Json) {
    match v
    case JStr(s) => s != ""
    case JInt(n) => n != 0
    case JBool(b) => b
    case JNull => false
  }

  // ---------------------------------------------------------------------
  // The dashboard
  // ---------------------------------------------------------------------

  datatype Stats = Stats(total: nat, soldOut: nat, lowStock: nat)

  const LowStockLimit: int := 10

  function SoldOutKeys(skus: map<string, TrackedSku>): set<string> {
    set k | k in skus && skus[k].availableQty <= 0
  }

  function LowStockKeys(skus: map<string, TrackedSku>): set<string> {
    set k | k in skus && 0 < skus[k].availableQty <= LowStockLimit
  }

  function StockedKeys(skus: map<string, TrackedSku>): set<string> {
    set k | k in skus && skus[k].availableQty > LowStockLimit
  }

  /** The counts on the index page: every SKU, those at or below zero, and
      those from one to ten. */
  function DashboardStats(skus: map<string, TrackedSku>): (r: Stats)
    ensures r.total == |skus|
  {
    Stats(|skus|, |SoldOutKeys(skus)|, |LowStockKeys(skus)|)
  }

  /** The sold-out, low-stock and well-stocked SKUs split the inventory:
      no SKU is counted twice and the counts never exceed the total. */
  lemma StatsPartition(skus: map<string, TrackedSku>)
    ensures SoldOutKeys(skus) !! LowStockKeys(skus)
    ensures SoldOutKeys(skus) + LowStockKeys(skus) + StockedKeys(skus) == skus.Keys
    ensures var st := DashboardStats(skus);
            st.soldOut + st.lowStock + |StockedKeys(skus)| == st.total
  {
    var a, b, c := SoldOutKeys(skus), LowStockKeys(skus), StockedKeys(skus);
    assert a !! b && (a + b) !! c;
    assert |a + b| == |a| + |b|;
    assert |a + b + c| == |a + b| + |c|;
  }

  // ---------------------------------------------------------------------
  // PUT /api/config
  // ---------------------------------------------------------------------

  const MethodKey: string := "inventory_method"
  const SyncKey: string := "sync_interval_minutes"
  const SalesKey: string := "sales_interval_minutes"

  datatype ConfigReply =
    | ConfigSaved(requiresRestart: bool)   // 200
    | ConfigRejected(reason: string)       // 400
    | ConfigFailed                         // 500, logged

  /** The method, when given, is one of the two known ones. */
  predicate MethodValid(req: Request) {
    MethodKey in req ==> (req[MethodKey] == JStr("manual") || req[MethodKey] == JStr("automated"))
  }

  /** An interval field that is present but makes `int()` raise. */
  predicate IntervalUnreadable(req: Request, key: string) {
    key in req && PyInt(req[key]).None?
  }

  /** An interval field, when given, is a whole number of minutes from 1 to
      180. */
  predicate IntervalValid(req: Request, key: string) {
    key in req ==> PyInt(req[key]).Some? && 1 <= PyInt(req[key]).value <= 180
  }

  predicate ConfigRequestValid(req: Request) {
    MethodValid(req) && IntervalValid(req, SyncKey) && IntervalValid(req, SalesKey)
  }

  /** Whether the interval field stops the handler: absent or valid goes
      on, unreadable fails, out of range rejects. */
  datatype Verdict = Proceed | Reject | Fail

  function IntervalVerdict(req: Request, key: string): (v: Verdict)
    ensures v.Proceed? <==> IntervalValid(req, key)
    ensures v.Fail? <==> IntervalUnreadable(req, key)
  {
    if key !in req then Proceed
    else match PyInt(req[key])
      case None => Fail
      case Some(n) => if 1 <= n <= 180 then Proceed else Reject
  }

  /** The configuration entries a valid request writes. */
  function ConfigUpdates(req: Request): (u: Config)
    requires ConfigRequestValid(req)
    ensures u.Keys == req.Keys * {MethodKey, SyncKey, SalesKey}
    ensures MethodKey in req ==> u[MethodKey] == CText(req[MethodKey].s)
    ensures SyncKey in req ==> u[SyncKey] == CInt(PyInt(req[SyncKey]).value)
    ensures SalesKey in req ==> u[SalesKey] == CInt(PyInt(req[SalesKey]).value)
  {
    var m: Config := if MethodKey in req then map[MethodKey := CText(req[MethodKey].s)] else map[];
    var y: Config := if SyncKey in req then map[SyncKey := CInt(PyInt(req[SyncKey]).value)] else map[];
    var a: Config := if SalesKey in req then map[SalesKey := CInt(PyInt(req[SalesKey]).value)] else map[];
    m + y + a
  }

  /** `api_update_config`: the method is checked first, then the sync
      interval, then the sales interval; the first bad field answers 400
      (out of range or unknown method) or 500 with a logged `api_error`
      (unreadable number). A fully valid request writes exactly the given
      fields and asks for a restart when an interval changed. */
  function ApiUpdateConfig(s: Store, log: ErrorLog, req: Request, user: string, now: Time)
    : (r: (Store, ErrorLog, ConfigReply))
    ensures r.2.ConfigSaved? <==> ConfigRequestValid(req)
    ensures r.2.ConfigFailed? <==>
              && MethodValid(req)
              && (IntervalUnreadable(req, SyncKey)
                  || (IntervalValid(req, SyncKey) && IntervalUnreadable(req, SalesKey)))
    ensures !r.2.ConfigSaved? ==> r.0 == s
    ensures r.2.ConfigFailed? ==> Appended(log, r.1, ApiError)
    ensures !r.2.ConfigFailed? ==> r.1 == log
    ensures r.2.ConfigSaved? ==>
              && (r.2.requiresRestart <==> SyncKey in req || SalesKey in req)
              && r.0.skus == s.skus && r.0.auditLog == s.auditLog
              && (forall k :: k != MethodKey && k != SyncKey && k != SalesKey ==>
                    ConfigGet(r.0.config, k) == ConfigGet(s.config, k))
              && (MethodKey in req ==> ConfigGet(r.0.config, MethodKey) == Some(CText(req[MethodKey].s)))
              && (SyncKey in req ==> ConfigGet(r.0.config, SyncKey) == Some(CInt(PyInt(req[SyncKey]).value)))
              && (SalesKey in req ==> ConfigGet(r.0.config, SalesKey) == Some(CInt(PyInt(req[SalesKey]).value)))
  {
    var failed := LogError(log, ApiError, "Failed to update config", "app.py:api_update_config", user, now).log;
    var sync := IntervalVerdict(req, SyncKey);
    var sales := IntervalVerdict(req, SalesKey);
    if !MethodValid(req) then (s, log, ConfigRejected("Invalid inventory method"))
    else if sync.Fail? then (s, failed, ConfigFailed)
    else if sync.Reject? then (s, log, ConfigRejected("Interval must be between 1 and 180 minutes"))
    else if sales.Fail? then (s, failed, ConfigFailed)
    else if sales.Reject? then (s, log, ConfigRejected("Interval must be between 1 and 180 minutes"))
    else (UpdateConfig(s, ConfigUpdates(req)), log, ConfigSaved(SyncKey in req || SalesKey in req))
  }

  /** Fields other than the three configuration keys are ignored. */
  lemma ConfigIgnoresOtherFields(s: Store, log: ErrorLog, req: Request, key: string, v: Json,
                                 user: string, now: Time)
    requires key != MethodKey && key != SyncKey && key != SalesKey
    ensures ApiUpdateConfig(s, log, req[key := v], user, now) == ApiUpdateConfig(s, log, req, user, now)
  {
    var req' := req[key := v];
    assert MethodValid(req') == MethodValid(req);
    assert IntervalVerdict(req', SyncKey) == IntervalVerdict(req, SyncKey);
    assert IntervalVerdict(req', SalesKey) == IntervalVerdict(req, SalesKey);
    if ConfigRequestValid(req) {
      assert ConfigUpdates(req') == ConfigUpdates(req);
    }
  }

  /** Saving the configuration the store already holds a second time
      leaves it as the first save left it. */
  lemma ConfigSaveIdempotent(s: Store, log: ErrorLog, req: Request, user: string, t1: Time, t2: Time)
    requires ConfigRequestValid(req)
    ensures var first := ApiUpdateConfig(s, log, req, user, t1).0;
            ApiUpdateConfig(first, log, req, user, t2).0 == first
  {
    var u := ConfigUpdates(req);
    assert UpdateConfig(UpdateConfig(s, u), u).config == UpdateConfig(s, u).config;
  }

  /** Two valid saves in a row leave the store as one save of the merged
      request, where the second request's fields win. */
  lemma ConfigSavesCompose(s: Store, log: ErrorLog, first: Request, second: Request,
                           user: string, t1: Time, t2: Time)
    requires ConfigRequestValid(first) && ConfigRequestValid(second)
    ensures ConfigRequestValid(first + second)
    ensures var once := ApiUpdateConfig(s, log, first, user, t1).0;
            ApiUpdateConfig(once, log, second, user, t2).0 == ApiUpdateConfig(s, log, first + second, user, t2).0
  {
    MergedValid(first, second);
    MergedUpdates(first, second);
    var once := ApiUpdateConfig(s, log, first, user, t1).0;
    SavedStore(s, log, first, user, t1);
    SavedStore(once, log, second, user, t2);
    SavedStore(s, log, first + second, user, t2);
    UpdatesCompose(s, ConfigUpdates(first), ConfigUpdates(second));
  }

  /** A valid request saves exactly its converted fields. */
  lemma SavedStore(s: Store, log: ErrorLog, req: Request, user: string, now: Time)
    requires ConfigRequestValid(req)
    ensures ApiUpdateConfig(s, log, req, user, now).0 == UpdateConfig(s, ConfigUpdates(req))
  {
    assert IntervalVerdict(req, SyncKey).Proceed? && IntervalVerdict(req, SalesKey).Proceed?;
  }

  /** Two configuration writes in a row are one write of both. */
  lemma UpdatesCompose(s: Store, u1: Config, u2: Config)
    ensures UpdateConfig(UpdateConfig(s, u1), u2) == UpdateConfig(s, u1 + u2)
  {
    assert (s.config + u1) + u2 == s.config + (u1 + u2);
  }

  /** Merging two valid requests gives a valid request. */
  lemma MergedValid(first: Request, second: Request)
    requires ConfigRequestValid(first) && ConfigRequestValid(second)
    ensures ConfigRequestValid(first + second)
  {
    var merged := first + second;
    assert MethodValid(merged);
    assert IntervalValid(merged, SyncKey);
    assert IntervalValid(merged, SalesKey);
  }

  /** The merged request converts to the two conversions merged. */
  lemma MergedUpdates(first: Request, second: Request)
    requires ConfigRequestValid(first) && ConfigRequestValid(second) && ConfigRequestValid(first + second)
    ensures ConfigUpdates(first + second) == ConfigUpdates(first) + ConfigUpdates(second)
  {
    var merged := first + second;
    var u, u1, u2 := ConfigUpdates(merged), ConfigUpdates(first), ConfigUpdates(second);
    assert u.Keys == (u1 + u2).Keys;
    MergedKey(first, second, MethodKey);
    MergedKey(first, second, SyncKey);
    MergedKey(first, second, SalesKey);
  }

  /** One configuration key of the merged request converts as the
      request that supplied it. */
  lemma MergedKey(first: Request, second: Request, k: string)
    requires ConfigRequestValid(first) && ConfigRequestValid(second) && ConfigRequestValid(first + second)
    requires k == MethodKey || k == SyncKey || k == SalesKey
    ensures k in first + second ==>
              ConfigUpdates(first + second)[k] == (ConfigUpdates(first) + ConfigUpdates(second))[k]
  {
    if k in second {
      assert (first + second)[k] == second[k];
    } else if k in first {
      assert (first + second)[k] == first[k];
    }
  }

  // ---------------------------------------------------------------------
  // POST /api/skus
  // ---------------------------------------------------------------------

  const SkuField: string := "sku"
  const NameField: string := "product_name"
  const QtyField: string := "available_qty"
  const NotesField: string := "notes"
  const FlagField: string := "sn_flag"
  const PartField: string := "part_num"

  datatype AddReply =
    | SkuAdded(record: TrackedSku)   // 200
    | AddRejected(reason: string)    // 400
    | AddFailed                      // 500, logged

  /** `int(req.get('available_qty', 0))`. */
  function AddQty(req: Request): (r: Option<int>)
    ensures QtyField !in req ==> r == Some(0)
  {
    if QtyField in req then PyInt(req[QtyField]) else Some(0)
  }

  /** The fields of an add request after the handler's normalisation: the
      SKU and part number stripped and upper-cased, name and notes
      stripped, the serialized flag by truthiness. */
  datatype NewSku = NewSku(sku: string, name: string, qty: int, notes: string, snFlag: bool, partNum: string)

  /** Reads every field before any check; None when one of them raises. */
  function ReadNewSku(req: Request): (r: Option<NewSku>)
    ensures r.Some? <==>
              && GetText(req, SkuField).Some? && GetText(req, NameField).Some?
              && AddQty(req).Some? && GetText(req, NotesField).Some? && GetText(req, PartField).Some?
    ensures r.Some? ==>
              && r.value.sku == NormalizeKey(GetText(req, SkuField).value)
              && r.value.name == Strip(GetText(req, NameField).value)
              && r.value.qty == AddQty(req).value
              && r.value.notes == Strip(GetText(req, NotesField).value)
              && r.value.partNum == NormalizeKey(GetText(req, PartField).value)
              && (r.value.snFlag <==> FlagField in req && JsonTruthy(req[FlagField]))
  {
    var sku, name, qty := GetText(req, SkuField), GetText(req, NameField), AddQty(req);
    var notes, part := GetText(req, NotesField), GetText(req, PartField);
    if sku.None? || name.None? || qty.None? || notes.None? || part.None? then None
    else Some(NewSku(NormalizeKey(sku.value), Strip(name.value), qty.value, Strip(notes.value),
                     FlagField in req && JsonTruthy(req[FlagField]), NormalizeKey(part.value)))
  }

  /** `api_add_sku`: reads and normalises every field first, then checks
      and stores (`AddParsed`). */
  function ApiAddSku(s: Store, log: ErrorLog, req: Request, user: string, now: Time)
    : (r: (Store, ErrorLog, AddReply))
    ensures r.2.AddFailed? <==> ReadNewSku(req).None?
  {
    AddParsed(s, log, ReadNewSku(req), user, now)
  }

  /** `api_add_sku` once the fields were read: a field that could not be
      read (None) answers 500 with a logged `api_error`; an empty SKU or
      name and a SKU already stored answer 400; otherwise the record is
      stored under the normalised key. */
  function AddParsed(s: Store, log: ErrorLog, parsed: Option<NewSku>, user: string, now: Time)
    : (r: (Store, ErrorLog, AddReply))
    ensures r.2.AddFailed? <==> parsed.None?
    ensures r.2.AddFailed? ==> Appended(log, r.1, ApiError)
    ensures !r.2.AddFailed? ==> r.1 == log
    ensures !r.2.SkuAdded? ==> r.0 == s
    ensures r.2.SkuAdded? <==>
              parsed.Some? && parsed.value.sku != [] && parsed.value.name != [] && parsed.value.sku !in s.skus
    ensures r.2.SkuAdded? ==> Stored(s, r.0, parsed.value, r.2.record, user)
  {
    match parsed
    case None =>
      (s, LogError(log, ApiError, "Failed to add SKU", "app.py:api_add_sku", user, now).log, AddFailed)
    case Some(f) =>
      if f.sku == [] || f.name == [] then (s, log, AddRejected("SKU and product name required"))
      else if f.sku in s.skus then (s, log, AddRejected("SKU already exists"))
      else
        var added := AddSku(s, f.sku, f.name, f.qty, user, f.notes, f.snFlag, f.partNum, now);
        (added.0, log, SkuAdded(added.1))
  }

  /** `after` holds `record`, built from the request's fields, under the
      request's key, and no other SKU changed. */
  predicate Stored(before: Store, after: Store, f: NewSku, record: TrackedSku, user: string) {
    && after.skus == before.skus[f.sku := record]
    && record.productName == f.name && record.availableQty == f.qty == record.initialQty
    && record.notes == f.notes && record.snFlag == f.snFlag && record.partNum == f.partNum
    && record.modifiedBy == user && record.ordersProcessed == 0
  }

  /** The key a request is stored under normalises to itself, so its own
      spelling finds it again; two spellings differing only in case and
      surrounding whitespace give the same key. */
  lemma AddKeyIsNormal(req: Request)
    requires ReadNewSku(req).Some?
    ensures var key := ReadNewSku(req).value.sku;
            NormalizeKey(key) == key && NormalizeKey(GetText(req, SkuField).value) == key
  {
    NormalizeIdempotent(GetText(req, SkuField).value);
  }

  /** Once a SKU is added, a second request for the same normalised key is
      refused as a duplicate. */
  lemma AddSameKeyRejected(s: Store, log: ErrorLog, f1: NewSku, f2: NewSku, user: string, t1: Time, t2: Time)
    requires AddParsed(s, log, Some(f1), user, t1).2.SkuAdded?
    requires f2.sku == f1.sku && f2.name != []
    ensures var s1 := AddParsed(s, log, Some(f1), user, t1).0;
            AddParsed(s1, log, Some(f2), user, t2).2 == AddRejected("SKU already exists")
  {
  }

  /** A newly added SKU with nothing on hand raises the sold-out count by
      one and leaves the low-stock count alone. */
  lemma AddSoldOutCounts(s: Store, log: ErrorLog, f: NewSku, user: string, now: Time)
    requires AddParsed(s, log, Some(f), user, now).2.SkuAdded?
    requires f.qty <= 0
    ensures var after := DashboardStats(AddParsed(s, log, Some(f), user, now).0.skus);
            var before := DashboardStats(s.skus);
            after.total == before.total + 1 && after.soldOut == before.soldOut + 1
            && after.lowStock == before.lowStock
  {
    var r := AddParsed(s, log, Some(f), user, now);
    assert Stored(s, r.0, f, r.2.record, user) && f.sku !in s.skus;
    SoldOutAfterInsert(s.skus, f.sku, r.2.record);
  }

  /** Inserting a new key with nothing on hand adds exactly that key to the
      sold-out set. */
  lemma SoldOutAfterInsert(skus: map<string, TrackedSku>, key: string, record: TrackedSku)
    requires key !in skus && record.availableQty <= 0
    ensures var before := DashboardStats(skus);
            DashboardStats(skus[key := record]) == Stats(before.total + 1, before.soldOut + 1, before.lowStock)
  {
    assert SoldOutKeys(skus[key := record]) == SoldOutKeys(skus) + {key};
    assert LowStockKeys(skus[key := record]) == LowStockKeys(skus);
  }

  // ---------------------------------------------------------------------
  // PUT /api/skus/<sku>
  // ---------------------------------------------------------------------

  datatype UpdateReply =
    | SkuSaved(record: TrackedSku)   // 200
    | SkuNotFound                    // 404
    | UpdateFailed                   // 500, logged

  /** The edit a request describes: only the three editable fields, each
      present field read as the handler reads it. */
  function EditOf(req: Request): (r: Option<SkuUpdates>)
    ensures r.Some? <==>
              && (NameField in req ==> req[NameField].JStr?)
              && (QtyField in req ==> PyInt(req[QtyField]).Some?)
              && (NotesField in req ==> req[NotesField].JStr?)
    ensures r.Some? ==> (r.value.availableQty.Some? <==> QtyField in req)
  {
    var name := if NameField in req then GetText(req, NameField) else Some("");
    var qty := if QtyField in req then PyInt(req[QtyField]) else Some(0);
    var notes := if NotesField in req then GetText(req, NotesField) else Some("");
    if name.None? || qty.None? || notes.None? then None
    else Some(SkuUpdates(
      if NameField in req then Some(Strip(name.value)) else None,
      if QtyField in req then Some(qty.value) else None,
      if NotesField in req then Some(Strip(notes.value)) else None))
  }

  /** `api_update_sku`: the SKU comes from the URL as it is (no
      normalisation). An unreadable field, or an edit of a stored SKU that
      leaves out the quantity, answers 500 with a logged `api_error`; an
      unknown SKU answers 404; otherwise the store's update is applied. */
  function ApiUpdateSku(s: Store, log: ErrorLog, sku: string, req: Request, user: string, now: Time)
    : (r: (Store, ErrorLog, UpdateReply))
    ensures r.2.UpdateFailed? <==> EditOf(req).None? || (sku in s.skus && QtyField !in req)
    ensures r.2.SkuNotFound? <==> EditOf(req).Some? && sku !in s.skus
    ensures r.2.UpdateFailed? ==> Appended(log, r.1, ApiError)
    ensures !r.2.UpdateFailed? ==> r.1 == log
    ensures !r.2.SkuSaved? ==> r.0 == s
    ensures r.2.SkuSaved? ==>
              && r.0.skus == s.skus[sku := r.2.record]
              && r.2.record.availableQty == r.2.record.initialQty == PyInt(req[QtyField]).value
              && r.2.record.productName == (if NameField in req then Strip(req[NameField].s) else s.skus[sku].productName)
              && r.2.record.notes == (if NotesField in req then Strip(req[NotesField].s) else s.skus[sku].notes)
              && r.2.record.partNum == s.skus[sku].partNum && r.2.record.snFlag == s.skus[sku].snFlag
  {
    var failed := LogError(log, ApiError, "Failed to update SKU " + sku, "app.py:api_update_sku", user, now).log;
    match EditOf(req)
    case None => (s, failed, UpdateFailed)
    case Some(edit) =>
      match UpdateSku(s, sku, edit, user, now)
      case UnknownSku => (s, log, SkuNotFound)
      case MissingQuantity => (s, failed, UpdateFailed)
      case SkuUpdated(store, record) => (store, log, SkuSaved(record))
  }

  /** Fields other than the three editable ones are ignored. */
  lemma UpdateIgnoresOtherFields(s: Store, log: ErrorLog, sku: string, req: Request, key: string,
                                 v: Json, user: string, now: Time)
    requires key != NameField && key != QtyField && key != NotesField
    ensures ApiUpdateSku(s, log, sku, req[key := v], user, now) == ApiUpdateSku(s, log, sku, req, user, now)
  {
    assert EditOf(req[key := v]) == EditOf(req);
  }

  // ---------------------------------------------------------------------
  // POST /api/sku-check
  // ---------------------------------------------------------------------

  datatype CheckReply =
    | SkuChecked(info: SyncEngine.SkuInfo)   // 200, the lookup's answer
    | CheckRejected                          // 400
    | CheckFailed                            // 500, logged

  /** `api_sku_check`: the SKU is read and normalised as when adding; an
      empty one is refused; otherwise the answer is the product lookup's,
      where `reply` is what the ERP returns for the normalised SKU. A
      failed lookup raises out of `get_sku_info` with nothing logged, so
      the route's own handler logs one `api_error` and answers 500. */
  function ApiSkuCheck(req: Request, reply: QueryReply<SyncEngine.ProductRow>, log: ErrorLog,
                       user: string, now: Time): (r: (CheckReply, ErrorLog))
    ensures r.0.CheckRejected? <==> GetText(req, SkuField).Some? && AllSpace(GetText(req, SkuField).value)
    ensures r.0.CheckFailed? <==>
              || GetText(req, SkuField).None?
              || (!AllSpace(GetText(req, SkuField).value) && reply.QueryFailed?)
    ensures r.0.CheckFailed? ==> Appended(log, r.1, ApiError)
    ensures !r.0.CheckFailed? ==> r.1 == log
    ensures r.0.SkuChecked? ==>
              && reply.QueryRows?
              && r.0.info.success
              && (r.0.info.validatedSku <==> HasRows(reply))
              && (HasRows(reply) ==>
                    r.0.info.partNum == Some(reply.rows[0].partNumber)
                    && r.0.info.isSerialized == Some(reply.rows[0].snFlag))
  {
    var failed := LogError(log, ApiError, "Failed to validate SKU", "app.py:api_sku_check", user, now).log;
    match GetText(req, SkuField)
    case None => (CheckFailed, failed)
    case Some(text) =>
      if NormalizeKey(text) == [] then (CheckRejected, log)
      else
        match SyncEngine.GetSkuInfoAsWritten(reply)
        case SkuAnswered(info) => (SkuChecked(info), log)
        case LookupRaised => (CheckFailed, failed)
  }
}

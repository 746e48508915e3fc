/**
 Admission of bulk history reads: a planner bounds a request, the store checks every scope again on its own, and
 the executor counts the rows that come back.
 */
module ReadPlan {
  import opened PythonText
  import opened Wrappers

  const MAX_SCOPES: nat := 32
  const MAX_TARGETS: nat := 347
  const MAX_METRICS: nat := 6
  const MAX_EVENT_ROWS: nat := 4096
  const MAX_RETURNED_ROWS: nat := 36_000
  const MAX_METRIC_LIMIT: nat := 96
  const MAX_HISTORY_HOURS: nat := 8760
  const TRANSIT_TOLERANCE_SECONDS: nat := 1
  const MICROS: nat := 1_000_000

  datatype Metric =
    TemperatureC | BytesRead | BytesWritten | AnnualizedBytesRead | AnnualizedBytesWritten | PowerOnHours

  /** `ALLOWED_HISTORY_METRICS`. */
  function MetricNamed(name: string): Option<Metric> {
    match name
    case "temperature_c" => Some(TemperatureC)
    case "bytes_read" => Some(BytesRead)
    case "bytes_written" => Some(BytesWritten)
    case "annualized_bytes_read" => Some(AnnualizedBytesRead)
    case "annualized_bytes_written" => Some(AnnualizedBytesWritten)
    case "power_on_hours" => Some(PowerOnHours)
    case _ => None
  }

  /** `HISTORY_METRIC_MAX_LIMITS`. */
  function PublicLimit(metric: Metric): nat {
    if metric == TemperatureC then 96 else 60
  }

  /** A metric name as the store sees it; `temperature` is internal to it. */
  datatype StoreMetric = Public(metric: Metric) | Temperature | UnknownMetric

  /** `INTERNAL_HISTORY_METRIC_MAX_LIMITS`. */
  function InternalLimit(name: StoreMetric): Option<nat> {
    match name
    case Public(metric) => Some(PublicLimit(metric))
    case Temperature => Some(96)
    case UnknownMetric => None
  }

  /**
   A decoded JSON value of a request. Of an object only the fields a scope may have matter, a missing one reading
   as null, and whether there are others.
   */
  datatype Value =
    | Null
    | Flag(truth: bool)
    | Number(number: int)
    | Text(text: string)
    | List(items: seq<Value>)
    | Object(systemId: Value, enclosureId: Value, slots: Value, others: bool)
    | Other

  /** A `since` argument: the instant it names in microseconds, if it names one with a time zone. */
  type Since = Option<int>

  datatype Request = Request(
    scopes: seq<Value>, metrics: seq<Value>, since: Since, eventLimit: Value, metricLimit: Value)

  datatype LimitName = ScopeCount | TargetCount | EventRows | ProjectedRows | ReturnedRows

  datatype Refusal = BadShape | OverBudget(name: LimitName, value: nat, limit: nat)

  datatype Scope = Scope(system: string, enclosure: Option<string>, slots: seq<nat>)

  datatype Plan = Plan(
    scopes: seq<Scope>,
    metrics: seq<Metric>,
    since: int,
    eventLimit: nat,
    metricLimit: nat,
    windowHours: nat,
    targetCount: nat,
    projectedEventRows: nat,
    projectedRows: nat)

  type Checked<T> = Result<T, Refusal>

  // ---------------------------------------------------------------- normalization

  function StrictInt(value: Value, minimum: nat, maximum: nat): Checked<nat> {
    if value.Number? && minimum <= value.number <= maximum then Success(value.number) else Failure(BadShape)
  }

  predicate Increasing(slots: seq<nat>) {
    forall i, j | 0 <= i < j < |slots| :: slots[i] < slots[j]
  }

  /** Adds a slot to a sorted list without repetition. */
  function Insert(slots: seq<nat>, slot: nat): (r: seq<nat>)
    requires Increasing(slots)
    ensures Increasing(r) && |r| <= |slots| + 1 && forall s :: s in r <==> s in slots || s == slot
  {
    if slots == [] || slots[|slots| - 1] < slot then slots + [slot]
    else
      var rest, last := slots[..|slots| - 1], slots[|slots| - 1];
      assert slots == rest + [last];
      if last == slot then slots
      else
        var inserted := Insert(rest, slot);
        assert forall i | 0 <= i < |inserted| :: inserted[i] in inserted;
        inserted + [last]
  }

  predicate IsSlot(value: Value) {
    value.Number? && value.number >= 0
  }

  /** The slots of a list of valid identifiers, sorted and without repetition. */
  function SortedSlots(raw: seq<Value>): (r: seq<nat>)
    requires forall value <- raw :: IsSlot(value)
    ensures Increasing(r) && |r| <= |raw| && forall s :: s in r <==> Number(s) in raw
  {
    if raw == [] then []
    else
      var rest, last := raw[..|raw| - 1], raw[|raw| - 1];
      assert raw == rest + [last] && IsSlot(last);
      Insert(SortedSlots(rest), last.number)
  }

  function Enclosure(value: Value): Option<string> {
    if value.Text? && Strip(value.text) != "" then Some(Strip(value.text)) else None
  }

  /** `_normalize_scope`: the scope and the number of slots it listed. */
  function NormalizeScope(raw: Value): Checked<(Scope, nat)> {
    if !raw.Object? || raw.others then Failure(BadShape)
    else
      var system, enclosure, slots := raw.systemId, raw.enclosureId, raw.slots;
      if !system.Text? || Strip(system.text) == "" then Failure(BadShape)
      else if !enclosure.Null? && !enclosure.Text? then Failure(BadShape)
      else if !slots.List? || slots.items == [] then Failure(BadShape)
      else if |slots.items| > MAX_TARGETS then Failure(OverBudget(TargetCount, |slots.items|, MAX_TARGETS))
      else if exists value <- slots.items :: !IsSlot(value) then Failure(BadShape)
      else Success((Scope(Strip(system.text), Enclosure(enclosure), SortedSlots(slots.items)), |slots.items|))
  }

  datatype Scanned = Scanned(scopes: seq<Scope>, listed: nat)

  predicate Identified(scopes: seq<Scope>, scope: Scope) {
    Identity(scope) in Identities(scopes)
  }

  function Identity(scope: Scope): (string, Option<string>) {
    (scope.system, scope.enclosure)
  }

  function Identities(scopes: seq<Scope>): set<(string, Option<string>)> {
    set scope <- scopes :: Identity(scope)
  }

  function ScanScopes(raw: seq<Value>): Checked<Scanned> {
    if raw == [] then Success(Scanned([], 0))
    else
      var before := ScanScopes(raw[..|raw| - 1]);
      if before.Failure? then before
      else AddScope(before.value, NormalizeScope(raw[|raw| - 1]))
  }

  function AddScope(before: Scanned, scope: Checked<(Scope, nat)>): Checked<Scanned> {
    if scope.Failure? then Failure(scope.error)
    else
      var listed := before.listed + scope.value.1;
      if listed > MAX_TARGETS then Failure(OverBudget(TargetCount, listed, MAX_TARGETS))
      else if Identified(before.scopes, scope.value.0) then Failure(BadShape)
      else Success(Scanned(before.scopes + [scope.value.0], listed))
  }

  function ScanMetrics(raw: seq<Value>): Checked<seq<Metric>> {
    if raw == [] then Success([])
    else
      var before, last := ScanMetrics(raw[..|raw| - 1]), raw[|raw| - 1];
      if before.Failure? then before
      else if !last.Text? || MetricNamed(last.text).None? then Failure(BadShape)
      else
        var metric := MetricNamed(last.text).value;
        Success(if metric in before.value then before.value else before.value + [metric])
  }

  /** The age of an instant is between one hour and a year, with a second to travel. */
  predicate InWindow(since: int, now: int) {
    3600 * MICROS <= now - since <= (MAX_HISTORY_HOURS * 3600 + TRANSIT_TOLERANCE_SECONDS) * MICROS
  }

  function WindowHours(since: int, now: int): nat
    requires InWindow(since, now)
  {
    var hours := (now - since) / (3600 * MICROS);
    if hours < MAX_HISTORY_HOURS then hours else MAX_HISTORY_HOURS
  }

  function Sum<T(!new)>(keys: seq<T>, weight: T -> nat): nat {
    if keys == [] then 0 else Sum(keys[..|keys| - 1], weight) + weight(keys[|keys| - 1])
  }

  function Targets(scopes: seq<Scope>): nat {
    Sum(scopes, (scope: Scope) => |scope.slots|)
  }

  function Limit(metricLimit: nat, metric: Metric): nat {
    if metricLimit < PublicLimit(metric) then metricLimit else PublicLimit(metric)
  }

  function MetricRows(metrics: seq<Metric>, metricLimit: nat): nat {
    Sum(metrics, metric => Limit(metricLimit, metric))
  }

  /** `build_history_read_plan`. */
  function PlanOf(request: Request, now: int): Checked<Plan> {
    if request.scopes == [] then Failure(BadShape)
    else if |request.scopes| > MAX_SCOPES then Failure(OverBudget(ScopeCount, |request.scopes|, MAX_SCOPES))
    else if ScanScopes(request.scopes).Failure? then Failure(ScanScopes(request.scopes).error)
    else if request.metrics == [] || |request.metrics| > MAX_METRICS then Failure(BadShape)
    else if ScanMetrics(request.metrics).Failure? then Failure(ScanMetrics(request.metrics).error)
    else
      var eventLimit := StrictInt(request.eventLimit, 0, MAX_EVENT_ROWS);
      var metricLimit := StrictInt(request.metricLimit, 1, MAX_METRIC_LIMIT);
      if eventLimit.Failure? || metricLimit.Failure? then Failure(BadShape)
      else if request.since.None? || !InWindow(request.since.value, now) then Failure(BadShape)
      else
        Projected(ScanScopes(request.scopes).value.scopes, ScanMetrics(request.metrics).value,
                  request.since.value, eventLimit.value, metricLimit.value, WindowHours(request.since.value, now))
  }

  function Projected(
      scopes: seq<Scope>, metrics: seq<Metric>, since: int, eventLimit: nat, metricLimit: nat, hours: nat)
    : Checked<Plan>
  {
    var targets := Targets(scopes);
    var eventRows := targets * eventLimit;
    var rows := targets * (eventLimit + MetricRows(metrics, metricLimit));
    if eventRows > MAX_EVENT_ROWS then Failure(OverBudget(EventRows, eventRows, MAX_EVENT_ROWS))
    else if rows > MAX_RETURNED_ROWS then Failure(OverBudget(ProjectedRows, rows, MAX_RETURNED_ROWS))
    else Success(Plan(scopes, metrics, since, eventLimit, metricLimit, hours, targets, eventRows, rows))
  }

  /** One turn of the planner's loop over its scopes. */
  method NextScope(
      scopes: seq<Scope>, listed: nat, identities: set<(string, Option<string>)>, scope: Checked<(Scope, nat)>)
    returns (r: Checked<Scanned>, seen: set<(string, Option<string>)>)
    requires identities == Identities(scopes)
    ensures r == AddScope(Scanned(scopes, listed), scope)
    ensures r.Success? ==> seen == Identities(r.value.scopes)
  {
    seen := identities;
    if scope.Failure? { return Failure(scope.error), seen; }
    var total := listed + scope.value.1;
    if total > MAX_TARGETS { return Failure(OverBudget(TargetCount, total, MAX_TARGETS)), seen; }
    var identity := Identity(scope.value.0);
    if identity in identities { return Failure(BadShape), seen; }
    IdentifiedMore(scopes, scope.value.0);
    r, seen := Success(Scanned(scopes + [scope.value.0], total)), identities + {identity};
  }

  method NormalizeScopes(raw: seq<Value>) returns (r: Checked<Scanned>)
    ensures r == ScanScopes(raw)
  {
    var scopes: seq<Scope>, listed: nat, identities: set<(string, Option<string>)> := [], 0, {};
    for i := 0 to |raw|
      invariant ScanScopes(raw[..i]) == Success(Scanned(scopes, listed))
      invariant identities == Identities(scopes)
    {
      assert raw[..i + 1][..i] == raw[..i];
      var scope := NormalizeScope(raw[i]);
      r, identities := NextScope(scopes, listed, identities, scope);
      assert ScanScopes(raw[..i + 1]) == r;
      if r.Failure? {
        ScopesFailEarly(raw, i + 1);
        return;
      }
      scopes, listed := r.value.scopes, r.value.listed;
    }
    assert raw[..|raw|] == raw;
    r := Success(Scanned(scopes, listed));
  }

  lemma IdentifiedMore(scopes: seq<Scope>, scope: Scope)
    ensures Identities(scopes + [scope]) == Identities(scopes) + {Identity(scope)}
  {
  }

  lemma {:induction false} ScopesFailEarly(raw: seq<Value>, i: nat)
    requires i <= |raw| && ScanScopes(raw[..i]).Failure?
    ensures ScanScopes(raw) == ScanScopes(raw[..i])
  {
    if i == |raw| {
      assert raw[..i] == raw;
    } else {
      assert raw[..|raw| - 1][..i] == raw[..i];
      ScopesFailEarly(raw[..|raw| - 1], i);
    }
  }

  method NormalizeMetrics(raw: seq<Value>) returns (r: Checked<seq<Metric>>)
    ensures r == ScanMetrics(raw)
  {
    var metrics: seq<Metric> := [];
    for i := 0 to |raw|
      invariant ScanMetrics(raw[..i]) == Success(metrics)
    {
      assert raw[..i + 1][..i] == raw[..i];
      if !raw[i].Text? || MetricNamed(raw[i].text).None? {
        MetricsFailEarly(raw, i + 1);
        return Failure(BadShape);
      }
      var metric := MetricNamed(raw[i].text).value;
      if metric !in metrics {
        metrics := metrics + [metric];
      }
    }
    assert raw[..|raw|] == raw;
    r := Success(metrics);
  }

  lemma {:induction false} MetricsFailEarly(raw: seq<Value>, i: nat)
    requires i <= |raw| && ScanMetrics(raw[..i]).Failure?
    ensures ScanMetrics(raw) == ScanMetrics(raw[..i])
  {
    if i == |raw| {
      assert raw[..i] == raw;
    } else {
      assert raw[..|raw| - 1][..i] == raw[..i];
      MetricsFailEarly(raw[..|raw| - 1], i);
    }
  }

  method BuildPlan(request: Request, now: int) returns (r: Checked<Plan>)
    ensures r == PlanOf(request, now)
  {
    if request.scopes == [] { return Failure(BadShape); }
    if |request.scopes| > MAX_SCOPES { return Failure(OverBudget(ScopeCount, |request.scopes|, MAX_SCOPES)); }
    var scanned := NormalizeScopes(request.scopes);
    if scanned.Failure? { return Failure(scanned.error); }
    if request.metrics == [] || |request.metrics| > MAX_METRICS { return Failure(BadShape); }
    var metrics := NormalizeMetrics(request.metrics);
    if metrics.Failure? { return Failure(metrics.error); }
    var eventLimit := StrictInt(request.eventLimit, 0, MAX_EVENT_ROWS);
    if eventLimit.Failure? { return Failure(BadShape); }
    var metricLimit := StrictInt(request.metricLimit, 1, MAX_METRIC_LIMIT);
    if metricLimit.Failure? { return Failure(BadShape); }
    if request.since.None? || !InWindow(request.since.value, now) { return Failure(BadShape); }
    r := Projected(scanned.value.scopes, metrics.value, request.since.value, eventLimit.value, metricLimit.value,
                   WindowHours(request.since.value, now));
  }

  // ---------------------------------------------------------------- what an admitted plan is

  predicate Distinct<T(==)>(keys: seq<T>) {
    forall i, j | 0 <= i < j < |keys| :: keys[i] != keys[j]
  }

  predicate SoundScope(scope: Scope) {
    Strip(scope.system) == scope.system != "" && scope.slots != [] && Increasing(scope.slots)
  }

  predicate DistinctIdentities(scopes: seq<Scope>) {
    forall i, j | 0 <= i < j < |scopes| :: Identity(scopes[i]) != Identity(scopes[j])
  }

  ghost predicate Sound(plan: Plan) {
    && 1 <= |plan.scopes| <= MAX_SCOPES && (forall scope <- plan.scopes :: SoundScope(scope))
    && DistinctIdentities(plan.scopes)
    && 1 <= |plan.metrics| <= MAX_METRICS && Distinct(plan.metrics)
    && plan.eventLimit <= MAX_EVENT_ROWS && 1 <= plan.metricLimit <= MAX_METRIC_LIMIT
    && WithinRows(plan) && plan.targetCount <= MAX_TARGETS && 1 <= plan.windowHours <= MAX_HISTORY_HOURS
  }

  ghost predicate WithinRows(plan: Plan) {
    && plan.targetCount == Targets(plan.scopes)
    && plan.projectedEventRows == plan.targetCount * plan.eventLimit <= MAX_EVENT_ROWS
    && plan.projectedRows == plan.targetCount * (plan.eventLimit + MetricRows(plan.metrics, plan.metricLimit))
    && plan.projectedRows <= MAX_RETURNED_ROWS
  }

  lemma {:induction false} ScannedScopesAreSound(raw: seq<Value>)
    requires ScanScopes(raw).Success?
    ensures var scanned := ScanScopes(raw).value;
            && |scanned.scopes| == |raw| && Targets(scanned.scopes) <= scanned.listed <= MAX_TARGETS
            && (forall scope <- scanned.scopes :: SoundScope(scope))
            && DistinctIdentities(scanned.scopes)
  {
    if raw != [] {
      var last := raw[|raw| - 1];
      ScannedScopesAreSound(raw[..|raw| - 1]);
      NormalizedScopeIsSound(last);
      var before := ScanScopes(raw[..|raw| - 1]).value.scopes;
      assert (before + [NormalizeScope(last).value.0])[..|before|] == before;
    }
  }

  lemma NormalizedScopeIsSound(raw: Value)
    requires NormalizeScope(raw).Success?
    ensures var (scope, listed) := NormalizeScope(raw).value; SoundScope(scope) && |scope.slots| <= listed
  {
    var slots := raw.slots.items;
    assert slots[0] in slots && IsSlot(slots[0]);
    assert slots[0].number in SortedSlots(slots);
  }

  lemma {:induction false} ScannedMetricsAreSound(raw: seq<Value>)
    requires ScanMetrics(raw).Success?
    ensures var metrics := ScanMetrics(raw).value;
            Distinct(metrics) && |metrics| <= |raw| && (raw != [] ==> metrics != [])
  {
    if raw != [] {
      ScannedMetricsAreSound(raw[..|raw| - 1]);
    }
  }

  lemma HoursInRange(since: int, now: int)
    requires InWindow(since, now)
    ensures 1 <= WindowHours(since, now) <= MAX_HISTORY_HOURS
  {
  }

  lemma ProjectedFields(
      scopes: seq<Scope>, metrics: seq<Metric>, since: int, eventLimit: nat, metricLimit: nat, hours: nat)
    requires Projected(scopes, metrics, since, eventLimit, metricLimit, hours).Success?
    ensures var plan := Projected(scopes, metrics, since, eventLimit, metricLimit, hours).value;
            && WithinRows(plan) && plan.scopes == scopes && plan.metrics == metrics && plan.since == since
            && plan.eventLimit == eventLimit && plan.metricLimit == metricLimit && plan.windowHours == hours
  {
  }

  lemma PlanIsSound(request: Request, now: int)
    requires PlanOf(request, now).Success?
    ensures Sound(PlanOf(request, now).value) && InWindow(PlanOf(request, now).value.since, now)
  {
    ScannedScopesAreSound(request.scopes);
    ScannedMetricsAreSound(request.metrics);
    var since := request.since.value;
    HoursInRange(since, now);
    ProjectedFields(ScanScopes(request.scopes).value.scopes, ScanMetrics(request.metrics).value, since,
                    request.eventLimit.number, request.metricLimit.number, WindowHours(since, now));
  }

  // ---------------------------------------------------------------- the store's own check

  function AsSet(values: seq<Value>): set<Value> {
    set value | value in values
  }

  function LimitRows(limits: seq<(StoreMetric, Value)>): Checked<nat> {
    if limits == [] then Success(0)
    else
      var before, (metric, limit) := LimitRows(limits[..|limits| - 1]), limits[|limits| - 1];
      if before.Failure? then before
      else if InternalLimit(metric).None? then Failure(BadShape)
      else if StrictInt(limit, 1, InternalLimit(metric).value).Failure? then Failure(BadShape)
      else Success(before.value + limit.number)
  }

  /** `validate_store_scope_request`. */
  function ValidateScope(
      slots: Option<seq<Value>>, eventLimit: Value, limits: seq<(StoreMetric, Value)>, since: Since, now: int)
    : Checked<int>
  {
    var raw := if slots.Some? then slots.value else [];
    if raw == [] then Failure(BadShape)
    else if |raw| > MAX_TARGETS then Failure(OverBudget(TargetCount, |raw|, MAX_TARGETS))
    else if exists value <- raw :: !IsSlot(value) then Failure(BadShape)
    else if StrictInt(eventLimit, 0, MAX_EVENT_ROWS).Failure? then Failure(BadShape)
    else if limits == [] || |limits| > MAX_METRICS then Failure(BadShape)
    else if LimitRows(limits).Failure? then Failure(LimitRows(limits).error)
    else if since.None? || !InWindow(since.value, now) then Failure(BadShape)
    else
      var count := |AsSet(raw)|;
      var eventRows := count * eventLimit.number;
      var rows := count * (eventLimit.number + LimitRows(limits).value);
      if eventRows > MAX_EVENT_ROWS then Failure(OverBudget(EventRows, eventRows, MAX_EVENT_ROWS))
      else if rows > MAX_RETURNED_ROWS then Failure(OverBudget(ProjectedRows, rows, MAX_RETURNED_ROWS))
      else Success(since.value)
  }

  function SlotArguments(slots: seq<nat>): (r: seq<Value>)
    ensures |r| == |slots| && forall i | 0 <= i < |r| :: r[i] == Number(slots[i])
  {
    seq(|slots|, i requires 0 <= i < |slots| => Number(slots[i]))
  }

  function LimitArguments(metrics: seq<Metric>, metricLimit: nat): (r: seq<(StoreMetric, Value)>)
    ensures |r| == |metrics|
  {
    if metrics == [] then []
    else
      var last := metrics[|metrics| - 1];
      LimitArguments(metrics[..|metrics| - 1], metricLimit) + [(Public(last), Number(Limit(metricLimit, last)))]
  }

  lemma {:induction false} LimitArgumentsPass(metrics: seq<Metric>, metricLimit: nat)
    requires metricLimit >= 1
    ensures LimitRows(LimitArguments(metrics, metricLimit)) == Success(MetricRows(metrics, metricLimit))
  {
    if metrics != [] {
      var rest, last := metrics[..|metrics| - 1], metrics[|metrics| - 1];
      LimitArgumentsPass(rest, metricLimit);
      assert LimitArguments(metrics, metricLimit)[..|rest|] == LimitArguments(rest, metricLimit);
    }
  }

  lemma {:induction false} DistinctSlots(slots: seq<nat>)
    requires Increasing(slots)
    ensures |AsSet(SlotArguments(slots))| == |slots|
  {
    if slots == [] {
      assert AsSet(SlotArguments(slots)) == {};
    } else {
      var rest, last := slots[..|slots| - 1], slots[|slots| - 1];
      DistinctSlots(rest);
      assert SlotArguments(slots) == SlotArguments(rest) + [Number(last)];
      OneMoreValue(SlotArguments(rest), Number(last));
      assert forall i | 0 <= i < |rest| :: SlotArguments(rest)[i] != Number(last);
    }
  }

  lemma OneMoreValue(values: seq<Value>, value: Value)
    ensures AsSet(values + [value]) == AsSet(values) + {value}
  {
  }

  lemma {:induction false} SumIncludes<T(!new)>(keys: seq<T>, weight: T -> nat, key: T)
    requires key in keys
    ensures weight(key) <= Sum(keys, weight)
  {
    var rest := keys[..|keys| - 1];
    if key != keys[|keys| - 1] {
      assert key in rest;
      SumIncludes(rest, weight, key);
    }
  }

  lemma Scales(a: nat, b: nat, c: nat)
    requires a <= b
    ensures a * c <= b * c
  {
  }

  /** The check of `list_scope_history` with the arguments the executor passes for one scope. */
  function StoreCheck(plan: Plan, scope: Scope, now: int): Checked<int> {
    ValidateScope(Some(SlotArguments(scope.slots)), Number(plan.eventLimit),
                  LimitArguments(plan.metrics, plan.metricLimit), Some(plan.since), now)
  }

  /**
   A plan admitted at one moment is never refused by the store at another, except for its age: each scope passes
   the second check exactly when `since` is still in the window.
   */
  lemma AdmittedScopesPass(request: Request, now: int, scope: Scope, later: int)
    requires PlanOf(request, now).Success? && scope in PlanOf(request, now).value.scopes
    ensures var plan := PlanOf(request, now).value;
            StoreCheck(plan, scope, later)
            == if InWindow(plan.since, later) then Success(plan.since) else Failure(BadShape)
    ensures InWindow(PlanOf(request, now).value.since, now)
  {
    PlanIsSound(request, now);
    SoundScopePasses(PlanOf(request, now).value, scope, later);
  }

  lemma ScopeFitsBudget(plan: Plan, scope: Scope)
    requires WithinRows(plan) && scope in plan.scopes
    ensures |scope.slots| <= plan.targetCount
    ensures |scope.slots| * plan.eventLimit <= MAX_EVENT_ROWS
    ensures |scope.slots| * (plan.eventLimit + MetricRows(plan.metrics, plan.metricLimit)) <= MAX_RETURNED_ROWS
  {
    SumIncludes(plan.scopes, (scope: Scope) => |scope.slots|, scope);
    Scales(|scope.slots|, plan.targetCount, plan.eventLimit);
    Scales(|scope.slots|, plan.targetCount, plan.eventLimit + MetricRows(plan.metrics, plan.metricLimit));
  }

  lemma SoundScopePasses(plan: Plan, scope: Scope, later: int)
    requires Sound(plan) && scope in plan.scopes
    ensures StoreCheck(plan, scope, later)
         == if InWindow(plan.since, later) then Success(plan.since) else Failure(BadShape)
  {
    LimitArgumentsPass(plan.metrics, plan.metricLimit);
    DistinctSlots(scope.slots);
    ScopeFitsBudget(plan, scope);
    SlotsAreSlots(scope.slots);
    ValidateWithinBudget(SlotArguments(scope.slots), plan.eventLimit, LimitArguments(plan.metrics, plan.metricLimit),
                         plan.since, later);
  }

  lemma SlotsAreSlots(slots: seq<nat>)
    ensures forall value <- SlotArguments(slots) :: IsSlot(value)
  {
  }

  /** Arguments that pass every other check are refused exactly for the age of `since`. */
  lemma ValidateWithinBudget(
      raw: seq<Value>, eventLimit: nat, limits: seq<(StoreMetric, Value)>, since: int, now: int)
    requires raw != [] && |raw| <= MAX_TARGETS && forall value <- raw :: IsSlot(value)
    requires eventLimit <= MAX_EVENT_ROWS && 1 <= |limits| <= MAX_METRICS && LimitRows(limits).Success?
    requires |AsSet(raw)| * eventLimit <= MAX_EVENT_ROWS
    requires |AsSet(raw)| * (eventLimit + LimitRows(limits).value) <= MAX_RETURNED_ROWS
    ensures ValidateScope(Some(raw), Number(eventLimit), limits, Some(since), now)
         == if InWindow(since, now) then Success(since) else Failure(BadShape)
  {
  }

  // ---------------------------------------------------------------- execution

  /** A value of a history payload: the rows of a list, or something else. */
  datatype Rows = Rows(count: nat) | NotAList

  datatype History = History(events: Rows, metrics: Option<seq<(Metric, Rows)>>)

  /** What the store returned for one scope, by slot. */
  type Reply = seq<(nat, History)>

  function Count(rows: Rows): nat {
    if rows.Rows? then rows.count else 0
  }

  function HistoryRows(history: History): nat {
    Count(history.events)
    + if history.metrics.Some? then Sum(history.metrics.value, (pair: (Metric, Rows)) => Count(pair.1)) else 0
  }

  function ReplyRows(reply: Reply): nat {
    Sum(reply, (pair: (nat, History)) => HistoryRows(pair.1))
  }

  function TotalRows(replies: seq<Reply>): nat {
    Sum(replies, (reply: Reply) => ReplyRows(reply))
  }

  /** `count_history_rows`. */
  method CountHistoryRows(reply: Reply) returns (total: nat)
    ensures total == ReplyRows(reply)
  {
    total := 0;
    for i := 0 to |reply|
      invariant total == ReplyRows(reply[..i])
    {
      assert reply[..i + 1][..i] == reply[..i];
      var history := reply[i].1;
      if history.events.Rows? {
        total := total + history.events.count;
      }
      if history.metrics.Some? {
        var metrics, rows: nat := history.metrics.value, 0;
        for j := 0 to |metrics|
          invariant rows == Sum(metrics[..j], (pair: (Metric, Rows)) => Count(pair.1))
        {
          assert metrics[..j + 1][..j] == metrics[..j];
          rows := rows + Count(metrics[j].1);
        }
        assert metrics[..|metrics|] == metrics;
        total := total + rows;
      }
    }
    assert reply[..|reply|] == reply;
  }

  lemma {:induction false} SumOfPrefix<T(!new)>(keys: seq<T>, weight: T -> nat, n: nat)
    requires n <= |keys|
    ensures Sum(keys[..n], weight) <= Sum(keys, weight)
  {
    if n < |keys| {
      assert keys[..|keys| - 1][..n] == keys[..n];
      SumOfPrefix(keys[..|keys| - 1], weight, n);
    } else {
      assert keys[..n] == keys;
    }
  }

  /** `_execute_history_plan`: it raises exactly when more rows come back than the plan projected. */
  method ExecutePlan(plan: Plan, replies: seq<Reply>) returns (r: Checked<nat>)
    requires |replies| == |plan.scopes|
    ensures r.Success? <==> TotalRows(replies) <= plan.projectedRows
    ensures r.Success? ==> r.value == TotalRows(replies)
    ensures r.Failure? ==> r.error.OverBudget? && r.error.limit == plan.projectedRows < r.error.value
  {
    var returned: nat := 0;
    for i := 0 to |plan.scopes|
      invariant returned == TotalRows(replies[..i]) <= plan.projectedRows
    {
      assert replies[..i + 1][..i] == replies[..i];
      var rows := CountHistoryRows(replies[i]);
      returned := returned + rows;
      if returned > plan.projectedRows {
        SumOfPrefix(replies, (reply: Reply) => ReplyRows(reply), i + 1);
        return Failure(OverBudget(ReturnedRows, returned, plan.projectedRows));
      }
    }
    assert replies[..|replies|] == replies;
    return Success(returned);
  }

  ghost predicate DistinctLabels<K(!new), V(!new)>(pairs: seq<(K, V)>) {
    forall i, j | 0 <= i < j < |pairs| :: pairs[i].0 != pairs[j].0
  }

  /** The store read at most the requested rows for at most the requested slots and metrics, each once. */
  ghost predicate Respects(plan: Plan, scope: Scope, reply: Reply) {
    DistinctLabels(reply) && forall pair <- reply :: pair.0 in scope.slots && HistoryRespects(plan, pair.1)
  }

  ghost predicate HistoryRespects(plan: Plan, history: History) {
    && Count(history.events) <= plan.eventLimit
    && (history.metrics.Some? ==>
          && DistinctLabels(history.metrics.value)
          && forall pair <- history.metrics.value ::
               pair.0 in plan.metrics && Count(pair.1) <= Limit(plan.metricLimit, pair.0))
  }

  lemma {:induction false} RemovedSum<T(!new)>(keys: seq<T>, weight: T -> nat, i: nat)
    requires i < |keys|
    ensures Sum(keys, weight) == Sum(keys[..i] + keys[i + 1..], weight) + weight(keys[i])
  {
    var n := |keys| - 1;
    if i == n {
      assert keys[..i] + keys[i + 1..] == keys[..n];
    } else {
      var rest := keys[..n];
      RemovedSum(rest, weight, i);
      var without := keys[..i] + keys[i + 1..];
      assert without[..n - 1] == rest[..i] + rest[i + 1..] && without[n - 1] == keys[n];
    }
  }

  /**
   Values labelled with different keys of a list, each at most the weight of its key, add up to at most the
   weight of the list.
   */
  lemma {:induction false} LabelledSum<K(!new), V(!new)>(
      pairs: seq<(K, V)>, rows: ((K, V)) -> nat, keys: seq<K>, weight: K -> nat)
    requires DistinctLabels(pairs)
    requires forall pair <- pairs :: pair.0 in keys && rows(pair) <= weight(pair.0)
    ensures Sum(pairs, rows) <= Sum(keys, weight)
    decreases |keys|
  {
    if pairs != [] {
      var rest, last := pairs[..|pairs| - 1], pairs[|pairs| - 1];
      assert last in pairs && forall pair <- rest :: pair in pairs;
      var i :| 0 <= i < |keys| && keys[i] == last.0;
      RemovedSum(keys, weight, i);
      var others := keys[..i] + keys[i + 1..];
      forall pair | pair in rest
        ensures pair.0 in others
      {
        var k :| 0 <= k < |rest| && rest[k] == pair;
        assert pairs[k].0 != last.0;
        var m :| 0 <= m < |keys| && keys[m] == pair.0;
        assert if m < i then others[m] == pair.0 else others[m - 1] == pair.0;
      }
      LabelledSum(rest, rows, others, weight);
    }
  }

  lemma {:induction false} ConstantSum<T(!new)>(keys: seq<T>, weight: T -> nat, c: nat)
    requires forall key <- keys :: weight(key) == c
    ensures Sum(keys, weight) == |keys| * c
  {
    if keys != [] {
      var rest := keys[..|keys| - 1];
      assert keys[|keys| - 1] in keys && forall key <- rest :: key in keys;
      ConstantSum(rest, weight, c);
      Distributes(|rest|, 1, c);
    }
  }

  lemma HistoryFits(plan: Plan, history: History)
    requires HistoryRespects(plan, history)
    ensures HistoryRows(history) <= plan.eventLimit + MetricRows(plan.metrics, plan.metricLimit)
  {
    if history.metrics.Some? {
      LabelledSum(history.metrics.value, (pair: (Metric, Rows)) => Count(pair.1), plan.metrics,
                  metric => Limit(plan.metricLimit, metric));
    }
  }

  lemma ReplyFits(plan: Plan, scope: Scope, reply: Reply)
    requires Respects(plan, scope, reply)
    ensures ReplyRows(reply) <= |scope.slots| * (plan.eventLimit + MetricRows(plan.metrics, plan.metricLimit))
  {
    var c := plan.eventLimit + MetricRows(plan.metrics, plan.metricLimit);
    forall pair | pair in reply
      ensures HistoryRows(pair.1) <= c
    {
      HistoryFits(plan, pair.1);
    }
    LabelledSum(reply, (pair: (nat, History)) => HistoryRows(pair.1), scope.slots, (slot: nat) => c);
    ConstantSum(scope.slots, (slot: nat) => c, c);
  }

  lemma {:induction false} RepliesFit(plan: Plan, scopes: seq<Scope>, replies: seq<Reply>)
    requires |replies| == |scopes| && forall i | 0 <= i < |scopes| :: Respects(plan, scopes[i], replies[i])
    ensures TotalRows(replies) <= Targets(scopes) * (plan.eventLimit + MetricRows(plan.metrics, plan.metricLimit))
  {
    if scopes != [] {
      var n := |scopes| - 1;
      var c := plan.eventLimit + MetricRows(plan.metrics, plan.metricLimit);
      RepliesFit(plan, scopes[..n], replies[..n]);
      ReplyFits(plan, scopes[n], replies[n]);
      Distributes(Targets(scopes[..n]), |scopes[n].slots|, c);
    }
  }

  lemma Distributes(a: nat, b: nat, c: nat)
    ensures (a + b) * c == a * c + b * c
  {
  }

  /**
   The executor never raises for a sound plan, as every admitted one is: reads that respect their limits stay
   within the projection.
   */
  lemma RespectfulReadsFit(plan: Plan, replies: seq<Reply>)
    requires Sound(plan) && |replies| == |plan.scopes|
    requires forall i | 0 <= i < |replies| :: Respects(plan, plan.scopes[i], replies[i])
    ensures TotalRows(replies) <= plan.projectedRows <= MAX_RETURNED_ROWS
  {
    RepliesFit(plan, plan.scopes, replies);
  }
}

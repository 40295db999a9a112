/** System settings: typed values stored as text in a table, with a write-through cache
    in front of it. */
module SettingsCache {
  import opened Text

  // -------------------------------------------------------------------- values

  datatype ValueType = StringType | NumberType | BooleanType | JsonType

  /** A setting's value. Numbers are identified by their printed form, arrays, `null` and
      other objects by a token. */
  datatype Value = Str(text: string) | Num(printed: string) | Flag(flag: bool) | Object(token: string)

  /** The JavaScript conversions the service calls: `String(v)`, `parseFloat`, truth,
      `JSON.stringify` and `JSON.parse` (`None` when it throws). */
  datatype Conversions = Conversions(
    show: Value -> string,
    /** the printed form of the number */
    parseFloat: string -> string,
    truthy: Value -> bool,
    stringify: Value -> string,
    parse: string -> Option<Value>,
    emptyObject: string)

  /** What is used of them: numbers and strings print and read back, a flag is its own
      truth value, and `{}` survives JSON (not every object does: `{ a: Infinity }`, dates
      and undefined members read back as something else). */
  ghost predicate Lawful(c: Conversions) {
    && (forall n :: c.parseFloat(c.show(Num(n))) == n)
    && (forall s :: c.show(Str(s)) == s)
    && (forall b :: c.truthy(Flag(b)) == b)
    && c.parse(c.stringify(Object(c.emptyObject))) == Some(Object(c.emptyObject))
  }

  /** The laws are consistent: conversions that keep them exist. */
  lemma LawsHaveAModel()
    ensures exists c :: Lawful(c)
  {
    var c := Conversions(
      (v: Value) => match v
        case Str(s) => s
        case Num(p) => p
        case _ => "",
      (s: string) => s,
      (v: Value) => v == Flag(true),
      (v: Value) => if v.Object? then v.token else "",
      (s: string) => Some(Object(s)),
      "");
    assert Lawful(c);
  }

  function ParseValue(c: Conversions, text: string, ty: ValueType): Value {
    match ty
    case NumberType => Num(c.parseFloat(text))
    case BooleanType => Flag(text == "true" || text == "1")
    case JsonType => c.parse(text).GetOr(Object(c.emptyObject))
    case StringType => Str(text)
  }

  function StringifyValue(c: Conversions, v: Value, ty: ValueType): string {
    match ty
    case BooleanType => if c.truthy(v) then "true" else "false"
    case JsonType => c.stringify(v)
    case _ => c.show(v)
  }

  function InferValueType(v: Value): ValueType {
    match v
    case Num(_) => NumberType
    case Flag(_) => BooleanType
    case Object(_) => JsonType
    case Str(_) => StringType
  }

  /** The type is that of a plain value, or JSON and the value survives JSON. */
  predicate Fits(c: Conversions, v: Value, ty: ValueType) {
    (ty == InferValueType(v) && !v.Object?) || (ty == JsonType && c.parse(c.stringify(v)) == Some(v))
  }

  /** Reading back what was printed gives the value exactly when the type fits it. */
  lemma RoundTripIff(c: Conversions, v: Value, ty: ValueType)
    requires Lawful(c)
    ensures ParseValue(c, StringifyValue(c, v, ty), ty) == v <==> Fits(c, v, ty)
  {
    if ty == JsonType && v == Object(c.emptyObject) {
      assert c.parse(c.stringify(Object(c.emptyObject))).Some?;
    }
  }

  // --------------------------------------------------------------------- state

  datatype Row = Row(value: string, valueType: ValueType, description: Option<string>, isSecret: bool)

  datatype Setting = Setting(value: Value, valueType: ValueType, description: Option<string>, isSecret: bool)

  function Parsed(c: Conversions, row: Row): Setting {
    Setting(ParseValue(c, row.value, row.valueType), row.valueType, row.description, row.isSecret)
  }

  /** `rows` is the table; only this service writes it. */
  datatype State = State(rows: map<string, Row>, cache: map<string, Setting>, cacheLoaded: bool)

  predicate Coherent(c: Conversions, s: State) {
    forall key :: key in s.cache ==> key in s.rows && s.cache[key] == Parsed(c, s.rows[key])
  }

  // ---------------------------------------------------------------- operations

  /** The optional arguments of `set`. */
  datatype Options = Options(valueType: Option<ValueType>, description: Option<string>, isSecret: Option<bool>)

  const NO_OPTIONS := Options(None, None, None)

  function Loaded(c: Conversions, s: State, ok: bool): State {
    if ok then State(s.rows, map key | key in s.rows :: Parsed(c, s.rows[key]), true) else s
  }

  /** `get` and what it leaves in the cache; a failing query throws. */
  datatype Reply = Found(value: Value) | Missing | Threw

  function Ready(c: Conversions, s: State, loadOk: bool): State {
    if s.cacheLoaded then s else Loaded(c, s, loadOk)
  }

  function AfterGet(c: Conversions, s: State, key: string, loadOk: bool, findOk: bool): State {
    var r := Ready(c, s, loadOk);
    if key in r.cache || !findOk || key !in r.rows then r
    else r.(cache := r.cache[key := Parsed(c, r.rows[key])])
  }

  function GetReply(c: Conversions, s: State, key: string, loadOk: bool, findOk: bool): Reply {
    var r := Ready(c, s, loadOk);
    if key in r.cache then Found(r.cache[key].value)
    else if !findOk then Threw
    else if key in r.rows then Found(Parsed(c, r.rows[key]).value)
    else Missing
  }

  function RowFor(c: Conversions, before: Option<Row>, v: Value, ty: ValueType, o: Options): Row {
    match before
    case Some(row) =>
      Row(StringifyValue(c, v, ty), ty,
          if o.description.Some? then o.description else row.description, o.isSecret.GetOr(row.isSecret))
    case None => Row(StringifyValue(c, v, ty), ty, o.description, o.isSecret.GetOr(false))
  }

  function RowAt(s: State, key: string): Option<Row> { if key in s.rows then Some(s.rows[key]) else None }

  function TypeFor(v: Value, o: Options): ValueType { o.valueType.GetOr(InferValueType(v)) }

  /** `ok` is whether both the query and the save work. */
  function AfterSet(c: Conversions, s: State, key: string, v: Value, o: Options, ok: bool): State {
    if !ok then s
    else
      var row := RowFor(c, RowAt(s, key), v, TypeFor(v, o), o);
      s.(rows := s.rows[key := row],
         cache := s.cache[key := Setting(v, row.valueType, row.description, row.isSecret)])
  }

  datatype Item = Item(key: string, value: Value)

  /** `setMultiple`: one set after the other, the first failing one ends it. */
  function AfterSets(c: Conversions, s: State, items: seq<Item>): State {
    if items == [] then s
    else
      var last := items[|items| - 1];
      AfterSet(c, AfterSets(c, s, items[..|items| - 1]), last.key, last.value, NO_OPTIONS, true)
  }

  function AfterDelete(s: State, key: string, ok: bool): State {
    if ok then s.(rows := s.rows - {key}, cache := s.cache - {key}) else s
  }

  function AfterClear(c: Conversions, s: State, ok: bool): State { Loaded(c, State(s.rows, map[], false), ok) }

  datatype Default = Default(key: string, value: Value, valueType: ValueType, description: string)

  const DEFAULT_SETTINGS: seq<Default> := [
    Default("site.name", Str("ServerHubX"), StringType, "Site display name"),
    Default("site.url", Str("http://localhost:3000"), StringType, "Site URL"),
    Default("site.timezone", Str("UTC"), StringType, "Server timezone"),
    Default("security.session_timeout", Num("3600"), NumberType, "Session timeout in seconds"),
    Default("security.max_login_attempts", Num("5"), NumberType, "Max login attempts before lockout"),
    Default("security.lockout_duration", Num("900"), NumberType, "Account lockout duration in seconds"),
    Default("backup.default_retention", Num("30"), NumberType, "Default backup retention days"),
    Default("backup.max_concurrent", Num("2"), NumberType, "Max concurrent backup jobs"),
    Default("monitoring.metrics_interval", Num("10"), NumberType, "Metrics collection interval in seconds"),
    Default("monitoring.alert_check_interval", Num("30"), NumberType, "Alert rule check interval in seconds"),
    Default("ssh.default_port", Num("8130"), NumberType, "Default SSH port for new installations"),
    Default("domain.default_php_version", Str("8.2"), StringType, "Default PHP version for new domains"),
    Default("domain.default_document_root", Str("public_html"), StringType, "Default document root folder name"),
    Default("mail.enabled", Flag(true), BooleanType, "Enable mail server features"),
    Default("dns.enabled", Flag(true), BooleanType, "Enable DNS management features")
  ]

  function DefaultRow(c: Conversions, d: Default): Row {
    Row(StringifyValue(c, d.value, d.valueType), d.valueType, Some(d.description), false)
  }

  /** The table after the defaults in `ds` have been looked up and, where missing, saved. */
  function WithDefaults(c: Conversions, rows: map<string, Row>, ds: seq<Default>): map<string, Row> {
    if ds == [] then rows
    else
      var before := WithDefaults(c, rows, ds[..|ds| - 1]);
      var d := ds[|ds| - 1];
      if d.key in before then before else before[d.key := DefaultRow(c, d)]
  }

  /** `onModuleInit`: load, add the defaults (`done` of them before a query throws),
      load again. */
  function AfterInit(c: Conversions, s: State, loadOk: bool, done: nat, reloadOk: bool): State {
    var first := Loaded(c, s, loadOk);
    if done < |DEFAULT_SETTINGS| then first.(rows := WithDefaults(c, first.rows, DEFAULT_SETTINGS[..done]))
    else Loaded(c, first.(rows := WithDefaults(c, first.rows, DEFAULT_SETTINGS)), reloadOk)
  }

  datatype Op =
    | Init(loadOk: bool, done: nat, reloadOk: bool)
    | Get(key: string, loadOk: bool, findOk: bool)
    | Set(key: string, value: Value, options: Options, ok: bool)
    | SetMultiple(items: seq<Item>)
    | Delete(key: string, ok: bool)
    | ClearCache(ok: bool)

  function Next(c: Conversions, s: State, op: Op): State {
    match op
    case Init(loadOk, done, reloadOk) => AfterInit(c, s, loadOk, done, reloadOk)
    case Get(key, loadOk, findOk) => AfterGet(c, s, key, loadOk, findOk)
    case Set(key, v, o, ok) => AfterSet(c, s, key, v, o, ok)
    case SetMultiple(items) => AfterSets(c, s, items)
    case Delete(key, ok) => AfterDelete(s, key, ok)
    case ClearCache(ok) => AfterClear(c, s, ok)
  }

  /** Each value that is set fits the type it is set with: the named one, or its own. */
  predicate WellTyped(c: Conversions, op: Op) {
    match op
    case Set(_, v, o, _) => Fits(c, v, TypeFor(v, o))
    case SetMultiple(items) => ItemsFit(c, items)
    case _ => true
  }

  predicate ItemsFit(c: Conversions, items: seq<Item>) {
    forall i :: 0 <= i < |items| ==> Fits(c, items[i].value, InferValueType(items[i].value))
  }

  // ----------------------------------------------------------------- coherence

  /** A successful set keeps the cache coherent exactly when the type fits the value. */
  lemma SetCoherentIff(c: Conversions, s: State, key: string, v: Value, o: Options)
    requires Lawful(c) && Coherent(c, s)
    ensures Coherent(c, AfterSet(c, s, key, v, o, true)) <==> Fits(c, v, TypeFor(v, o))
  {
    RoundTripIff(c, v, TypeFor(v, o));
    var n := AfterSet(c, s, key, v, o, true);
    assert key in n.cache && n.cache[key].value == v;
    assert Parsed(c, n.rows[key]).value == ParseValue(c, StringifyValue(c, v, TypeFor(v, o)), TypeFor(v, o));
  }

  lemma {:induction false} SetsCoherent(c: Conversions, s: State, items: seq<Item>)
    requires Lawful(c) && Coherent(c, s) && ItemsFit(c, items)
    ensures Coherent(c, AfterSets(c, s, items))
  {
    if items != [] {
      var init, last := items[..|items| - 1], items[|items| - 1];
      SetsCoherent(c, s, init);
      SetCoherentIff(c, AfterSets(c, s, init), last.key, last.value, NO_OPTIONS);
    }
  }

  lemma {:induction false} DefaultsKeep(c: Conversions, rows: map<string, Row>, ds: seq<Default>, key: string)
    ensures key in rows ==> key in WithDefaults(c, rows, ds) && WithDefaults(c, rows, ds)[key] == rows[key]
  {
    if ds != [] { DefaultsKeep(c, rows, ds[..|ds| - 1], key); }
  }

  lemma InitCoherent(c: Conversions, s: State, loadOk: bool, done: nat, reloadOk: bool)
    requires Coherent(c, s)
    ensures Coherent(c, AfterInit(c, s, loadOk, done, reloadOk))
  {
    var first := Loaded(c, s, loadOk);
    var ds := if done < |DEFAULT_SETTINGS| then DEFAULT_SETTINGS[..done] else DEFAULT_SETTINGS;
    forall key | key in first.cache
      ensures key in WithDefaults(c, first.rows, ds)
              && first.cache[key] == Parsed(c, WithDefaults(c, first.rows, ds)[key])
    {
      DefaultsKeep(c, first.rows, ds, key);
    }
  }

  lemma StepKeepsCoherent(c: Conversions, s: State, op: Op)
    requires Lawful(c) && Coherent(c, s) && WellTyped(c, op)
    ensures Coherent(c, Next(c, s, op))
  {
    match op
    case Init(loadOk, done, reloadOk) => InitCoherent(c, s, loadOk, done, reloadOk);
    case Set(key, v, o, ok) => if ok { SetCoherentIff(c, s, key, v, o); }
    case SetMultiple(items) => SetsCoherent(c, s, items);
    case _ =>
  }

  function After(c: Conversions, s: State, ops: seq<Op>): State {
    if ops == [] then s else Next(c, After(c, s, ops[..|ops| - 1]), ops[|ops| - 1])
  }

  function Fresh(rows: map<string, Row>): State { State(rows, map[], false) }

  /** Over any run, with any queries failing, every cached entry is the parsed row. */
  lemma {:induction false} RunCoherent(c: Conversions, rows: map<string, Row>, ops: seq<Op>)
    requires Lawful(c) && forall k :: 0 <= k < |ops| ==> WellTyped(c, ops[k])
    ensures Coherent(c, After(c, Fresh(rows), ops))
  {
    if ops != [] {
      RunCoherent(c, rows, ops[..|ops| - 1]);
      StepKeepsCoherent(c, After(c, Fresh(rows), ops[..|ops| - 1]), ops[|ops| - 1]);
    }
  }

  /** What a store without a cache would answer. */
  function Uncached(c: Conversions, s: State, key: string): Reply {
    if key in s.rows then Found(ParseValue(c, s.rows[key].value, s.rows[key].valueType)) else Missing
  }

  /** Setting an object without naming a type fails in this way exactly when JSON does not
      give it back. */
  lemma ObjectCoherentIff(c: Conversions, s: State, key: string, token: string)
    requires Lawful(c) && Coherent(c, s)
    ensures Coherent(c, AfterSet(c, s, key, Object(token), NO_OPTIONS, true))
            <==> c.parse(c.stringify(Object(token))) == Some(Object(token))
  {
    SetCoherentIff(c, s, key, Object(token), NO_OPTIONS);
  }

  /** So `get`, when it answers, answers as a store without a cache would, and it fails
      to answer only for a key that is not cached. */
  lemma GetAsUncached(c: Conversions, rows: map<string, Row>, ops: seq<Op>, key: string, loadOk: bool, findOk: bool)
    requires Lawful(c) && forall k :: 0 <= k < |ops| ==> WellTyped(c, ops[k])
    ensures var s := After(c, Fresh(rows), ops);
            var reply := GetReply(c, s, key, loadOk, findOk);
            && (reply != Threw ==> reply == Uncached(c, s, key))
            && (reply == Threw <==> !findOk && key !in Ready(c, s, loadOk).cache)
            && AfterGet(c, s, key, loadOk, findOk).rows == s.rows
  {
    RunCoherent(c, rows, ops);
    StepKeepsCoherent(c, After(c, Fresh(rows), ops), Get(key, loadOk, findOk));
  }

  /** And `exists`, from the cache or from the table, is whether the row is there. */
  lemma ExistsAsUncached(c: Conversions, rows: map<string, Row>, ops: seq<Op>, key: string)
    requires Lawful(c) && forall k :: 0 <= k < |ops| ==> WellTyped(c, ops[k])
    ensures var s := After(c, Fresh(rows), ops); key in s.cache || key in s.rows <==> Uncached(c, s, key).Found?
  {
    RunCoherent(c, rows, ops);
  }

  /** A successful set is what `get` answers from then on; the other keys answer as
      before. */
  lemma SetThenGet(c: Conversions, s: State, key: string, v: Value, o: Options, other: string,
                   loadOk: bool, findOk: bool)
    requires Lawful(c) && Coherent(c, s) && s.cacheLoaded
    ensures var n := AfterSet(c, s, key, v, o, true);
            GetReply(c, n, other, loadOk, findOk)
            == if other == key then Found(v) else GetReply(c, s, other, loadOk, findOk)
  {}

  /** And once the cache has been reloaded the value still reads the same exactly when
      the type fits it. */
  lemma SetSurvivesReloadIff(c: Conversions, s: State, key: string, v: Value, o: Options)
    requires Lawful(c) && Coherent(c, s)
    ensures GetReply(c, AfterClear(c, AfterSet(c, s, key, v, o, true), true), key, true, true) == Found(v)
            <==> Fits(c, v, TypeFor(v, o))
  {
    RoundTripIff(c, v, TypeFor(v, o));
    var n := AfterSet(c, s, key, v, o, true);
    assert Parsed(c, n.rows[key]).value == ParseValue(c, StringifyValue(c, v, TypeFor(v, o)), TypeFor(v, o));
  }

  /** A deleted key is missing, cached or not, until it is set again. */
  lemma DeleteThenGet(c: Conversions, s: State, key: string, other: string, loadOk: bool)
    requires Coherent(c, s)
    ensures var n := AfterDelete(s, key, true);
            GetReply(c, n, other, loadOk, true) == if other == key then Missing else Uncached(c, s, other)
  {}

  // ------------------------------------------------------- what the operations leave

  /** A flag is true in the table as `true` or `1`, and is stored as `true` or `false`. */
  lemma FlagTexts(c: Conversions, text: string, v: Value)
    ensures ParseValue(c, text, BooleanType) == Flag(text == "true" || text == "1")
    ensures StringifyValue(c, v, BooleanType) == "true" <==> c.truthy(v)
    ensures StringifyValue(c, v, BooleanType) == "false" <==> !c.truthy(v)
  {}

  /** A load that works makes the cache the parsed table, whatever it was before; one that fails
      leaves everything. So a key is cached afterwards exactly when the table has it. */
  lemma LoadExact(c: Conversions, s: State, ok: bool, key: string)
    ensures Loaded(c, s, ok).rows == s.rows && (!ok ==> Loaded(c, s, ok) == s)
    ensures ok ==> Loaded(c, s, ok).cacheLoaded && (key in Loaded(c, s, ok).cache <==> key in s.rows)
    ensures ok && key in s.rows ==> Loaded(c, s, ok).cache[key] == Parsed(c, s.rows[key])
    ensures AfterClear(c, s, ok).rows == s.rows && (key in AfterClear(c, s, ok).cache <==> ok && key in s.rows)
    ensures AfterClear(c, s, ok).cacheLoaded <==> ok
  {}

  /** What `get` has found once it answers again without the table. */
  lemma FoundIsCached(c: Conversions, s: State, key: string, loadOk: bool, findOk: bool, other: string)
    requires GetReply(c, s, key, loadOk, findOk).Found?
    ensures var n := AfterGet(c, s, key, loadOk, findOk);
            && GetReply(c, n, key, false, false) == GetReply(c, s, key, loadOk, findOk)
            && (loadOk ==> n.cacheLoaded) && (s.cacheLoaded && other != key && other in n.cache ==> other in s.cache)
  {}

  /** A set touches its own row alone. Without options it keeps description and secrecy, which
      for a new setting are none and not secret; an option that is given replaces them. The cache
      entry carries what the row does. */
  lemma SetKeepsRest(c: Conversions, s: State, key: string, v: Value, o: Options)
    ensures var n := AfterSet(c, s, key, v, o, true);
            && n.rows == s.rows[key := n.rows[key]] && n.cache == s.cache[key := n.cache[key]]
            && n.cacheLoaded == s.cacheLoaded
            && n.rows[key].description
               == (if o.description.Some? then o.description
                   else if key in s.rows then s.rows[key].description else None)
            && n.rows[key].isSecret
               == (if o.isSecret.Some? then o.isSecret.value else key in s.rows && s.rows[key].isSecret)
            && n.cache[key]
               == Setting(v, n.rows[key].valueType, n.rows[key].description, n.rows[key].isSecret)
    ensures AfterSet(c, s, key, v, o, false) == s
  {}

  /** The value the last item naming the key gives it. */
  function LastItem(items: seq<Item>, key: string): Option<Value> {
    if items == [] then None
    else if items[|items| - 1].key == key then Some(items[|items| - 1].value)
    else LastItem(items[..|items| - 1], key)
  }

  /** `setMultiple` gives each key the last value named for it, and leaves all others. */
  lemma {:induction false} SetsExact(c: Conversions, s: State, items: seq<Item>, key: string, findOk: bool)
    requires s.cacheLoaded
    ensures var n := AfterSets(c, s, items);
            && n.cacheLoaded
            && (LastItem(items, key).Some? ==>
                  key in n.rows && GetReply(c, n, key, false, findOk) == Found(LastItem(items, key).value))
            && (LastItem(items, key).None? ==>
                  RowAt(n, key) == RowAt(s, key) && (key in n.cache <==> key in s.cache)
                  && (key in s.cache ==> n.cache[key] == s.cache[key]))
  {
    if items != [] {
      var last := items[|items| - 1];
      SetsExact(c, s, items[..|items| - 1], key, findOk);
      SetKeepsRest(c, AfterSets(c, s, items[..|items| - 1]), last.key, last.value, NO_OPTIONS);
    }
  }

  // ------------------------------------------------------------------- defaults

  lemma {:induction false} DefaultsExact(c: Conversions, rows: map<string, Row>, ds: seq<Default>, key: string)
    ensures key in WithDefaults(c, rows, ds) <==> key in rows || exists i :: 0 <= i < |ds| && ds[i].key == key
    ensures key !in rows && key in WithDefaults(c, rows, ds) ==>
              exists i :: 0 <= i < |ds| && ds[i].key == key && WithDefaults(c, rows, ds)[key] == DefaultRow(c, ds[i])
  {
    if ds != [] {
      var init := ds[..|ds| - 1];
      DefaultsExact(c, rows, init, key);
      DefaultsKeep(c, rows, init, key);
      assert forall i :: 0 <= i < |init| ==> init[i] == ds[i];
      if i :| 0 <= i < |ds| && ds[i].key == key {
        if i < |init| { assert init[i].key == key; }
      }
    }
  }

  /** Start-up adds every missing default, as the row its value prints to, and overwrites
      nothing; doing it again changes nothing. */
  lemma EnsureDefaultsExact(c: Conversions, rows: map<string, Row>, key: string, i: nat)
    requires i < |DEFAULT_SETTINGS|
    ensures var all := WithDefaults(c, rows, DEFAULT_SETTINGS);
            && (key in rows ==> key in all && all[key] == rows[key])
            && (key in all ==> key in rows || exists k :: 0 <= k < |DEFAULT_SETTINGS| && DEFAULT_SETTINGS[k].key == key
                                                          && all[key] == DefaultRow(c, DEFAULT_SETTINGS[k]))
            && DEFAULT_SETTINGS[i].key in all
            && WithDefaults(c, all, DEFAULT_SETTINGS) == all
  {
    DefaultsKeep(c, rows, DEFAULT_SETTINGS, key);
    DefaultsExact(c, rows, DEFAULT_SETTINGS, key);
    DefaultsExact(c, rows, DEFAULT_SETTINGS, DEFAULT_SETTINGS[i].key);
    forall k | 0 <= k < |DEFAULT_SETTINGS| ensures DEFAULT_SETTINGS[k].key in WithDefaults(c, rows, DEFAULT_SETTINGS) {
      DefaultsExact(c, rows, DEFAULT_SETTINGS, DEFAULT_SETTINGS[k].key);
    }
    NothingMissing(c, WithDefaults(c, rows, DEFAULT_SETTINGS), DEFAULT_SETTINGS);
  }

  lemma DefaultFits(c: Conversions, i: nat)
    requires i < |DEFAULT_SETTINGS|
    ensures Fits(c, DEFAULT_SETTINGS[i].value, DEFAULT_SETTINGS[i].valueType)
  {}

  lemma RowReadsBack(c: Conversions, d: Default)
    requires Lawful(c) && Fits(c, d.value, d.valueType)
    ensures Parsed(c, DefaultRow(c, d)).value == d.value
  {
    RoundTripIff(c, d.value, d.valueType);
  }

  /** Each default has the type of its value, so it reads back. */
  lemma DefaultsReadBack(c: Conversions, i: nat)
    requires Lawful(c) && i < |DEFAULT_SETTINGS|
    ensures var d := DEFAULT_SETTINGS[i]; Parsed(c, DefaultRow(c, d)).value == d.value
  {
    DefaultFits(c, i);
    RowReadsBack(c, DEFAULT_SETTINGS[i]);
  }

  /** The row says what the default does. */
  predicate Added(c: Conversions, row: Row, d: Default, key: string) {
    && d.key == key && row.value == StringifyValue(c, d.value, d.valueType) && row.valueType == d.valueType
    && row.description == Some(d.description) && !row.isSecret
  }

  /** After a start-up whose queries all work each default is there, described and not secret if it
      was added, and the cache is the parsed table. */
  lemma InitExact(c: Conversions, s: State, key: string, done: nat)
    requires done >= |DEFAULT_SETTINGS|
    ensures var n := AfterInit(c, s, true, done, true);
            && n.cacheLoaded && n.cache.Keys == n.rows.Keys
            && (key in n.rows ==> n.cache[key] == Parsed(c, n.rows[key]))
            && (key in s.rows ==> key in n.rows && n.rows[key] == s.rows[key])
            && (key in n.rows && key !in s.rows ==>
                  exists i :: 0 <= i < |DEFAULT_SETTINGS| && Added(c, n.rows[key], DEFAULT_SETTINGS[i], key))
            && (forall i :: 0 <= i < |DEFAULT_SETTINGS| ==> DEFAULT_SETTINGS[i].key in n.rows)
  {
    DefaultsKeep(c, s.rows, DEFAULT_SETTINGS, key);
    DefaultsExact(c, s.rows, DEFAULT_SETTINGS, key);
    forall i | 0 <= i < |DEFAULT_SETTINGS|
      ensures DEFAULT_SETTINGS[i].key in WithDefaults(c, s.rows, DEFAULT_SETTINGS)
    {
      DefaultsExact(c, s.rows, DEFAULT_SETTINGS, DEFAULT_SETTINGS[i].key);
    }
  }

  /** One that breaks off after some of the defaults has saved exactly those, and its cache is
      what the first load gave. */
  lemma InitBroken(c: Conversions, s: State, loadOk: bool, done: nat, reloadOk: bool, key: string)
    requires done < |DEFAULT_SETTINGS|
    ensures var n := AfterInit(c, s, loadOk, done, reloadOk);
            && n.cache == Loaded(c, s, loadOk).cache && n.cacheLoaded == (s.cacheLoaded || loadOk)
            && (key in n.rows <==> key in s.rows || exists i :: 0 <= i < done && DEFAULT_SETTINGS[i].key == key)
  {
    DefaultsExact(c, s.rows, DEFAULT_SETTINGS[..done], key);
    assert forall i :: 0 <= i < done ==> DEFAULT_SETTINGS[..done][i] == DEFAULT_SETTINGS[i];
    if i :| 0 <= i < done && DEFAULT_SETTINGS[i].key == key { assert DEFAULT_SETTINGS[..done][i].key == key; }
  }

  lemma {:induction false} NothingMissing(c: Conversions, rows: map<string, Row>, ds: seq<Default>)
    requires forall k :: 0 <= k < |ds| ==> ds[k].key in rows
    ensures WithDefaults(c, rows, ds) == rows
  {
    if ds != [] { NothingMissing(c, rows, ds[..|ds| - 1]); }
  }

  // ---------------------------------------------------------------- the service

  class SettingsService {
    var settingsRepo: map<string, Row>
    var cache: map<string, Setting>
    var cacheLoaded: bool
    const c: Conversions

    constructor (rows: map<string, Row>, c: Conversions)
      ensures Abstract() == Fresh(rows) && this.c == c
    {
      settingsRepo, cache, cacheLoaded, this.c := rows, map[], false, c;
    }

    ghost function Abstract(): State
      reads this
    {
      State(settingsRepo, cache, cacheLoaded)
    }

    /** `rows` is the order the query returns the table in. */
    method LoadCache(ok: bool, rows: seq<string>)
      requires forall key :: key in rows <==> key in settingsRepo
      modifies this`cache, this`cacheLoaded
      ensures Abstract() == Loaded(c, old(Abstract()), ok)
    {
      if !ok { return; }
      cache := map[];
      for k := 0 to |rows|
        invariant cache.Keys == set key | key in rows[..k]
        invariant forall key :: key in cache ==> key in settingsRepo && cache[key] == Parsed(c, settingsRepo[key])
      {
        assert rows[..k + 1] == rows[..k] + [rows[k]];
        cache := cache[rows[k] := Parsed(c, settingsRepo[rows[k]])];
      }
      assert rows[..|rows|] == rows;
      cacheLoaded := true;
    }

    /** `done` of the defaults are handled before a query throws. */
    method EnsureDefaults(done: nat, reloadOk: bool, rows: seq<string>) returns (ok: bool)
      requires forall key :: key in rows <==> key in WithDefaults(c, settingsRepo, DEFAULT_SETTINGS)
      modifies this
      ensures ok <==> done >= |DEFAULT_SETTINGS|
      ensures var all := if ok then DEFAULT_SETTINGS else DEFAULT_SETTINGS[..done];
              var saved := old(Abstract()).(rows := WithDefaults(c, old(settingsRepo), all));
              Abstract() == if ok then Loaded(c, saved, reloadOk) else saved
    {
      var defaults := DEFAULT_SETTINGS;
      ok := done >= |defaults|;
      var n := if ok then |defaults| else done;
      SaveDefaults(defaults[..n]);
      assert defaults[..|defaults|] == defaults;
      if ok { LoadCache(reloadOk, rows); }
    }

    method SaveDefaults(defaults: seq<Default>)
      modifies this`settingsRepo
      ensures settingsRepo == WithDefaults(c, old(settingsRepo), defaults)
    {
      for k := 0 to |defaults|
        invariant settingsRepo == WithDefaults(c, old(settingsRepo), defaults[..k])
      {
        assert defaults[..k + 1][..k] == defaults[..k];
        if defaults[k].key !in settingsRepo {
          settingsRepo := settingsRepo[defaults[k].key := DefaultRow(c, defaults[k])];
        }
      }
      assert defaults[..|defaults|] == defaults;
    }

    method Get(key: string, loadOk: bool, findOk: bool, rows: seq<string>) returns (reply: Reply)
      requires forall k :: k in rows <==> k in settingsRepo
      modifies this`cache, this`cacheLoaded
      ensures Abstract() == AfterGet(c, old(Abstract()), key, loadOk, findOk)
      ensures reply == GetReply(c, old(Abstract()), key, loadOk, findOk)
    {
      if !cacheLoaded { LoadCache(loadOk, rows); }
      if key in cache { return Found(cache[key].value); }
      if !findOk { return Threw; }
      if key !in settingsRepo { return Missing; }
      var setting := settingsRepo[key];
      var value := ParseValue(c, setting.value, setting.valueType);
      cache := cache[key := Setting(value, setting.valueType, setting.description, setting.isSecret)];
      reply := Found(value);
    }

    method Set(key: string, value: Value, options: Options, ok: bool)
      modifies this`settingsRepo, this`cache
      ensures Abstract() == AfterSet(c, old(Abstract()), key, value, options, ok)
    {
      if !ok { return; }
      var valueType := options.valueType.GetOr(InferValueType(value));
      var stringValue := StringifyValue(c, value, valueType);
      var setting: Row;
      if key in settingsRepo {
        setting := settingsRepo[key].(value := stringValue, valueType := valueType);
        if options.description.Some? { setting := setting.(description := options.description); }
        if options.isSecret.Some? { setting := setting.(isSecret := options.isSecret.value); }
      } else {
        setting := Row(stringValue, valueType, options.description, options.isSecret.GetOr(false));
      }
      settingsRepo := settingsRepo[key := setting];
      cache := cache[key := Setting(value, valueType, setting.description, setting.isSecret)];
    }

    method SetMultiple(items: seq<Item>)
      modifies this`settingsRepo, this`cache
      ensures Abstract() == AfterSets(c, old(Abstract()), items)
    {
      for k := 0 to |items|
        invariant Abstract() == AfterSets(c, old(Abstract()), items[..k])
      {
        assert items[..k + 1][..k] == items[..k];
        Set(items[k].key, items[k].value, NO_OPTIONS, true);
      }
      assert items[..|items|] == items;
    }

    method Delete(key: string, ok: bool) returns (affected: bool)
      modifies this`settingsRepo, this`cache
      ensures Abstract() == AfterDelete(old(Abstract()), key, ok)
      ensures affected <==> ok && key in old(settingsRepo)
    {
      if !ok { return false; }
      affected := key in settingsRepo;
      settingsRepo, cache := settingsRepo - {key}, cache - {key};
    }

    method ClearCache(ok: bool, rows: seq<string>)
      requires forall key :: key in rows <==> key in settingsRepo
      modifies this`cache, this`cacheLoaded
      ensures Abstract() == AfterClear(c, old(Abstract()), ok)
    {
      cache, cacheLoaded := map[], false;
      LoadCache(ok, rows);
    }
  }
}

/** The cache engine of index.ts as functions of the configuration, the
    database's collections and the caller's clock reading: key namespacing,
    bookkeeping stripping, context merging with hooks, the expiry-checked
    read, the upsert, the expiry sweep and collection provisioning. */
module Cache {
  import opened JsValues
  import opened Loki
  import opened Interface

  // ---------------------------------------------------------------------
  // Store and configuration defaults (get_col, createDb)
  // ---------------------------------------------------------------------

  /** The options of `get_col`; `None` is a property the caller left out. */
  datatype ColOptions = ColOptions(idxUnique: Option<string>, idx: Option<seq<string>>, newCol: bool)

  function NoColOptions(): ColOptions
  {
    ColOptions(None, None, false)
  }

  /** The unique-index field after merging the defaults. */
  function UniqueField(options: ColOptions): string
  {
    options.idxUnique.GetOr("db_key")
  }

  /** The binary indices a newly created collection is declared with:
      `[idx_unique].concat(idx)`. */
  function DeclaredIndices(options: ColOptions): seq<string>
  {
    [UniqueField(options)] + options.idx.GetOr(["id"])
  }

  /** What `get_col(db, name, options)` does to the database's collections. */
  function Provision(cols: map<string, Collection>, name: string, options: ColOptions): (r: map<string, Collection>)
    ensures r.Keys == cols.Keys + {name}
    ensures forall n :: n in cols && n != name ==> r[n] == cols[n]
    ensures name in cols ==> r[name].docs == cols[name].docs && r[name].maxId == cols[name].maxId
    ensures name in cols ==> r[name].binaryIndices == cols[name].binaryIndices + {UniqueField(options)}
    ensures name in cols && !options.newCol ==> r[name].uniqueIndices == cols[name].uniqueIndices
    ensures name in cols && options.newCol ==> r[name].uniqueIndices == cols[name].uniqueIndices + {UniqueField(options)}
    ensures name !in cols ==> r[name].docs == map[] && r[name].uniqueIndices == {UniqueField(options)}
    ensures name !in cols ==> r[name].binaryIndices == (set i | i in DeclaredIndices(options))
    ensures UniqueField(options) in r[name].binaryIndices
  {
    var u := UniqueField(options);
    var created :=
      if !options.newCol && name in cols then cols
      else WithUniqueIndex(WithCollection(cols, name, DeclaredIndices(options)), name, u);
    WithIndex(created, name, u)
  }

  /** Provisioning twice with the same options is provisioning once: the
      second call finds the collection and its indices already in place,
      and under `new_col` adding the existing collection again returns it. */
  lemma ProvisionIdempotent(cols: map<string, Collection>, name: string, options: ColOptions)
    ensures Provision(Provision(cols, name, options), name, options) == Provision(cols, name, options)
  {
    var once := Provision(cols, name, options);
    var u := UniqueField(options);
    assert once[name].binaryIndices + {u} == once[name].binaryIndices;
    assert WithIndex(once, name, u)[name] == once[name];
    if options.newCol {
      assert once[name].uniqueIndices + {u} == once[name].uniqueIndices;
      assert WithUniqueIndex(once, name, u)[name] == once[name];
    }
  }

  /** `get_col`: fetches the collection unless `new_col` is set, creates
      it (with its indices and the unique index) when that gave nothing, and
      makes sure the unique field is indexed. The handle is the name. */
  method GetCol(db: Store, name: string, options: ColOptions) returns (handle: string)
    requires db.Valid()
    modifies db
    ensures db.Valid()
    ensures handle == name && name in db.cols
    ensures db.cols == Provision(old(db.cols), name, options)
  {
    var found: Option<Collection> := if options.newCol then None else db.GetCollection(name);
    if found.None? {
      db.AddCollection(name, DeclaredIndices(options));
      db.EnsureUniqueIndex(name, UniqueField(options));
    }
    db.EnsureIndex(name, UniqueField(options));
    handle := name;
  }

  const DefaultFile: string := "api.cache.loki.db"
  const DefaultCacheCol: string := "api.cache"

  /** `createDb`'s string defaulting: with a database supplied nothing is
      touched; otherwise `file` and `cache_col` get their defaults when the
      caller's values are falsy. */
  function CreateDbFields(fields: Fields, hasLoki: bool): (r: Fields)
    ensures hasLoki ==> r == fields
    ensures !hasLoki ==> r.Keys == fields.Keys + {"file", "cache_col"}
    ensures !hasLoki ==> r["file"] == (if Truthy(Prop(fields, "file")) then fields["file"] else Str(DefaultFile))
    ensures !hasLoki ==> r["cache_col"] == (if Truthy(Prop(fields, "cache_col")) then fields["cache_col"] else Str(DefaultCacheCol))
    ensures forall f :: f in fields && f != "file" && f != "cache_col" ==> r[f] == fields[f]
  {
    if hasLoki then fields
    else
      var withFile := fields["file" := Or(Prop(fields, "file"), Str(DefaultFile))];
      withFile["cache_col" := Or(Prop(withFile, "cache_col"), Str(DefaultCacheCol))]
  }

  // ---------------------------------------------------------------------
  // Keys, bookkeeping, contexts
  // ---------------------------------------------------------------------

  /** `this.config.prefix || ''`, as text. */
  function Prefix(cfg: Config): string
  {
    var p := Prop(cfg.fields, "prefix");
    if Truthy(p) then ToText(p) else ""
  }

  /** `dbKey(key)`: the physical key, the prefix followed by the key's text. */
  function DbKey(cfg: Config, key: Value): (k: string)
    ensures Prop(cfg.fields, "prefix").Str? ==> k == Prop(cfg.fields, "prefix").s + ToText(key)
    ensures !Truthy(Prop(cfg.fields, "prefix")) ==> k == ToText(key)
  {
    Prefix(cfg) + ToText(key)
  }

  /** Distinct string keys never share a physical key. */
  lemma DbKeyInjective(cfg: Config, a: string, b: string)
    requires DbKey(cfg, Str(a)) == DbKey(cfg, Str(b))
    ensures a == b
  {
    var p := Prefix(cfg);
    assert DbKey(cfg, Str(a)) == p + a && DbKey(cfg, Str(b)) == p + b;
    assert a == (p + a)[|p|..];
    assert b == (p + b)[|p|..];
  }

  /** Key collapse: a number and the string of its digits name the same
      entry. */
  lemma KeyCollapse(cfg: Config)
    ensures DbKey(cfg, Num(1)) == DbKey(cfg, Str("1"))
    ensures DbKey(cfg, Num(-42)) == DbKey(cfg, Str("-42"))
  {
    assert Decimal(1) == "1";
    assert 42 / 10 == 4 && 42 % 10 == 2;
    assert Digits(42) == Digits(4) + [DigitChar(2)] == "42";
    assert Decimal(-42) == "-" + Digits(42);
  }

  /** A number key never meets the physical key of `undefined`, which is
      the `db_key` the `set:data` context carries: the text of a number
      starts with a digit or a minus sign. */
  lemma NumberKeyIsNotUndefinedKey(cfg: Config, n: int)
    ensures DbKey(cfg, Num(n)) != DbKey(cfg, Undefined)
  {
    var p := Prefix(cfg);
    var t := Decimal(n);
    if n < 0 {
      assert t[0] == '-';
    } else {
      assert '0' <= t[0] <= '9';
    }
    assert (p + t)[|p|] == t[0];
    assert (p + "undefined")[|p|] == 'u';
  }

  /** The fields `tinyData` deletes from its copy. */
  function Bookkeeping(removeMeta: bool): set<string>
  {
    {"db_key", "db_expiry", "$loki"} + (if removeMeta then {"meta"} else {})
  }

  /** `tinyData(value, removeMeta)`: a copy of the document without the
      cache's and the store's bookkeeping fields. */
  function TinyData(value: Doc, removeMeta: bool): (d: Doc)
    ensures d.Keys == value.Keys - Bookkeeping(removeMeta)
    ensures "db_key" !in d && "db_expiry" !in d && "$loki" !in d
    ensures removeMeta ==> "meta" !in d
    ensures !removeMeta && "meta" in value ==> "meta" in d && d["meta"] == value["meta"]
    ensures forall f :: f in d ==> d[f] == value[f]
  {
    value - Bookkeeping(removeMeta)
  }

  /** The context `on` builds before consulting a hook:
      `Object.assign(data, argv, {db_key, db_col}, data)`. The last source
      is the target itself, so it adds nothing. */
  function BaseContext(cfg: Config, argv: Ctx, data: Ctx): Ctx
  {
    data + argv + map["db_key" := Str(DbKey(cfg, Prop(argv, "key"))), "db_col" := Prop(cfg.fields, "db_cache")]
  }

  /** The hook's return: `None` when no hook is configured for `op` or
      it returned a falsy value. */
  function HookReturn(cfg: Config, op: string, argv: Ctx, ctx: Ctx): Option<Ctx>
  {
    var name := "on" + op;
    if name in cfg.hooks then cfg.hooks[name](argv, ctx) else None
  }

  predicate NoHook(cfg: Config, op: string)
  {
    "on" + op !in cfg.hooks
  }

  /** `on(op, argv, data)`: the base context, overridden by whatever the
      hook returns. */
  function On(cfg: Config, op: string, argv: Ctx, data: Ctx): (r: Ctx)
    ensures "db_key" in r && "db_col" in r
    ensures data.Keys + argv.Keys <= r.Keys
  {
    var base := BaseContext(cfg, argv, data);
    match HookReturn(cfg, op, argv, base)
    case None => base
    case Some(o) => base + o
  }

  /** Precedence in the context `on` returns: the seed's fields, overridden
      by the arguments' fields, overridden by `db_key` (the physical key of
      `argv.key`) and `db_col` (the configured collection); then, if the hook
      returns an object, its fields override all of these. Without a hook or
      with a falsy return nothing else changes. */
  lemma OnPrecedence(cfg: Config, op: string, argv: Ctx, data: Ctx)
    ensures var r := On(cfg, op, argv, data);
      var base := BaseContext(cfg, argv, data);
      var o := HookReturn(cfg, op, argv, base).GetOr(map[]);
      && (NoHook(cfg, op) ==> o == map[])
      && r.Keys == data.Keys + argv.Keys + {"db_key", "db_col"} + o.Keys
      && (forall f :: f in o ==> r[f] == o[f])
      && ("db_key" !in o ==> r["db_key"] == Str(DbKey(cfg, Prop(argv, "key"))))
      && ("db_col" !in o ==> r["db_col"] == Prop(cfg.fields, "db_cache"))
      && (forall f :: f in argv && f !in o && f != "db_key" && f != "db_col" ==> r[f] == argv[f])
      && (forall f :: f in data && f !in argv && f !in o && f != "db_key" && f != "db_col" ==> r[f] == data[f])
  {
  }

  // ---------------------------------------------------------------------
  // get
  // ---------------------------------------------------------------------

  /** The collection a context's `db_col` refers to. */
  function ResolveCol(cols: map<string, Collection>, v: Value): (r: Result<string, Fault>)
    ensures r.Ok? <==> v.ColRef? && v.name in cols
    ensures r.Ok? ==> r.value == v.name
    ensures r.Err? ==> r.error == NotACollection
  {
    if v.ColRef? && v.name in cols then Ok(v.name) else Err(NotACollection)
  }

  /** `a > b`, both operands converted to numbers; a comparison with NaN
      is false. */
  predicate Later(a: Value, b: Value)
  {
    var x := ToNumber(a);
    var y := ToNumber(b);
    x.Some? && y.Some? && x.value > y.value
  }

  /** A stored document is live at `now` when its expiry lies strictly
      after `now`. */
  predicate LiveAt(doc: Doc, now: int)
  {
    Later(Prop(doc, "db_expiry"), Num(now))
  }

  function GetArgs(key: Value): Ctx
  {
    map["key" := key]
  }

  function Clock(now: int): Ctx
  {
    map["now" := Num(now)]
  }

  /** The cache is attached to collection `name` of `cols`. */
  predicate Attached(cfg: Config, cols: map<string, Collection>, name: string)
  {
    Prop(cfg.fields, "db_cache") == ColRef(name) && name in cols
  }

  /** `get(key)` at time `now`: the stripped document when a live one is
      stored under the context's key, null otherwise. */
  function GetOp(cfg: Config, cols: map<string, Collection>, key: Value, now: int): (r: Result<Option<Doc>, Fault>)
    ensures r.Err? ==> r.error == NotACollection
    ensures r.Ok? && r.value.Some? ==> "db_key" !in r.value.value && "db_expiry" !in r.value.value && "$loki" !in r.value.value
  {
    var data := On(cfg, "get", GetArgs(key), Clock(now));
    var name :- ResolveCol(cols, Prop(data, "db_col"));
    var found := FindOne(cols[name], Prop(data, "db_key"));
    if found.Some? && Later(Prop(found.value, "db_expiry"), Prop(data, "now")) then
      Ok(Some(TinyData(found.value, false)))
    else
      Ok(None)
  }

  /** Without a `get` hook, `get` never fails; it finds a value exactly
      when a document stored under the physical key is live at `now`, and
      that value is the document without its bookkeeping fields. */
  lemma GetWithoutHook(cfg: Config, cols: map<string, Collection>, name: string, key: Value, now: int)
    requires NoHook(cfg, "get") && Attached(cfg, cols, name)
    ensures var r := GetOp(cfg, cols, key, now);
      var k := DbKey(cfg, key);
      && r.Ok?
      && (r.value.Some? <==> k in cols[name].docs && LiveAt(cols[name].docs[k], now))
      && (r.value.Some? ==> r.value.value == TinyData(cols[name].docs[k], false))
  {
    OnPrecedence(cfg, "get", GetArgs(key), Clock(now));
  }

  // ---------------------------------------------------------------------
  // set
  // ---------------------------------------------------------------------

  function SetArgs(key: Value, value: Doc, expiresInSeconds: int): Ctx
  {
    map["key" := key, "value" := Obj(value), "expiresInSeconds" := Num(expiresInSeconds)]
  }

  /** The expiry instant of an entry written at `now` (milliseconds) that
      lives `expiresInSeconds` seconds. */
  function Deadline(now: int, expiresInSeconds: int): int
  {
    now + expiresInSeconds * 1000
  }

  /** `data.now + data.expiresInSeconds * 1000`: the product is a number,
      and the sum is numeric unless `now` is a string (which would
      concatenate). A NaN or a string result is a fault here. */
  function Expiry(now: Value, expiresInSeconds: Value): (r: Result<Value, Fault>)
    ensures r.Ok? <==> !now.Str? && ToNumber(now).Some? && ToNumber(expiresInSeconds).Some?
    ensures r.Ok? ==> r.value == Num(Deadline(ToNumber(now).value, ToNumber(expiresInSeconds).value))
    ensures now.Num? && expiresInSeconds.Num? ==> r == Ok(Num(Deadline(now.n, expiresInSeconds.n)))
    ensures now.Null? && expiresInSeconds.Num? ==> r == Ok(Num(Deadline(0, expiresInSeconds.n)))
  {
    var t := ToNumber(now);
    var s := ToNumber(expiresInSeconds);
    if !now.Str? && t.Some? && s.Some? then Ok(Num(Deadline(t.value, s.value)))
    else Err(NotANumber)
  }

  /** The fields an existing document contributes (null contributes none). */
  function Existing(found: Option<Doc>): Doc
  {
    found.GetOr(map[])
  }

  /** `Object.assign({db_key}, value, exists, {db_key, db_expiry})`. */
  function WrittenDoc(dbKey: Value, value: Doc, found: Option<Doc>, expiry: Value): (d: Doc)
    ensures "db_key" in d && d["db_key"] == dbKey
    ensures "db_expiry" in d && d["db_expiry"] == expiry
  {
    map["db_key" := dbKey] + value + Existing(found) + map["db_key" := dbKey, "db_expiry" := expiry]
  }

  /** The fields `set` writes: the new value's fields that the existing
      document lacks, then the existing document's fields (which win on a
      clash), then the key and the expiry of this call. */
  lemma WrittenDocFields(dbKey: Value, value: Doc, found: Option<Doc>, expiry: Value)
    ensures var d := WrittenDoc(dbKey, value, found, expiry);
      && d.Keys == value.Keys + Existing(found).Keys + {"db_key", "db_expiry"}
      && d["db_key"] == dbKey && d["db_expiry"] == expiry
      && (forall f :: f in Existing(found) && f != "db_key" && f != "db_expiry" ==> d[f] == Existing(found)[f])
      && (forall f :: f in value && f !in Existing(found) && f != "db_key" && f != "db_expiry" ==> d[f] == value[f])
  {
  }

  /** `findOne`'s result as a context value: the document, or null. */
  function AsValue(found: Option<Doc>): Value
  {
    match found
    case Some(d) => Obj(d)
    case None => Null
  }

  function AsObject(v: Value): (r: Result<Doc, Fault>)
    ensures r.Ok? <==> v.Obj?
    ensures r.Ok? ==> r.value == v.fields
  {
    if v.Obj? then Ok(v.fields) else Err(NotAnObject)
  }

  /** `set(key, value, expiresInSeconds)` at time `now`: the collections
      afterwards, or what was thrown. */
  function SetOp(cfg: Config, cols: map<string, Collection>, key: Value, value: Doc, expiresInSeconds: int, now: int)
    : (r: Result<map<string, Collection>, Fault>)
    ensures r.Ok? ==> r.value.Keys == cols.Keys
  {
    var data := On(cfg, "set", SetArgs(key, value, expiresInSeconds), Clock(now));
    var name :- ResolveCol(cols, Prop(data, "db_col"));
    var found := FindOne(cols[name], Prop(data, "db_key"));
    var expiry :- Expiry(Prop(data, "now"), Prop(data, "expiresInSeconds"));
    var d := WrittenDoc(Prop(data, "db_key"), value, found, expiry);
    Write(cols, On(cfg, "set:data", map["d" := Obj(d), "exists" := AsValue(found)], data))
  }

  /** The last step of `set`: insert `data.d` when `data.exists` is falsy,
      update it otherwise, in the collection `data.db_col`. */
  function Write(cols: map<string, Collection>, data: Ctx): (r: Result<map<string, Collection>, Fault>)
    ensures r.Ok? ==> r.value.Keys == cols.Keys
  {
    var target :- ResolveCol(cols, Prop(data, "db_col"));
    var doc :- AsObject(Prop(data, "d"));
    var col :- if Truthy(Prop(data, "exists")) then UpdateDoc(cols[target], doc) else InsertDoc(cols[target], doc);
    Ok(cols[target := col])
  }

  // ---------------------------------------------------------------------
  // dbClearExpiry
  // ---------------------------------------------------------------------

  /** The cutoff `dbClearExpiry` uses: the argument, or the clock when it
      is missing (an explicit 0 is kept). */
  function Cutoff(now: Option<int>, clock: int): int
  {
    if now.Some? then now.value else clock
  }

  /** The range query: `$gt: 0` always, `$lte: cutoff` only for a positive
      cutoff. */
  function ExpiryQuery(now: Option<int>, clock: int): Option<int>
  {
    var cutoff := Cutoff(now, clock);
    if cutoff > 0 then Some(cutoff) else None
  }

  /** `dbClearExpiry(now)` on a collection, reading `clock` when no cutoff
      is given. */
  function ClearExpiry(c: Collection, now: Option<int>, clock: int): (r: Collection)
    ensures forall k :: k in c.docs && Cutoff(now, clock) > 0 ==>
      (k !in r.docs <==> var e := Prop(c.docs[k], "db_expiry"); e.Num? && 0 < e.n <= Cutoff(now, clock))
    ensures forall k :: k in c.docs && Cutoff(now, clock) <= 0 ==>
      (k !in r.docs <==> var e := Prop(c.docs[k], "db_expiry"); e.Num? && e.n > 0)
    ensures forall k :: k in c.docs && !(Prop(c.docs[k], "db_expiry").Num? && Prop(c.docs[k], "db_expiry").n > 0) ==> k in r.docs
    ensures forall k :: k in r.docs ==> k in c.docs && r.docs[k] == c.docs[k]
    ensures r.maxId == c.maxId && r.binaryIndices == c.binaryIndices && r.uniqueIndices == c.uniqueIndices
    ensures WellFormed(c) ==> WellFormed(r)
  {
    RemoveInRange(c, ExpiryQuery(now, clock))
  }
}

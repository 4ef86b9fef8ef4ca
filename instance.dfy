/** The cache object (index.ts, lib/interface.ts): its merged
    configuration, its LokiJS database and the collection it caches in. Its
    methods follow the source step by step against the database object and
    are proved to do what the functions of `Cache` and `Batch` say. */
module Instance {
  import opened JsValues
  import opened Loki
  import opened Interface
  import opened Cache
  import opened Batch

  /** The name `get_col` receives for the configured `cache_col`; a missing
      one reaches the store as the text of `undefined`. */
  function CacheColName(fields: Fields): (name: string)
    ensures Prop(fields, "cache_col").Str? ==> name == Prop(fields, "cache_col").s
    ensures "cache_col" !in fields ==> name == "undefined"
  {
    ToText(Prop(fields, "cache_col"))
  }

  /** A prefix one longer is the prefix with the next element appended. */
  lemma Snoc<T>(s: seq<T>, i: nat)
    requires i < |s|
    ensures s[..i + 1] == s[..i] + [s[i]]
  {
  }

  class ApiCache {
    /** `this.config`, including the `db_cache` handle the constructor
        stores in it. */
    const config: Config
    /** `this.db`, i.e. `this.config.loki`. */
    const store: Store
    /** The collection `this.config.db_cache` refers to. */
    const colName: string

    ghost predicate Valid()
      reads this, store
    {
      store.Valid() && Attached(config, store.cols, colName)
    }

    /** `new ApiCache(caller)`: the defaults merged with the caller's
        configuration, `createDb` (the caller's database `loki` if there is
        one, else a new empty one, with the file and collection names
        defaulted), then `get_col` on the cache collection, whose handle goes
        into the configuration as `db_cache`. */
    constructor (caller: Config, loki: Store?)
      requires loki != null ==> loki.Valid()
      modifies loki
      ensures Valid()
      ensures loki != null ==> store == loki
      ensures loki == null ==> fresh(store)
      ensures var fields := CreateDbFields(EffectiveConfig(caller).fields, loki != null);
        && colName == CacheColName(fields)
        && config == Config(fields["db_cache" := ColRef(colName)], EffectiveConfig(caller).hooks)
        && store.cols == Provision(if loki != null then old(loki.cols) else map[], colName, NoColOptions())
    {
      var merged := EffectiveConfig(caller);
      var fields := CreateDbFields(merged.fields, loki != null);
      var db: Store;
      if loki != null {
        db := loki;
      } else {
        db := new Store();
      }
      var handle := GetCol(db, CacheColName(fields), NoColOptions());
      store := db;
      colName := handle;
      config := Config(fields["db_cache" := ColRef(handle)], merged.hooks);
    }

    /** `get(key)` with the clock reading `now`. Without a `get` hook it
        never fails and finds exactly the live document stored under the
        physical key. */
    method Get(key: Value, now: int) returns (r: Result<Option<Doc>, Fault>)
      requires Valid()
      ensures r == GetOp(config, store.cols, key, now)
      ensures NoHook(config, "get") ==>
        var k := DbKey(config, key);
        && r.Ok?
        && (r.value.Some? <==> k in store.cols[colName].docs && LiveAt(store.cols[colName].docs[k], now))
        && (r.value.Some? ==> r.value.value == TinyData(store.cols[colName].docs[k], false))
    {
      if NoHook(config, "get") {
        GetWithoutHook(config, store.cols, colName, key, now);
      }
      var data := On(config, "get", GetArgs(key), Clock(now));
      var name :- ResolveCol(store.cols, Prop(data, "db_col"));
      var found := FindOne(store.cols[name], Prop(data, "db_key"));
      if found.Some? && Later(Prop(found.value, "db_expiry"), Prop(data, "now")) {
        r := Ok(Some(TinyData(found.value, false)));
      } else {
        r := Ok(None);
      }
    }

    /** `set(key, value, expiresInSeconds)` with the clock reading `now`:
        the two `on` steps, then an update of the stored document or an
        insert of a new one. On a fault the database is unchanged. */
    method Set(key: Value, value: Doc, expiresInSeconds: int, now: int) returns (r: Result<(), Fault>)
      requires Valid()
      modifies store
      ensures Valid()
      ensures var s := SetOp(config, old(store.cols), key, value, expiresInSeconds, now);
        && (r.Ok? <==> s.Ok?)
        && (s.Ok? ==> store.cols == s.value)
        && (s.Err? ==> store.cols == old(store.cols) && r.error == s.error)
    {
      var data := On(config, "set", SetArgs(key, value, expiresInSeconds), Clock(now));
      var name :- ResolveCol(store.cols, Prop(data, "db_col"));
      var found := FindOne(store.cols[name], Prop(data, "db_key"));
      var expiry :- Expiry(Prop(data, "now"), Prop(data, "expiresInSeconds"));
      var d := WrittenDoc(Prop(data, "db_key"), value, found, expiry);
      data := On(config, "set:data", map["d" := Obj(d), "exists" := AsValue(found)], data);
      var target :- ResolveCol(store.cols, Prop(data, "db_col"));
      var doc :- AsObject(Prop(data, "d"));
      if Truthy(Prop(data, "exists")) {
        r := store.Update(target, doc);
      } else {
        r := store.Insert(target, doc);
      }
    }

    /** `mget(keys)`: one `get` per key, the i-th reading the clock as
        `clocks[i]`, then `Promise.all` over the answers. */
    method MGet(keys: seq<Value>, clocks: seq<int>) returns (r: Result<seq<Option<Doc>>, Fault>)
      requires Valid() && |clocks| == |keys|
      ensures r == MGetOp(config, store.cols, keys, clocks)
    {
      ghost var expected := Answers(config, store.cols, keys, clocks);
      var answers: seq<Result<Option<Doc>, Fault>> := [];
      var i := 0;
      while i < |keys|
        invariant 0 <= i <= |keys|
        invariant answers == expected[..i]
      {
        var answer := Get(keys[i], clocks[i]);
        assert expected[i] == answer;
        Snoc(expected, i);
        answers := answers + [answer];
        i := i + 1;
      }
      assert answers == expected;
      r := All(answers);
    }

    /** `mset(entries)`: one `set` per element, the i-th reading the clock
        as `clocks[i]`; every `set` runs, and the first fault is reported. */
    method MSet(entries: seq<Entry>, clocks: seq<int>) returns (r: Result<(), Fault>)
      requires Valid() && |clocks| == |entries|
      modifies store
      ensures Valid()
      ensures var o := MSetOp(config, old(store.cols), entries, clocks);
        && store.cols == o.cols
        && (r.Ok? <==> o.fault.None?)
        && (r.Err? ==> o.fault == Some(r.error))
    {
      var fault: Option<Fault> := None;
      var i := 0;
      while i < |entries|
        invariant 0 <= i <= |entries|
        invariant Valid()
        invariant MSetOp(config, old(store.cols), entries[..i], clocks[..i]) == Outcome(store.cols, fault)
      {
        MSetOpSnoc(config, old(store.cols), entries, clocks, i);
        var e := entries[i];
        var outcome := Set(e.key, e.value, e.expiresInSeconds, clocks[i]);
        if outcome.Err? && fault.None? {
          fault := Some(outcome.error);
        }
        i := i + 1;
      }
      assert entries[..i] == entries && clocks[..i] == clocks;
      r := if fault.Some? then Err(fault.value) else Ok(());
    }

    /** `dbClearExpiry(now)`: `now` is `None` when the argument is missing
        or falsy but not 0, and then the clock reading `clock` is used. */
    method DbClearExpiry(now: Option<int>, clock: int)
      requires Valid()
      modifies store
      ensures Valid()
      ensures store.cols == old(store.cols)[colName := ClearExpiry(old(store.cols)[colName], now, clock)]
    {
      var cutoff := clock;
      if now.Some? {
        cutoff := now.value;
      }
      var upper: Option<int> := None;
      if cutoff > 0 {
        upper := Some(cutoff);
      }
      store.FindAndRemove(colName, upper);
    }

    /** `dbCol(name, options)`: `get_col` on this cache's database. */
    method DbCol(name: string, options: ColOptions) returns (handle: string)
      requires Valid()
      modifies store
      ensures Valid()
      ensures handle == name && store.cols == Provision(old(store.cols), name, options)
    {
      handle := GetCol(store, name, options);
    }
  }
}

/** What a later `get` sees after `set` and after `dbClearExpiry`, when the
    configuration has no `get`, `set` or `set:data` hook (index.ts). */
module Roundtrip {
  import opened JsValues
  import opened Loki
  import opened Interface
  import opened Cache
  import opened SetProps

  /** The configuration has none of the hooks `get` and `set` consult. */
  predicate HookFree(cfg: Config)
  {
    NoHook(cfg, "get") && NoHook(cfg, "set") && NoHook(cfg, "set:data")
  }

  /** After `Upsert` under `k`, a `get` of a key with that physical key at
      time `t` finds the entry exactly when `t` lies before the new expiry,
      and then returns the written document stripped of bookkeeping. */
  lemma GetAfterUpsert(cfg: Config, cols: map<string, Collection>, name: string, key: Value, value: Doc, expiry: int, t: int)
    requires HookFree(cfg) && Attached(cfg, cols, name) && WellFormed(cols[name])
    ensures var k := DbKey(cfg, key);
      var u := Upsert(cols[name], k, value, expiry);
      var r := GetOp(cfg, cols[name := u], key, t);
      && r.Ok?
      && (r.value.Some? <==> t < expiry)
      && (r.value.Some? ==> r.value.value == TinyData(u.docs[k], false))
  {
    var k := DbKey(cfg, key);
    var u := Upsert(cols[name], k, value, expiry);
    UpsertKeepsIdentity(cols[name], k, value, expiry);
    GetWithoutHook(cfg, cols[name := u], name, key, t);
  }

  /** Set, then get: a successful hook-free `set` makes the entry visible
      to `get` at every time before `now + expiresInSeconds * 1000` and at
      no time after. */
  lemma SetThenGet(cfg: Config, cols: map<string, Collection>, name: string, key: Value, value: Doc, expiresInSeconds: int, now: int, t: int)
    requires HookFree(cfg) && Attached(cfg, cols, name) && WellFormed(cols[name])
    requires SetOp(cfg, cols, key, value, expiresInSeconds, now).Ok?
    ensures var r := GetOp(cfg, SetOp(cfg, cols, key, value, expiresInSeconds, now).value, key, t);
      r.Ok? && (r.value.Some? <==> t < Deadline(now, expiresInSeconds))
  {
    SetWithoutHooks(cfg, cols, name, key, value, expiresInSeconds, now);
    GetAfterUpsert(cfg, cols, name, key, value, Deadline(now, expiresInSeconds), t);
  }

  /** A value without bookkeeping fields, set under a key nothing is stored
      under, is what a later `get` returns before it expires. This exactness
      rests on the store stamping only `$loki`: LokiJS also stamps a `meta`
      object, which `tinyData` keeps by default and `get` then returns as an
      extra field; that stamp is not part of this model. */
  lemma FreshSetThenGet(cfg: Config, cols: map<string, Collection>, name: string, key: Value, value: Doc, expiresInSeconds: int, now: int, t: int)
    requires HookFree(cfg) && Attached(cfg, cols, name) && WellFormed(cols[name])
    requires DbKey(cfg, key) !in cols[name].docs
    requires "db_key" !in value && "db_expiry" !in value && "$loki" !in value
    requires t < Deadline(now, expiresInSeconds)
    ensures SetOp(cfg, cols, key, value, expiresInSeconds, now).Ok?
    ensures GetOp(cfg, SetOp(cfg, cols, key, value, expiresInSeconds, now).value, key, t) == Ok(Some(value))
  {
    var k := DbKey(cfg, key);
    var e := Deadline(now, expiresInSeconds);
    var u := Upsert(cols[name], k, value, e);
    SetWithoutHooks(cfg, cols, name, key, value, expiresInSeconds, now);
    assert SetOp(cfg, cols, key, value, expiresInSeconds, now) == Ok(cols[name := u]);
    GetAfterUpsert(cfg, cols, name, key, value, e, t);
    assert u.docs[k] == Upserted(cols[name], k, value, e);
    FreshStripped(Str(k), value, Num(e), Num(NextId(cols[name])));
  }

  /** A freshly written document, stamped with its id and stripped again,
      is the value that was written, when that value has no bookkeeping
      fields of its own. */
  lemma FreshStripped(dbKey: Value, value: Doc, expiry: Value, id: Value)
    requires "db_key" !in value && "db_expiry" !in value && "$loki" !in value
    ensures TinyData(WrittenDoc(dbKey, value, None, expiry)["$loki" := id], false) == value
  {
    var d := TinyData(WrittenDoc(dbKey, value, None, expiry)["$loki" := id], false);
    WrittenDocFields(dbKey, value, None, expiry);
    assert d.Keys == value.Keys;
  }

  /** Refreshing a stored entry keeps its old payload: every non-bookkeeping
      field the stored document has is returned by a later `get` with its
      OLD value, whatever the new value says, because the stored document
      is merged over the new value. Fields the stored document lacks are
      taken from the new value (`RefreshAddsNewFields`). */
  lemma RefreshKeepsStoredFields(cfg: Config, cols: map<string, Collection>, name: string, key: Value, value: Doc, expiresInSeconds: int, now: int, t: int, f: string)
    requires HookFree(cfg) && Attached(cfg, cols, name) && WellFormed(cols[name])
    requires DbKey(cfg, key) in cols[name].docs
    requires f in cols[name].docs[DbKey(cfg, key)] && f !in Bookkeeping(false)
    requires t < Deadline(now, expiresInSeconds)
    ensures SetOp(cfg, cols, key, value, expiresInSeconds, now).Ok?
    ensures var r := GetOp(cfg, SetOp(cfg, cols, key, value, expiresInSeconds, now).value, key, t);
      r.Ok? && r.value.Some? && f in r.value.value && r.value.value[f] == cols[name].docs[DbKey(cfg, key)][f]
  {
    var k := DbKey(cfg, key);
    var e := Deadline(now, expiresInSeconds);
    SetWithoutHooks(cfg, cols, name, key, value, expiresInSeconds, now);
    GetAfterUpsert(cfg, cols, name, key, value, e, t);
    WrittenDocFields(Str(k), value, Some(cols[name].docs[k]), Num(e));
  }

  /** Refreshing a stored entry adds the new value's fields the stored
      document lacks: a later `get` returns such a field with its NEW
      value, so the refreshed payload is the old one extended by them. */
  lemma RefreshAddsNewFields(cfg: Config, cols: map<string, Collection>, name: string, key: Value, value: Doc, expiresInSeconds: int, now: int, t: int, f: string)
    requires HookFree(cfg) && Attached(cfg, cols, name) && WellFormed(cols[name])
    requires DbKey(cfg, key) in cols[name].docs
    requires f in value && f !in cols[name].docs[DbKey(cfg, key)] && f !in Bookkeeping(false)
    requires t < Deadline(now, expiresInSeconds)
    ensures SetOp(cfg, cols, key, value, expiresInSeconds, now).Ok?
    ensures var r := GetOp(cfg, SetOp(cfg, cols, key, value, expiresInSeconds, now).value, key, t);
      && r.Ok? && r.value.Some? && f in r.value.value && r.value.value[f] == value[f]
      && r.value.value != TinyData(cols[name].docs[DbKey(cfg, key)], false)
  {
    var k := DbKey(cfg, key);
    var e := Deadline(now, expiresInSeconds);
    SetWithoutHooks(cfg, cols, name, key, value, expiresInSeconds, now);
    GetAfterUpsert(cfg, cols, name, key, value, e, t);
    WrittenDocFields(Str(k), value, Some(cols[name].docs[k]), Num(e));
    assert f !in TinyData(cols[name].docs[k], false);
  }

  /** Setting the same physical key twice leaves one document: the key set
      grows by that key only, the id is the one the first write gave, and
      the expiry is the second write's. */
  lemma UpsertTwice(c: Collection, k: string, v1: Doc, e1: int, v2: Doc, e2: int)
    requires WellFormed(c)
    ensures var once := Upsert(c, k, v1, e1);
      var twice := Upsert(once, k, v2, e2);
      && twice.docs.Keys == c.docs.Keys + {k}
      && twice.maxId == once.maxId
      && IdOf(twice.docs[k]) == IdOf(once.docs[k])
      && Prop(twice.docs[k], "db_expiry") == Num(e2)
      && forall k' :: k' in c.docs && k' != k ==> twice.docs[k'] == c.docs[k']
  {
    var once := Upsert(c, k, v1, e1);
    UpsertKeepsIdentity(c, k, v1, e1);
    UpsertKeepsIdentity(once, k, v2, e2);
  }

  /** After `dbClearExpiry` with a positive cutoff, every `get` at or after
      the cutoff answers as before: only entries that were already expired
      at the cutoff are removed. */
  lemma ClearingIsInvisible(cfg: Config, cols: map<string, Collection>, name: string, now: Option<int>, clock: int, key: Value, t: int)
    requires HookFree(cfg) && Attached(cfg, cols, name)
    requires Cutoff(now, clock) > 0 && t >= Cutoff(now, clock)
    ensures GetOp(cfg, cols[name := ClearExpiry(cols[name], now, clock)], key, t) == GetOp(cfg, cols, key, t)
  {
    var c := cols[name];
    var r := ClearExpiry(c, now, clock);
    var cleared := cols[name := r];
    var k := DbKey(cfg, key);
    GetWithoutHook(cfg, cols, name, key, t);
    GetWithoutHook(cfg, cleared, name, key, t);
    if k in c.docs && LiveAt(c.docs[k], t) {
      assert k in r.docs && r.docs[k] == c.docs[k];
    }
  }

  /** Without a configured prefix the physical key is the key's own text. */
  lemma DefaultPrefixIsEmpty(caller: Config, key: Value)
    requires "prefix" !in caller.fields
    ensures DbKey(EffectiveConfig(caller), key) == ToText(key)
  {
  }
}

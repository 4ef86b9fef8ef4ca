/** What `set` does when no hook intervenes, and what a later `get` then
    sees (index.ts). */
module SetProps {
  import opened JsValues
  import opened Loki
  import opened Interface
  import opened Cache

  /** The document a hook-free `set` stores under physical key `k`. */
  function Upserted(c: Collection, k: string, value: Doc, expiry: int): Doc
  {
    if k in c.docs then WrittenDoc(Str(k), value, Some(c.docs[k]), Num(expiry))
    else WrittenDoc(Str(k), value, None, Num(expiry))["$loki" := Num(NextId(c))]
  }

  /** The document a hook-free `set` hands to the store. */
  function PlainWrite(cfg: Config, c: Collection, key: Value, value: Doc, expiry: int): Doc
  {
    var k := DbKey(cfg, key);
    WrittenDoc(Str(k), value, FindOne(c, Str(k)), Num(expiry))
  }

  /** `Write` on a context that names collection `name` and carries the
      object `d`. */
  lemma WriteUnfolds(cols: map<string, Collection>, data: Ctx, name: string, d: Doc)
    requires Prop(data, "db_col") == ColRef(name) && name in cols && Prop(data, "d") == Obj(d)
    ensures var w := if Truthy(Prop(data, "exists")) then UpdateDoc(cols[name], d) else InsertDoc(cols[name], d);
      Write(cols, data) == (if w.Ok? then Ok(cols[name := w.value]) else Err(w.error))
  {
  }

  /** What a hook-free `set` does: `PlainWrite` goes to the configured
      collection, by update when a document is stored under the physical
      key, by insert otherwise. */
  function PlainSet(cfg: Config, cols: map<string, Collection>, name: string, key: Value, value: Doc, expiry: int)
    : Result<map<string, Collection>, Fault>
    requires name in cols
  {
    var c := cols[name];
    var d := PlainWrite(cfg, c, key, value, expiry);
    var w := if DbKey(cfg, key) in c.docs then UpdateDoc(c, d) else InsertDoc(c, d);
    if w.Ok? then Ok(cols[name := w.value]) else Err(w.error)
  }

  /** Without `set` and `set:data` hooks, `set` writes `PlainWrite` to the
      configured collection: by update when a document is stored under the
      physical key, by insert otherwise. */
  lemma SetOpUnfolds(cfg: Config, cols: map<string, Collection>, name: string, key: Value, value: Doc, expiresInSeconds: int, now: int)
    requires NoHook(cfg, "set") && NoHook(cfg, "set:data") && Attached(cfg, cols, name)
    ensures SetOp(cfg, cols, key, value, expiresInSeconds, now) == PlainSet(cfg, cols, name, key, value, Deadline(now, expiresInSeconds))
  {
    var k := DbKey(cfg, key);
    var c := cols[name];
    var data := On(cfg, "set", SetArgs(key, value, expiresInSeconds), Clock(now));
    SetContext(cfg, name, key, value, expiresInSeconds, now);
    var found := FindOne(c, Str(k));
    var d := WrittenDoc(Str(k), value, found, Num(Deadline(now, expiresInSeconds)));
    var data' := On(cfg, "set:data", map["d" := Obj(d), "exists" := AsValue(found)], data);
    assert ResolveCol(cols, Prop(data, "db_col")) == Ok(name);
    assert Expiry(Prop(data, "now"), Prop(data, "expiresInSeconds")) == Ok(Num(Deadline(now, expiresInSeconds)));
    assert SetOp(cfg, cols, key, value, expiresInSeconds, now) == Write(cols, data');
    SetDataContext(cfg, data, d, found, name);
    WriteUnfolds(cols, data', name, d);
    var w := if k in c.docs then UpdateDoc(c, d) else InsertDoc(c, d);
    assert Write(cols, data') == (if w.Ok? then Ok(cols[name := w.value]) else Err(w.error));
    assert PlainWrite(cfg, c, key, value, Deadline(now, expiresInSeconds)) == d;
    assert PlainSet(cfg, cols, name, key, value, Deadline(now, expiresInSeconds)) == (if w.Ok? then Ok(cols[name := w.value]) else Err(w.error));
  }

  /** The `set` context, without a hook, names the configured collection,
      the physical key, the clock reading and the lifetime. */
  lemma SetContext(cfg: Config, name: string, key: Value, value: Doc, expiresInSeconds: int, now: int)
    requires NoHook(cfg, "set") && Prop(cfg.fields, "db_cache") == ColRef(name)
    ensures var data := On(cfg, "set", SetArgs(key, value, expiresInSeconds), Clock(now));
      && Prop(data, "db_col") == ColRef(name)
      && Prop(data, "db_key") == Str(DbKey(cfg, key))
      && Prop(data, "now") == Num(now)
      && Prop(data, "expiresInSeconds") == Num(expiresInSeconds)
  {
  }

  /** The `set:data` context, without a hook, carries the document and the
      lookup's result, and its `db_col` is reset to the configured
      collection: a `set` hook that redirected `db_col` steers only the
      lookup, and the write still goes to `db_cache`. Its `db_key` is no
      longer the entry's: the arguments of this second `on` have no `key`,
      so it becomes the physical key of `undefined`. The document keeps the
      right key, so nothing is written under it. */
  lemma SetDataContext(cfg: Config, data: Ctx, d: Doc, found: Option<Doc>, name: string)
    requires NoHook(cfg, "set:data") && Prop(cfg.fields, "db_cache") == ColRef(name)
    ensures var data' := On(cfg, "set:data", map["d" := Obj(d), "exists" := AsValue(found)], data);
      && Prop(data', "db_col") == ColRef(name)
      && Prop(data', "d") == Obj(d)
      && (Truthy(Prop(data', "exists")) <==> found.Some?)
      && Prop(data', "db_key") == Str(Prefix(cfg) + "undefined")
  {
  }

  /** The collection after a hook-free `set` of `value` under physical key
      `k`: the stored document replaced by `Upserted`, the id counter
      advanced only when the key was new. */
  function Upsert(c: Collection, k: string, value: Doc, expiry: int): Collection
  {
    c.(docs := c.docs[k := Upserted(c, k, value, expiry)], maxId := if k in c.docs then c.maxId else NextId(c))
  }

  /** Whatever was stored before, `Upsert` leaves a document under `k`
      that expires at the new instant. */
  lemma UpsertSetsExpiry(c: Collection, k: string, value: Doc, expiry: int)
    ensures k in Upsert(c, k, value, expiry).docs
    ensures Prop(Upsert(c, k, value, expiry).docs[k], "db_expiry") == Num(expiry)
  {
    WrittenDocFields(Str(k), value, if k in c.docs then Some(c.docs[k]) else None, Num(expiry));
  }

  /** `Upsert` under `k` leaves the document under any other key as it was. */
  lemma UpsertElsewhere(c: Collection, k: string, value: Doc, expiry: int, other: string)
    requires other != k && other in c.docs
    ensures other in Upsert(c, k, value, expiry).docs
    ensures Upsert(c, k, value, expiry).docs[other] == c.docs[other]
  {
  }

  /** The document a hook-free `set` leaves under `k` carries `k` as its
      key, the new expiry, and the old document's id (or the next id when
      the key was new); the collection stays well formed. */
  lemma UpsertKeepsIdentity(c: Collection, k: string, value: Doc, expiry: int)
    requires WellFormed(c)
    ensures var u := Upsert(c, k, value, expiry);
      && Prop(u.docs[k], "db_key") == Str(k)
      && Prop(u.docs[k], "db_expiry") == Num(expiry)
      && (k in c.docs ==> IdOf(u.docs[k]) == IdOf(c.docs[k]))
      && (k !in c.docs ==> IdOf(u.docs[k]) == Num(NextId(c)))
      && WellFormed(u)
  {
    var u := Upsert(c, k, value, expiry);
    if k in c.docs {
      WrittenDocFields(Str(k), value, Some(c.docs[k]), Num(expiry));
      assert IdOf(u.docs[k]) == IdOf(c.docs[k]);
    } else {
      WrittenDocFields(Str(k), value, None, Num(expiry));
      assert Prop(u.docs[k], "db_key") == Str(k);
      assert IdOf(u.docs[k]) == Num(u.maxId);
      forall k' | k' in c.docs
        ensures u.docs[k'] == c.docs[k'] && IdOf(c.docs[k']) != Num(u.maxId)
      {
      }
    }
  }

  /** A hook-free `set` on a well-formed collection fails only when the
      key is new and the value carries a store id of its own (which the
      store refuses to insert); otherwise it yields `Upsert` in place of the
      configured collection. */
  lemma PlainSetUpserts(cfg: Config, cols: map<string, Collection>, name: string, key: Value, value: Doc, expiry: int)
    requires name in cols && WellFormed(cols[name])
    ensures var k := DbKey(cfg, key);
      PlainSet(cfg, cols, name, key, value, expiry)
      == if k !in cols[name].docs && IdOf(value) != Undefined then Err(AlreadyInCollection)
         else Ok(cols[name := Upsert(cols[name], k, value, expiry)])
  {
    if DbKey(cfg, key) in cols[name].docs {
      PlainSetStored(cfg, cols, name, key, value, expiry);
    } else {
      PlainSetNew(cfg, cols, name, key, value, expiry);
    }
  }

  /** Over a stored document, a hook-free `set` updates it in place. */
  lemma PlainSetStored(cfg: Config, cols: map<string, Collection>, name: string, key: Value, value: Doc, expiry: int)
    requires name in cols && WellFormed(cols[name]) && DbKey(cfg, key) in cols[name].docs
    ensures PlainSet(cfg, cols, name, key, value, expiry) == Ok(cols[name := Upsert(cols[name], DbKey(cfg, key), value, expiry)])
  {
    var k := DbKey(cfg, key);
    var c := cols[name];
    var d := PlainWrite(cfg, c, key, value, expiry);
    WrittenDocFields(Str(k), value, Some(c.docs[k]), Num(expiry));
    assert "$loki" in c.docs[k];
    assert IdOf(d) == IdOf(c.docs[k]);
    assert UpdateDoc(c, d) == Ok(Upsert(c, k, value, expiry));
  }

  /** Under a new physical key, a hook-free `set` inserts, which the store
      refuses when the value already carries a store id. */
  lemma PlainSetNew(cfg: Config, cols: map<string, Collection>, name: string, key: Value, value: Doc, expiry: int)
    requires name in cols && DbKey(cfg, key) !in cols[name].docs
    ensures PlainSet(cfg, cols, name, key, value, expiry)
      == if IdOf(value) != Undefined then Err(AlreadyInCollection)
         else Ok(cols[name := Upsert(cols[name], DbKey(cfg, key), value, expiry)])
  {
    var k := DbKey(cfg, key);
    var c := cols[name];
    var d := PlainWrite(cfg, c, key, value, expiry);
    WrittenDocFields(Str(k), value, None, Num(expiry));
    assert IdOf(d) == IdOf(value);
    if IdOf(value) == Undefined {
      assert InsertDoc(c, d) == Ok(Upsert(c, k, value, expiry));
    }
  }

  /** Without `set` and `set:data` hooks, `set` on a well-formed collection
      changes only the configured collection, into `Upsert` (whose meaning
      `UpsertKeepsIdentity` states); it fails only for a new key whose value
      carries a store id. */
  lemma SetWithoutHooks(cfg: Config, cols: map<string, Collection>, name: string, key: Value, value: Doc, expiresInSeconds: int, now: int)
    requires NoHook(cfg, "set") && NoHook(cfg, "set:data") && Attached(cfg, cols, name)
    requires WellFormed(cols[name])
    ensures var k := DbKey(cfg, key);
      SetOp(cfg, cols, key, value, expiresInSeconds, now)
      == if k !in cols[name].docs && IdOf(value) != Undefined then Err(AlreadyInCollection)
         else Ok(cols[name := Upsert(cols[name], k, value, Deadline(now, expiresInSeconds))])
  {
    SetOpUnfolds(cfg, cols, name, key, value, expiresInSeconds, now);
    PlainSetUpserts(cfg, cols, name, key, value, Deadline(now, expiresInSeconds));
  }
}

# gw2api-cache-loki in Dafny

This project models `ApiCache`, a cache for GW2 API responses that keeps
its entries in a LokiJS in-memory database. An entry is stored as one
document of a single collection ("api.cache" by default). The document sits
under the physical key `prefix + key` (field `db_key`) and carries an
absolute expiry instant in milliseconds (field `db_expiry`).

- `get` returns the stored value without its bookkeeping fields, and only
  while the entry is live.
- `set` inserts a new entry or updates an existing one. It stamps the
  expiry `now + expiresInSeconds * 1000`.
- `mget` and `mset` run one `get` or `set` per element and combine them as
  `Promise.all` does.
- `dbClearExpiry` removes every entry whose expiry lies in `(0, cutoff]`
  when the cutoff is positive, and every entry with a positive expiry
  otherwise.
- Every `get` and `set` builds a context with `on(method, argv, data)`. A
  caller-supplied `on<method>` hook may override any field of that context,
  including the key and the target collection.

The model is layered as follows.

- `JsValues` (values.dfy): JavaScript values and plain objects, property
  reads of missing fields, truthiness, `||` and number-to-text conversion.
- `Loki` (loki.dfy): the part of LokiJS the cache uses.
  - A collection is a value: indices, documents keyed by `db_key`, and an
    id counter.
  - `Loki.Store` is a class whose `cols` field the database operations
    update in place.
- `Interface` (interface.dfy): the configuration, its defaults and
  how they are merged.
- `Cache` (cache.dfy): the engine of index.ts as functions of the
  configuration, the collections and a clock reading.
  - These are `get_col`/`Provision`, `createDb`, `dbKey`, `tinyData`, `on`,
    `GetOp`, `SetOp` and `ClearExpiry`.
- `SetProps`, `Roundtrip` and `Batch`: what `set`, `get`, `dbClearExpiry`,
  `mget` and `mset` mean when no hook intervenes, stated as lemmas. For
  example:
  - set-then-get.
  - A refresh keeps the stored payload and only adds the fields it lacks.
  - Sweeping is invisible to later reads.
  - The last write to a key decides its expiry.
- `Instance` (instance.dfy): the `ApiCache` class.
  - Its constructor and methods follow the source's steps against a
    `Store`.
  - Each is proved to do what the corresponding function of `Cache` or
    `Batch` says.

Time is a parameter: `now` for `get`/`set`, one clock reading per element
for `mget`/`mset`, and `clock` for `dbClearExpiry`. Hooks are pure
functions from `(argv, data)` to an optional object.

### Where the model follows the code rather than the documentation

- The documentation of `prefix` says it defaults to `gw2api-`, but
  `defaultConfig` holds only `gcTick`. An unset prefix is therefore the
  empty string (`Roundtrip.DefaultPrefixIsEmpty`).
- `set` merges `Object.assign({db_key}, value, exists, {db_key, db_expiry})`.
  The stored document's fields therefore win over the new value's: a
  refresh keeps every stored field's old value and moves the expiry
  (`Roundtrip.RefreshKeepsStoredFields`); only fields the stored document
  lacks are taken from the new value (`Roundtrip.RefreshAddsNewFields`).
- The second `on` call in `set` (method `set:data`) gets arguments without
  `key`. Its context's `db_key` therefore becomes `prefix + "undefined"`
  (`SetProps.SetDataContext`). The written document still has the right
  key.
- The same second `on` call resets `db_col` to the configured collection. A
  `set` hook that redirects `db_col` therefore steers only the lookup, and
  the write still goes to `db_cache` (`SetProps.SetDataContext`).
- `get_col` calls `ensureUniqueIndex` when `new_col` is set or the
  collection is missing. It calls `ensureIndex` on the unique field every
  time.
- Numbers and strings are both keys: `Num(1)` and `Str("1")` name the same
  entry (`Cache.KeyCollapse`).

## Model

| member | source | states |
|---|---|---|
| Interface.EffectiveConfig | lib/interface.ts:104-116 | the effective configuration holds every caller property unchanged, plus `gcTick` = 300000 when the caller gave none, and no `prefix` unless the caller gave one; hooks are kept |
| Cache.Provision | index.ts:50-71 | `get_col` adds collection `name` and no other; an existing one keeps its documents and id counter and gains the unique field as a binary index, and gains it as a unique index only under `new_col`; a new one is empty, with the declared indices and the unique field as unique index |
| Cache.ProvisionIdempotent | index.ts:50-71 | calling `get_col` twice with the same options, with or without `new_col`, leaves the collections as one call does |
| Cache.GetCol | index.ts:50-71 | the method returns the name as handle, the collection exists afterwards, the database changes exactly as `Provision` says and stays well formed |
| Cache.CreateDbFields | index.ts:73-96 | with a database supplied the configuration is untouched; otherwise `file` and `cache_col` are defaulted to "api.cache.loki.db" and "api.cache" when falsy, and every other property is kept |
| Cache.DbKey | index.ts:116-119 | the physical key is the string prefix followed by the key's text, or the key's text alone when the prefix is falsy |
| Cache.DbKeyInjective | index.ts:116-119 | two string keys with the same physical key are equal |
| Cache.KeyCollapse | index.ts:116-119 | the number 1 and the string "1" (likewise -42 and "-42") have the same physical key |
| Cache.NumberKeyIsNotUndefinedKey | index.ts:116-119 | no number key has the physical key of `undefined`, the key the `set:data` context carries |
| Cache.TinyData | index.ts:126-140 | the copy has exactly the original's fields minus `db_key`, `db_expiry`, `$loki` (and `meta` when asked), each with its original value |
| Cache.On | index.ts:142-166 | the context always holds `db_key` and `db_col` and keeps every field of the seed and the arguments; the full precedence is `OnPrecedence` |
| Cache.OnPrecedence | index.ts:142-166 | the context's fields: data, overridden by argv, overridden by the physical key and the configured collection, all overridden by an object the hook returns; without a hook nothing else is added |
| Cache.ResolveCol | index.ts:181-183 | a context's `db_col` is usable exactly when it names a collection of this cache's database; anything else is a fault (a collection of another database is not modelled, see Left out) |
| Cache.GetOp | index.ts:173-188 | `get` fails only when the context's `db_col` is not a collection, and a returned value carries no bookkeeping field; its meaning without a hook is `GetWithoutHook` |
| Cache.GetWithoutHook | index.ts:173-188 | without a `get` hook, `get` never fails and returns a value exactly when the document under the physical key is live at `now` (expiry > now); the value is that document stripped of bookkeeping |
| Cache.Expiry | index.ts:211 | the expiry is `now + expiresInSeconds * 1000` with both operands converted to numbers (null as 0, booleans as 0/1); a string `now` (concatenation) or a NaN operand is a fault |
| Cache.WrittenDoc | index.ts:204-213 | the written document carries this call's `db_key` and `db_expiry`; the precedence of all its fields is `WrittenDocFields` |
| Cache.WrittenDocFields | index.ts:204-213 | the written document has the value's, the stored document's, `db_key` and `db_expiry` fields; the stored document wins over the value, and the key and expiry of this call win over both |
| Cache.SetOp | index.ts:190-230 | a successful `set` keeps the set of collections; its meaning without hooks is `SetWithoutHooks` |
| Cache.Write | index.ts:220-227 | the final insert or update keeps the set of collections; its case split is `WriteUnfolds` |
| Cache.AsObject | index.ts:220-227 | the document handed to the store must be an object, else the write throws |
| Cache.ClearExpiry | index.ts:253-272 | with a positive cutoff exactly the documents whose expiry lies in (0, cutoff] are removed; with cutoff ≤ 0 every document with a positive expiry is removed; documents without a positive numeric expiry stay; survivors are unchanged, and well-formedness is kept |
| Loki.FindOne | index.ts:181-183 | `findOne({db_key})` returns the document stored under a string key and null otherwise |
| Loki.InsertDoc | index.ts:220-223 | insert succeeds exactly when the document has no `$loki` id, a string `db_key` and a new key; it then stores the document under that key with the next id |
| Loki.InsertKeepsWellFormed | index.ts:220-223 | a successful insert keeps every document under its own key with a unique id in range |
| Loki.UpdateDoc | index.ts:224-227 | update succeeds exactly when a document with the same key and the same id is stored, and replaces it |
| Loki.UpdateKeepsWellFormed | index.ts:224-227 | a successful update keeps the collection well formed |
| Loki.RemoveInRange | index.ts:269-271 | `findAndRemove` on the expiry range removes exactly the matching documents and keeps the rest unchanged |
| Loki.EmptyCollection | index.ts:63 | a new collection is empty and well formed |
| Loki.WithCollection | index.ts:63 | `addCollection` adds an empty collection under a new name and leaves existing ones alone |
| Loki.WithUniqueIndex | index.ts:65 | `ensureUniqueIndex` adds the field to that collection's unique indices only |
| Loki.WithIndex | index.ts:68 | `ensureIndex` adds the field to that collection's binary indices only |
| Loki.Store.GetCollection | index.ts:59 | `getCollection` returns the collection of that name, or null |
| Loki.Store.AddCollection | index.ts:63 | the database changes as `WithCollection` says and stays well formed |
| Loki.Store.EnsureUniqueIndex | index.ts:65 | the database changes as `WithUniqueIndex` says |
| Loki.Store.EnsureIndex | index.ts:68 | the database changes as `WithIndex` says |
| Loki.Store.Insert | index.ts:220-223 | succeeds exactly when `InsertDoc` does and then stores its result; on a fault the database is unchanged and the fault is `InsertDoc`'s |
| Loki.Store.Update | index.ts:224-227 | succeeds exactly when `UpdateDoc` does and then stores its result; on a fault the database is unchanged |
| Loki.Store.FindAndRemove | index.ts:269-271 | the named collection becomes `RemoveInRange` of itself, and nothing else changes |
| SetProps.SetContext | index.ts:192-198 | without a `set` hook, the context names the configured collection, the physical key, the clock reading and the lifetime |
| SetProps.SetDataContext | index.ts:215-218 | without a `set:data` hook, the second context's `db_col` is reset to the configured collection (whatever the first context said), it carries the document and whether one was found, and its `db_key` is the physical key of `undefined` |
| SetProps.WriteUnfolds | index.ts:220-227 | the final write inserts when `exists` is falsy and updates otherwise, into the context's collection |
| SetProps.SetOpUnfolds | index.ts:190-230 | without `set` hooks, `set` writes the merged document by update when the physical key is stored and by insert otherwise |
| SetProps.UpsertSetsExpiry | index.ts:204-213 | after a hook-free `set`, the key holds a document expiring at the new instant, whatever was stored before |
| SetProps.UpsertElsewhere | index.ts:220-227 | a hook-free `set` leaves the document under every other physical key as it was |
| SetProps.UpsertKeepsIdentity | index.ts:200-227 | the written document carries its key and new expiry; it keeps the stored id, or receives the next id when the key was new; the collection stays well formed |
| SetProps.PlainSetStored | index.ts:224-227 | over a stored document, a hook-free `set` updates it in place |
| SetProps.PlainSetNew | index.ts:220-223 | under a new key, a hook-free `set` inserts, and fails only when the value carries a `$loki` id of its own |
| SetProps.PlainSetUpserts | index.ts:200-227 | a hook-free `set` on a well-formed collection fails only for a new key whose value carries an id, and otherwise yields `Upsert` |
| SetProps.SetWithoutHooks | index.ts:190-230 | without `set` hooks, `set` changes only the configured collection, into `Upsert` with expiry `now + expiresInSeconds * 1000`, and fails only for a new key whose value carries an id |
| Roundtrip.GetAfterUpsert | index.ts:173-230 | after a hook-free write, `get` at time `t` finds the entry exactly when `t` is before the new expiry |
| Roundtrip.SetThenGet | index.ts:173-230 | after a successful hook-free `set`, `get` at `t` succeeds and returns a value exactly when `t < now + expiresInSeconds * 1000` |
| Roundtrip.FreshSetThenGet | index.ts:173-230 | setting a value without bookkeeping fields under a new key succeeds, and `get` before expiry returns exactly that value (LokiJS's `meta` stamp being outside the model) |
| Roundtrip.FreshStripped | index.ts:126-140 | stripping a freshly written and stamped document gives back the value written |
| Roundtrip.RefreshKeepsStoredFields | index.ts:204-213 | refreshing a stored entry keeps every old payload field with its old value, whatever the new value says |
| Roundtrip.RefreshAddsNewFields | index.ts:204-213 | refreshing a stored entry adds each field of the new value the stored document lacks, with its new value, so the refreshed `get` differs from the old payload |
| Roundtrip.UpsertTwice | index.ts:190-230 | setting one key twice leaves one document, with the first write's id and the second write's expiry; other documents are untouched |
| Roundtrip.ClearingIsInvisible | index.ts:253-272 | after a sweep with a positive cutoff, every `get` at or after the cutoff answers as before |
| Roundtrip.DefaultPrefixIsEmpty | lib/interface.ts:104-106 | without a caller prefix the physical key is the key's own text |
| Batch.All | lib/interface.ts:137 | `Promise.all` resolves to as many values as it was given promises; its full meaning is `AllPointwise` |
| Batch.AllPointwise | lib/interface.ts:137 | `Promise.all` over settled answers succeeds exactly when all do, keeps their values in order, and otherwise rejects with the first failure |
| Batch.Answers | lib/interface.ts:132-135 | the i-th answer is the `get` of the i-th key at the i-th clock reading |
| Batch.MGetOp | lib/interface.ts:128-138 | `mget` resolves to one answer per key; its full meaning is `MGetPointwise` |
| Batch.MGetPointwise | lib/interface.ts:128-138 | `mget` succeeds exactly when every `get` does, keeps key order, and otherwise reports the first failing `get` |
| Batch.MSetOp | lib/interface.ts:140-152 | `mset` keeps the set of collections; its meaning without hooks is `MSetWithoutHooks` |
| Batch.MSetOpSnoc | lib/interface.ts:140-152 | `mset` over one more element is the shorter `mset` followed by that element's `set` |
| Batch.Puts | lib/interface.ts:144-147 | the i-th write is the physical key, value and expiry of the i-th element |
| Batch.MSetWithoutHooks | lib/interface.ts:140-152 | without `set` hooks and with values lacking ids, `mset` never fails and applies its writes in order to the configured collection only |
| Batch.MSetStep | lib/interface.ts:140-152 | the last element of a hook-free `mset` upserts its write on the collections the earlier ones left |
| Batch.ApplyPutsFrame | lib/interface.ts:140-152 | `mset` adds exactly the touched keys and leaves every untouched document as it was |
| Batch.ApplyPutsKeepsWellFormed | lib/interface.ts:140-152 | `mset` keeps the collection well formed |
| Batch.LastPutWins | lib/interface.ts:140-152 | the last write to a key decides that key's expiry |
| Instance.CacheColName | index.ts:113 | the collection name is the configured `cache_col` text, "undefined" when absent |
| Instance.ApiCache.constructor | index.ts:107-114 | the configuration is the defaults merged with the caller's, then `createDb`'s, plus `db_cache` naming the cache collection; the database is the caller's `loki` or a fresh one, provisioned by `get_col` |
| Instance.ApiCache.Get | index.ts:173-188 | the method answers as `GetOp`; without a `get` hook it never fails and returns exactly the live document under the physical key, stripped |
| Instance.ApiCache.Set | index.ts:190-230 | succeeds exactly when `SetOp` does and leaves its collections; on a fault the database is unchanged and the fault is `SetOp`'s |
| Instance.ApiCache.MGet | lib/interface.ts:128-138 | the loop of `get` calls followed by `Promise.all` answers as `MGetOp` |
| Instance.ApiCache.MSet | lib/interface.ts:140-152 | the loop of `set` calls leaves the database as `MSetOp` says and reports its first fault |
| Instance.ApiCache.DbClearExpiry | index.ts:253-272 | the cache collection becomes `ClearExpiry` of itself, and nothing else changes |
| Instance.ApiCache.DbCol | index.ts:121-124 | `dbCol` provisions the named collection in this cache's database as `get_col` does |

## Left out

- `save`, `flush` and `loadDatabase` are not modelled. They write, delete or read the database file through the file-system adapter, which is I/O. Of `createDb`'s settings only the `file` name is kept, as a configuration field; the file-system adapter it passes to LokiJS is not modelled.
- `now()` is not modelled, because it reads the system clock. Clock readings are parameters instead.
- The `db` getter is the `store` field of `Instance.ApiCache`.
- `init` is the constructor under another name.
- `console` logging is left out.
- LokiJS internals are left out: the query engine, index structures, `meta` stamping on insert and update, events and dynamic views. A collection is modelled as documents keyed by `db_key`, which is what the unique index on that field enforces.
- JavaScript numbers are unbounded integers. Floating point, fractional lifetimes, `NaN` and `Infinity` are left out.
- Cache.Expiry: a hook that makes `now` a string or either operand NaN gives a `NotANumber` fault. JavaScript would instead store the concatenated string or `NaN` as the expiry. Non-empty strings are not parsed as numbers.
- Cache.GetOp: the `>` of the expiry check converts null, booleans, numbers and the empty string as JavaScript does. Non-empty numeric strings are treated as NaN instead of parsed, and two strings are not compared as strings.
- Cache.Prefix: a prefix that is a number is not modelled; JavaScript would add it to a number key arithmetically. The prefix is used as text.
- Cache.ClearExpiry: `dbClearExpiry` given a `Date` object is not modelled. A `db_expiry` that is not a number never matches the range, as LokiJS comparisons on mixed types are not modelled.
- Instance.ApiCache.DbClearExpiry: missing, null and other falsy non-zero arguments are all `None` (use the clock). A zero argument is kept.
- Loki.UpdateDoc: the document must have the same `db_key` and `$loki` as the stored one. Other LokiJS update failures and its id-based lookup are not modelled separately.
- Loki.InsertDoc: a document without a string `db_key` is refused (`UnkeyedDocument`). LokiJS's behaviour for non-string unique keys is not modelled.
- Values passed to `set` are plain objects. Primitive values (strings, numbers, null) and arrays, which `Object.assign` spreads or ignores, are not modelled.
- Hooks are pure functions. Any side effect of a hook, a non-object truthy return and `this`-based access are not modelled.
- A hook that throws is not modelled: the `Hook` type always returns, so the rejection of `get` or `set` by a failing hook is not captured.
- Cache.ResolveCol: a hook can point `db_col` at a collection object of another LokiJS database, which the program would then read or write. The model only resolves `db_col` by name in this cache's database: such a collection gives a `NotACollection` fault, or, when its name matches one of this database's collections, the wrong database's collection.
- Loki.RemoveInRange: LokiJS is assumed to apply both operators of `{db_expiry: {$gt: 0, $lte: cutoff}}`. If it applied only the first, the program's sweep would remove every entry with a positive expiry, live or not, and `Roundtrip.ClearingIsInvisible` would not hold of it.
- Documents are modelled as immutable values. The shallow copies made by `Object.assign` in `set` and by `tinyData` leave nested objects shared between the caller's value, the stored document and what `get` returns, so that changing one is visible in the others; this sharing is not captured.
- Loki.WithCollection: `addCollection` on a name that already exists is assumed to return that collection untouched. This LokiJS behaviour decides what `new_col` does to an existing collection in `Cache.Provision`.
- Instance.ApiCache.constructor: without a supplied database the model starts from an empty one. The program calls `loadDatabase` first, so its cache can start with the entries saved in the file.
- Instance.CacheColName: the model names a collection by the text of `cache_col`, but LokiJS compares collection names with `===`. So `undefined` and "undefined", or `5` and "5", would be different collections in LokiJS but are one here. A missing `cache_col` (a database supplied without one) becomes the name "undefined".
- `gcTick` is kept only as a configuration value, because nothing in the core schedules collection.
- Promise scheduling is not modelled. `mget` and `mset` run their calls one after another, in array order, each reading its own clock value.

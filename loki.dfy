/** The part of LokiJS the cache relies on, modelled abstractly: a database
    of named collections, each holding documents keyed by the uniquely
    indexed `db_key` field, stamped with a store-assigned `$loki` id. */
module Loki {
  import opened JsValues

  type Doc = Fields

  /** What a LokiJS call (or JavaScript itself) throws on the paths the cache
      can reach. */
  datatype Fault =
    | NotACollection        // `db_col` is not a collection of this database
    | NotAnObject           // the document to write is not an object
    | NotANumber            // expiry arithmetic on a non-number
    | UnkeyedDocument       // the document's `db_key` is not a string
    | DuplicateKey(key: string)
    | NotInCollection       // update of a document that is not stored
    | AlreadyInCollection   // insert of a document that carries an id

  datatype Collection = Collection(
    binaryIndices: set<string>,
    uniqueIndices: set<string>,
    docs: map<string, Doc>,
    maxId: nat)

  /** The id LokiJS stamps into a stored document. */
  function IdOf(d: Doc): Value
  {
    Prop(d, "$loki")
  }

  /** Every stored document sits under its own `db_key`, carries an id
      in 1..maxId, and no two documents share an id. */
  ghost predicate WellFormed(c: Collection)
  {
    && (forall k :: k in c.docs ==> Prop(c.docs[k], "db_key") == Str(k))
    && (forall k :: k in c.docs ==> IdOf(c.docs[k]).Num? && 0 < IdOf(c.docs[k]).n <= c.maxId)
    && (forall k1, k2 :: k1 in c.docs && k2 in c.docs && k1 != k2 ==> IdOf(c.docs[k1]) != IdOf(c.docs[k2]))
  }

  function EmptyCollection(indices: set<string>): (c: Collection)
    ensures WellFormed(c) && c.docs == map[]
  {
    Collection(indices, {}, map[], 0)
  }

  /** `findOne({db_key: key})`: the document stored under `key`, or null. */
  function FindOne(c: Collection, key: Value): (r: Option<Doc>)
    ensures r.Some? <==> key.Str? && key.s in c.docs
    ensures r.Some? ==> r.value == c.docs[key.s]
  {
    if key.Str? && key.s in c.docs then Some(c.docs[key.s]) else None
  }

  /** The id the next inserted document receives. */
  function NextId(c: Collection): nat
  {
    c.maxId + 1
  }

  /** `insert(doc)`: stores `doc` under its `db_key` with the next id. A
      document that already carries an id is refused, and so is a key the
      unique index on `db_key` already holds. */
  function InsertDoc(c: Collection, doc: Doc): (r: Result<Collection, Fault>)
    ensures r.Ok? <==> IdOf(doc) == Undefined && Prop(doc, "db_key").Str? && Prop(doc, "db_key").s !in c.docs
    ensures r.Err? && IdOf(doc) != Undefined ==> r.error == AlreadyInCollection
    ensures r.Ok? ==>
      && r.value.docs == c.docs[Prop(doc, "db_key").s := doc["$loki" := Num(NextId(c))]]
      && r.value.maxId == NextId(c)
      && r.value.binaryIndices == c.binaryIndices
      && r.value.uniqueIndices == c.uniqueIndices
  {
    if IdOf(doc) != Undefined then Err(AlreadyInCollection)
    else match Prop(doc, "db_key")
    case Str(k) =>
      if k in c.docs then Err(DuplicateKey(k))
      else Ok(c.(docs := c.docs[k := doc["$loki" := Num(NextId(c))]], maxId := NextId(c)))
    case _ => Err(UnkeyedDocument)
  }

  /** A successful insert keeps a collection well formed: the new document
      sits under its own key with an id no other document has. */
  lemma InsertKeepsWellFormed(c: Collection, doc: Doc)
    requires WellFormed(c) && InsertDoc(c, doc).Ok?
    ensures WellFormed(InsertDoc(c, doc).value)
  {
    var k := Prop(doc, "db_key").s;
    assert Prop(doc["$loki" := Num(NextId(c))], "db_key") == Str(k);
  }

  /** `update(doc)`: replaces the stored document that has the same
      `db_key` and the same id. */
  function UpdateDoc(c: Collection, doc: Doc): (r: Result<Collection, Fault>)
    ensures r.Ok? <==>
      && Prop(doc, "db_key").Str?
      && Prop(doc, "db_key").s in c.docs
      && IdOf(c.docs[Prop(doc, "db_key").s]) == IdOf(doc)
    ensures r.Ok? ==> r.value == c.(docs := c.docs[Prop(doc, "db_key").s := doc])
  {
    match Prop(doc, "db_key")
    case Str(k) =>
      if k in c.docs && IdOf(c.docs[k]) == IdOf(doc) then Ok(c.(docs := c.docs[k := doc]))
      else Err(NotInCollection)
    case _ => Err(UnkeyedDocument)
  }

  /** A successful update keeps a collection well formed: the replacement
      keeps the key and the id of the document it replaces. */
  lemma UpdateKeepsWellFormed(c: Collection, doc: Doc)
    requires WellFormed(c) && UpdateDoc(c, doc).Ok?
    ensures WellFormed(UpdateDoc(c, doc).value)
  {
  }

  /** The range predicate `{db_expiry: {$gt: 0, $lte: cutoff}}`, the upper
      bound present only when `upper` is. A `db_expiry` that is not a
      number never matches. */
  predicate InExpiryRange(d: Doc, upper: Option<int>)
  {
    var e := Prop(d, "db_expiry");
    e.Num? && e.n > 0 && (upper.Some? ==> e.n <= upper.value)
  }

  /** `findAndRemove` with the expiry range predicate. */
  function RemoveInRange(c: Collection, upper: Option<int>): (r: Collection)
    ensures r.docs.Keys <= c.docs.Keys
    ensures forall k :: k in c.docs ==> (k in r.docs <==> !InExpiryRange(c.docs[k], upper))
    ensures forall k :: k in r.docs ==> r.docs[k] == c.docs[k]
    ensures r.maxId == c.maxId && r.binaryIndices == c.binaryIndices && r.uniqueIndices == c.uniqueIndices
    ensures WellFormed(c) ==> WellFormed(r)
  {
    c.(docs := map k | k in c.docs && !InExpiryRange(c.docs[k], upper) :: c.docs[k])
  }

  /** The collections after `addCollection(name, {indices})`. */
  function WithCollection(cols: map<string, Collection>, name: string, indices: seq<string>): (r: map<string, Collection>)
    ensures r.Keys == cols.Keys + {name}
    ensures forall n :: n in cols ==> r[n] == cols[n]
    ensures name !in cols ==> r[name] == EmptyCollection(set i | i in indices)
  {
    if name in cols then cols else cols[name := EmptyCollection(set i | i in indices)]
  }

  /** The collections after `ensureUniqueIndex(field)` on `name`. */
  function WithUniqueIndex(cols: map<string, Collection>, name: string, field: string): (r: map<string, Collection>)
    requires name in cols
    ensures r.Keys == cols.Keys
    ensures forall n :: n in cols && n != name ==> r[n] == cols[n]
    ensures r[name] == cols[name].(uniqueIndices := cols[name].uniqueIndices + {field})
  {
    cols[name := cols[name].(uniqueIndices := cols[name].uniqueIndices + {field})]
  }

  /** The collections after `ensureIndex(field)` on `name`. */
  function WithIndex(cols: map<string, Collection>, name: string, field: string): (r: map<string, Collection>)
    requires name in cols
    ensures r.Keys == cols.Keys
    ensures forall n :: n in cols && n != name ==> r[n] == cols[n]
    ensures r[name] == cols[name].(binaryIndices := cols[name].binaryIndices + {field})
  {
    cols[name := cols[name].(binaryIndices := cols[name].binaryIndices + {field})]
  }

  /** A LokiJS database: its collections by name. */
  class Store {
    var cols: map<string, Collection>

    ghost predicate Valid()
      reads this
    {
      forall name :: name in cols ==> WellFormed(cols[name])
    }

    constructor ()
      ensures Valid() && cols == map[]
    {
      cols := map[];
    }

    /** `getCollection(name)`: the collection, or null. */
    function GetCollection(name: string): (r: Option<Collection>)
      reads this
      ensures r.Some? <==> name in cols
      ensures r.Some? ==> r.value == cols[name]
    {
      if name in cols then Some(cols[name]) else None
    }

    /** `addCollection(name, {indices})`: a new empty collection with those
        binary indices, or the existing collection of that name untouched. */
    method AddCollection(name: string, indices: seq<string>)
      requires Valid()
      modifies this
      ensures Valid()
      ensures cols == WithCollection(old(cols), name, indices)
    {
      if name !in cols {
        cols := cols[name := EmptyCollection(set i | i in indices)];
      }
    }

    /** `ensureUniqueIndex(field)` on collection `name`. */
    method EnsureUniqueIndex(name: string, field: string)
      requires Valid() && name in cols
      modifies this
      ensures Valid()
      ensures cols == WithUniqueIndex(old(cols), name, field)
    {
      cols := cols[name := cols[name].(uniqueIndices := cols[name].uniqueIndices + {field})];
    }

    /** `ensureIndex(field)` on collection `name`. */
    method EnsureIndex(name: string, field: string)
      requires Valid() && name in cols
      modifies this
      ensures Valid()
      ensures cols == WithIndex(old(cols), name, field)
    {
      cols := cols[name := cols[name].(binaryIndices := cols[name].binaryIndices + {field})];
    }

    /** `insert(doc)` on collection `name`; on a fault nothing changes. */
    method Insert(name: string, doc: Doc) returns (r: Result<(), Fault>)
      requires Valid() && name in cols
      modifies this
      ensures Valid()
      ensures r.Ok? <==> InsertDoc(old(cols)[name], doc).Ok?
      ensures r.Ok? ==> cols == old(cols)[name := InsertDoc(old(cols)[name], doc).value]
      ensures r.Err? ==> cols == old(cols) && r.error == InsertDoc(old(cols)[name], doc).error
    {
      var outcome := InsertDoc(cols[name], doc);
      if outcome.Ok? {
        InsertKeepsWellFormed(cols[name], doc);
        cols := cols[name := outcome.value];
        r := Ok(());
      } else {
        r := Err(outcome.error);
      }
    }

    /** `update(doc)` on collection `name`; on a fault nothing changes. */
    method Update(name: string, doc: Doc) returns (r: Result<(), Fault>)
      requires Valid() && name in cols
      modifies this
      ensures Valid()
      ensures r.Ok? <==> UpdateDoc(old(cols)[name], doc).Ok?
      ensures r.Ok? ==> cols == old(cols)[name := UpdateDoc(old(cols)[name], doc).value]
      ensures r.Err? ==> cols == old(cols) && r.error == UpdateDoc(old(cols)[name], doc).error
    {
      var outcome := UpdateDoc(cols[name], doc);
      if outcome.Ok? {
        UpdateKeepsWellFormed(cols[name], doc);
        cols := cols[name := outcome.value];
        r := Ok(());
      } else {
        r := Err(outcome.error);
      }
    }

    /** `findAndRemove({db_expiry: range})` on collection `name`. */
    method FindAndRemove(name: string, upper: Option<int>)
      requires Valid() && name in cols
      modifies this
      ensures Valid()
      ensures cols == old(cols)[name := RemoveInRange(old(cols)[name], upper)]
    {
      cols := cols[name := RemoveInRange(cols[name], upper)];
    }
  }
}

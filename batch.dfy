/** `mget` and `mset` (lib/interface.ts): one `get` or `set` per element,
    all of them run, in array order, each reading the clock once; the
    combined promise rejects with the first failure in array order. */
module Batch {
  import opened JsValues
  import opened Loki
  import opened Interface
  import opened Cache
  import opened SetProps

  /** One `[key, value, expiresInSeconds]` element of `mset`. */
  datatype Entry = Entry(key: Value, value: Doc, expiresInSeconds: int)

  /** The collections after `mset`, and the failure it rejects with, if any. */
  datatype Outcome = Outcome(cols: map<string, Collection>, fault: Option<Fault>)

  /** `Promise.all` over promises that have all settled: every value in
      order, or the failure of the first one that failed. */
  function All<T>(rs: seq<Result<T, Fault>>): (r: Result<seq<T>, Fault>)
    ensures r.Ok? ==> |r.value| == |rs|
  {
    if |rs| == 0 then Ok([])
    else
      var init :- All(rs[..|rs| - 1]);
      var last :- rs[|rs| - 1];
      Ok(init + [last])
  }

  /** `All` succeeds exactly when every answer does, keeps their values in
      order, and otherwise reports the first failure. */
  lemma {:induction false} AllPointwise<T>(rs: seq<Result<T, Fault>>)
    ensures var r := All(rs);
      && (r.Ok? <==> forall i :: 0 <= i < |rs| ==> rs[i].Ok?)
      && (r.Ok? ==> |r.value| == |rs| && forall i :: 0 <= i < |rs| ==> r.value[i] == rs[i].value)
      && (r.Err? ==> exists i :: 0 <= i < |rs| && rs[i] == Err(r.error) && forall j :: 0 <= j < i ==> rs[j].Ok?)
  {
    if |rs| > 0 {
      var n := |rs| - 1;
      AllPointwise(rs[..n]);
      forall i | 0 <= i < n
        ensures rs[..n][i] == rs[i]
      {
      }
      var init := All(rs[..n]);
      if init.Err? {
        var i :| 0 <= i < n && rs[..n][i] == Err(init.error) && forall j :: 0 <= j < i ==> rs[..n][j].Ok?;
        assert rs[i] == Err(All(rs).error);
      } else if rs[n].Err? {
        assert rs[n] == Err(All(rs).error);
      }
    }
  }

  /** The answers of the `get`s `mget` starts, the i-th reading the clock
      as `clocks[i]`. */
  function Answers(cfg: Config, cols: map<string, Collection>, keys: seq<Value>, clocks: seq<int>): (rs: seq<Result<Option<Doc>, Fault>>)
    requires |clocks| == |keys|
    ensures |rs| == |keys|
    ensures forall i :: 0 <= i < |keys| ==> rs[i] == GetOp(cfg, cols, keys[i], clocks[i])
  {
    seq(|keys|, i requires 0 <= i < |keys| => GetOp(cfg, cols, keys[i], clocks[i]))
  }

  /** `mget(keys)`: the values in key order, or the first failure. */
  function MGetOp(cfg: Config, cols: map<string, Collection>, keys: seq<Value>, clocks: seq<int>): (r: Result<seq<Option<Doc>>, Fault>)
    requires |clocks| == |keys|
    ensures r.Ok? ==> |r.value| == |keys|
  {
    All(Answers(cfg, cols, keys, clocks))
  }

  /** `mget` answers position by position: it succeeds exactly when every
      `get` does, the i-th answer is the i-th `get`'s, and on failure the
      reported fault is that of the first failing `get`. */
  lemma MGetPointwise(cfg: Config, cols: map<string, Collection>, keys: seq<Value>, clocks: seq<int>)
    requires |clocks| == |keys|
    ensures var r := MGetOp(cfg, cols, keys, clocks);
      && (r.Ok? <==> forall i :: 0 <= i < |keys| ==> GetOp(cfg, cols, keys[i], clocks[i]).Ok?)
      && (r.Ok? ==> |r.value| == |keys| && forall i :: 0 <= i < |keys| ==> r.value[i] == GetOp(cfg, cols, keys[i], clocks[i]).value)
      && (r.Err? ==> exists i :: 0 <= i < |keys| && GetOp(cfg, cols, keys[i], clocks[i]) == Err(r.error)
                                && forall j :: 0 <= j < i ==> GetOp(cfg, cols, keys[j], clocks[j]).Ok?)
  {
    AllPointwise(Answers(cfg, cols, keys, clocks));
  }

  /** `mset(entries)`, the i-th `set` reading the clock as `clocks[i]`.
      Every `set` runs, a failed one leaving the collections as they were;
      the fault reported is the first one. */
  function MSetOp(cfg: Config, cols: map<string, Collection>, entries: seq<Entry>, clocks: seq<int>): (o: Outcome)
    requires |clocks| == |entries|
    ensures o.cols.Keys == cols.Keys
  {
    if |entries| == 0 then Outcome(cols, None)
    else
      var n := |entries| - 1;
      var before := MSetOp(cfg, cols, entries[..n], clocks[..n]);
      var e := entries[n];
      Settle(before, SetOp(cfg, before.cols, e.key, e.value, e.expiresInSeconds, clocks[n]))
  }

  /** One more `set` settling: a success replaces the collections, a
      failure leaves them and is recorded unless an earlier one was. */
  function Settle(before: Outcome, r: Result<map<string, Collection>, Fault>): Outcome
  {
    match r
    case Ok(after) => Outcome(after, before.fault)
    case Err(f) => Outcome(before.cols, if before.fault.Some? then before.fault else Some(f))
  }

  /** `mset` over the first `i + 1` elements is `mset` over the first `i`
      followed by the `set` of element `i`. */
  lemma MSetOpSnoc(cfg: Config, cols: map<string, Collection>, entries: seq<Entry>, clocks: seq<int>, i: nat)
    requires |clocks| == |entries| && i < |entries|
    ensures var before := MSetOp(cfg, cols, entries[..i], clocks[..i]);
      var e := entries[i];
      MSetOp(cfg, cols, entries[..i + 1], clocks[..i + 1])
      == Settle(before, SetOp(cfg, before.cols, e.key, e.value, e.expiresInSeconds, clocks[i]))
  {
    assert entries[..i + 1][..i] == entries[..i] && clocks[..i + 1][..i] == clocks[..i];
  }

  /** The writes a hook-free `mset` makes, in order: physical key, value
      and expiry instant of each element. */
  datatype Put = Put(k: string, value: Doc, expiry: int)

  function Puts(cfg: Config, entries: seq<Entry>, clocks: seq<int>): (ps: seq<Put>)
    requires |clocks| == |entries|
    ensures |ps| == |entries|
    ensures forall i :: 0 <= i < |ps| ==>
      ps[i] == Put(DbKey(cfg, entries[i].key), entries[i].value, Deadline(clocks[i], entries[i].expiresInSeconds))
  {
    seq(|entries|, i requires 0 <= i < |entries| =>
      Put(DbKey(cfg, entries[i].key), entries[i].value, Deadline(clocks[i], entries[i].expiresInSeconds)))
  }

  /** The collection after applying the writes in order. */
  function ApplyPuts(c: Collection, ps: seq<Put>): Collection
  {
    if |ps| == 0 then c
    else
      var n := |ps| - 1;
      Upsert(ApplyPuts(c, ps[..n]), ps[n].k, ps[n].value, ps[n].expiry)
  }

  /** The values of a hook-free `mset` carry no store id of their own. */
  predicate Unstamped(entries: seq<Entry>)
  {
    forall i :: 0 <= i < |entries| ==> IdOf(entries[i].value) == Undefined
  }

  /** Without `set` hooks and with values that carry no store id, `mset`
      never fails and applies its writes, in order, to the configured
      collection; no other collection changes. */
  lemma {:induction false} MSetWithoutHooks(cfg: Config, cols: map<string, Collection>, name: string, entries: seq<Entry>, clocks: seq<int>)
    requires |clocks| == |entries|
    requires NoHook(cfg, "set") && NoHook(cfg, "set:data") && Attached(cfg, cols, name) && WellFormed(cols[name])
    requires Unstamped(entries)
    ensures var r := MSetOp(cfg, cols, entries, clocks);
      r == Outcome(cols[name := ApplyPuts(cols[name], Puts(cfg, entries, clocks))], None)
  {
    if |entries| > 0 {
      var n := |entries| - 1;
      var ps := Puts(cfg, entries, clocks);
      assert Unstamped(entries[..n]) by {
        forall i | 0 <= i < n
          ensures IdOf(entries[..n][i].value) == Undefined
        {
          assert entries[..n][i] == entries[i];
        }
      }
      MSetWithoutHooks(cfg, cols, name, entries[..n], clocks[..n]);
      assert Puts(cfg, entries[..n], clocks[..n]) == ps[..n];
      var c := ApplyPuts(cols[name], ps[..n]);
      ApplyPutsKeepsWellFormed(cols[name], ps[..n]);
      MSetStep(cfg, cols, name, cols[name := c], entries, clocks);
      Overwrite(cols, name, c, Upsert(c, ps[n].k, ps[n].value, ps[n].expiry));
    }
  }

  /** The last element of a hook-free `mset`, once the earlier ones have
      left the collections as `before`, applies its write to the
      configured collection. */
  lemma MSetStep(cfg: Config, cols: map<string, Collection>, name: string, before: map<string, Collection>, entries: seq<Entry>, clocks: seq<int>)
    requires |clocks| == |entries| > 0
    requires NoHook(cfg, "set") && NoHook(cfg, "set:data") && Attached(cfg, before, name) && WellFormed(before[name])
    requires IdOf(entries[|entries| - 1].value) == Undefined
    requires MSetOp(cfg, cols, entries[..|entries| - 1], clocks[..|clocks| - 1]) == Outcome(before, None)
    ensures var e := entries[|entries| - 1];
      var k := DbKey(cfg, e.key);
      var expiry := Deadline(clocks[|clocks| - 1], e.expiresInSeconds);
      MSetOp(cfg, cols, entries, clocks) == Outcome(before[name := Upsert(before[name], k, e.value, expiry)], None)
  {
    var n := |entries| - 1;
    var e := entries[n];
    SetWithoutHooks(cfg, before, name, e.key, e.value, e.expiresInSeconds, clocks[n]);
  }

  /** Replacing a collection twice keeps only the second replacement. */
  lemma Overwrite(cols: map<string, Collection>, name: string, a: Collection, b: Collection)
    ensures cols[name := a][name := b] == cols[name := b]
  {
  }

  /** The physical keys the writes touch. */
  function Touched(ps: seq<Put>): set<string>
  {
    set i | 0 <= i < |ps| :: ps[i].k
  }

  /** Applying writes adds exactly the touched keys and leaves every
      document under an untouched key as it was. */
  lemma {:induction false} ApplyPutsFrame(c: Collection, ps: seq<Put>)
    ensures var r := ApplyPuts(c, ps);
      && r.docs.Keys == c.docs.Keys + Touched(ps)
      && (forall k :: k in c.docs && k !in Touched(ps) ==> r.docs[k] == c.docs[k])
  {
    if |ps| > 0 {
      var n := |ps| - 1;
      ApplyPutsFrame(c, ps[..n]);
      TouchedSnoc(ps);
      var before := ApplyPuts(c, ps[..n]);
      var r := ApplyPuts(c, ps);
      assert r.docs == before.docs[ps[n].k := Upserted(before, ps[n].k, ps[n].value, ps[n].expiry)];
      forall k | k in c.docs && k !in Touched(ps)
        ensures r.docs[k] == c.docs[k]
      {
        assert k != ps[n].k && k !in Touched(ps[..n]);
      }
    }
  }

  /** Applying writes keeps a well-formed collection well formed. */
  lemma {:induction false} ApplyPutsKeepsWellFormed(c: Collection, ps: seq<Put>)
    requires WellFormed(c)
    ensures WellFormed(ApplyPuts(c, ps))
  {
    if |ps| > 0 {
      var n := |ps| - 1;
      ApplyPutsKeepsWellFormed(c, ps[..n]);
      UpsertKeepsIdentity(ApplyPuts(c, ps[..n]), ps[n].k, ps[n].value, ps[n].expiry);
    }
  }

  /** The keys of a non-empty run of writes are those of all but the last,
      plus the last one's. */
  lemma TouchedSnoc(ps: seq<Put>)
    requires |ps| > 0
    ensures Touched(ps) == Touched(ps[..|ps| - 1]) + {ps[|ps| - 1].k}
  {
    var n := |ps| - 1;
    forall k | k in Touched(ps)
      ensures k in Touched(ps[..n]) + {ps[n].k}
    {
      var i :| 0 <= i < |ps| && ps[i].k == k;
      if i < n {
        assert ps[..n][i].k == k;
      }
    }
    forall k | k in Touched(ps[..n])
      ensures k in Touched(ps)
    {
      var i :| 0 <= i < n && ps[..n][i].k == k;
      assert ps[i].k == k;
    }
  }

  /** The last write to a key decides its expiry: when no later write
      touches `ps[i].k`, the document under it expires at `ps[i].expiry`. */
  lemma {:induction false} LastPutWins(c: Collection, ps: seq<Put>, i: int)
    requires 0 <= i < |ps|
    requires forall j :: i < j < |ps| ==> ps[j].k != ps[i].k
    ensures ps[i].k in ApplyPuts(c, ps).docs
    ensures Prop(ApplyPuts(c, ps).docs[ps[i].k], "db_expiry") == Num(ps[i].expiry)
  {
    var n := |ps| - 1;
    var before := ApplyPuts(c, ps[..n]);
    var after := ApplyPuts(c, ps);
    assert after == Upsert(before, ps[n].k, ps[n].value, ps[n].expiry);
    if i < n {
      forall j | i < j < n
        ensures ps[..n][j].k != ps[..n][i].k
      {
        assert ps[..n][j] == ps[j];
      }
      assert ps[..n][i] == ps[i];
      LastPutWins(c, ps[..n], i);
      UpsertElsewhere(before, ps[n].k, ps[n].value, ps[n].expiry, ps[i].k);
    } else {
      UpsertSetsExpiry(before, ps[n].k, ps[n].value, ps[n].expiry);
    }
  }
}

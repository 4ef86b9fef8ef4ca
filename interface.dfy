/** The cache configuration and its defaults (lib/interface.ts). */
module Interface {
  import opened JsValues

  /** An operation context, as passed to and returned by hooks. */
  type Ctx = Fields

  /** A caller-supplied `on<method>` callback, seen as a pure function of the
      operation's arguments and its current context; a falsy return is
      `None`, an object return is `Some(fields)`. */
  type Hook = (Ctx, Ctx) -> Option<Ctx>

  /** A configuration object: its plain-valued properties, and the
      properties whose values are functions (the hooks, keyed by property
      name, e.g. "onget"). */
  datatype Config = Config(fields: Fields, hooks: map<string, Hook>)

  /** Five minutes, in milliseconds. */
  const GcTickDefault: int := 5 * 60 * 1000

  /** `defaultConfig`: only `gcTick` has a default; there is no default
      prefix. */
  function DefaultConfig(): Config
  {
    Config(map["gcTick" := Num(GcTickDefault)], map[])
  }

  /** `Object.assign({}, defaultConfig, config)`: a fresh object holding the
      defaults, overridden by every property the caller supplied. */
  function EffectiveConfig(caller: Config): (r: Config)
    ensures r.fields.Keys == caller.fields.Keys + {"gcTick"}
    ensures forall f :: f in caller.fields ==> r.fields[f] == caller.fields[f]
    ensures "gcTick" !in caller.fields ==> r.fields["gcTick"] == Num(300000)
    ensures "prefix" !in caller.fields ==> "prefix" !in r.fields
    ensures r.hooks.Keys == caller.hooks.Keys
    ensures forall h :: h in caller.hooks ==> r.hooks[h] == caller.hooks[h]
  {
    Config(DefaultConfig().fields + caller.fields, DefaultConfig().hooks + caller.hooks)
  }
}

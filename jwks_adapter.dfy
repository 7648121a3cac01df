/**
 * The configurable JWKS adapter (jwks-adapter/func.js): every key entry of
 * the fetched key set gets `alg` overwritten when AZURE_JWKS_APPEND_ALG is
 * set, and loses `x5c` when AZURE_JWKS_SKIP_X5C is set.
 */
module JwksAdapter {
  import opened Wrappers
  import opened Jwks

  /** The function's configuration, `ctx.config`: option name to string value. */
  type Config = map<string, string>

  const APPEND_ALG: string := "AZURE_JWKS_APPEND_ALG"
  const SKIP_X5C: string := "AZURE_JWKS_SKIP_X5C"

  /** `ctx.config[name]`: the value, or `undefined` when the option is not set. */
  function Lookup(config: Config, name: string): (o: Option<string>)
    ensures o.Some? <==> name in config
    ensures o.Some? ==> o.value == config[name]
  {
    if name in config then Some(config[name]) else None
  }

  /** `!!v` on a looked-up option: on exactly when it is set to a non-empty string. */
  function Truthy(o: Option<string>): (on: bool)
    ensures on <==> o.Some? && |o.value| > 0
    ensures o == Some("false") ==> on
  {
    o.Some? && o.value != ""
  }

  /** Whether `alg` is overwritten: the option is set and not empty. */
  function AppendAlgOn(config: Config): (on: bool)
    ensures on <==> APPEND_ALG in config && |config[APPEND_ALG]| > 0
  {
    Truthy(Lookup(config, APPEND_ALG))
  }

  /** Whether `x5c` is deleted: the option is set and not empty, whatever its value. */
  function SkipX5cOn(config: Config): (on: bool)
    ensures on <==> SKIP_X5C in config && |config[SKIP_X5C]| > 0
  {
    Truthy(Lookup(config, SKIP_X5C))
  }

  /** The two in-place edits applied to the members of one key entry object. */
  function EditFields(config: Config, m: map<string, Json>): (r: map<string, Json>)
    ensures AppendAlgOn(config) ==> ALG in r && r[ALG] == JString(config[APPEND_ALG])
    ensures !AppendAlgOn(config) ==> (ALG in r <==> ALG in m)
    ensures !AppendAlgOn(config) && ALG in m ==> r[ALG] == m[ALG]
    ensures SkipX5cOn(config) ==> X5C !in r
    ensures !SkipX5cOn(config) ==> (X5C in r <==> X5C in m)
    ensures !SkipX5cOn(config) && X5C in m ==> r[X5C] == m[X5C]
    ensures forall k :: k != ALG && k != X5C ==> (k in r <==> k in m)
    ensures forall k :: k != ALG && k != X5C && k in m ==> r[k] == m[k]
  {
    var withAlg := if AppendAlgOn(config) then m[ALG := JString(config[APPEND_ALG])] else m;
    if SkipX5cOn(config) then withAlg - {X5C} else withAlg
  }

  /**
   * The `forEach` callback on one entry. An object is edited; `null` throws
   * as soon as either edit touches it; any other value is left as it is
   * (a property write to a primitive is ignored outside strict mode, and
   * named properties of an array do not survive serialization).
   */
  function EditEntry(config: Config, e: Json): (r: Result<Json, Fault>)
    ensures r.Err? <==> e.JNull? && (AppendAlgOn(config) || SkipX5cOn(config))
    ensures r.Err? ==> r.error == NullEntry
    ensures r.Ok? ==> (r.value.JObject? <==> e.JObject?)
    ensures r.Ok? && e.JObject? ==> r.value == JObject(EditFields(config, e.members))
    ensures r.Ok? && !e.JObject? ==> r.value == e
  {
    match e
    case JObject(m) => Ok(JObject(EditFields(config, m)))
    case JNull => if AppendAlgOn(config) || SkipX5cOn(config) then Err(NullEntry) else Ok(JNull)
    case _ => Ok(e)
  }

  function Editor(config: Config): Edit {
    e => EditEntry(config, e)
  }

  /**
   * The handler's success callback as a function of the configuration and
   * the fetched document. Where it succeeds, output entry i is input entry i
   * edited, the entries keep their number and order, and no other top-level
   * member moves.
   */
  function Transform(config: Config, data: Json): (r: Result<Json, Fault>)
    ensures KeysOf(data).Err? ==> r == Err(NoKeysArray)
    ensures r.Ok? ==> KeysOf(data).Ok? && KeysOf(r.value).Ok?
    ensures r.Ok? ==> |KeysOf(r.value).value| == |KeysOf(data).value|
    ensures r.Ok? ==> forall i :: 0 <= i < |KeysOf(data).value| ==>
      EditEntry(config, KeysOf(data).value[i]) == Ok(KeysOf(r.value).value[i])
    ensures r.Ok? ==> forall k :: k != KEYS ==> (k in r.value.members <==> k in data.members)
    ensures r.Ok? ==> forall k :: k != KEYS && k in data.members ==> r.value.members[k] == data.members[k]
  {
    assert forall e :: Editor(config)(e) == EditEntry(config, e);
    Rewrite(Editor(config), data)
  }

  /** The handler's success callback: the walk over `data.keys` with this adapter's edit. */
  method Handle(config: Config, data: Json) returns (r: Result<Json, Fault>)
    ensures r == Transform(config, data)
  {
    r := RewriteInPlace(data, Editor(config));
  }

  /** Editing an entry a second time with the same configuration changes nothing. */
  lemma EditEntryIdempotent(config: Config, e: Json)
    requires EditEntry(config, e).Ok?
    ensures EditEntry(config, EditEntry(config, e).value) == EditEntry(config, e)
  {
    if e.JObject? {
      var once := EditFields(config, e.members);
      assert EditFields(config, once) == once;
    }
  }

  /** The rewrite throws exactly when `data.keys` is no array, or an edit is on and some entry is `null`. */
  lemma TransformFails(config: Config, data: Json)
    ensures Transform(config, data).Err? <==>
      KeysOf(data).Err? ||
      ((AppendAlgOn(config) || SkipX5cOn(config)) && JNull in KeysOf(data).value)
  {
    if KeysOf(data).Ok? {
      var ks := KeysOf(data).value;
      var n := FirstFailure(Editor(config), ks);
      if n < |ks| {
        assert Editor(config)(ks[n]).Err?;
      }
      if (AppendAlgOn(config) || SkipX5cOn(config)) && JNull in ks {
        var i :| 0 <= i < |ks| && ks[i] == JNull;
        assert Editor(config)(ks[i]).Err?;
      }
    }
  }

  /** With AZURE_JWKS_APPEND_ALG set to V, every object entry of the output has `alg` equal to V. */
  lemma AlgOverwritten(config: Config, data: Json)
    requires AppendAlgOn(config) && Transform(config, data).Ok?
    ensures forall e :: e in KeysOf(Transform(config, data).value).value && e.JObject? ==>
      ALG in e.members && e.members[ALG] == JString(config[APPEND_ALG])
  {
  }

  /** With AZURE_JWKS_APPEND_ALG absent or empty, every entry keeps its `alg`, present or not. */
  lemma AlgKeptWhenOff(config: Config, data: Json, i: nat)
    requires !AppendAlgOn(config) && Transform(config, data).Ok?
    requires i < |KeysOf(data).value|
    ensures var before := KeysOf(data).value[i];
            var after := KeysOf(Transform(config, data).value).value[i];
            before.JObject? ==> after.JObject? && (ALG in after.members <==> ALG in before.members) &&
                                (ALG in before.members ==> after.members[ALG] == before.members[ALG])
  {
  }

  /** With AZURE_JWKS_SKIP_X5C set, no entry of the output has `x5c`. */
  lemma X5cStripped(config: Config, data: Json)
    requires SkipX5cOn(config) && Transform(config, data).Ok?
    ensures forall e :: e in KeysOf(Transform(config, data).value).value && e.JObject? ==> X5C !in e.members
  {
  }

  /** With AZURE_JWKS_SKIP_X5C absent or empty, every entry keeps its `x5c`, present or not. */
  lemma X5cKeptWhenOff(config: Config, data: Json, i: nat)
    requires !SkipX5cOn(config) && Transform(config, data).Ok?
    requires i < |KeysOf(data).value|
    ensures var before := KeysOf(data).value[i];
            var after := KeysOf(Transform(config, data).value).value[i];
            before.JObject? ==> after.JObject? && (X5C in after.members <==> X5C in before.members) &&
                                (X5C in before.members ==> after.members[X5C] == before.members[X5C])
  {
  }

  /** The option is on by being non-empty, not by its value: "false" still strips `x5c`. */
  lemma SkipX5cFalseStillStrips(entry: map<string, Json>)
    ensures X5C !in EditFields(map[SKIP_X5C := "false"], entry)
  {
    assert SkipX5cOn(map[SKIP_X5C := "false"]);
  }

  /** Every member other than `alg` and `x5c` of every entry comes through unchanged. */
  lemma OtherFieldsKept(config: Config, data: Json, i: nat, k: string)
    requires Transform(config, data).Ok? && k != ALG && k != X5C
    requires i < |KeysOf(data).value| && KeysOf(data).value[i].JObject?
    ensures var before := KeysOf(data).value[i].members;
            var after := KeysOf(Transform(config, data).value).value[i];
            after.JObject? && (k in after.members <==> k in before) &&
            (k in before ==> after.members[k] == before[k])
  {
  }

  /** With both options off, the handler returns the fetched document unchanged. */
  lemma BothOffIsIdentity(config: Config, data: Json)
    requires !AppendAlgOn(config) && !SkipX5cOn(config)
    requires KeysOf(data).Ok?
    ensures Transform(config, data) == Ok(data)
  {
    forall e | e in KeysOf(data).value ensures Editor(config)(e) == Ok(e) {
      if e.JObject? {
        assert EditFields(config, e.members) == e.members;
      }
    }
    RewriteIdentity(Editor(config), data);
  }

  /** Running the handler's edit twice with the same configuration gives what running it once gives. */
  lemma TransformIdempotent(config: Config, data: Json)
    requires Transform(config, data).Ok?
    ensures Transform(config, Transform(config, data).value) == Transform(config, data)
  {
    forall e | Editor(config)(e).Ok?
      ensures Editor(config)(Editor(config)(e).value) == Editor(config)(e)
    {
      EditEntryIdempotent(config, e);
    }
    RewriteIdempotent(Editor(config), data);
  }
}

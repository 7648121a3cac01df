/**
 * The first adapter (func.js): every key entry of the key set fetched from
 * the fixed discovery address gets `alg` set to "RS256", unconditionally.
 */
module Rs256Adapter {
  import opened Wrappers
  import opened Jwks
  import JwksAdapter

  const RS256: string := "RS256"

  /**
   * The `forEach` callback on one entry: an object gets `alg` = "RS256" and
   * keeps every other member; `null` throws; any other value is left as it is.
   */
  function PinEntry(e: Json): (r: Result<Json, Fault>)
    ensures r.Err? <==> e.JNull?
    ensures r.Err? ==> r.error == NullEntry
    ensures r.Ok? && e.JObject? ==> r.value.JObject? && r.value.members.Keys == e.members.Keys + {ALG}
    ensures r.Ok? && e.JObject? ==> r.value.members[ALG] == JString(RS256)
    ensures r.Ok? && e.JObject? ==> forall k :: k in e.members && k != ALG ==> r.value.members[k] == e.members[k]
    ensures r.Ok? && !e.JObject? ==> r.value == e
  {
    match e
    case JObject(m) => Ok(JObject(m[ALG := JString(RS256)]))
    case JNull => Err(NullEntry)
    case _ => Ok(e)
  }

  function Pinner(): Edit {
    e => PinEntry(e)
  }

  /**
   * The handler's success callback as a function of the fetched document.
   * Where it succeeds, output entry i is input entry i pinned, the entries
   * keep their number and order, and no other top-level member moves.
   */
  function Transform(data: Json): (r: Result<Json, Fault>)
    ensures KeysOf(data).Err? ==> r == Err(NoKeysArray)
    ensures r.Ok? ==> KeysOf(data).Ok? && KeysOf(r.value).Ok?
    ensures r.Ok? ==> |KeysOf(r.value).value| == |KeysOf(data).value|
    ensures r.Ok? ==> forall i :: 0 <= i < |KeysOf(data).value| ==>
      PinEntry(KeysOf(data).value[i]) == Ok(KeysOf(r.value).value[i])
    ensures r.Ok? ==> forall k :: k != KEYS ==> (k in r.value.members <==> k in data.members)
    ensures r.Ok? ==> forall k :: k != KEYS && k in data.members ==> r.value.members[k] == data.members[k]
  {
    assert forall e :: Pinner()(e) == PinEntry(e);
    Rewrite(Pinner(), data)
  }

  /** The handler's success callback: the walk over `data.keys` with this adapter's edit. */
  method Handle(data: Json) returns (r: Result<Json, Fault>)
    ensures r == Transform(data)
  {
    r := RewriteInPlace(data, Pinner());
  }

  /** This adapter is the configurable one with AZURE_JWKS_APPEND_ALG = "RS256" and AZURE_JWKS_SKIP_X5C unset. */
  lemma SameAsConfigured(data: Json)
    ensures Transform(data) == JwksAdapter.Transform(map[JwksAdapter.APPEND_ALG := RS256], data)
  {
    var config := map[JwksAdapter.APPEND_ALG := RS256];
    assert JwksAdapter.AppendAlgOn(config) && !JwksAdapter.SkipX5cOn(config);
    forall e ensures Pinner()(e) == JwksAdapter.Editor(config)(e) {
      if e.JObject? {
        assert JwksAdapter.EditFields(config, e.members) == e.members[ALG := JString(RS256)];
      }
    }
    RewriteAgree(Pinner(), JwksAdapter.Editor(config), data);
  }

  /** Where the rewrite succeeds, every object entry of the output has `alg` = "RS256", overwriting any other value. */
  lemma AllRs256(data: Json)
    requires Transform(data).Ok?
    ensures forall e :: e in KeysOf(Transform(data).value).value && e.JObject? ==>
      ALG in e.members && e.members[ALG] == JString(RS256)
  {
    SameAsConfigured(data);
    JwksAdapter.AlgOverwritten(map[JwksAdapter.APPEND_ALG := RS256], data);
  }

  /** No member is removed from any entry, and every member other than `alg` is unchanged. */
  lemma NothingRemoved(data: Json, i: nat)
    requires Transform(data).Ok?
    requires i < |KeysOf(data).value| && KeysOf(data).value[i].JObject?
    ensures var before := KeysOf(data).value[i].members;
            var after := KeysOf(Transform(data).value).value[i];
            after.JObject? && after.members.Keys == before.Keys + {ALG} &&
            forall k :: k in before && k != ALG ==> after.members[k] == before[k]
  {
    var ks := KeysOf(data).value;
    assert Pinner()(ks[i]) == PinEntry(ks[i]);
  }

  /** An empty `keys` array gives back the fetched document unchanged. */
  lemma EmptyKeysUnchanged(data: Json)
    requires KeysOf(data) == Ok([])
    ensures Transform(data) == Ok(data)
  {
    RewriteIdentity(Pinner(), data);
  }

  /** Running the edit twice gives what running it once gives. */
  lemma TransformIdempotent(data: Json)
    requires Transform(data).Ok?
    ensures Transform(Transform(data).value) == Transform(data)
  {
    var config := map[JwksAdapter.APPEND_ALG := RS256];
    SameAsConfigured(data);
    SameAsConfigured(Transform(data).value);
    JwksAdapter.TransformIdempotent(config, data);
  }
}

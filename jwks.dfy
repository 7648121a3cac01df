/**
 * A parsed JSON Web Key Set (RFC 7517, section 5) and the one thing both
 * adapters do to it: walk the `keys` array in place with `forEach`, handing
 * each key entry to an edit that may throw.
 */
module Jwks {
  import opened Wrappers

  /** A JSON value as `JSON.parse` returns it. Numbers are carried, never inspected. */
  datatype Json =
    | JNull
    | JBool(b: bool)
    | JNumber(n: real)
    | JString(s: string)
    | JArray(items: seq<Json>)
    | JObject(members: map<string, Json>)

  /** Why a handler throws. Both are a JavaScript `TypeError`. */
  datatype Fault =
    | NoKeysArray  // `data.keys.forEach` is not callable: `data` is no object, or its `keys` is absent or no array
    | NullEntry    // a property of a `null` key entry is assigned or deleted

  /** The `keys` member of a key set (RFC 7517, section 5.1). */
  const KEYS: string := "keys"
  /** The `alg` member of a key entry (RFC 7517, section 4.4). */
  const ALG: string := "alg"
  /** The `x5c` member of a key entry (RFC 7517, section 4.7). */
  const X5C: string := "x5c"

  /** The per-entry callback given to `forEach`: the edited entry, or the fault it throws. */
  type Edit = Json -> Result<Json, Fault>

  /** `data.keys` as an array, or the `TypeError` that `data.keys.forEach` raises. */
  function KeysOf(data: Json): (r: Result<seq<Json>, Fault>)
    ensures r.Ok? <==> data.JObject? && KEYS in data.members && data.members[KEYS].JArray?
    ensures r.Ok? ==> data.members[KEYS] == JArray(r.value)
    ensures r.Err? ==> r.error == NoKeysArray
  {
    if data.JObject? && KEYS in data.members && data.members[KEYS].JArray?
    then Ok(data.members[KEYS].items)
    else Err(NoKeysArray)
  }

  /** The document whose top-level members are `others`, with `keys` set to `ks`. */
  function WithKeys(others: map<string, Json>, ks: seq<Json>): (doc: Json)
    ensures doc.JObject? && KeysOf(doc) == Ok(ks)
    ensures forall k :: k != KEYS ==> (k in doc.members <==> k in others)
    ensures forall k :: k != KEYS && k in others ==> doc.members[k] == others[k]
  {
    JObject(others[KEYS := JArray(ks)])
  }

  /** The index of the first entry whose edit throws, or `|ks|` when none does. */
  function FirstFailure(edit: Edit, ks: seq<Json>): (n: nat)
    ensures n <= |ks|
    ensures forall i :: 0 <= i < n ==> edit(ks[i]).Ok?
    ensures n < |ks| ==> edit(ks[n]).Err?
  {
    if ks == [] || edit(ks[0]).Err? then 0 else 1 + FirstFailure(edit, ks[1..])
  }

  /**
   * What `forEach` with `edit` leaves in the array: entry i replaced by its
   * edit, in order; or the fault of the first entry whose edit throws.
   */
  function MapEntries(edit: Edit, ks: seq<Json>): (r: Result<seq<Json>, Fault>)
    ensures r.Ok? <==> FirstFailure(edit, ks) == |ks|
    ensures r.Ok? ==> |r.value| == |ks|
    ensures r.Ok? ==> forall i :: 0 <= i < |ks| ==> edit(ks[i]) == Ok(r.value[i])
    ensures r.Err? ==> r.error == edit(ks[FirstFailure(edit, ks)]).error
  {
    if ks == [] then Ok([])
    else match edit(ks[0])
      case Err(f) => Err(f)
      case Ok(e) =>
        match MapEntries(edit, ks[1..])
        case Err(f) => Err(f)
        case Ok(rest) => Ok([e] + rest)
  }

  /** An edit that leaves every entry as it is leaves the whole array as it is. */
  lemma {:induction false} MapEntriesIdentity(edit: Edit, ks: seq<Json>)
    requires forall i :: 0 <= i < |ks| ==> edit(ks[i]) == Ok(ks[i])
    ensures MapEntries(edit, ks) == Ok(ks)
  {
    if ks != [] {
      assert edit(ks[0]) == Ok(ks[0]);
      MapEntriesIdentity(edit, ks[1..]);
      assert [ks[0]] + ks[1..] == ks;
    }
  }

  /** Walking the array a second time with an edit that is idempotent on each entry changes nothing. */
  lemma MapEntriesIdempotent(edit: Edit, ks: seq<Json>)
    requires forall e :: edit(e).Ok? ==> edit(edit(e).value) == edit(e)
    requires MapEntries(edit, ks).Ok?
    ensures MapEntries(edit, MapEntries(edit, ks).value) == MapEntries(edit, ks)
  {
    var out := MapEntries(edit, ks).value;
    forall i | 0 <= i < |out| ensures edit(out[i]) == Ok(out[i]) {
      assert edit(ks[i]) == Ok(out[i]);
    }
    MapEntriesIdentity(edit, out);
  }

  /**
   * The success callback of the fetch, for a given per-entry edit: walk
   * `data.keys` with `edit` and return the same document, every other
   * top-level member untouched.
   */
  function Rewrite(edit: Edit, data: Json): (r: Result<Json, Fault>)
    ensures r.Ok? <==> KeysOf(data).Ok? && MapEntries(edit, KeysOf(data).value).Ok?
    ensures KeysOf(data).Err? ==> r == Err(NoKeysArray)
    ensures r.Ok? ==> KeysOf(r.value) == MapEntries(edit, KeysOf(data).value)
    ensures r.Ok? ==> forall k :: k != KEYS ==> (k in r.value.members <==> k in data.members)
    ensures r.Ok? ==> forall k :: k != KEYS && k in data.members ==> r.value.members[k] == data.members[k]
  {
    match KeysOf(data)
    case Err(f) => Err(f)
    case Ok(ks) =>
      match MapEntries(edit, ks)
      case Err(f) => Err(f)
      case Ok(edited) => Ok(WithKeys(data.members, edited))
  }

  /** Rewriting with an edit that is idempotent on each entry is itself idempotent. */
  lemma RewriteIdempotent(edit: Edit, data: Json)
    requires forall e :: edit(e).Ok? ==> edit(edit(e).value) == edit(e)
    requires Rewrite(edit, data).Ok?
    ensures Rewrite(edit, Rewrite(edit, data).value) == Rewrite(edit, data)
  {
    var ks := KeysOf(data).value;
    var out := Rewrite(edit, data).value;
    MapEntriesIdempotent(edit, ks);
    assert KeysOf(out) == MapEntries(edit, ks);
    assert out.members[KEYS := JArray(MapEntries(edit, ks).value)] == out.members;
  }

  /** With an edit that leaves every entry of `data` as it is, the rewrite returns `data` itself. */
  lemma RewriteIdentity(edit: Edit, data: Json)
    requires KeysOf(data).Ok?
    requires forall e :: e in KeysOf(data).value ==> edit(e) == Ok(e)
    ensures Rewrite(edit, data) == Ok(data)
  {
    var ks := KeysOf(data).value;
    MapEntriesIdentity(edit, ks);
    assert data.members[KEYS := JArray(ks)] == data.members;
  }

  /** Two edits that agree on every entry walk the array to the same result. */
  lemma {:induction false} MapEntriesAgree(edit1: Edit, edit2: Edit, ks: seq<Json>)
    requires forall i :: 0 <= i < |ks| ==> edit1(ks[i]) == edit2(ks[i])
    ensures MapEntries(edit1, ks) == MapEntries(edit2, ks)
  {
    if ks != [] {
      assert edit1(ks[0]) == edit2(ks[0]);
      MapEntriesAgree(edit1, edit2, ks[1..]);
    }
  }

  /** Two edits that agree on every entry of `data.keys` rewrite `data` alike. */
  lemma RewriteAgree(edit1: Edit, edit2: Edit, data: Json)
    requires KeysOf(data).Ok? ==> forall e :: e in KeysOf(data).value ==> edit1(e) == edit2(e)
    ensures Rewrite(edit1, data) == Rewrite(edit2, data)
  {
    if KeysOf(data).Ok? {
      MapEntriesAgree(edit1, edit2, KeysOf(data).value);
    }
  }

  /** A parsed key set held as objects: the `keys` array and the other top-level members. */
  class Document {
    var keys: array<Json>
    var others: map<string, Json>

    /** The JSON the document stands for; `others` never holds a `keys` member of its own. */
    function Value(): (doc: Json)
      reads this, keys
    {
      WithKeys(others, keys[..])
    }

    constructor (others: map<string, Json>, ks: seq<Json>)
      requires KEYS !in others
      ensures this.others == others && keys[..] == ks && fresh(keys)
    {
      this.others := others;
      keys := new Json[|ks|](i requires 0 <= i < |ks| => ks[i]);
    }
  }

  /**
   * Reads `data.keys` for the walk: a fresh document standing for `data`,
   * or the `TypeError` when `data.keys` is no array.
   */
  method Load(data: Json) returns (r: Result<Document, Fault>)
    ensures r.Err? <==> KeysOf(data).Err?
    ensures r.Err? ==> r.error == NoKeysArray
    ensures r.Ok? ==> fresh(r.value) && fresh(r.value.keys)
    ensures r.Ok? ==> r.value.keys[..] == KeysOf(data).value && r.value.others == data.members - {KEYS}
  {
    match KeysOf(data)
    case Err(f) =>
      r := Err(f);
    case Ok(ks) =>
      var doc := new Document(data.members - {KEYS}, ks);
      r := Ok(doc);
  }

  /**
   * `keys.forEach(edit)`: each slot in turn is replaced by its edit. When an
   * edit throws, the walk stops there: the slots before it are edited, that
   * one and the rest are as they were.
   */
  method ForEachEntry(keys: array<Json>, edit: Edit) returns (fault: Option<Fault>)
    modifies keys
    ensures fault.None? ==> MapEntries(edit, old(keys[..])) == Ok(keys[..])
    ensures fault.Some? ==> MapEntries(edit, old(keys[..])) == Err(fault.value)
    ensures forall k :: 0 <= k < FirstFailure(edit, old(keys[..])) ==> edit(old(keys[k])) == Ok(keys[k])
    ensures forall k :: FirstFailure(edit, old(keys[..])) <= k < keys.Length ==> keys[k] == old(keys[k])
  {
    ghost var ks := keys[..];
    var i := 0;
    while i < keys.Length
      invariant 0 <= i <= keys.Length
      invariant forall k :: 0 <= k < i ==> edit(ks[k]) == Ok(keys[k])
      invariant forall k :: i <= k < keys.Length ==> keys[k] == ks[k]
    {
      var r := edit(keys[i]);
      if r.Err? {
        assert FirstFailure(edit, ks) == i;
        return Some(r.error);
      }
      keys[i] := r.value;
      i := i + 1;
    }
    assert FirstFailure(edit, ks) == |ks|;
    assert keys[..] == MapEntries(edit, ks).value;
    fault := None;
  }

  /** The handler's walk over a loaded document, from `data` to the rewritten JSON or the fault. */
  method RewriteInPlace(data: Json, edit: Edit) returns (r: Result<Json, Fault>)
    ensures r == Rewrite(edit, data)
  {
    var loaded := Load(data);
    if loaded.Err? {
      return Err(loaded.error);
    }
    var doc := loaded.value;
    var fault := ForEachEntry(doc.keys, edit);
    if fault.Some? {
      return Err(fault.value);
    }
    assert (data.members - {KEYS})[KEYS := JArray(doc.keys[..])] == data.members[KEYS := JArray(doc.keys[..])];
    r := Ok(doc.Value());
  }
}

# JWKS key-entry rewrite, modelled in Dafny

Two serverless handlers fetch a JSON Web Key Set (RFC 7517) and edit it before returning it.
The model covers that edit. The handler walks the `keys` array (RFC 7517, section 5.1) with `forEach` and changes each key entry in place:

- **Configurable adapter** (`jwks-adapter/func.js`): if the option `AZURE_JWKS_APPEND_ALG` is set to a non-empty string, each entry's `alg` member (RFC 7517, section 4.4) is set to that string, replacing any earlier value. If `AZURE_JWKS_SKIP_X5C` is set to a non-empty string, each entry's `x5c` member (RFC 7517, section 4.7) is deleted. An option is on when it is non-empty, whatever its value, so `"false"` also turns it on.
- **RS256 adapter** (`func.js`): each entry's `alg` is set to `"RS256"`, unconditionally.

The fetched document is a `Json` value. `Jwks.KeysOf` reads `data.keys` and fails when that member is not an array. `Jwks.Document` holds the `keys` array as an `array<Json>` and the other top-level members as a map. `Jwks.ForEachEntry` is the `forEach` loop: it overwrites the array slots in place. Its contract ties the new array to the specification function `Jwks.MapEntries` applied to the old array. `Jwks.Rewrite` is the whole success callback as a function, and `Jwks.RewriteInPlace` implements it imperatively. Each adapter supplies its per-entry callback (`JwksAdapter.EditEntry`, `Rs256Adapter.PinEntry`). The lemmas state each adapter's properties for every input document.

Where the source throws, the model returns `Err` instead of adding a precondition:
- `data.keys.forEach` fails with a `TypeError` in these cases: `data` is not an object, `keys` is absent, or `keys` is not an array. The model gives `NoKeysArray`.
- Assigning or deleting a property of a `null` entry also fails with a `TypeError`. The model gives `NullEntry`.

An entry that is a string, number, boolean or array comes out unchanged. Outside strict mode, writing a property of a primitive is silently ignored. A named property set on an array is not serialised.

No handler reads slice bounds for `keys`, so the model has no slicing.

## Model

| member | source | states |
|---|---|---|
| `Jwks.KeysOf` | jwks-adapter/func.js:6 | `data.keys` can be walked exactly when `data` is an object whose `keys` member is an array. Otherwise the result is the `TypeError` fault. |
| `Jwks.WithKeys` | jwks-adapter/func.js:13 | The returned document has exactly the given `keys` and the same other top-level members. |
| `Jwks.FirstFailure` | jwks-adapter/func.js:6 | `forEach` stops at the least index whose callback throws. Every entry before it is edited without error. |
| `Jwks.MapEntries` | jwks-adapter/func.js:6-11 | The walk succeeds exactly when no callback throws. It then keeps the length and order, and output entry i is the edit of input entry i. Otherwise it fails with the first thrower's fault. |
| `Jwks.MapEntriesIdentity` | jwks-adapter/func.js:6-11 | An edit that leaves every entry unchanged leaves the array unchanged. |
| `Jwks.MapEntriesIdempotent` | jwks-adapter/func.js:6-11 | Walking twice with an entry-wise idempotent edit equals walking once. |
| `Jwks.MapEntriesAgree` | jwks-adapter/func.js:6-11 | The walk depends only on what the callback does to the entries actually present. |
| `Jwks.Rewrite` | jwks-adapter/func.js:5-13 | The callback returns the same document. Its `keys` is the walked array, and every other top-level member is untouched. It fails with `NoKeysArray` when `data.keys` is not an array. |
| `Jwks.RewriteIdempotent` | jwks-adapter/func.js:6-13 | Rewriting twice equals rewriting once when the per-entry edit is idempotent. |
| `Jwks.RewriteIdentity` | jwks-adapter/func.js:6-13 | A per-entry edit that changes no entry returns the input document itself. |
| `Jwks.RewriteAgree` | jwks-adapter/func.js:6-13 | Two callbacks that agree on the present entries give the same rewrite. |
| `Jwks.Document.constructor` | jwks-adapter/func.js:6 | The held array is fresh and holds the given entries. |
| `Jwks.Load` | jwks-adapter/func.js:6 | Loading fails exactly when `data.keys` is not an array. Otherwise the fresh array holds `data.keys` and the other members are kept. |
| `Jwks.ForEachEntry` | jwks-adapter/func.js:6-11 | In place: the new array is `MapEntries` of the old one. On a throw, the slots before the first thrower are edited and the rest are as before. |
| `Jwks.RewriteInPlace` | jwks-adapter/func.js:5-13 | The imperative walk over a loaded document returns exactly `Rewrite`. |
| `JwksAdapter.Lookup` | jwks-adapter/func.js:7 | A config lookup gives the value when the option is set, and `undefined` (`None`) otherwise. |
| `JwksAdapter.Truthy` | jwks-adapter/func.js:7 | `!!` on a looked-up option is true exactly when the option is set to a non-empty string, so `"false"` counts as on. |
| `JwksAdapter.AppendAlgOn` | jwks-adapter/func.js:7 | `alg` is overwritten exactly when `AZURE_JWKS_APPEND_ALG` is present and non-empty. |
| `JwksAdapter.SkipX5cOn` | jwks-adapter/func.js:9 | `x5c` is deleted exactly when `AZURE_JWKS_SKIP_X5C` is present and non-empty, whatever its value. |
| `JwksAdapter.EditFields` | jwks-adapter/func.js:7-10 | When the alg option is on, `alg` equals its value, overwriting any old one. When it is off, `alg` keeps its presence and value. When the skip option is on, `x5c` is absent. When it is off, `x5c` is kept. Every other member is unchanged. |
| `JwksAdapter.EditEntry` | jwks-adapter/func.js:6-11 | The callback throws exactly on a `null` entry while an option is on. An object entry becomes the object with `EditFields` applied to its members. Every other value is unchanged. |
| `JwksAdapter.Transform` | jwks-adapter/func.js:5-13 | The callback fails with `NoKeysArray` when `data.keys` is not an array. On success the output has as many entries as the input, in the same order, and output entry i is `EditEntry` of input entry i. Top-level members other than `keys` are unchanged. |
| `JwksAdapter.Handle` | jwks-adapter/func.js:5-13 | The handler's in-place walk returns exactly the configured `Transform`. |
| `JwksAdapter.EditEntryIdempotent` | jwks-adapter/func.js:6-11 | Editing an entry twice with one configuration equals editing it once. |
| `JwksAdapter.TransformFails` | jwks-adapter/func.js:6-10 | The handler throws exactly when `data.keys` is not an array, or when an option is on and some entry is `null`. |
| `JwksAdapter.AlgOverwritten` | jwks-adapter/func.js:7-8 | When `AZURE_JWKS_APPEND_ALG` is a non-empty V, every object entry of the output has `alg == V`. |
| `JwksAdapter.AlgKeptWhenOff` | jwks-adapter/func.js:7 | When the option is absent or empty, each entry's `alg` keeps its presence and value. |
| `JwksAdapter.X5cStripped` | jwks-adapter/func.js:9-10 | When `AZURE_JWKS_SKIP_X5C` is on, no object entry of the output has `x5c`. |
| `JwksAdapter.X5cKeptWhenOff` | jwks-adapter/func.js:9 | When the option is absent or empty, each entry's `x5c` keeps its presence and value. |
| `JwksAdapter.SkipX5cFalseStillStrips` | jwks-adapter/func.js:9 | `AZURE_JWKS_SKIP_X5C = "false"` still removes `x5c`. |
| `JwksAdapter.OtherFieldsKept` | jwks-adapter/func.js:6-11 | Every member of an entry other than `alg` and `x5c` is identical in input and output. |
| `JwksAdapter.BothOffIsIdentity` | jwks-adapter/func.js:6-13 | With both options off, the handler returns the fetched document unchanged. |
| `JwksAdapter.TransformIdempotent` | jwks-adapter/func.js:6-11 | Applying the rewrite twice with the same configuration gives the same document as applying it once. |
| `Rs256Adapter.PinEntry` | func.js:7 | An object entry gets `alg == "RS256"`, loses no member and keeps every member other than `alg`. A `null` entry throws. Any other value is unchanged. |
| `Rs256Adapter.Transform` | func.js:5-10 | The callback fails with `NoKeysArray` when `data.keys` is not an array. On success the output has as many entries as the input, in the same order, and output entry i is `PinEntry` of input entry i. Top-level members other than `keys` are unchanged. |
| `Rs256Adapter.Handle` | func.js:5-10 | The handler's in-place walk returns exactly `Rs256Adapter.Transform`. |
| `Rs256Adapter.SameAsConfigured` | func.js:6-8 | This adapter equals the configurable adapter with `AZURE_JWKS_APPEND_ALG = "RS256"` and no `AZURE_JWKS_SKIP_X5C`. |
| `Rs256Adapter.AllRs256` | func.js:6-8 | Every object entry of the output has `alg == "RS256"`, even one that had another value. |
| `Rs256Adapter.NothingRemoved` | func.js:7 | An entry's member set only gains `alg`, and every other member keeps its value. |
| `Rs256Adapter.EmptyKeysUnchanged` | func.js:6-10 | An empty `keys` array gives back the input document unchanged. |
| `Rs256Adapter.TransformIdempotent` | func.js:6-8 | The rewrite is idempotent. |

## Left out

- HTTPS GET, chunk buffering and the `'error'` listeners (`jwks-adapter/func.js:19-32`, `func.js:16-29`) are network I/O. The model starts from the parsed document.
- `JSON.parse` and `Buffer.concat`: parsing is taken as already done, so the input is a `Json` value.
- The `.then(success, error)` routing returns a transport error as the success value. It belongs to that I/O and is not modelled. A `TypeError` thrown by the callback becomes `Err` here. In the source it rejects the handler's promise.
- `console.log` diagnostics and the `fdk.handle` runtime are not modelled. The hosting configuration is a map from option name to string.
- The token adapter, `jwt-adapter/func.js`, is left out. It only builds a form body through `querystring.stringify` and `Buffer.byteLength` and posts it, which are library calls and transport.
- Slicing of `keys` by start and end bounds is left out because no handler implements it.
- The order of members inside a JSON object is not modelled. Objects are maps, so a newly added `alg` has no position.
- The exact values of JSON numbers are not modelled. They are carried as `real` and never inspected.
- Key entries are values held in the slots of the `keys` array. `JSON.parse` never makes two entries share one object, so editing an entry in place equals replacing its slot. Aliased entries are not modelled.
- Strict mode is not modelled. The source files are CommonJS without `"use strict"`, so writing a property of a primitive entry is ignored rather than thrown.

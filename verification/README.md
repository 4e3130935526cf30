# DataSanitizer, modelled in Dafny

A model of the `Maestrano::Connector::Rails::Services::DataSanitizer` service.
The service takes an entity name and a JSON-like value and returns a sanitized
deep copy of the value. The value is a record, a collection of records, or a
scalar. A YAML profile maps each entity name to an entity profile. An entity
profile maps a field name to one of three actions:

- recurse into the field with a nested profile;
- replace the field with a keyed digest (`hash`);
- suppress the field to nil (any other directive).

Blank fields are skipped. A field the profile does not name passes through
unchanged.

Files:

- `values.dfy` (module `Values`): the `Value` datatype (`Null`, `Bool`, `Num`,
  `Str`, `Map`, `List`, and the `Failed` marker) and Ruby's `blank?`.
- `profiles.dfy` (module `Profiles`): `Action`, entity profiles, profiles, and
  `Env`. `Env` holds the loaded profile and the three functions the service
  calls but does not own: `underscore`, `to_s` and the digest behind
  `hash_value`. These are function-valued parameters. Nothing is assumed of
  them beyond being functions, so equal inputs always give equal outputs.
- `sanitizer.dfy` (module `Sanitizer`): `sanitize`, `sanitize_array`,
  `sanitize_hash` and `hash_value`.
- `properties.dfy` (module `SanitizerProperties`): the properties promised to
  callers, stated for all inputs.
- `profile_walk.dfy` (module `ProfileWalk`): the `profile.each` loop as a
  sequential method over the copied record. It visits the profile's entries in
  an arbitrary order and is proved equal to the order-free definition.
- `examples.dfy` (module `Scenarios`): three worked records. One is suppressed,
  one is hashed inside a nested record, and one has a nested field that fails.

The error boundary: every invocation of `sanitize`, the recursive ones included,
has its own `rescue`. The model gives `sanitize_hash` an explicit outcome,
`Done(value)` or `Raised`. `Sanitize` turns `Raised` into the `Failed` marker.
So a failure is absorbed by the innermost call, and the array slot or record
field that call was filling holds `Failed`. In the service that slot receives
whatever the warning call returns. The model does not pin that value down,
except that it is never the unsanitized input.

`sanitize_hash` raises in exactly one situation in this model. A non-empty
governing profile meets a value that is not a record: a nested profile applied
to a scalar, or a top-level call on a scalar whose entity has a profile. In the
service, looking up the first attribute fails on nil, `true`, `false` and
integers. An empty profile iterates nothing, so the value comes back as it was.

Two facts about the service that the model keeps:

- `sanitize` rescues in every call, the recursive ones included, so only the
  failing field or element is lost and the enclosing record is still returned
  (`NestedFailureContained`).
- Blank follows ActiveSupport's `blank?`, which also counts `false` and
  whitespace-only strings.

## Model

| member | source | states |
|---|---|---|
| Sanitizer.Sanitize | app/models/maestrano/connector/rails/services/data_sanitizer.rb:10-20 | With no profile loaded the value comes back unchanged. A collection keeps its length and a record its exact set of field names. The result is `Failed` exactly when the body raises (a scalar under a non-empty governing profile), so a record or a collection is never replaced by `Failed` |
| Sanitizer.SanitizeArray | app/models/maestrano/connector/rails/services/data_sanitizer.rb:24-28 | One output per element. An element becomes `Failed` exactly when its own `sanitize` call raises, so record and collection elements never fail and one bad element does not spoil its siblings |
| Sanitizer.SanitizeHash | app/models/maestrano/connector/rails/services/data_sanitizer.rb:30-56 | Raises exactly when a non-empty governing profile meets a non-record. With no governing profile it returns the copy unchanged. A record comes back as a record with the same field names |
| SanitizerProperties.UnconfiguredIsIdentity | app/models/maestrano/connector/rails/services/data_sanitizer.rb:11 | With no profile file, every value is returned as it was, whatever the entity and explicit profile |
| SanitizerProperties.ArrayElementwise | app/models/maestrano/connector/rails/services/data_sanitizer.rb:24-28 | A collection maps to a collection of the same length, and element i is the sanitized element i under the same entity name and explicit profile |
| SanitizerProperties.UngovernedRecordUnchanged | app/models/maestrano/connector/rails/services/data_sanitizer.rb:32-36 | A record with neither an explicit profile nor a top-level entry under its normalised name comes back unchanged |
| SanitizerProperties.TopLevelEntryActsAsExplicit | app/models/maestrano/connector/rails/services/data_sanitizer.rb:32-33 | Without an explicit profile, the top-level entry for the normalised entity name governs. The result equals passing that entry explicitly, at every depth of nested collections |
| SanitizerProperties.ExplicitProfileIgnoresStore | app/models/maestrano/connector/rails/services/data_sanitizer.rb:33 | An explicitly passed profile takes precedence over the loaded profile. Replacing the loaded profile by any other loaded profile leaves the result unchanged |
| SanitizerProperties.UnprofiledFieldsKept | app/models/maestrano/connector/rails/services/data_sanitizer.rb:40-55 | The output record has exactly the input's field names. Every field the governing profile does not name keeps its original value |
| SanitizerProperties.BlankFieldsKept | app/models/maestrano/connector/rails/services/data_sanitizer.rb:41 | A blank field (nil, false, whitespace-only string, empty record or collection) is left unchanged whatever its action |
| SanitizerProperties.HashedField | app/models/maestrano/connector/rails/services/data_sanitizer.rb:46-48 | A non-blank field whose action is `hash` becomes the digest of its string form |
| SanitizerProperties.HashCorrelates | app/models/maestrano/connector/rails/services/data_sanitizer.rb:69-74 | Two records whose hashed field holds equal values show equal digests there. This holds whatever their other fields and whichever entity names lead to the hashing profile |
| SanitizerProperties.SuppressedField | app/models/maestrano/connector/rails/services/data_sanitizer.rb:49-52 | A non-blank field whose action is any directive other than `hash` becomes nil. An unrecognised directive suppresses and is not an error |
| SanitizerProperties.NestedField | app/models/maestrano/connector/rails/services/data_sanitizer.rb:43-45 | A non-blank field with a nested profile becomes the result of its own `sanitize` call, with the normalised entity name and the nested profile passed down |
| SanitizerProperties.NestedFailureContained | app/models/maestrano/connector/rails/services/data_sanitizer.rb:18-20 | A nested profile meeting a non-blank scalar leaves `Failed` in that field only. The record keeps all its field names, and every other field is what it would be had the failing field been absent |
| SanitizerProperties.CollectionsNeverFail | app/models/maestrano/connector/rails/services/data_sanitizer.rb:18-20 | Sanitizing a record or a collection never yields `Failed`: failures are absorbed below, where they happen |
| SanitizerProperties.ExplicitProfileIgnoresEntity | app/models/maestrano/connector/rails/services/data_sanitizer.rb:43-45 | Once a profile is passed down explicitly, the entity name has no influence on the result at any depth |
| SanitizerProperties.NormalisedNamesAgree | app/models/maestrano/connector/rails/services/data_sanitizer.rb:32-33 | Two entity names with the same normalised form give the same result for every value, collections included |
| SanitizerProperties.EmptyProfileChangesNothing | app/models/maestrano/connector/rails/services/data_sanitizer.rb:40-55 | An empty explicit profile returns every value unchanged, however deeply records and collections nest |
| SanitizerProperties.SuppressionIdempotent | app/models/maestrano/connector/rails/services/data_sanitizer.rb:40-53 | When every profile that can be consulted only suppresses (at every nesting level), sanitizing the output again changes nothing |
| ProfileWalk.WalkProfile | app/models/maestrano/connector/rails/services/data_sanitizer.rb:34-55 | Copying the record and visiting the profile's entries one at a time, in any order, produces exactly the sanitized record. The field names are kept, and fields the profile does not act on keep their values |
| Scenarios.SuppressionScenario | app/models/maestrano/connector/rails/services/data_sanitizer.rb:49-52 | Profile `{contact: {f: suppress}}` turns `{f: "secret", g: "keep"}` into `{f: nil, g: "keep"}` |
| Scenarios.NestedChildScenario | app/models/maestrano/connector/rails/services/data_sanitizer.rb:46-48 | The explicit profile `{f: hash}` hashes `f` and keeps `g` |
| Scenarios.NestedScenario | app/models/maestrano/connector/rails/services/data_sanitizer.rb:43-45 | Profile `{contact: {child: {f: hash}}}` hashes `child.f` and keeps `child.g` |
| Scenarios.FailureScenario | app/models/maestrano/connector/rails/services/data_sanitizer.rb:18-20 | A nested profile meeting the number 5 leaves `Failed` in that field, and the record's other field is kept |

## Left out

- Profile loading and the class-level cache (data_sanitizer.rb:6-7, 58-67): file existence checks, `File.read` and YAML parsing under the Rails root. The parsed profile is an input (`Env.profile`), `None` when the file is missing.
- The AES-128-ECB cipher, the secret-key slice and the Base64 encoding inside `hash_value`: foreign crypto calls. Only the digest function remains, as a parameter.
- ActiveSupport's `underscore` algorithm (acronyms, `::`, `-`): a parameter, so properties hold for every normaliser.
- `Rails.logger.warn` and the value it returns: the slot holds the `Failed` marker instead.
- Array-valued nested profiles (the `is_a?(Array)` half of the test at data_sanitizer.rb:43): accidental Ruby behaviour, not intended.
- `String#[]` and `String#[]=` when a non-empty profile meets a string. Ruby would take or overwrite substrings; the model treats this like any other scalar and returns `Failed`.
- A top-level profile entry that is not a mapping (e.g. `contact: hash`), and a profile document that is not a mapping. The `Profile` type only admits mappings of mappings.
- Non-string YAML scalars used as actions (numbers, booleans, nil): they behave like any directive other than `hash`, which `Directive` covers.
- Floating-point numbers and symbol keys in records: records have string keys and integer numbers.
- `IsSpace` lists the Unicode White_Space characters as an approximation of the `[[:space:]]` class that `blank?` matches.
- The migration db/migrate/20151122162613_create_maestrano_connector_rails_user_organization_rels.rb: table and index creation, no behaviour.
- `hash_value` never fails in the model: `Env.digest` is a total function. In the service, a nil `secret_key_base` or a key shorter than 16 bytes makes line 71 raise, and the rescue then replaces the whole enclosing record or collection element with the warning's return value, not just the hashed field. So `Sanitize`'s and `SanitizeHash`'s statements of exactly when `Failed` appears, and `CollectionsNeverFail`, hold only for a secret key that yields a working cipher.
- SanitizerProperties.HashedField: does not state that the digest differs from the original value. The cipher is a parameter and nothing is assumed about its output.

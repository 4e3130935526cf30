/**
  Sanitization profiles and the collaborators the sanitizer calls but does not own.

  A profile maps an entity name to an entity profile; an entity profile maps a
  field name to an action. The profile is parsed from a YAML file once, when the
  sanitizer is constructed; a missing file leaves no profile at all.
 */
module Profiles {
  import opened Values

  /** What a profile says to do with one field. `Nested` carries the profile to
      apply to the field's own record (or to each record of a collection).
      `Directive` is any other YAML scalar: the word "hash" asks for a digest and
      every other word (conventionally "suppress") asks for the value to go. */
  datatype Action =
    | Nested(profile: map<string, Action>)
    | Directive(word: string)

  type EntityProfile = map<string, Action>

  type Profile = map<string, EntityProfile>

  /** The one directive that is not a suppression. */
  const HashDirective: string := "hash"

  /** The sanitizer as constructed, together with the functions it relies on.
      Each is a total function, so every call on equal arguments gives equal
      results; nothing else is assumed about them.
      - profile: the parsed profile file, `None` when the file does not exist
      - underscore: ActiveSupport's `String#underscore`, the entity-name normaliser
      - toS: Ruby's `to_s` on a field value
      - digest: the keyed cipher and Base64 encoding behind `hash_value` */
  datatype Env = Env(
    profile: Option<Profile>,
    underscore: string -> string,
    toS: Value -> string,
    digest: string -> string)

  /** The entity profile that governs a record: the explicit one a recursive call
      passes down if there is one, else the top-level entry for the (already
      normalised) entity name. */
  function Governing(env: Env, name: string, explicit: Option<EntityProfile>): Option<EntityProfile> {
    if explicit.Some? then explicit
    else if env.profile.Some? && name in env.profile.value then Some(env.profile.value[name])
    else None
  }
}

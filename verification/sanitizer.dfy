/**
  The sanitization engine: `sanitize`, `sanitize_array`, `sanitize_hash` and
  `hash_value` of the DataSanitizer service.

  Every invocation of `sanitize`, the recursive ones included, runs under its
  own rescue: an error raised while sanitizing a record is absorbed by the
  innermost `sanitize` and the slot that call was filling receives the
  `Failed` marker. `SanitizeHash` reports the error as `Raised`; `Sanitize`
  is where it is caught.
 */
module Sanitizer {
  import opened Values
  import opened Profiles

  /** How the body of `sanitize_hash` ends: with a value, or with an exception. */
  datatype Outcome = Done(value: Value) | Raised

  /** `sanitize_hash` raises exactly when a non-empty profile meets a value it
      cannot index by field name: the first attribute looked up fails. */
  predicate RaisesOn(env: Env, entity: string, v: Value, explicit: Option<EntityProfile>) {
    var g := Governing(env, env.underscore(entity), explicit);
    IsScalar(v) && g.Some? && |g.value| > 0
  }

  /** The field is one the profile acts on: named there and not blank. */
  predicate Acts(p: EntityProfile, attribute: string, current: Value) {
    attribute in p && !Blank(current)
  }

  /** `hash_value`: the digest of the value's string form, as a string. */
  function HashValue(env: Env, v: Value): Value {
    Str(env.digest(env.toS(v)))
  }

  /** `sanitize(entity, args, input_profile)`. */
  function Sanitize(env: Env, entity: string, v: Value, explicit: Option<EntityProfile>): (r: Value)
    ensures env.profile.None? ==> r == v
    ensures env.profile.Some? && v.List? ==> r.List? && |r.items| == |v.items|
    ensures env.profile.Some? && v.Map? ==> r.Map? && r.fields.Keys == v.fields.Keys
    ensures env.profile.Some? && !v.Failed? ==> (r.Failed? <==> RaisesOn(env, entity, v, explicit))
    decreases v, 3
  {
    if env.profile.None? then v
    else match v
      case List(items) => List(SanitizeArray(env, entity, items, explicit))
      case _ =>
        match SanitizeHash(env, entity, v, explicit)
        case Done(w) => w
        case Raised => Failed
  }

  /** `sanitize_array`: every element goes through its own `sanitize` call. */
  function SanitizeArray(env: Env, entity: string, items: seq<Value>, explicit: Option<EntityProfile>): (r: seq<Value>)
    requires env.profile.Some?
    ensures |r| == |items|
    ensures forall i :: 0 <= i < |items| && !items[i].Failed? ==>
      (r[i].Failed? <==> RaisesOn(env, entity, items[i], explicit))
    decreases List(items), 2
  {
    seq(|items|, i requires 0 <= i < |items| => Sanitize(env, entity, items[i], explicit))
  }

  /** `sanitize_hash`: normalise the entity name, pick the governing profile,
      and rewrite each field the profile names. */
  function SanitizeHash(env: Env, entity: string, v: Value, explicit: Option<EntityProfile>): (o: Outcome)
    ensures !v.List? ==> (o.Raised? <==> RaisesOn(env, entity, v, explicit))
    ensures Governing(env, env.underscore(entity), explicit).None? ==> o == Done(v)
    ensures v.Map? ==> o.Done? && o.value.Map? && o.value.fields.Keys == v.fields.Keys
    decreases v, 2
  {
    var name := env.underscore(entity);
    match Governing(env, name, explicit)
    case None => Done(v)
    case Some(p) =>
      match v
      case Map(fields) => Done(Map(map k | k in fields :: Step(env, name, p, fields, k)))
      case _ => if |p| == 0 then Done(v) else Raised
  }

  /** What becomes of one field of the copied record: a blank field or one the
      profile does not name keeps its value; any other is recursed into with
      the nested profile, hashed, or suppressed (every directive other than
      "hash" suppresses). */
  function Step(env: Env, name: string, p: EntityProfile, fields: map<string, Value>, attribute: string): Value
    requires attribute in fields
    decreases Map(fields), 1
  {
    var current := fields[attribute];
    if !Acts(p, attribute, current) then current
    else match p[attribute]
      case Nested(nested) => Sanitize(env, name, current, Some(nested))
      case Directive(word) => if word == HashDirective then HashValue(env, current) else Null
  }
}

/**
  The loop at the heart of `sanitize_hash`, written the way the service runs
  it: copy the record, then visit the profile's entries one at a time, in
  whatever order the profile hash yields them, each visit reading the copy and
  writing one field back. `Sanitizer.SanitizeHash` states the same thing as a
  map comprehension; `WalkProfile` shows that the order of the visits does not
  matter, because every visit writes only the field it is named after.
 */
module ProfileWalk {
  import opened Values
  import opened Profiles
  import opened Sanitizer
  import SanitizerProperties

  method WalkProfile(env: Env, entity: string, fields: map<string, Value>, explicit: Option<EntityProfile>, p: EntityProfile)
    returns (copy: map<string, Value>)
    requires env.profile.Some?
    requires Governing(env, env.underscore(entity), explicit) == Some(p)
    ensures copy.Keys == fields.Keys
    ensures forall k :: k in fields && !Acts(p, k, fields[k]) ==> copy[k] == fields[k]
    ensures Sanitize(env, entity, Map(fields), explicit) == Map(copy)
  {
    var name := env.underscore(entity);
    copy := fields;
    var pending := p.Keys;
    while pending != {}
      invariant pending <= p.Keys
      invariant copy.Keys == fields.Keys
      invariant forall k :: k in fields ==>
        copy[k] == if k in p && k !in pending then Step(env, name, p, fields, k) else fields[k]
      decreases pending
    {
      var attribute :| attribute in pending;
      // Not yet visited, so the copy still holds the original value.
      assert attribute in fields ==> copy[attribute] == fields[attribute];
      // An absent field reads as nil, which is blank.
      if attribute in copy && !Blank(copy[attribute]) {
        var current := copy[attribute];
        var next: Value;
        match p[attribute] {
          case Nested(nested) =>
            next := Sanitize(env, name, current, Some(nested));
          case Directive(word) =>
            next := if word == HashDirective then HashValue(env, current) else Null;
        }
        assert next == Step(env, name, p, fields, attribute);
        copy := copy[attribute := next];
      }
      pending := pending - {attribute};
    }
    SanitizerProperties.GovernedRecordFields(env, entity, fields, explicit);
  }
}

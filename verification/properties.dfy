/**
  What `sanitize` promises its callers, stated over all inputs.
 */
module SanitizerProperties {
  import opened Values
  import opened Profiles
  import opened Sanitizer

  /** With no profile file, `sanitize` hands back its argument. */
  lemma UnconfiguredIsIdentity(env: Env, entity: string, v: Value, explicit: Option<EntityProfile>)
    requires env.profile.None?
    ensures Sanitize(env, entity, v, explicit) == v
  {
  }

  /** A collection is sanitized element by element, in order, each element
      with the same entity name and the same explicit profile. */
  lemma ArrayElementwise(env: Env, entity: string, items: seq<Value>, explicit: Option<EntityProfile>)
    ensures var r := Sanitize(env, entity, List(items), explicit);
      && r.List? && |r.items| == |items|
      && forall i :: 0 <= i < |items| ==> r.items[i] == Sanitize(env, entity, items[i], explicit)
  {
  }

  /** Helper: unfolds `sanitize_hash` on a governed record, field by field. */
  lemma GovernedRecordFields(env: Env, entity: string, fields: map<string, Value>, explicit: Option<EntityProfile>)
    requires env.profile.Some?
    requires Governing(env, env.underscore(entity), explicit).Some?
    ensures var name := env.underscore(entity);
      var p := Governing(env, name, explicit).value;
      var r := Sanitize(env, entity, Map(fields), explicit);
      && r.Map? && r.fields.Keys == fields.Keys
      && forall k :: k in fields ==> r.fields[k] == Step(env, name, p, fields, k)
  {
  }

  /** A record with no governing profile, neither passed down nor found under
      its normalised entity name, comes back unchanged. */
  lemma UngovernedRecordUnchanged(env: Env, entity: string, fields: map<string, Value>, explicit: Option<EntityProfile>)
    requires Governing(env, env.underscore(entity), explicit).None?
    ensures Sanitize(env, entity, Map(fields), explicit) == Map(fields)
  {
  }

  /** The sanitized record has exactly the input's fields, and every field the
      governing profile does not name keeps its value. */
  lemma UnprofiledFieldsKept(env: Env, entity: string, fields: map<string, Value>, explicit: Option<EntityProfile>)
    ensures var r := Sanitize(env, entity, Map(fields), explicit);
      && r.Map? && r.fields.Keys == fields.Keys
      && var g := Governing(env, env.underscore(entity), explicit);
         forall k :: k in fields && (g.None? || k !in g.value) ==> r.fields[k] == fields[k]
  {
    if env.profile.Some? && Governing(env, env.underscore(entity), explicit).Some? {
      GovernedRecordFields(env, entity, fields, explicit);
    }
  }

  /** A blank field is left as it is, whatever its action. */
  lemma BlankFieldsKept(env: Env, entity: string, fields: map<string, Value>, explicit: Option<EntityProfile>)
    ensures var r := Sanitize(env, entity, Map(fields), explicit);
      forall k :: k in fields && Blank(fields[k]) ==> k in r.fields && r.fields[k] == fields[k]
  {
    if env.profile.Some? && Governing(env, env.underscore(entity), explicit).Some? {
      GovernedRecordFields(env, entity, fields, explicit);
    }
  }

  /** A non-blank field whose action is "hash" becomes the digest of its
      string form. */
  lemma HashedField(env: Env, entity: string, fields: map<string, Value>, explicit: Option<EntityProfile>, k: string)
    requires env.profile.Some?
    requires k in fields && !Blank(fields[k])
    requires var g := Governing(env, env.underscore(entity), explicit);
      g.Some? && k in g.value && g.value[k] == Directive(HashDirective)
    ensures var r := Sanitize(env, entity, Map(fields), explicit);
      r.Map? && k in r.fields && r.fields[k] == Str(env.digest(env.toS(fields[k])))
  {
    GovernedRecordFields(env, entity, fields, explicit);
  }

  /** Two records whose hashed field holds the same value show the same digest
      there, whatever else they hold and whichever entity names they carry. */
  lemma HashCorrelates(env: Env, e1: string, e2: string, f1: map<string, Value>, f2: map<string, Value>,
                       explicit: Option<EntityProfile>, k: string)
    requires env.profile.Some?
    requires k in f1 && k in f2 && f1[k] == f2[k] && !Blank(f1[k])
    requires var g := Governing(env, env.underscore(e1), explicit);
      g.Some? && k in g.value && g.value[k] == Directive(HashDirective)
    requires var g := Governing(env, env.underscore(e2), explicit);
      g.Some? && k in g.value && g.value[k] == Directive(HashDirective)
    ensures Sanitize(env, e1, Map(f1), explicit).fields[k] == Sanitize(env, e2, Map(f2), explicit).fields[k]
  {
    HashedField(env, e1, f1, explicit, k);
    HashedField(env, e2, f2, explicit, k);
  }

  /** A non-blank field whose action is any directive other than "hash" is
      suppressed to nil; an unrecognised word is not an error. */
  lemma SuppressedField(env: Env, entity: string, fields: map<string, Value>, explicit: Option<EntityProfile>, k: string)
    requires env.profile.Some?
    requires k in fields && !Blank(fields[k])
    requires var g := Governing(env, env.underscore(entity), explicit);
      g.Some? && k in g.value && g.value[k].Directive? && g.value[k].word != HashDirective
    ensures var r := Sanitize(env, entity, Map(fields), explicit);
      r.Map? && k in r.fields && r.fields[k] == Null
  {
    GovernedRecordFields(env, entity, fields, explicit);
  }

  /** A non-blank field with a nested profile is sanitized by a call of its own,
      with the normalised entity name and the nested profile passed down. */
  lemma NestedField(env: Env, entity: string, fields: map<string, Value>, explicit: Option<EntityProfile>, k: string)
    requires env.profile.Some?
    requires k in fields && !Blank(fields[k])
    requires var g := Governing(env, env.underscore(entity), explicit);
      g.Some? && k in g.value && g.value[k].Nested?
    ensures var r := Sanitize(env, entity, Map(fields), explicit);
      var nested := Governing(env, env.underscore(entity), explicit).value[k].profile;
      r.Map? && k in r.fields &&
      r.fields[k] == Sanitize(env, env.underscore(entity), fields[k], Some(nested))
  {
    GovernedRecordFields(env, entity, fields, explicit);
  }

  /** A failure inside a nested field stays in that field: the field holds the
      `Failed` marker, the record itself does not fail, and every other field is
      exactly what it would have been had the failing field not been there. */
  lemma NestedFailureContained(env: Env, entity: string, fields: map<string, Value>, explicit: Option<EntityProfile>, k: string)
    requires env.profile.Some?
    requires k in fields && !Blank(fields[k]) && IsScalar(fields[k])
    requires var g := Governing(env, env.underscore(entity), explicit);
      g.Some? && k in g.value && g.value[k].Nested? && |g.value[k].profile| > 0
    ensures var r := Sanitize(env, entity, Map(fields), explicit);
      && r.Map? && r.fields.Keys == fields.Keys
      && r.fields[k] == Failed
      && var rest := Sanitize(env, entity, Map(fields - {k}), explicit);
         forall j :: j in fields && j != k ==> r.fields[j] == rest.fields[j]
  {
    var name := env.underscore(entity);
    var nested := Governing(env, name, explicit).value[k].profile;
    GovernedRecordFields(env, entity, fields, explicit);
    GovernedRecordFields(env, entity, fields - {k}, explicit);
    assert SanitizeHash(env, name, fields[k], Some(nested)) == Raised;
    assert Sanitize(env, name, fields[k], Some(nested)) == Failed;
    assert Step(env, name, Governing(env, name, explicit).value, fields, k) == Failed;
  }

  /** Records and collections never come back as `Failed`: a failure below them
      is absorbed where it happened. */
  lemma CollectionsNeverFail(env: Env, entity: string, v: Value, explicit: Option<EntityProfile>)
    requires v.Map? || v.List?
    ensures Sanitize(env, entity, v, explicit) != Failed
  {
  }

  /** Once a profile is passed down explicitly, the entity name plays no part:
      the top-level profile is never consulted again. */
  lemma {:induction false} ExplicitProfileIgnoresEntity(env: Env, e1: string, e2: string, v: Value, nested: EntityProfile)
    ensures Sanitize(env, e1, v, Some(nested)) == Sanitize(env, e2, v, Some(nested))
    decreases v
  {
    if env.profile.Some? {
      match v
      case List(items) =>
        forall i | 0 <= i < |items|
          ensures Sanitize(env, e1, items[i], Some(nested)) == Sanitize(env, e2, items[i], Some(nested))
        {
          ExplicitProfileIgnoresEntity(env, e1, e2, items[i], nested);
        }
      case Map(fields) =>
        var n1, n2 := env.underscore(e1), env.underscore(e2);
        var r1, r2 := Sanitize(env, e1, v, Some(nested)), Sanitize(env, e2, v, Some(nested));
        GovernedRecordFields(env, e1, fields, Some(nested));
        GovernedRecordFields(env, e2, fields, Some(nested));
        forall k | k in fields
          ensures r1.fields[k] == r2.fields[k]
        {
          if Acts(nested, k, fields[k]) && nested[k].Nested? {
            ExplicitProfileIgnoresEntity(env, n1, n2, fields[k], nested[k].profile);
          }
        }
      case _ =>
    }
  }

  /** Looking the entity up in the top-level profile gives the same result as
      passing that entry down explicitly. */
  lemma {:induction false} TopLevelEntryActsAsExplicit(env: Env, entity: string, v: Value)
    requires env.profile.Some? && env.underscore(entity) in env.profile.value
    ensures var entry := env.profile.value[env.underscore(entity)];
      Sanitize(env, entity, v, None) == Sanitize(env, entity, v, Some(entry))
    decreases v
  {
    var entry := env.profile.value[env.underscore(entity)];
    match v
    case List(items) =>
      forall i | 0 <= i < |items|
        ensures Sanitize(env, entity, items[i], None) == Sanitize(env, entity, items[i], Some(entry))
      {
        TopLevelEntryActsAsExplicit(env, entity, items[i]);
      }
    case Map(fields) =>
      GovernedRecordFields(env, entity, fields, None);
      GovernedRecordFields(env, entity, fields, Some(entry));
    case _ =>
  }

  /** Once a profile is passed down explicitly, the top-level profile is never
      consulted again: any other loaded profile gives the same result. */
  lemma {:induction false} ExplicitProfileIgnoresStore(env: Env, other: Profile, entity: string, v: Value, nested: EntityProfile)
    requires env.profile.Some?
    ensures Sanitize(env, entity, v, Some(nested)) == Sanitize(env.(profile := Some(other)), entity, v, Some(nested))
    decreases v
  {
    var env' := env.(profile := Some(other));
    match v
    case List(items) =>
      forall i | 0 <= i < |items|
        ensures Sanitize(env, entity, items[i], Some(nested)) == Sanitize(env', entity, items[i], Some(nested))
      {
        ExplicitProfileIgnoresStore(env, other, entity, items[i], nested);
      }
    case Map(fields) =>
      var name := env.underscore(entity);
      var r, r' := Sanitize(env, entity, v, Some(nested)), Sanitize(env', entity, v, Some(nested));
      GovernedRecordFields(env, entity, fields, Some(nested));
      GovernedRecordFields(env', entity, fields, Some(nested));
      forall k | k in fields
        ensures r.fields[k] == r'.fields[k]
      {
        if Acts(nested, k, fields[k]) && nested[k].Nested? {
          ExplicitProfileIgnoresStore(env, other, name, fields[k], nested[k].profile);
        }
      }
    case _ =>
  }

  /** Entity names that normalise alike select the same profile entry and
      give the same result: "SomeEntity" and "some_entity" are one entity. */
  lemma {:induction false} NormalisedNamesAgree(env: Env, e1: string, e2: string, v: Value)
    requires env.underscore(e1) == env.underscore(e2)
    ensures Sanitize(env, e1, v, None) == Sanitize(env, e2, v, None)
    decreases v
  {
    if env.profile.Some? {
      match v
      case List(items) =>
        forall i | 0 <= i < |items|
          ensures Sanitize(env, e1, items[i], None) == Sanitize(env, e2, items[i], None)
        {
          NormalisedNamesAgree(env, e1, e2, items[i]);
        }
      case _ =>
    }
  }

  /** An empty profile changes nothing, however deeply records and collections
      are nested. */
  lemma {:induction false} EmptyProfileChangesNothing(env: Env, entity: string, v: Value)
    ensures Sanitize(env, entity, v, Some(map[])) == v
    decreases v
  {
    if env.profile.Some? {
      match v
      case List(items) =>
        forall i | 0 <= i < |items|
          ensures Sanitize(env, entity, items[i], Some(map[])) == items[i]
        {
          EmptyProfileChangesNothing(env, entity, items[i]);
        }
        assert Sanitize(env, entity, v, Some(map[])).items == items;
      case Map(fields) =>
        GovernedRecordFields(env, entity, fields, Some(map[]));
      case _ =>
    }
  }

  /** An entity profile that only ever suppresses, at every level of nesting. */
  predicate SuppressOnly(p: EntityProfile)
    decreases Nested(p)
  {
    forall k :: k in p ==> match p[k]
      case Directive(word) => word != HashDirective
      case Nested(q) => SuppressOnly(q)
  }

  /** Every profile `sanitize` may consult is suppression-only. */
  predicate SuppressOnlyEverywhere(env: Env, explicit: Option<EntityProfile>) {
    && (explicit.Some? ==> SuppressOnly(explicit.value))
    && (env.profile.Some? ==> forall name :: name in env.profile.value ==> SuppressOnly(env.profile.value[name]))
  }

  /** Sanitizing output again with a profile that only suppresses changes
      nothing: suppressed fields are nil, hence blank, hence skipped, and failed
      fields fail again. (A "hash" action is not idempotent: it digests the
      digest.) */
  lemma {:induction false} SuppressionIdempotent(env: Env, entity: string, v: Value, explicit: Option<EntityProfile>)
    requires SuppressOnlyEverywhere(env, explicit)
    ensures var once := Sanitize(env, entity, v, explicit);
      Sanitize(env, entity, once, explicit) == once
    decreases v
  {
    var once := Sanitize(env, entity, v, explicit);
    if env.profile.Some? {
      match v
      case List(items) =>
        ArrayElementwise(env, entity, items, explicit);
        forall i | 0 <= i < |items|
          ensures Sanitize(env, entity, once.items[i], explicit) == once.items[i]
        {
          SuppressionIdempotent(env, entity, items[i], explicit);
        }
        assert Sanitize(env, entity, once, explicit).items == once.items;
      case Map(fields) =>
        var name := env.underscore(entity);
        var g := Governing(env, name, explicit);
        if g.Some? {
          var p := g.value;
          var twice := Sanitize(env, entity, once, explicit);
          GovernedRecordFields(env, entity, fields, explicit);
          GovernedRecordFields(env, entity, once.fields, explicit);
          forall k | k in fields
            ensures twice.fields[k] == once.fields[k]
          {
            if Acts(p, k, fields[k]) && p[k].Nested? {
              assert SuppressOnly(p[k].profile);
              SuppressionIdempotent(env, name, fields[k], Some(p[k].profile));
            }
          }
          assert twice.fields == once.fields;
        }
      case _ =>
    }
  }
}

/**
  Worked scenarios of the sanitizer on small records, with a concrete
  environment: names are taken as already normalised and the digest tags the
  string form it is given.
 */
module Scenarios {
  import opened Values
  import opened Profiles
  import opened Sanitizer
  import SanitizerProperties

  function Tagged(s: string): string {
    "digest:" + s
  }

  function Shown(v: Value): string {
    match v
    case Str(s) => s
    case _ => "?"
  }

  function EnvWith(profile: Profile): Env {
    Env(Some(profile), s => s, Shown, Tagged)
  }

  /** `{contact: {f: suppress}}` turns `{f: "secret", g: "keep"}` into
      `{f: nil, g: "keep"}`. */
  lemma SuppressionScenario()
    ensures var env := EnvWith(map["contact" := map["f" := Directive("suppress")]]);
      Sanitize(env, "contact", Map(map["f" := Str("secret"), "g" := Str("keep")]), None)
        == Map(map["f" := Null, "g" := Str("keep")])
  {
    var env := EnvWith(map["contact" := map["f" := Directive("suppress")]]);
    var fields := map["f" := Str("secret"), "g" := Str("keep")];
    var r := Sanitize(env, "contact", Map(fields), None);
    assert !Blank(Str("secret")) by { assert !IsSpace("secret"[0]); }
    SanitizerProperties.SuppressedField(env, "contact", fields, None, "f");
    SanitizerProperties.UnprofiledFieldsKept(env, "contact", fields, None);
    assert r.fields == map["f" := Null, "g" := Str("keep")];
  }

  function NestedEnv(): Env {
    EnvWith(map["contact" := map["child" := Nested(map["f" := Directive("hash")])]])
  }

  /** The nested profile `{f: hash}`, passed down explicitly, hashes `f` and
      keeps `g`. */
  lemma NestedChildScenario()
    ensures Sanitize(NestedEnv(), "contact", Map(map["f" := Str("x"), "g" := Str("y")]), Some(map["f" := Directive("hash")]))
      == Map(map["f" := Str("digest:x"), "g" := Str("y")])
  {
    var nested := map["f" := Directive("hash")];
    var inner := map["f" := Str("x"), "g" := Str("y")];
    assert !Blank(Str("x")) by { assert !IsSpace("x"[0]); }
    SanitizerProperties.HashedField(NestedEnv(), "contact", inner, Some(nested), "f");
    SanitizerProperties.UnprofiledFieldsKept(NestedEnv(), "contact", inner, Some(nested));
    var ri := Sanitize(NestedEnv(), "contact", Map(inner), Some(nested));
    assert Tagged(Shown(Str("x"))) == "digest:x";
    assert ri.fields["f"] == Str("digest:x") && ri.fields["g"] == Str("y");
    assert ri.fields.Keys == {"f", "g"};
    assert ri.fields == map["f" := Str("digest:x"), "g" := Str("y")];
  }

  /** `{contact: {child: {f: hash}}}` hashes `child.f` and keeps `child.g`. */
  lemma NestedScenario()
    ensures Sanitize(NestedEnv(), "contact", Map(map["child" := Map(map["f" := Str("x"), "g" := Str("y")])]), None)
      == Map(map["child" := Map(map["f" := Str("digest:x"), "g" := Str("y")])])
  {
    var outer := map["child" := Map(map["f" := Str("x"), "g" := Str("y")])];
    NestedChildScenario();
    SanitizerProperties.NestedField(NestedEnv(), "contact", outer, None, "child");
    var r := Sanitize(NestedEnv(), "contact", Map(outer), None);
    assert r.fields == map["child" := Map(map["f" := Str("digest:x"), "g" := Str("y")])];
  }

  /** A nested profile meeting a number fails inside that field only; the
      record around it is still returned, with its other fields intact. */
  lemma FailureScenario()
    ensures var env := EnvWith(map["contact" := map["child" := Nested(map["f" := Directive("hash")])]]);
      Sanitize(env, "contact", Map(map["child" := Num(5), "g" := Str("y")]), None)
        == Map(map["child" := Failed, "g" := Str("y")])
  {
  }
}

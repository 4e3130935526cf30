/**
  JSON-like data handed to the sanitizer, and Ruby's notion of a "blank" value.

  A record is a `Map` from field name to value; a collection of records is a
  `List`. `Failed` is not something a caller ever passes in: it is the marker a
  `sanitize` call leaves behind when its body raised and the rescue absorbed
  the error; it stands for the value the warning call returns.
 */
module Values {

  datatype Option<+T> = None | Some(value: T)

  datatype Value =
    | Null
    | Bool(b: bool)
    | Num(n: int)
    | Str(s: string)
    | Map(fields: map<string, Value>)
    | List(items: seq<Value>)
    | Failed

  /** Records and collections are walked; everything else is a scalar leaf. */
  predicate IsScalar(v: Value) {
    !v.Map? && !v.List?
  }

  /** The characters of the Unicode White_Space property, which is what the
      POSIX class `[[:space:]]` matches in a Unicode string. */
  predicate IsSpace(c: char) {
    || c == ' ' || c == '\t' || c == '\n' || c == '\U{000B}' || c == '\U{000C}' || c == '\r'
    || c == '\U{0085}' || c == '\U{00A0}' || c == '\U{1680}'
    || ('\U{2000}' <= c <= '\U{200A}')
    || c == '\U{2028}' || c == '\U{2029}' || c == '\U{202F}' || c == '\U{205F}' || c == '\U{3000}'
  }

  /** A string is blank when it holds nothing but whitespace. */
  predicate BlankString(s: string) {
    forall i :: 0 <= i < |s| ==> IsSpace(s[i])
  }

  /** Ruby's `blank?` as ActiveSupport defines it: nil, false, a whitespace-only
      string, an empty hash and an empty array. Numbers and `true` are never blank. */
  predicate Blank(v: Value) {
    match v
    case Null => true
    case Bool(b) => !b
    case Num(_) => false
    case Str(s) => BlankString(s)
    case Map(fields) => |fields| == 0
    case List(items) => |items| == 0
    case Failed => false
  }
}

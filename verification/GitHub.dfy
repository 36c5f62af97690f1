/**
 What the release and rule scripts share (scripts/release_safety.py): JSON values as Python reads them,
 and the form of repository names.
 */
module GitHub {
  import opened Wrappers

  datatype Json =
    | Null
    | Bool(b: bool)
    | Int(n: int)
    | Float(x: real)
    | Str(s: string)
    | List(items: seq<Json>)
    | Object(fields: map<string, Json>)

  /** `dict.get`: a missing key reads as null. */
  function Get(j: Json, key: string): Json {
    if j.Object? && key in j.fields then j.fields[key] else Null
  }

  /** The object has this field with this value. */
  ghost predicate Holds(j: Json, key: string, v: Json) { j.Object? && key in j.fields && j.fields[key] == v }

  lemma GetExact(j: Json, key: string, v: Json)
    ensures v != Null ==> (Get(j, key) == v <==> Holds(j, key, v))
    ensures Get(j, key) == Null <==> !j.Object? || key !in j.fields || j.fields[key] == Null
  {
  }

  function Number(j: Json): Option<real> {
    match j
    case Bool(b) => Some(if b then 1.0 else 0.0)
    case Int(n) => Some(n as real)
    case Float(x) => Some(x)
    case _ => None
  }

  /** Python's `==` against a scalar, for which true, 1 and 1.0 are equal. */
  predicate Same(a: Json, b: Json) {
    if Number(a).Some? then Number(a) == Number(b) else a == b
  }

  predicate PositiveInt(j: Json) { j.Int? && j.n > 0 }

  predicate Truthy(j: Json) {
    match j
    case Null => false
    case Bool(b) => b
    case Int(n) => n != 0
    case Float(x) => x != 0.0
    case Str(s) => s != ""
    case List(items) => items != []
    case Object(fields) => fields != map[]
  }

  predicate RepositoryChar(c: char) {
    'A' <= c <= 'Z' || 'a' <= c <= 'z' || '0' <= c <= '9' || c == '_' || c == '.' || c == '-'
  }

  /** OWNER/REPO: one slash with allowed characters on both sides of it. */
  predicate RepositoryName(repo: string) {
    exists k :: 0 < k < |repo| - 1 && repo[k] == '/'
                && forall i :: 0 <= i < |repo| && i != k ==> RepositoryChar(repo[i])
  }

  ghost predicate AllowedPart(part: string) {
    && part != ""
    && forall c :: c in part ==>
         'A' <= c <= 'Z' || 'a' <= c <= 'z' || '0' <= c <= '9' || c == '_' || c == '.' || c == '-'
  }

  /** A repository name is an owner, a slash and a name, both nonempty and of letters, digits, `_`, `.` and `-`. */
  lemma RepositoryNameExact(repo: string)
    ensures RepositoryName(repo) <==>
            exists owner, name :: AllowedPart(owner) && AllowedPart(name) && repo == owner + "/" + name
  {
    if RepositoryName(repo) {
      var k :| 0 < k < |repo| - 1 && repo[k] == '/'
               && forall i :: 0 <= i < |repo| && i != k ==> RepositoryChar(repo[i]);
      var owner, name := repo[..k], repo[k + 1..];
      assert repo == owner + "/" + name;
      assert forall i :: 0 <= i < |name| ==> name[i] == repo[k + 1 + i];
      assert AllowedPart(owner) && AllowedPart(name);
    }
    if owner, name :| AllowedPart(owner) && AllowedPart(name) && repo == owner + "/" + name {
      var k := |owner|;
      forall i | 0 <= i < |repo| && i != k ensures RepositoryChar(repo[i]) {
        if i < k { assert owner[i] in owner; } else { assert name[i - k - 1] in name; }
      }
      assert repo[k] == '/';
    }
  }
}

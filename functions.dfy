/** The template functions of pkg/template/functions.go: `unique`, which
    drops repeated elements of a slice keeping the first occurrence of
    each, and `envOrDefault`, an environment lookup with a fallback.

    Go's `any` is the tagged type `Value`; `reflect.TypeOf(v).Comparable()`
    is the predicate `Comparable`. The process environment is a map. */
module Functions {
  import opened Wrappers
  import opened ByteStrings

  /** A dynamic value: nil, a scalar, a slice, a map, or a struct of some
      named type. */
  datatype Value =
    | Nil
    | Boolean(b: bool)
    | Integer(i: int)
    | Text(s: Bytes)
    | List(items: seq<Value>)
    | Dict(entries: map<Bytes, Value>)
    | Record(typeName: Bytes, fields: seq<Value>)

  /** Whether Go can compare values of this dynamic type with `==` (and so
      use them as map keys): slices and maps cannot, a struct can when all
      its fields can. */
  predicate Comparable(v: Value)
  {
    match v
    case List(_) => false
    case Dict(_) => false
    case Record(_, fields) => forall i | 0 <= i < |fields| :: Comparable(fields[i])
    case _ => true
  }

  /** The error `unique` returns for an element it cannot compare. */
  datatype UniqueError = NotComparable(elem: Value)

  /** The elements of `s` in order of first occurrence. */
  function Dedup(s: seq<Value>): (d: seq<Value>)
    ensures |d| <= |s|
  {
    if s == [] then []
    else
      var d := Dedup(s[..|s| - 1]);
      if s[|s| - 1] in d then d else d + [s[|s| - 1]]
  }

  /** The first element `unique` would reject, if any. */
  function FirstIncomparable(s: seq<Value>): (r: Option<Value>)
    ensures r.Some? ==> r.value in s && !Comparable(r.value)
    ensures r.None? ==> forall i | 0 <= i < |s| :: Comparable(s[i])
  {
    if s == [] then None
    else if s[0] != Nil && !Comparable(s[0]) then Some(s[0])
    else FirstIncomparable(s[1..])
  }

  /** What `unique` returns: nil for a nil slice (None), an error for an
      element it cannot compare, and otherwise the first occurrences. */
  function UniqueResult(input: Option<seq<Value>>): Result<Option<seq<Value>>, UniqueError>
  {
    if input.None? then Success(None)
    else match FirstIncomparable(input.value)
      case Some(v) => Failure(NotComparable(v))
      case None => Success(Some(Dedup(input.value)))
  }

  /** unique: one pass with a seen-set, appending each element the first
      time it is met. */
  method Unique(input: Option<seq<Value>>) returns (r: Result<Option<seq<Value>>, UniqueError>)
    ensures r == UniqueResult(input)
  {
    if input.None? {
      return Success(None);
    }
    var s := input.value;
    var seen: set<Value> := {};
    var result: seq<Value> := [];
    var i := 0;
    while i < |s|
      invariant 0 <= i <= |s|
      invariant result == Dedup(s[..i])
      invariant seen == set x | x in result
      invariant FirstIncomparable(s) == FirstIncomparable(s[i..])
    {
      var elem := s[i];
      if elem != Nil && !Comparable(elem) {
        return Failure(NotComparable(elem));
      }
      assert s[i..][1..] == s[i + 1..];
      assert s[..i + 1][..i] == s[..i];
      if elem !in seen {
        seen := seen + {elem};
        result := result + [elem];
      }
      i := i + 1;
    }
    assert s[..i] == s;
    r := Success(Some(result));
  }

  /** `os.Getenv`: the value of a variable, "" when it is unset. */
  function Getenv(env: map<Bytes, Bytes>, key: Bytes): Bytes
  {
    if key in env then env[key] else []
  }

  /** envOrDefault: the variable's value, or the default when the value
      is empty or the variable unset. */
  function EnvOrDefault(env: map<Bytes, Bytes>, key: Bytes, defaultValue: Bytes): (r: Bytes)
    ensures r == defaultValue <==> Getenv(env, key) == [] || Getenv(env, key) == defaultValue
    ensures r != defaultValue ==> key in env && r == env[key]
  {
    var value := Getenv(env, key);
    if value == [] then defaultValue else value
  }
}

/** The optional-value wrapper used for values PHP may hand back as `null`. */
module Optional {

  datatype Option<+T> = None | Some(value: T)
}

/**
  Values as the PHP side holds them: the result of `json_decode($body, true)`
  (JSON objects become associative arrays) and the values `get_option` returns.
 */
module PhpValue {

  datatype Value =
    | Null
    | Bool(b: bool)
    | Int(i: int)
    | Float(f: real)
    | Str(s: string)
    | List(items: seq<Value>)
    | Assoc(entries: map<string, Value>)

  /** PHP's conversion to boolean, as used by `if ($x)` and `! $x`. */
  predicate Truthy(v: Value) {
    match v
    case Null => false
    case Bool(b) => b
    case Int(i) => i != 0
    case Float(f) => f != 0.0
    case Str(s) => s != "" && s != "0"
    case List(items) => |items| > 0
    case Assoc(entries) => |entries| > 0
  }

  /**
    PHP's strict comparison `===`. Scalars are identical when they have the
    same type and the same value, which is equality of `Value`s.
   */
  predicate Identical(a: Value, b: Value) {
    a == b
  }

  /** `$array[$key]` on an associative array: a missing key reads as null. */
  function Read(m: map<string, Value>, key: string): Value {
    if key in m then m[key] else Null
  }

  /** `isset($array[$key])`: the key is present and its value is not null. */
  predicate IsSet(m: map<string, Value>, key: string) {
    key in m && m[key] != Null
  }

  /**
    The members of `(array) $v`: null becomes the empty array, an array stays
    itself and any other value becomes a one-element array.
   */
  function CastMembers(v: Value): set<Value> {
    match v
    case Null => {}
    case List(items) => set x | x in items
    case Assoc(entries) => entries.Values
    case _ => {v}
  }

  /**
    `in_array($needle, (array) $haystack, true)`: a linear scan of the cast
    array comparing each member to the needle with `===`.
   */
  method InArrayStrict(needle: Value, haystack: Value) returns (found: bool)
    ensures found <==> needle in CastMembers(haystack)
  {
    match haystack {
      case Null =>
        found := false;
      case List(items) =>
        found := false;
        var i := 0;
        while i < |items| && !found
          invariant 0 <= i <= |items|
          invariant found <==> needle in items[..i]
        {
          found := Identical(items[i], needle);
          assert items[..i + 1] == items[..i] + [items[i]];
          i := i + 1;
        }
        assert !found ==> items[..i] == items;
      case Assoc(entries) =>
        found := false;
        var unseen := entries.Keys;
        while unseen != {} && !found
          invariant unseen <= entries.Keys
          invariant found <==> exists k :: k in entries.Keys - unseen && entries[k] == needle
          decreases unseen
        {
          var k :| k in unseen;
          found := Identical(entries[k], needle);
          unseen := unseen - {k};
        }
      case _ =>
        found := Identical(haystack, needle);
    }
  }
}

/**
 Run-time shape checks on untrusted values. `Value` is what `JSON.parse`
 can produce, plus `Undefined` for a property that is absent.
 */
module TypeGuard {

  datatype Value =
    | Undefined
    | Null
    | Bool(b: bool)
    | Number(n: int)
    | Str(s: string)
    | Array(items: seq<Value>)
    | Object(fields: map<string, Value>)

  /** `typeof value === 'object' && value !== null`: true for arrays as well as objects. */
  predicate IsNonNullObject(v: Value) {
    v.Array? || v.Object?
  }

  /** Property access `value.key` for the keys the configuration reads. */
  function Property(v: Value, key: string): (r: Value)
    ensures r != Undefined ==> v.Object? && key in v.fields && r == v.fields[key]
    ensures v.Object? && key in v.fields ==> r == v.fields[key]
  {
    if v.Object? && key in v.fields then v.fields[key] else Undefined
  }

  /** `isString`. */
  predicate IsString(v: Value) {
    v.Str?
  }

  /** `value.every(elementTest)`: checks the elements left to right and stops at the first failure. */
  function Every(items: seq<Value>, elementTest: Value -> bool): (r: bool)
    ensures r <==> forall i :: 0 <= i < |items| ==> elementTest(items[i])
  {
    if |items| == 0 then true
    else if !elementTest(items[0]) then false
    else
      var r := Every(items[1..], elementTest);
      assert (forall i :: 0 <= i < |items| ==> elementTest(items[i]))
        <==> (forall i :: 0 <= i < |items[1..]| ==> elementTest(items[1..][i])) by {
        forall i | 0 <= i < |items[1..]|
          ensures items[1..][i] == items[i + 1]
        {
        }
        if forall i :: 0 <= i < |items[1..]| ==> elementTest(items[1..][i]) {
          forall i | 0 <= i < |items|
            ensures elementTest(items[i])
          {
            if i > 0 {
              assert items[i] == items[1..][i - 1];
            }
          }
        }
      }
      r
  }

  /**
   `isArrayOf`: true exactly for arrays whose every element passes the test;
   false for every non-array, true for the empty array whatever the test.
   */
  predicate IsArrayOf(v: Value, elementTest: Value -> bool)
  {
    v.Array? && Every(v.items, elementTest)
  }

  /** One failing element makes the whole array fail, wherever it sits. */
  lemma IsArrayOfCharacterized(v: Value, elementTest: Value -> bool)
    ensures !v.Array? ==> !IsArrayOf(v, elementTest)
    ensures v == Array([]) ==> IsArrayOf(v, elementTest)
    ensures IsArrayOf(v, elementTest) <==> v.Array? && forall i :: 0 <= i < |v.items| ==> elementTest(v.items[i])
    ensures v.Array? && (exists i :: 0 <= i < |v.items| && !elementTest(v.items[i])) ==> !IsArrayOf(v, elementTest)
  {
  }

  /** The cases of the repository's unit tests for `isString` and `isArrayOf`. */
  lemma Examples()
    ensures IsString(Str("")) && !IsString(Number(0)) && !IsString(Array([]))
    ensures IsArrayOf(Array([Str(""), Str("")]), IsString)
    ensures !IsArrayOf(Array([Str(""), Number(2)]), IsString)
    ensures !IsArrayOf(Number(2), IsString)
  {
    assert !IsString(Array([Str(""), Number(2)]).items[1]);
  }
}

/** PHP values as the services see them after `json_decode(..., true)`,
    `unserialize` or a session read: scalars and ordered arrays whose keys are
    integers or strings. */
module PhpValue {
  import opened Common
  import opened Numeric
  import opened OrderedMap

  datatype Key = IntKey(i: int) | StrKey(s: string)

  datatype Val =
    | Null
    | Bool(b: bool)
    | Int(i: int)
    | Str(s: string)
    | Arr(entries: seq<(Key, Val)>)

  type PhpArray = seq<(Key, Val)>

  /** PHP `empty()`: null, false, 0, "", "0" and the empty array. */
  predicate IsEmpty(v: Val) {
    match v
    case Null => true
    case Bool(b) => !b
    case Int(i) => i == 0
    case Str(s) => EmptyString(s)
    case Arr(es) => |es| == 0
  }

  /** PHP `intval()` on any value. */
  function ToInt(v: Val): int {
    match v
    case Null => 0
    case Bool(b) => if b then 1 else 0
    case Int(i) => i
    case Str(s) => IntVal(s)
    case Arr(es) => if |es| == 0 then 0 else 1
  }

  /** The integer a string key is stored under, if PHP converts it: "0", or
      an optional minus sign followed by digits without a leading zero, whose
      value lies in the 64-bit range. */
  function IntegerKey(s: string): Option<int> {
    var neg := |s| > 0 && s[0] == '-';
    var digits := if neg then s[1..] else s;
    if |digits| == 0 || !AllDigits(digits) then None
    else if digits[0] == '0' && (|digits| > 1 || neg) then None
    else
      var m: int := DigitsValue(digits);
      var v := if neg then -m else m;
      if PhpIntMin <= v <= PhpIntMax then Some(v) else None
  }

  /** The key `$a[$s]` addresses. */
  function KeyOf(s: string): Key {
    match IntegerKey(s)
    case Some(i) => IntKey(i)
    case None => StrKey(s)
  }

  /** `$a[$k] ?? null`: the stored value, or null when the key is missing. */
  function Lookup(a: PhpArray, k: string): Val {
    Get(a, KeyOf(k)).GetOr(Null)
  }

  /** One step of `array_merge`: integer keys are renumbered from `next`,
      string keys are assigned. Returns the array and the next free index. */
  function Append(acc: PhpArray, next: int, b: PhpArray): (PhpArray, int)
    decreases |b|
  {
    if |b| == 0 then (acc, next)
    else if b[0].0.IntKey? then Append(Put(acc, IntKey(next), b[0].1), next + 1, b[1..])
    else Append(Put(acc, b[0].0, b[0].1), next, b[1..])
  }

  /** PHP `array_merge($a, $b)`. */
  function ArrayMerge(a: PhpArray, b: PhpArray): PhpArray {
    var first := Append([], 0, a);
    Append(first.0, first.1, b).0
  }

  predicate AllStringKeys(a: PhpArray) {
    forall i :: 0 <= i < |a| ==> a[i].0.StrKey?
  }

  /** A string key of `b` is assigned its value from `b`; a string key that
      `b` lacks keeps the value it had. */
  lemma {:induction false} AppendStringKey(acc: PhpArray, next: int, b: PhpArray, s: string)
    requires DistinctKeys(b)
    ensures HasKey(b, StrKey(s)) ==> Get(Append(acc, next, b).0, StrKey(s)) == Get(b, StrKey(s))
    ensures !HasKey(b, StrKey(s)) ==> Get(Append(acc, next, b).0, StrKey(s)) == Get(acc, StrKey(s))
    decreases |b|
  {
    if |b| > 0 {
      HasKeyCons(b, StrKey(s));
      DistinctCons(b);
      var k := if b[0].0.IntKey? then IntKey(next) else b[0].0;
      var next' := if b[0].0.IntKey? then next + 1 else next;
      AppendStringKey(Put(acc, k, b[0].1), next', b[1..], s);
      if k != StrKey(s) {
        PutOther(acc, k, b[0].1, StrKey(s));
      } else {
        assert !HasKey(b[1..], StrKey(s));
      }
    }
  }

  /** `array_merge`: a string key of the second array wins. */
  lemma MergeStringKeyRight(a: PhpArray, b: PhpArray, s: string)
    requires DistinctKeys(b) && HasKey(b, StrKey(s))
    ensures Get(ArrayMerge(a, b), StrKey(s)) == Get(b, StrKey(s))
  {
    var first := Append([], 0, a);
    AppendStringKey(first.0, first.1, b, s);
  }

  /** `array_merge`: a string key only the first array has keeps its value. */
  lemma MergeStringKeyLeft(a: PhpArray, b: PhpArray, s: string)
    requires DistinctKeys(a) && DistinctKeys(b) && !HasKey(b, StrKey(s))
    ensures Get(ArrayMerge(a, b), StrKey(s)) == Get(a, StrKey(s))
  {
    var first := Append([], 0, a);
    AppendStringKey(first.0, first.1, b, s);
    AppendStringKey([], 0, a, s);
    var empty: PhpArray := [];
    assert !HasKey(empty, StrKey(s));
  }

  /** A string that does not start with a digit or a minus sign is used as a
      key verbatim. */
  lemma KeyOfPlain(s: string)
    requires |s| > 0 && !IsDigit(s[0]) && s[0] != '-'
    ensures KeyOf(s) == StrKey(s)
  {
  }
}

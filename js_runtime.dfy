/** The few JavaScript built-ins the wrapper relies on, stated exactly:
    truthiness and `||`, `String.prototype.indexOf`/`includes`,
    `Array.prototype.find`, and the conversion of an integral number to text. */
module JsRuntime {

  /** `undefined`/`null` versus a present value. */
  datatype Option<+T> = None | Some(value: T) {
    /** `x || fallback` for an optional array or string argument. */
    function GetOr(fallback: T): T {
      match this
      case Some(v) => v
      case None => fallback
    }
  }

  /** A JavaScript value as far as the modelled code inspects it
      (objects, functions and NaN never reach these code paths). */
  datatype Value = Undefined | Null | Bool(b: bool) | Num(n: int) | Str(s: string)

  /** JavaScript truthiness: `undefined`, `null`, `false`, `0` and `""` are falsy. */
  predicate Truthy(v: Value) {
    match v
    case Undefined => false
    case Null => false
    case Bool(b) => b
    case Num(n) => n != 0
    case Str(s) => s != ""
  }

  /** The expression `a || b`. */
  function Or(a: Value, b: Value): Value {
    if Truthy(a) then a else b
  }

  lemma OrFallsBack(a: Value, b: Value)
    ensures Truthy(Or(a, b)) <==> Truthy(a) || Truthy(b)
    ensures a == Undefined || a == Null || a == Str("") ==> Or(a, b) == b
    ensures Truthy(a) ==> Or(a, b) == a
  {
  }

  /** `sub` occurs in `s` starting at position `i`. */
  predicate OccursAt(s: string, sub: string, i: int) {
    0 <= i && i + |sub| <= |s| && s[i..i + |sub|] == sub
  }

  /** `sub` occurs somewhere in `s`. */
  ghost predicate Contains(s: string, sub: string) {
    exists i :: OccursAt(s, sub, i)
  }

  /** `s.indexOf(sub, from)`: the first occurrence at or after `from`, or -1. */
  function IndexFrom(s: string, sub: string, from: nat): (r: int)
    requires from <= |s|
    ensures r == -1 || (from <= r && OccursAt(s, sub, r))
    ensures forall j :: from <= j && (r == -1 || j < r) ==> !OccursAt(s, sub, j)
    decreases |s| - from
  {
    if from + |sub| > |s| then -1
    else if s[from..from + |sub|] == sub then from
    else if from == |s| then -1
    else IndexFrom(s, sub, from + 1)
  }

  /** `s.indexOf(sub)`. */
  function IndexOf(s: string, sub: string): (r: int)
    ensures r == -1 || OccursAt(s, sub, r)
    ensures forall j :: 0 <= j && (r == -1 || j < r) ==> !OccursAt(s, sub, j)
    ensures r >= 0 <==> Contains(s, sub)
  {
    IndexFrom(s, sub, 0)
  }

  /** `sub` is absent when one of its characters is missing from every
      place where an occurrence would put it. */
  lemma AbsentWhenCharMissing(s: string, sub: string, k: nat)
    requires k < |sub| <= |s|
    requires sub[k] !in s[k..|s| - |sub| + k + 1]
    ensures !Contains(s, sub)
  {
    forall j | 0 <= j && j + |sub| <= |s|
      ensures !OccursAt(s, sub, j)
    {
      assert s[j..j + |sub|][k] == s[j + k];
      assert s[k..|s| - |sub| + k + 1][j] == s[j + k];
    }
  }

  /** `s.includes(sub)`, which is the same test as `s.indexOf(sub) >= 0`. */
  function Includes(s: string, sub: string): (b: bool)
    ensures b <==> Contains(s, sub)
  {
    IndexOf(s, sub) >= 0
  }

  /** The index of the element `s.find(p)` returns, if any. */
  function FindIndexFrom<T>(s: seq<T>, p: T -> bool, from: nat): (r: Option<nat>)
    requires from <= |s|
    ensures r.None? ==> forall i :: from <= i < |s| ==> !p(s[i])
    ensures r.Some? ==> from <= r.value < |s| && p(s[r.value])
                        && forall j :: from <= j < r.value ==> !p(s[j])
    decreases |s| - from
  {
    if from == |s| then None
    else if p(s[from]) then Some(from)
    else FindIndexFrom(s, p, from + 1)
  }

  /** `s.find(p)`: the first element in list order that satisfies `p`, or undefined. */
  function Find<T>(s: seq<T>, p: T -> bool): (r: Option<T>)
    ensures r.None? <==> forall i :: 0 <= i < |s| ==> !p(s[i])
    ensures r.Some? ==> exists i :: 0 <= i < |s| && s[i] == r.value && p(s[i])
                                    && forall j :: 0 <= j < i ==> !p(s[j])
  {
    match FindIndexFrom(s, p, 0)
    case None => None
    case Some(i) => Some(s[i])
  }

  /** The character of a decimal digit. */
  function DigitChar(d: int): char
    requires 0 <= d < 10
  {
    (d + '0' as int) as char
  }

  predicate IsDigit(c: char) {
    '0' <= c <= '9'
  }

  /** Decimal text of a non-negative integer, as `String(n)` produces it. */
  function NatToString(n: nat): (r: string)
    ensures |r| >= 1
    ensures forall k :: 0 <= k < |r| ==> IsDigit(r[k])
    ensures r[0] == '0' ==> n == 0 && r == "0"
    decreases n
  {
    if n < 10 then [DigitChar(n)] else NatToString(n / 10) + [DigitChar(n % 10)]
  }

  /** `'' + n` for an integral number `n` below 10^21 in magnitude, as every
      exit code is; larger numbers print in exponent form in JavaScript. */
  function NumberToString(n: int): (r: string)
    ensures |r| >= 1
    ensures r[0] == '-' <==> n < 0
  {
    if n < 0 then "-" + NatToString(-n) else NatToString(n)
  }

  /** Reads back a string of decimal digits. */
  function ParseNat(s: string): int
    decreases |s|
  {
    if s == [] then 0 else 10 * ParseNat(s[..|s| - 1]) + (s[|s| - 1] as int - '0' as int)
  }

  function ParseInt(s: string): int {
    if |s| > 0 && s[0] == '-' then -ParseNat(s[1..]) else ParseNat(s)
  }

  lemma {:induction false} NatToStringRoundTrip(n: nat)
    ensures ParseNat(NatToString(n)) == n
    decreases n
  {
    if n >= 10 {
      NatToStringRoundTrip(n / 10);
      var r := NatToString(n);
      assert r[..|r| - 1] == NatToString(n / 10);
    }
  }

  /** Distinct numbers print differently: the text determines the number. */
  lemma NumberToStringRoundTrip(n: int)
    ensures ParseInt(NumberToString(n)) == n
  {
    if n < 0 {
      NatToStringRoundTrip(-n);
      assert NumberToString(n)[1..] == NatToString(-n);
    } else {
      NatToStringRoundTrip(n);
    }
  }

  lemma NumberToStringInjective(m: int, n: int)
    requires NumberToString(m) == NumberToString(n)
    ensures m == n
  {
    NumberToStringRoundTrip(m);
    NumberToStringRoundTrip(n);
  }
}

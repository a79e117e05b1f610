/** The few JavaScript notions the model relies on: values and their
    truthiness, how a promise settles, lodash's `uniq`, ASCII
    lower-casing and the decimal text of integers. */
module Js {

  datatype Option<+T> = None | Some(value: T)

  /** How a promise, or a synchronous call that may throw, settles.
      The reason of a rejection is never inspected by the core, so it
      is not carried. */
  datatype Settled<+T> = Resolved(value: T) | Rejected

  /** The JavaScript values the core stores in its contexts. Numbers are
      integers (no fractions, NaN or infinities occur in the core);
      objects and arrays carry a payload chosen by the user of the type. */
  datatype Value<+O> = Undefined | Null | Bool(b: bool) | Num(n: int) | Str(s: string) | Obj(o: O)

  /** `!!v`: JavaScript's truthiness. Every object, even an empty array,
      is truthy. */
  predicate Truthy<O>(v: Value<O>)
  {
    match v
    case Undefined => false
    case Null => false
    case Bool(b) => b
    case Num(n) => n != 0
    case Str(s) => s != ""
    case Obj(_) => true
  }

  // ---------------------------------------------------------------------
  // lodash `_.uniq`: keeps the first occurrence of every element

  predicate Distinct<T(==)>(s: seq<T>)
  {
    forall i, j :: 0 <= i < j < |s| ==> s[i] != s[j]
  }

  function Uniq<T(==,!new)>(s: seq<T>): (r: seq<T>)
    ensures forall x :: x in r <==> x in s
    ensures Distinct(r)
    ensures |r| <= |s|
    decreases |s|
  {
    if s == [] then []
    else
      var u := Uniq(s[..|s| - 1]);
      assert forall x :: x in s <==> x in s[..|s| - 1] || x == s[|s| - 1];
      if s[|s| - 1] in u then u else u + [s[|s| - 1]]
  }

  /** Appending an element already present changes nothing; a new one is
      appended at the end. */
  lemma UniqSnoc<T(!new)>(s: seq<T>, x: T)
    ensures Uniq(s + [x]) == if x in s then Uniq(s) else Uniq(s) + [x]
  {
    assert (s + [x])[..|s + [x]| - 1] == s;
  }

  /** `uniq` leaves a list that has no duplicates as it is. */
  lemma {:induction false} UniqOfDistinct<T(!new)>(s: seq<T>)
    requires Distinct(s)
    ensures Uniq(s) == s
  {
    if s != [] {
      var init := s[..|s| - 1];
      assert s == init + [s[|s| - 1]];
      UniqOfDistinct(init);
      UniqSnoc(init, s[|s| - 1]);
    }
  }

  // ---------------------------------------------------------------------
  // `toLowerCase` / `_.toLower`, on the ASCII letters

  predicate IsUpper(c: char)
  {
    'A' <= c <= 'Z'
  }

  function LowerChar(c: char): (r: char)
    ensures !IsUpper(r)
    ensures !IsUpper(c) ==> r == c
  {
    if IsUpper(c) then (c as int + 32) as char else c
  }

  function Lower(s: string): (r: string)
    ensures |r| == |s|
    ensures forall i :: 0 <= i < |s| ==> r[i] == LowerChar(s[i])
  {
    seq(|s|, i requires 0 <= i < |s| => LowerChar(s[i]))
  }

  predicate HasUpper(s: string)
  {
    exists i :: 0 <= i < |s| && IsUpper(s[i])
  }

  /** Lower-casing is idempotent and leaves no upper-case letter. */
  lemma LowerIsLower(s: string)
    ensures !HasUpper(Lower(s))
    ensures Lower(Lower(s)) == Lower(s)
    ensures !HasUpper(s) ==> Lower(s) == s
  {
  }

  // ---------------------------------------------------------------------
  // The decimal text of integers, as `${n}` and `JSON.stringify(n)` write it

  predicate IsDigit(c: char)
  {
    '0' <= c <= '9'
  }

  function DigitChar(d: nat): (c: char)
    requires d < 10
    ensures IsDigit(c)
  {
    ('0' as int + d) as char
  }

  function DigitValue(c: char): nat
    requires IsDigit(c)
  {
    c as int - '0' as int
  }

  function NatToString(n: nat): (r: string)
    ensures |r| >= 1
    ensures forall i :: 0 <= i < |r| ==> IsDigit(r[i])
    ensures |r| > 1 ==> r[0] != '0'
    decreases n
  {
    if n < 10 then [DigitChar(n)] else NatToString(n / 10) + [DigitChar(n % 10)]
  }

  function IntToString(i: int): string
  {
    if i < 0 then "-" + NatToString(-i) else NatToString(i)
  }

  /** The value of a non-empty run of digits. */
  function DigitsValue(s: string): nat
    requires |s| >= 1
    requires forall i :: 0 <= i < |s| ==> IsDigit(s[i])
    decreases |s|
  {
    if |s| == 1 then DigitValue(s[0])
    else DigitsValue(s[..|s| - 1]) * 10 + DigitValue(s[|s| - 1])
  }

  /** A JSON integer literal: an optional minus sign and digits without a
      leading zero. Anything else yields None. */
  function ParseInt(s: string): (r: Option<int>)
    ensures r.Some? && r.value < 0 ==> |s| > 1 && s[0] == '-'
  {
    var neg := |s| > 0 && s[0] == '-';
    var digits := if neg then s[1..] else s;
    if |digits| == 0 || (|digits| > 1 && digits[0] == '0') then None
    else if exists i :: 0 <= i < |digits| && !IsDigit(digits[i]) then None
    else
      var magnitude: int := DigitsValue(digits);
      Some(if neg then -magnitude else magnitude)
  }

  lemma {:induction false} DigitsOfNat(n: nat)
    ensures DigitsValue(NatToString(n)) == n
    decreases n
  {
    if n >= 10 {
      var s := NatToString(n);
      assert s[..|s| - 1] == NatToString(n / 10);
      DigitsOfNat(n / 10);
    }
  }

  /** Reading back the decimal text of an integer gives the integer. */
  lemma ParseIntToString(i: int)
    ensures ParseInt(IntToString(i)) == Some(i)
  {
    if i < 0 {
      var s := IntToString(i);
      assert s[1..] == NatToString(-i);
      DigitsOfNat(-i);
    } else {
      DigitsOfNat(i);
    }
  }

  /** Different integers have different decimal texts. */
  lemma IntToStringInjective(i: int, j: int)
    requires IntToString(i) == IntToString(j)
    ensures i == j
  {
    ParseIntToString(i);
    ParseIntToString(j);
  }
}

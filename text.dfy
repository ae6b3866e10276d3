/** Optional values, used for every Python `None`-or-value in the pipeline. */
module Wrappers {
  datatype Option<T> = None | Some(value: T)

  /** The present values of `xs`, in order: a loop that appends only when it has something. */
  function Somes<T>(xs: seq<Option<T>>): seq<T> {
    if xs == [] then []
    else
      var init := Somes(xs[..|xs| - 1]);
      match xs[|xs| - 1]
      case None => init
      case Some(v) => init + [v]
  }

  predicate StrictlyIncreasing(r: seq<nat>) {
    forall j, j' :: 0 <= j < j' < |r| ==> r[j] < r[j']
  }

  /** Where each value of `Somes(xs)` comes from: exactly the present positions, in order. */
  ghost function SomeIndices<T>(xs: seq<Option<T>>): (r: seq<nat>)
    ensures |r| == |Somes(xs)| && StrictlyIncreasing(r)
    ensures forall j :: 0 <= j < |r| ==> r[j] < |xs| && xs[r[j]] == Some(Somes(xs)[j])
    ensures forall i :: 0 <= i < |xs| ==> (xs[i].Some? <==> i in r)
  {
    if xs == [] then []
    else
      var init := xs[..|xs| - 1];
      var r := SomeIndices(init);
      assert forall j :: 0 <= j < |r| ==> init[r[j]] == xs[r[j]];
      assert forall i :: 0 <= i < |init| ==> init[i] == xs[i];
      if xs[|xs| - 1].Some? then r + [|xs| - 1] else r
  }
}

/**
 * String helpers standing in for the Python built-ins the pipeline uses:
 * `str.isdigit`, `str.isspace`, `str.strip`, `str.lower`, `int(...)`, `str(n)`,
 * `" ".join(...)` and the substring test `k in t`.  Characters are treated
 * as ASCII: no Unicode digits, spaces or case folding.
 */
module Text {

  /** An ASCII decimal digit, the only kind `[0-9]` and (here) `\d` accept. */
  predicate IsDigit(c: char) {
    '0' <= c <= '9'
  }

  /** ASCII whitespace as `str.isspace` and the regex class `\s` see it. */
  predicate IsSpace(c: char) {
    c == ' ' || 9 <= c as int <= 13 || 28 <= c as int <= 31
  }

  predicate AllDigits(s: string) {
    forall k :: 0 <= k < |s| ==> IsDigit(s[k])
  }

  predicate HasDigit(s: string) {
    exists k :: 0 <= k < |s| && IsDigit(s[k])
  }

  function DigitValue(c: char): (n: nat)
    requires IsDigit(c)
    ensures n < 10
  {
    c as int - '0' as int
  }

  function DigitChar(n: nat): (c: char)
    requires n < 10
    ensures IsDigit(c) && DigitValue(c) == n
  {
    ('0' as int + n) as char
  }

  function Pow10(k: nat): (p: nat)
    ensures p >= 1
  {
    if k == 0 then 1 else 10 * Pow10(k - 1)
  }

  /** `int(d)` for a string of ASCII digits; the value has at most |d| digits. */
  function DecimalValue(d: string): (n: nat)
    requires AllDigits(d)
    ensures n < Pow10(|d|)
  {
    if d == [] then 0
    else
      var init := d[..|d| - 1];
      assert AllDigits(init);
      DecimalValue(init) * 10 + DigitValue(d[|d| - 1])
  }

  lemma DecimalValueAppend(d: string, c: char)
    requires AllDigits(d) && IsDigit(c)
    ensures AllDigits(d + [c])
    ensures DecimalValue(d + [c]) == DecimalValue(d) * 10 + DigitValue(c)
  {
    assert (d + [c])[..|d|] == d;
  }

  /**
   * `str(n)`: the decimal rendering of a natural number, read back exactly by
   * `DecimalValue`, with no leading zero unless it is "0" itself.
   */
  function NatToDecimal(n: nat): (s: string)
    ensures |s| > 0 && AllDigits(s) && DecimalValue(s) == n
    ensures |s| == 1 || s[0] != '0'
    ensures n < 10 ==> |s| == 1
    ensures n < 100 ==> |s| <= 2
    ensures n < 1000 ==> |s| <= 3
  {
    if n < 10 then [DigitChar(n)]
    else
      var init := NatToDecimal(n / 10);
      DecimalValueAppend(init, DigitChar(n % 10));
      assert |init| == 1 ==> init[..|init| - 1] == [];
      init + [DigitChar(n % 10)]
  }

  /** A digit string that does not start with '0' reads as at least 1. */
  lemma {:induction false} LeadingDigitPositive(d: string)
    requires |d| > 0 && AllDigits(d) && d[0] != '0'
    ensures DecimalValue(d) >= 1
  {
    var init := d[..|d| - 1];
    if |d| == 1 {
      assert init == [];
    } else {
      assert init[0] == d[0];
      LeadingDigitPositive(init);
    }
  }

  /**
   * The rendering is the only canonical one: every digit string without a
   * leading zero (other than "0") is the rendering of its own value.
   */
  lemma {:induction false} NatToDecimalCanonical(d: string)
    requires |d| > 0 && AllDigits(d) && (|d| == 1 || d[0] != '0')
    ensures NatToDecimal(DecimalValue(d)) == d
  {
    var init := d[..|d| - 1];
    var c := d[|d| - 1];
    if |d| == 1 {
      assert init == [];
      assert DigitChar(DigitValue(c)) == c;
      assert d == [c];
    } else {
      assert init[0] == d[0];
      assert AllDigits(init);
      NatToDecimalCanonical(init);
      LeadingDigitPositive(init);
      var n := DecimalValue(d);
      assert n == DecimalValue(init) * 10 + DigitValue(c);
      assert n / 10 == DecimalValue(init) && n % 10 == DigitValue(c);
      assert DigitChar(DigitValue(c)) == c;
      assert d == init + [c];
    }
  }

  /** Position of the first non-whitespace character (`|s|` when there is none). */
  function TextStart(s: string, i: nat): (a: nat)
    requires i <= |s|
    ensures i <= a <= |s|
    decreases |s| - i
  {
    if i < |s| && IsSpace(s[i]) then TextStart(s, i + 1) else i
  }

  /** Position just after the last non-whitespace character at or after `a`. */
  function TextEnd(s: string, a: nat, j: nat): (b: nat)
    requires a <= j <= |s|
    ensures a <= b <= j
    decreases j
  {
    if j > a && IsSpace(s[j - 1]) then TextEnd(s, a, j - 1) else j
  }

  lemma {:induction false} TextStartSpec(s: string, i: nat)
    requires i <= |s|
    ensures forall k :: i <= k < TextStart(s, i) ==> IsSpace(s[k])
    ensures TextStart(s, i) == |s| || !IsSpace(s[TextStart(s, i)])
    decreases |s| - i
  {
    if i < |s| && IsSpace(s[i]) {
      TextStartSpec(s, i + 1);
    }
  }

  lemma {:induction false} TextEndSpec(s: string, a: nat, j: nat)
    requires a <= j <= |s|
    ensures forall k :: TextEnd(s, a, j) <= k < j ==> IsSpace(s[k])
    ensures TextEnd(s, a, j) == a || !IsSpace(s[TextEnd(s, a, j) - 1])
    decreases j
  {
    if j > a && IsSpace(s[j - 1]) {
      TextEndSpec(s, a, j - 1);
    }
  }

  /** `str.strip()`: the text between leading and trailing whitespace. */
  function Strip(s: string): (r: string)
    ensures |r| <= |s|
  {
    var a := TextStart(s, 0);
    s[a..TextEnd(s, a, |s|)]
  }

  /**
   * The stripped text is the slice of `s` left once leading and trailing
   * whitespace is cut off: it is empty exactly when the text is all
   * whitespace, and otherwise neither starts nor ends with whitespace.
   */
  lemma StripSpec(s: string)
    ensures exists a, b :: 0 <= a <= b <= |s| && Strip(s) == s[a..b]
                           && (forall k :: 0 <= k < a ==> IsSpace(s[k]))
                           && (forall k :: b <= k < |s| ==> IsSpace(s[k]))
    ensures Strip(s) == [] <==> forall k :: 0 <= k < |s| ==> IsSpace(s[k])
    ensures Strip(s) != [] ==> !IsSpace(Strip(s)[0]) && !IsSpace(Strip(s)[|Strip(s)| - 1])
  {
    var a := TextStart(s, 0);
    var b := TextEnd(s, a, |s|);
    TextStartSpec(s, 0);
    TextEndSpec(s, a, |s|);
    assert Strip(s) == s[a..b];
    assert (forall k :: 0 <= k < a ==> IsSpace(s[k])) && (forall k :: b <= k < |s| ==> IsSpace(s[k]));
  }

  /** `str.lower()` on ASCII letters. */
  function LowerChar(c: char): char {
    if 'A' <= c <= 'Z' then (c as int + 32) as char else c
  }

  function Lower(s: string): (r: string)
    ensures |r| == |s|
  {
    seq(|s|, k requires 0 <= k < |s| => LowerChar(s[k]))
  }

  /** `k` occurs in `t` starting at offset `i`. */
  predicate OccursAt(t: string, k: string, i: int) {
    0 <= i <= |t| - |k| && t[i..i + |k|] == k
  }

  /** `k in t` for two strings: `k` occurs in `t` at some offset. */
  predicate Contains(t: string, k: string) {
    exists i :: 0 <= i <= |t| - |k| && OccursAt(t, k, i)
  }

  /** A substring of a substring is a substring. */
  lemma ContainsTransitive(t: string, k: string, j: string)
    requires Contains(t, k) && Contains(k, j)
    ensures Contains(t, j)
  {
    var a :| 0 <= a <= |t| - |k| && OccursAt(t, k, a);
    var b :| 0 <= b <= |k| - |j| && OccursAt(k, j, b);
    forall m | 0 <= m < |j| ensures t[a + b + m] == j[m] {
      assert j[m] == k[b + m] == t[a + b + m];
    }
    assert t[a + b..a + b + |j|] == j;
    assert OccursAt(t, j, a + b);
  }

  /** `sep.join(parts)`. */
  function Join(sep: string, parts: seq<string>): string {
    if parts == [] then ""
    else if |parts| == 1 then parts[0]
    else Join(sep, parts[..|parts| - 1]) + sep + parts[|parts| - 1]
  }
}

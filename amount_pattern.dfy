/**
 * The two regular expressions of app/extractor.py, written as scanners.
 *
 *   AMOUNT_RE = (?<!\d)(?:₹|\$|INR)?\s*([0-9]{1,3}(?:[,][0-9]{3})*(?:\.[0-9]{1,2})?|[0-9]+(?:\.[0-9]{1,2}))
 *   quantity x rate = ([0-9]+)\s*[xX*]\s*([0-9]+\.[0-9]{1,2})
 *
 * Amounts are integer hundredths: `float("12.5")` is 1250.
 */
module AmountPattern {
  import opened Wrappers
  import opened Text

  /** The Indian rupee sign U+20B9, the first currency marker of AMOUNT_RE. */
  const Rupee: char := '\U{20B9}'

  /** End of the run of digits starting at `i`. */
  function DigitEnd(s: string, i: nat): (j: nat)
    requires i <= |s|
    ensures i <= j <= |s|
    ensures forall k :: i <= k < j ==> IsDigit(s[k])
    ensures j == |s| || !IsDigit(s[j])
    decreases |s| - i
  {
    if i < |s| && IsDigit(s[i]) then DigitEnd(s, i + 1) else i
  }

  /** `\s*`, greedily: end of the run of whitespace starting at `i`. */
  function SpaceEnd(s: string, i: nat): (j: nat)
    requires i <= |s|
    ensures i <= j <= |s|
    ensures forall k :: i <= k < j ==> IsSpace(s[k])
    ensures j == |s| || !IsSpace(s[j])
    decreases |s| - i
  {
    if i < |s| && IsSpace(s[i]) then SpaceEnd(s, i + 1) else i
  }

  /** The digit run end is the one position closing a run of digits. */
  lemma DigitEndUnique(s: string, i: nat, j: nat)
    requires i <= j <= |s|
    requires forall k :: i <= k < j ==> IsDigit(s[k])
    requires j == |s| || !IsDigit(s[j])
    ensures DigitEnd(s, i) == j
  {
  }

  /** Length of the optional marker `(?:₹|\$|INR)` at `p`: 1, 3, or 0 when absent. */
  function CurrencyLen(s: string, p: nat): (n: nat)
    requires p <= |s|
    ensures p + n <= |s|
    ensures forall k :: p <= k < p + n ==> !IsDigit(s[k]) && !IsSpace(s[k])
  {
    if p < |s| && (s[p] == Rupee || s[p] == '$') then 1
    else if p + 3 <= |s| && s[p] == 'I' && s[p + 1] == 'N' && s[p + 2] == 'R' then 3
    else 0
  }

  /** `[0-9]{1,3}`, greedily, at a digit. */
  function IntegerEnd(s: string, q: nat): (i: nat)
    requires q < |s| && IsDigit(s[q])
    ensures q < i <= q + 3 && i <= |s|
    ensures forall k :: q <= k < i ==> IsDigit(s[k])
    ensures i < q + 3 ==> i == |s| || !IsDigit(s[i])
  {
    var k := DigitEnd(s, q);
    if k - q > 3 then q + 3 else k
  }

  /** `(?:[,][0-9]{3})*`, greedily. */
  function GroupsEnd(s: string, i: nat): (j: nat)
    requires i <= |s|
    ensures i <= j <= |s|
    ensures j > i ==> s[i] == ','
    decreases |s| - i
  {
    if i + 4 <= |s| && s[i] == ',' && IsDigit(s[i + 1]) && IsDigit(s[i + 2]) && IsDigit(s[i + 3])
    then GroupsEnd(s, i + 4)
    else i
  }

  /** `(?:\.[0-9]{1,2})?`, greedily. */
  function FractionEnd(s: string, i: nat): (j: nat)
    requires i <= |s|
    ensures i <= j <= |s|
    ensures j == i || (s[i] == '.' && 2 <= j - i <= 3 && forall k :: i < k < j ==> IsDigit(s[k]))
    ensures j == i ==> !(i + 1 < |s| && s[i] == '.' && IsDigit(s[i + 1]))
    ensures j == i + 2 ==> j == |s| || !IsDigit(s[j])
  {
    if i + 1 < |s| && s[i] == '.' && IsDigit(s[i + 1]) then
      (if i + 2 < |s| && IsDigit(s[i + 2]) then i + 3 else i + 2)
    else i
  }

  /**
   * Capture group 1 starting at the digit `q`.  Its first alternative needs only
   * one digit and nothing follows the group, so once `s[q]` is a digit the
   * first alternative's greedy match is the result; the second alternative is
   * tried only when `s[q]` is not a digit, and then it fails as well.
   */
  function AmountEnd(s: string, q: nat): (e: nat)
    requires q < |s| && IsDigit(s[q])
    ensures q < e <= |s|
  {
    FractionEnd(s, GroupsEnd(s, IntegerEnd(s, q)))
  }

  /** A match of AMOUNT_RE: capture group 1 is `s[group..end]`, the whole match ends at `end`. */
  datatype Span = Span(group: nat, end: nat)

  /**
   * AMOUNT_RE anchored at `p`.  Backing off `\s*` never helps (the group needs
   * a digit where a space stood); backing off the currency marker is tried
   * and fails, since the marker is neither a space nor a digit.
   */
  function MatchAt(s: string, p: nat): (m: Option<Span>)
    requires p <= |s|
    ensures m.Some? ==> p <= m.value.group < |s| && IsDigit(s[m.value.group])
    ensures m.Some? ==> m.value.end == AmountEnd(s, m.value.group)
    ensures m.Some? ==> p == 0 || !IsDigit(s[p - 1])
  {
    if p > 0 && IsDigit(s[p - 1]) then None
    else
      var q := SpaceEnd(s, p + CurrencyLen(s, p));
      if q < |s| && IsDigit(s[q]) then Some(Span(q, AmountEnd(s, q)))
      else
        var q' := SpaceEnd(s, p);
        if q' < |s| && IsDigit(s[q']) then Some(Span(q', AmountEnd(s, q'))) else None
  }

  /** A match's capture starts at the first digit at or after the anchor. */
  lemma MatchAtSpec(s: string, p: nat)
    requires p <= |s| && MatchAt(s, p).Some?
    ensures forall k :: p <= k < MatchAt(s, p).value.group ==> !IsDigit(s[k])
  {
  }

  /**
   * When AMOUNT_RE matches at `p`: the look-behind holds and, after the
   * optional currency marker and the spaces after it, a digit follows; the
   * capture group then starts at that digit.
   */
  lemma MatchAtIff(s: string, p: nat)
    requires p <= |s|
    ensures var q := SpaceEnd(s, p + CurrencyLen(s, p));
            MatchAt(s, p).Some? <==> (p == 0 || !IsDigit(s[p - 1])) && q < |s| && IsDigit(s[q])
    ensures MatchAt(s, p).Some? ==> MatchAt(s, p).value.group == SpaceEnd(s, p + CurrencyLen(s, p))
  {
    if CurrencyLen(s, p) > 0 {
      assert !IsSpace(s[p]) && !IsDigit(s[p]);
      assert SpaceEnd(s, p) == p;
    }
  }

  /** `AMOUNT_RE.search` over `s[from..]`: the leftmost match. */
  function SearchFrom(s: string, from: nat): (m: Option<Span>)
    requires from <= |s|
    ensures m.Some? ==> from <= m.value.group < |s| && IsDigit(s[m.value.group])
    ensures m.Some? ==> m.value.end == AmountEnd(s, m.value.group)
    decreases |s| - from
  {
    match MatchAt(s, from)
    case Some(sp) => Some(sp)
    case None => if from == |s| then None else SearchFrom(s, from + 1)
  }

  /** `s.replace(',', '')`. */
  function RemoveCommas(s: string): string {
    if s == [] then []
    else (if s[0] == ',' then [] else [s[0]]) + RemoveCommas(s[1..])
  }

  predicate NoCommas(s: string) {
    forall k :: 0 <= k < |s| ==> s[k] != ','
  }

  /** After the removal no comma is left, and a comma-free text is left as it is. */
  lemma {:induction false} RemoveCommasSpec(s: string)
    ensures NoCommas(RemoveCommas(s))
    ensures NoCommas(s) ==> RemoveCommas(s) == s
  {
    if s != [] {
      RemoveCommasSpec(s[1..]);
      var head: string := if s[0] == ',' then [] else [s[0]];
      var rest := RemoveCommas(s[1..]);
      assert RemoveCommas(s) == head + rest;
      forall k | 0 <= k < |head + rest| ensures (head + rest)[k] != ',' {
        if k >= |head| { assert (head + rest)[k] == rest[k - |head|]; }
      }
      if NoCommas(s) {
        assert NoCommas(s[1..]) by {
          forall k | 0 <= k < |s[1..]| ensures s[1..][k] != ',' { assert s[1..][k] == s[k + 1]; }
        }
        assert s == [s[0]] + s[1..];
      }
    }
  }

  /** Every comma is deleted and every other character is kept as often as it occurs. */
  lemma {:induction false} RemoveCommasCounts(s: string)
    ensures multiset(RemoveCommas(s)) == multiset(s)[',' := 0]
  {
    if s != [] {
      RemoveCommasCounts(s[1..]);
      var head: string := if s[0] == ',' then [] else [s[0]];
      assert RemoveCommas(s) == head + RemoveCommas(s[1..]);
      assert s == [s[0]] + s[1..];
      assert multiset(s) == multiset([s[0]]) + multiset(s[1..]);
      assert multiset(head) == multiset([s[0]])[',' := 0];
    }
  }

  lemma HasDigitAppend(a: string, b: string)
    ensures HasDigit(a + b) <==> HasDigit(a) || HasDigit(b)
  {
    if HasDigit(a + b) {
      var k :| 0 <= k < |a + b| && IsDigit((a + b)[k]);
      if k >= |a| { assert IsDigit(b[k - |a|]); }
    }
    if HasDigit(b) {
      var k :| 0 <= k < |b| && IsDigit(b[k]);
      assert IsDigit((a + b)[|a| + k]);
    }
    if HasDigit(a) {
      var k :| 0 <= k < |a| && IsDigit(a[k]);
      assert IsDigit((a + b)[k]);
    }
  }

  /** Removing commas keeps every digit. */
  lemma {:induction false} RemoveCommasKeepsDigits(s: string)
    ensures HasDigit(RemoveCommas(s)) <==> HasDigit(s)
  {
    if s != [] {
      RemoveCommasKeepsDigits(s[1..]);
      var head: string := if s[0] == ',' then [] else [s[0]];
      assert RemoveCommas(s) == head + RemoveCommas(s[1..]);
      HasDigitAppend(head, RemoveCommas(s[1..]));
      assert s == [s[0]] + s[1..];
      HasDigitAppend([s[0]], s[1..]);
      assert HasDigit(head) <==> HasDigit([s[0]]) by {
        if HasDigit([s[0]]) { assert IsDigit([s[0]][0]); assert head == [s[0]]; }
      }
    }
  }

  /** Text of the shape `[0-9]+` or `[0-9]+\.[0-9]{1,2}`: all that `float` receives here. */
  predicate IsAmountLiteral(g: string) {
    var k := DigitEnd(g, 0);
    0 < k && (k == |g| || (g[k] == '.' && 2 <= |g| - k <= 3 && AllDigits(g[k + 1..])))
  }

  /** `float(g)` for such a literal, in hundredths. */
  function Hundredths(g: string): (v: nat)
    requires IsAmountLiteral(g)
  {
    var k := DigitEnd(g, 0);
    assert AllDigits(g[..k]);
    var whole := DecimalValue(g[..k]);
    if k == |g| then whole * 100
    else if |g| - k == 2 then whole * 100 + DigitValue(g[k + 1]) * 10
    else
      assert AllDigits(g[k + 1..]);
      whole * 100 + DecimalValue(g[k + 1..])
  }

  /** The captured text of one match has the literal shape `float` accepts. */
  lemma LiteralSlice(s: string, b: nat, c: nat, e: nat)
    requires b < c <= e <= |s|
    requires forall k :: b <= k < c ==> IsDigit(s[k])
    requires e == c || (s[c] == '.' && 2 <= e - c <= 3 && forall k :: c < k < e ==> IsDigit(s[k]))
    ensures IsAmountLiteral(s[b..e]) && DigitEnd(s[b..e], 0) == c - b
    ensures e == c ==> Hundredths(s[b..e]) == DecimalValue(s[b..c]) * 100
  {
    var g := s[b..e];
    DigitEndUnique(g, 0, c - b);
    assert g[..c - b] == s[b..c];
    if e > c {
      var f := g[c - b + 1..];
      forall k | 0 <= k < |f| ensures IsDigit(f[k]) {
        assert f[k] == s[c + 1 + k];
      }
    }
  }

  /** The capture of a comma-free text at the digit `q` is the literal 1-3 digits, then maybe '.' and 1-2 digits. */
  lemma CaptureShape(t: string, q: nat)
    requires q < |t| && IsDigit(t[q])
    requires NoCommas(t)
    ensures IsAmountLiteral(t[q..AmountEnd(t, q)])
    ensures DigitEnd(t[q..AmountEnd(t, q)], 0) == IntegerEnd(t, q) - q
    ensures IntegerEnd(t, q) - q >= 3 && IntegerEnd(t, q) < |t| && IsDigit(t[IntegerEnd(t, q)]) ==>
              AmountEnd(t, q) == IntegerEnd(t, q)
  {
    var i := IntegerEnd(t, q);
    assert GroupsEnd(t, i) == i;
    var e := AmountEnd(t, q);
    if i == q + 3 && i < |t| && IsDigit(t[i]) {
      assert e == i;
    }
    LiteralSlice(t, q, i, e);
  }

  /** A literal with at most three integer digits is at most 999.99. */
  lemma LiteralBound(g: string)
    requires IsAmountLiteral(g) && DigitEnd(g, 0) <= 3
    ensures Hundredths(g) <= 99999
  {
    var k := DigitEnd(g, 0);
    assert AllDigits(g[..k]);
    assert DecimalValue(g[..k]) < 1000 by {
      assert Pow10(1) == 10 && Pow10(2) == 100 && Pow10(3) == 1000;
    }
    if |g| - k == 3 {
      assert AllDigits(g[k + 1..]);
      assert DecimalValue(g[k + 1..]) < 100 by { assert Pow10(2) == 100; }
    }
  }

  /** The value of the capture of a comma-free text that starts at the digit `q`. */
  lemma CaptureValue(t: string, q: nat)
    requires q < |t| && IsDigit(t[q])
    requires NoCommas(t)
    ensures IsAmountLiteral(t[q..AmountEnd(t, q)])
    ensures Hundredths(t[q..AmountEnd(t, q)]) <= 99999
    ensures DigitEnd(t, q) - q >= 4 ==>
              Hundredths(t[q..AmountEnd(t, q)]) == DecimalValue(t[q..q + 3]) * 100
  {
    CaptureShape(t, q);
    LiteralBound(t[q..AmountEnd(t, q)]);
    if DigitEnd(t, q) - q >= 4 {
      var i := IntegerEnd(t, q);
      assert i == q + 3 && IsDigit(t[i]);
      LiteralSlice(t, q, i, i);
    }
  }

  /** The span of capture group 1 of `AMOUNT_RE.search` on the comma-stripped text. */
  function AmountCapture(s: string): Option<Span> {
    SearchFrom(RemoveCommas(s), 0)
  }

  /**
   * `parse_amount`: the first amount in the text (commas stripped first), in
   * hundredths; `None` when there is no match or `float` rejects the capture
   * (which `ParseAmountNoneIff` shows never happens).
   */
  function ParseAmount(s: string): Option<int> {
    var t := RemoveCommas(s);
    match SearchFrom(t, 0)
    case None => None
    case Some(sp) => CaptureAmount(t, sp)
  }

  /** `float(m.group(1).replace(',', ''))`, `None` where `float` would raise. */
  function CaptureAmount(t: string, sp: Span): Option<int>
    requires sp.group <= sp.end <= |t|
  {
    var g := RemoveCommas(t[sp.group..sp.end]);
    if IsAmountLiteral(g) then Some(Hundredths(g)) else None
  }

  /** The capture of a match in a comma-free text passes through the second comma removal unchanged. */
  lemma CaptureLiteral(t: string, q: nat)
    requires q < |t| && IsDigit(t[q])
    requires NoCommas(t)
    ensures RemoveCommas(t[q..AmountEnd(t, q)]) == t[q..AmountEnd(t, q)]
    ensures IsAmountLiteral(t[q..AmountEnd(t, q)])
    ensures Hundredths(t[q..AmountEnd(t, q)]) <= 99999
    ensures DigitEnd(t, q) - q >= 4 ==>
              Hundredths(t[q..AmountEnd(t, q)]) == DecimalValue(t[q..q + 3]) * 100
  {
    var g := t[q..AmountEnd(t, q)];
    assert forall k :: 0 <= k < |g| ==> g[k] == t[q + k];
    RemoveCommasSpec(g);
    CaptureValue(t, q);
  }

  /** The value read from the capture at the digit `q` of a comma-free text. */
  lemma CaptureAmountAt(t: string, q: nat)
    requires q < |t| && IsDigit(t[q])
    requires NoCommas(t)
    ensures CaptureAmount(t, Span(q, AmountEnd(t, q))) == Some(Hundredths(t[q..AmountEnd(t, q)]))
  {
    CaptureLiteral(t, q);
  }

  /** With no digit at or after `from`, there is no match. */
  lemma {:induction false} SearchNoDigit(s: string, from: nat)
    requires from <= |s|
    requires forall k :: from <= k < |s| ==> !IsDigit(s[k])
    ensures SearchFrom(s, from).None?
    decreases |s| - from
  {
    if from < |s| {
      SearchNoDigit(s, from + 1);
    }
  }

  /** A digit with no digit before it (from `from` on) is where the leftmost capture starts. */
  lemma {:induction false} SearchFirstDigit(s: string, from: nat, d: nat)
    requires from <= d < |s| && IsDigit(s[d])
    requires forall k :: from <= k < d ==> !IsDigit(s[k])
    requires d == 0 || !IsDigit(s[d - 1])
    ensures SearchFrom(s, from).Some? && SearchFrom(s, from).value.group == d
    decreases d - from
  {
    if from == d {
      MatchAtDigit(s, d);
    } else {
      match MatchAt(s, from)
      case Some(sp) =>
        MatchAtSpec(s, from);
        assert sp.group == d;
      case None =>
        SearchFirstDigit(s, from + 1, d);
    }
  }

  /** A digit with no digit before it anchors a match whose capture starts right there. */
  lemma MatchAtDigit(s: string, d: nat)
    requires d < |s| && IsDigit(s[d])
    requires d == 0 || !IsDigit(s[d - 1])
    ensures MatchAt(s, d) == Some(Span(d, AmountEnd(s, d)))
  {
    assert CurrencyLen(s, d) == 0;
    assert SpaceEnd(s, d) == d;
  }

  /** The position of the first digit of a text that has one. */
  function FirstDigit(s: string): (d: nat)
    requires HasDigit(s)
    ensures d < |s| && IsDigit(s[d])
    ensures forall k :: 0 <= k < d ==> !IsDigit(s[k])
  {
    if IsDigit(s[0]) then 0
    else
      assert HasDigit(s[1..]) by {
        var k :| 0 <= k < |s| && IsDigit(s[k]);
        assert IsDigit(s[1..][k - 1]);
      }
      FirstDigit(s[1..]) + 1
  }

  /** `parse_amount` finds an amount exactly when the text holds a digit. */
  lemma {:induction false} ParseAmountNoneIff(s: string)
    ensures ParseAmount(s).None? <==> !HasDigit(s)
  {
    var t := RemoveCommas(s);
    RemoveCommasKeepsDigits(s);
    RemoveCommasSpec(s);
    if HasDigit(t) {
      SearchFirstDigit(t, 0, FirstDigit(t));
      CaptureAmountAt(t, FirstDigit(t));
    } else {
      SearchNoDigit(t, 0);
    }
  }

  /** The captured amount begins at the first digit of the comma-stripped text. */
  lemma {:induction false} CaptureAtFirstDigit(s: string)
    requires HasDigit(s)
    ensures HasDigit(RemoveCommas(s))
    ensures AmountCapture(s).Some? && AmountCapture(s).value.group == FirstDigit(RemoveCommas(s))
  {
    RemoveCommasKeepsDigits(s);
    var t := RemoveCommas(s);
    SearchFirstDigit(t, 0, FirstDigit(t));
  }

  /** Every parsed amount lies in 0..999.99. */
  lemma {:induction false} ParseAmountRange(s: string)
    requires ParseAmount(s).Some?
    ensures 0 <= ParseAmount(s).value <= 99999
  {
    var t := RemoveCommas(s);
    var sp := SearchFrom(t, 0).value;
    RemoveCommasSpec(s);
    CaptureAmountAt(t, sp.group);
    CaptureLiteral(t, sp.group);
  }

  /**
   * A run of four or more digits at the first digit is cut to its first three
   * digits and takes no decimals: "1,250.00" reads as 125.
   */
  lemma {:induction false} ParseAmountLongRun(s: string)
    requires HasDigit(RemoveCommas(s))
    requires var t := RemoveCommas(s); DigitEnd(t, FirstDigit(t)) - FirstDigit(t) >= 4
    ensures var t := RemoveCommas(s); var d := FirstDigit(t);
            AllDigits(t[d..d + 3]) && ParseAmount(s) == Some(DecimalValue(t[d..d + 3]) * 100)
  {
    var t := RemoveCommas(s);
    var d := FirstDigit(t);
    SearchFirstDigit(t, 0, d);
    RemoveCommasSpec(s);
    CaptureAmountAt(t, d);
    CaptureLiteral(t, d);
  }

  /** Removing commas distributes over concatenation. */
  lemma {:induction false} RemoveCommasAppend(a: string, b: string)
    ensures RemoveCommas(a + b) == RemoveCommas(a) + RemoveCommas(b)
  {
    if a == [] {
      assert a + b == b;
    } else {
      var h: string := if a[0] == ',' then [] else [a[0]];
      RemoveCommasAppend(a[1..], b);
      assert (a + b)[0] == a[0];
      assert (a + b)[1..] == a[1..] + b;
      assert RemoveCommas(a + b) == h + RemoveCommas(a[1..] + b);
      assert RemoveCommas(a) == h + RemoveCommas(a[1..]);
    }
  }

  lemma GroupedThousandsCommas()
    ensures RemoveCommas("1,250.00") == "1250.00"
  {
    GroupedThousandsSplit("1,", "250.00", "1,250.00");
  }

  /** The literals are passed as parameters so that the solver does not unfold every function applied to them. */
  lemma GroupedThousandsSplit(a: string, b: string, s: string)
    requires a == "1," && b == "250.00" && s == a + b
    ensures RemoveCommas(s) == "1250.00"
  {
    RemoveCommasAppend(a, b);
    GroupedThousandsHead(a);
    GroupedThousandsTail(b);
  }

  lemma GroupedThousandsHead(a: string)
    requires a == "1,"
    ensures RemoveCommas(a) == "1"
  {
    assert a[1..][1..] == "";
    assert RemoveCommas(a[1..]) == "";
  }

  lemma GroupedThousandsTail(b: string)
    requires b == "250.00"
    ensures RemoveCommas(b) == "250.00"
  {
    assert NoCommas(b);
    RemoveCommasSpec(b);
  }

  lemma GroupedThousandsRun(t: string)
    requires t == "1250.00"
    ensures HasDigit(t) && FirstDigit(t) == 0 && DigitEnd(t, 0) == 4 && t[0..3] == "125"
  {
    assert IsDigit(t[0]);
    DigitEndUnique(t, 0, 4);
  }

  lemma GroupedThousandsDigits(d: string)
    requires d == "125"
    ensures AllDigits(d) && DecimalValue(d) == 125
  {
    var d1 := d[..1];
    var d2 := d[..2];
    assert d2[..1] == d1 && d1[..0] == [];
    assert DecimalValue(d1) == 1;
    assert DecimalValue(d2) == 12;
  }

  /** The thousands-grouped total "1,250.00" parses as 125.00, not 1250.00. */
  lemma ParseGroupedThousands()
    ensures ParseAmount("1,250.00") == Some(12500)
  {
    GroupedThousandsCommas();
    GroupedThousandsValue("1,250.00");
  }

  lemma GroupedThousandsValue(s: string)
    requires RemoveCommas(s) == "1250.00"
    ensures ParseAmount(s) == Some(12500)
  {
    var t := RemoveCommas(s);
    GroupedThousandsRun(t);
    ParseAmountLongRun(s);
    GroupedThousandsDigits(t[0..3]);
  }

  /** `AMOUNT_RE.sub('', s)` from position `i` on: every match is removed, the look-behind reads all of `s`. */
  function RemoveAmountsFrom(s: string, i: nat): (r: string)
    requires i <= |s|
    ensures |r| <= |s| - i
    decreases |s| - i
  {
    if i == |s| then ""
    else
      match MatchAt(s, i)
      case Some(sp) => RemoveAmountsFrom(s, sp.end)
      case None => [s[i]] + RemoveAmountsFrom(s, i + 1)
  }

  /** No match of AMOUNT_RE is anchored at or after `i`. */
  predicate NoMatchFrom(s: string, i: nat)
    requires i <= |s|
    decreases |s| - i
  {
    i == |s| || (MatchAt(s, i).None? && NoMatchFrom(s, i + 1))
  }

  lemma {:induction false} NoMatchFromAll(s: string, i: nat)
    requires i <= |s|
    ensures NoMatchFrom(s, i) <==> forall p :: i <= p < |s| ==> MatchAt(s, p).None?
    decreases |s| - i
  {
    if i < |s| {
      NoMatchFromAll(s, i + 1);
    }
  }

  /** From `i` on, the substitution leaves the text alone exactly when no match starts there. */
  lemma {:induction false} RemoveAmountsFromSpec(s: string, i: nat)
    requires i <= |s|
    ensures RemoveAmountsFrom(s, i) == s[i..] <==> NoMatchFrom(s, i)
    decreases |s| - i
  {
    if i < |s| {
      if MatchAt(s, i).Some? {
        RemoveAmountsFromMatch(s, i);
      } else {
        RemoveAmountsFromSpec(s, i + 1);
        RemoveAmountsFromSkip(s, i);
      }
    }
  }

  /** A match anchored at `i` shortens the rest of the text. */
  lemma RemoveAmountsFromMatch(s: string, i: nat)
    requires i < |s| && MatchAt(s, i).Some?
    ensures RemoveAmountsFrom(s, i) != s[i..]
  {
    assert |RemoveAmountsFrom(s, i)| < |s[i..]|;
  }

  /** Without a match at `i` the character at `i` is kept, and the question moves on to `i + 1`. */
  lemma RemoveAmountsFromSkip(s: string, i: nat)
    requires i < |s| && MatchAt(s, i).None?
    ensures RemoveAmountsFrom(s, i) == s[i..] <==> RemoveAmountsFrom(s, i + 1) == s[i + 1..]
  {
    var rest := RemoveAmountsFrom(s, i + 1);
    assert RemoveAmountsFrom(s, i) == [s[i]] + rest;
    assert s[i..] == [s[i]] + s[i + 1..];
    assert [s[i]] + rest == [s[i]] + s[i + 1..] ==> rest == ([s[i]] + rest)[1..];
  }

  /** `AMOUNT_RE.sub('', s)`. */
  function RemoveAmounts(s: string): string {
    RemoveAmountsFrom(s, 0)
  }

  /** A deleted region `s[start..end]`: the whole text of one match of AMOUNT_RE. */
  datatype Cut = Cut(start: nat, end: nat)

  /** The regions the substitution deletes from `i` on, left to right. */
  function Cuts(s: string, i: nat): seq<Cut>
    requires i <= |s|
    decreases |s| - i
  {
    if i == |s| then []
    else
      match MatchAt(s, i)
      case Some(sp) => [Cut(i, sp.end)] + Cuts(s, sp.end)
      case None => Cuts(s, i + 1)
  }

  /** Non-empty regions in increasing order, between `i` and `n`. */
  predicate Chain(i: nat, cs: seq<Cut>, n: nat)
    decreases |cs|
  {
    if cs == [] then i <= n
    else i <= cs[0].start < cs[0].end <= n && Chain(cs[0].end, cs[1..], n)
  }

  /** The text from `i` on with the regions `cs` taken out. */
  function Keep(s: string, i: nat, cs: seq<Cut>): string
    requires Chain(i, cs, |s|)
    decreases |cs|
  {
    if cs == [] then s[i..] else s[i..cs[0].start] + Keep(s, cs[0].end, cs[1..])
  }

  predicate InCut(cs: seq<Cut>, d: nat) {
    exists j :: 0 <= j < |cs| && cs[j].start <= d < cs[j].end
  }

  lemma ChainWeaken(i: nat, j: nat, cs: seq<Cut>, n: nat)
    requires i <= j && Chain(j, cs, n)
    ensures Chain(i, cs, n)
  {
  }

  lemma KeepSkip(s: string, i: nat, cs: seq<Cut>)
    requires i < |s| && Chain(i + 1, cs, |s|)
    ensures Chain(i, cs, |s|) && Keep(s, i, cs) == [s[i]] + Keep(s, i + 1, cs)
  {
    ChainWeaken(i, i + 1, cs, |s|);
    if cs == [] {
      assert s[i..] == [s[i]] + s[i + 1..];
    } else {
      var rest := Keep(s, cs[0].end, cs[1..]);
      assert s[i..cs[0].start] == [s[i]] + s[i + 1..cs[0].start];
      assert Keep(s, i, cs) == s[i..cs[0].start] + rest;
      assert Keep(s, i + 1, cs) == s[i + 1..cs[0].start] + rest;
    }
  }

  lemma InCutTail(c: Cut, cs: seq<Cut>, d: nat)
    requires InCut(cs, d)
    ensures InCut([c] + cs, d)
  {
    var j :| 0 <= j < |cs| && cs[j].start <= d < cs[j].end;
    assert ([c] + cs)[j + 1] == cs[j];
  }

  /** The deleted regions are non-empty, increasing and disjoint, between `i` and the end. */
  lemma {:induction false} CutsChain(s: string, i: nat)
    requires i <= |s|
    ensures Chain(i, Cuts(s, i), |s|)
    decreases |s| - i
  {
    if i < |s| {
      match MatchAt(s, i)
      case Some(sp) =>
        CutsChain(s, sp.end);
        assert ([Cut(i, sp.end)] + Cuts(s, sp.end))[1..] == Cuts(s, sp.end);
      case None =>
        CutsChain(s, i + 1);
        ChainWeaken(i, i + 1, Cuts(s, i + 1), |s|);
    }
  }

  /** The substitution's result is the text outside the deleted regions. */
  lemma {:induction false} CutsKeep(s: string, i: nat)
    requires i <= |s|
    ensures Chain(i, Cuts(s, i), |s|) && RemoveAmountsFrom(s, i) == Keep(s, i, Cuts(s, i))
    decreases |s| - i
  {
    CutsChain(s, i);
    if i < |s| {
      match MatchAt(s, i)
      case Some(sp) =>
        CutsKeep(s, sp.end);
        var cs := [Cut(i, sp.end)] + Cuts(s, sp.end);
        assert cs[1..] == Cuts(s, sp.end);
        assert Keep(s, i, cs) == s[i..i] + Keep(s, sp.end, Cuts(s, sp.end));
      case None =>
        CutsKeep(s, i + 1);
        KeepSkip(s, i, Cuts(s, i + 1));
    }
  }

  /** Each region of `cs` is one whole match of AMOUNT_RE, from its anchor to the end of its capture. */
  predicate AllMatches(s: string, cs: seq<Cut>)
    decreases |cs|
  {
    cs == [] ||
    (cs[0].start < cs[0].end <= |s| && MatchAt(s, cs[0].start).Some? && MatchAt(s, cs[0].start).value.end == cs[0].end
     && AllMatches(s, cs[1..]))
  }

  lemma {:induction false} AllMatchesIndex(s: string, cs: seq<Cut>)
    requires AllMatches(s, cs)
    ensures forall j :: 0 <= j < |cs| ==>
              cs[j].start < cs[j].end <= |s|
              && MatchAt(s, cs[j].start).Some? && MatchAt(s, cs[j].start).value.end == cs[j].end
    decreases |cs|
  {
    if cs != [] {
      AllMatchesIndex(s, cs[1..]);
      assert forall j :: 1 <= j < |cs| ==> cs[j] == cs[1..][j - 1];
    }
  }

  /** Each deleted region is exactly one match. */
  lemma {:induction false} CutsMatch(s: string, i: nat)
    requires i <= |s|
    ensures AllMatches(s, Cuts(s, i))
    decreases |s| - i
  {
    if i < |s| {
      match MatchAt(s, i)
      case Some(sp) =>
        CutsMatch(s, sp.end);
        assert ([Cut(i, sp.end)] + Cuts(s, sp.end))[1..] == Cuts(s, sp.end);
      case None =>
        CutsMatch(s, i + 1);
    }
  }

  /** The regions are the leftmost matches: no match is anchored at a position outside them. */
  lemma {:induction false} CutsLeftmost(s: string, i: nat)
    requires i <= |s|
    ensures forall p :: i <= p < |s| && !InCut(Cuts(s, i), p) ==> MatchAt(s, p).None?
    decreases |s| - i
  {
    if i < |s| {
      match MatchAt(s, i)
      case Some(sp) =>
        CutsLeftmost(s, sp.end);
        var rest := Cuts(s, sp.end);
        var cs := [Cut(i, sp.end)] + rest;
        forall p | i <= p < |s| && !InCut(cs, p) ensures MatchAt(s, p).None? {
          assert !(cs[0].start <= p < cs[0].end);
          if InCut(rest, p) {
            InCutTail(Cut(i, sp.end), rest, p);
          }
        }
      case None =>
        CutsLeftmost(s, i + 1);
    }
  }

  /**
   * `AMOUNT_RE.sub('', s)` characterised by its deleted regions: they are
   * increasing and disjoint, each is exactly one match, no match is anchored
   * outside them, and the result is the text outside them.
   */
  lemma CutsSpec(s: string)
    ensures Chain(0, Cuts(s, 0), |s|)
    ensures forall j :: 0 <= j < |Cuts(s, 0)| ==>
              Cuts(s, 0)[j].start < Cuts(s, 0)[j].end <= |s|
              && MatchAt(s, Cuts(s, 0)[j].start).Some? && MatchAt(s, Cuts(s, 0)[j].start).value.end == Cuts(s, 0)[j].end
    ensures forall p :: 0 <= p < |s| && !InCut(Cuts(s, 0), p) ==> MatchAt(s, p).None?
    ensures RemoveAmounts(s) == Keep(s, 0, Cuts(s, 0))
  {
    CutsKeep(s, 0);
    CutsMatch(s, 0);
    AllMatchesIndex(s, Cuts(s, 0));
    CutsLeftmost(s, 0);
  }

  /**
   * Every amount is removed, not only the first: each digit that starts a run
   * of digits lies inside a deleted region.
   */
  lemma RunStartsRemoved(s: string)
    ensures forall d: nat :: d < |s| && IsDigit(s[d]) && (d == 0 || !IsDigit(s[d - 1])) ==> InCut(Cuts(s, 0), d)
  {
    CutsLeftmost(s, 0);
    forall d: nat | d < |s| && IsDigit(s[d]) && (d == 0 || !IsDigit(s[d - 1])) ensures InCut(Cuts(s, 0), d) {
      MatchAtDigit(s, d);
      assert MatchAt(s, d).Some?;
    }
    assert forall d: nat :: d < |s| && IsDigit(s[d]) && (d == 0 || !IsDigit(s[d - 1])) ==> InCut(Cuts(s, 0), d);
  }

  /** A two-digit amount after one space, with a space or the end after it. */
  lemma AmountAt(s: string, p: nat, q: nat, e: nat)
    requires p + 1 == q && q + 2 == e <= |s| && s[p] == ' ' && IsDigit(s[q]) && IsDigit(s[q + 1])
    requires 0 < p && !IsDigit(s[p - 1]) && (e == |s| || s[e] == ' ')
    ensures MatchAt(s, p) == Some(Span(q, e))
  {
    assert CurrencyLen(s, p) == 0;
    assert SpaceEnd(s, q) == q;
    assert DigitEnd(s, e) == e && DigitEnd(s, q) == e;
    assert GroupsEnd(s, e) == e && FractionEnd(s, e) == e;
  }

  /** Two separate amounts are both removed, each with the spaces before it: "a 12 b 34" becomes "a b". */
  lemma RemoveTwoAmounts(s: string)
    requires s == "a 12 b 34"
    ensures RemoveAmounts(s) == "a b"
  {
    AmountAt(s, 1, 2, 4);
    AmountAt(s, 6, 7, 9);
    assert MatchAt(s, 0).None? && MatchAt(s, 4).None? && MatchAt(s, 5).None?;
    assert RemoveAmountsFrom(s, 9) == "";
    assert RemoveAmountsFrom(s, 6) == "";
    assert RemoveAmountsFrom(s, 4) == " b";
    assert RemoveAmountsFrom(s, 1) == " b";
  }

  /**
   * The substitution runs on text that still has its commas, so there the
   * grouped-thousands branch takes a grouped amount in one piece:
   * "a 1,250.00" becomes "a".
   */
  lemma RemoveGroupedAmount(s: string)
    requires s == "a 1,250.00"
    ensures MatchAt(s, 1) == Some(Span(2, 10))
    ensures RemoveAmounts(s) == "a"
  {
    assert CurrencyLen(s, 1) == 0 && SpaceEnd(s, 2) == 2;
    assert DigitEnd(s, 3) == 3 && DigitEnd(s, 2) == 3 && IntegerEnd(s, 2) == 3;
    assert GroupsEnd(s, 7) == 7 && GroupsEnd(s, 3) == 7;
    assert FractionEnd(s, 7) == 10;
    assert MatchAt(s, 0).None?;
    assert RemoveAmountsFrom(s, 10) == "";
    assert RemoveAmountsFrom(s, 1) == "";
  }

  /** The substitution changes the text exactly when some match exists; without digits there is none. */
  lemma {:induction false} RemoveAmountsSpec(s: string)
    ensures |RemoveAmounts(s)| <= |s|
    ensures RemoveAmounts(s) == s <==> forall p :: 0 <= p < |s| ==> MatchAt(s, p).None?
    ensures !HasDigit(s) ==> RemoveAmounts(s) == s
  {
    RemoveAmountsFromSpec(s, 0);
    NoMatchFromAll(s, 0);
    assert s[0..] == s;
    if !HasDigit(s) {
      forall p | 0 <= p < |s| ensures MatchAt(s, p).None? {
        if MatchAt(s, p).Some? {
          assert IsDigit(s[MatchAt(s, p).value.group]);
        }
      }
    }
  }

  /** A quantity and a rate, both in hundredths (`float(group(1))`, `float(group(2))`). */
  datatype QtyRate = QtyRate(quantity: nat, rate: nat)

  /** The hundredths `\.[0-9]{1,2}` at `s[c..e]` stands for: ".5" is 50, ".05" is 5. */
  function FractionValue(s: string, c: nat, e: nat): (v: nat)
    requires c < e <= |s| && 2 <= e - c <= 3 && forall k :: c < k < e ==> IsDigit(s[k])
    ensures v < 100
  {
    if e - c == 2 then DigitValue(s[c + 1]) * 10 else DigitValue(s[c + 1]) * 10 + DigitValue(s[c + 2])
  }

  /** `([0-9]+)\s*[xX*]\s*([0-9]+\.[0-9]{1,2})` anchored at `p`; backing off either `[0-9]+` never helps. */
  function QtyRateAt(s: string, p: nat): Option<QtyRate>
    requires p <= |s|
  {
    if p < |s| && IsDigit(s[p]) then
      var a := DigitEnd(s, p);
      var x := SpaceEnd(s, a);
      if x < |s| && (s[x] == 'x' || s[x] == 'X' || s[x] == '*') then
        var b := SpaceEnd(s, x + 1);
        if b < |s| && IsDigit(s[b]) then
          var c := DigitEnd(s, b);
          var e := FractionEnd(s, c);
          if e > c then
            assert AllDigits(s[p..a]) && AllDigits(s[b..c]);
            Some(QtyRate(DecimalValue(s[p..a]) * 100, DecimalValue(s[b..c]) * 100 + FractionValue(s, c, e)))
          else None
        else None
      else None
    else None
  }

  /** `re.search` of the quantity x rate pattern over `s[from..]`: the leftmost match. */
  function SearchQtyRate(s: string, from: nat): Option<QtyRate>
    requires from <= |s|
    decreases |s| - from
  {
    match QtyRateAt(s, from)
    case Some(m) => Some(m)
    case None => if from == |s| then None else SearchQtyRate(s, from + 1)
  }

  /**
   * The pattern matched at `p`: quantity digits `s[p..a]`, spaces, the sign
   * `s[x]`, spaces, rate digits `s[b..c]`, and the fraction `s[c..e]`, taken
   * as long as `[0-9]{1,2}` allows.
   */
  predicate QtyRateShape(s: string, p: nat, a: nat, x: nat, b: nat, c: nat, e: nat) {
    p < a <= x < b < c < e <= |s|
    && AllDigits(s[p..a])
    && (forall k :: a <= k < x ==> IsSpace(s[k]))
    && (s[x] == 'x' || s[x] == 'X' || s[x] == '*')
    && (forall k :: x < k < b ==> IsSpace(s[k]))
    && AllDigits(s[b..c])
    && s[c] == '.' && 2 <= e - c <= 3 && (forall k :: c < k < e ==> IsDigit(s[k]))
    && (e - c == 3 || e == |s| || !IsDigit(s[e]))
  }

  /** Wherever the pattern's shape occurs at `p`, the quantity and rate are its groups' values. */
  lemma QtyRateAtShape(s: string, p: nat, a: nat, x: nat, b: nat, c: nat, e: nat)
    requires QtyRateShape(s, p, a, x, b, c, e)
    ensures QtyRateAt(s, p) == Some(QtyRate(DecimalValue(s[p..a]) * 100, DecimalValue(s[b..c]) * 100 + FractionValue(s, c, e)))
  {
    SliceDigits(s, p, a);
    SliceDigits(s, b, c);
    DigitEndUnique(s, p, a);
    DigitEndUnique(s, b, c);
    SpaceEndUnique(s, a, x);
    SpaceEndUnique(s, x + 1, b);
    QtyRateAtParts(s, p, a, x, b, c, e);
  }

  lemma SliceDigits(s: string, i: nat, j: nat)
    requires i <= j <= |s| && AllDigits(s[i..j])
    ensures forall k :: i <= k < j ==> IsDigit(s[k])
  {
    forall k | i <= k < j ensures IsDigit(s[k]) { assert s[i..j][k - i] == s[k]; }
  }

  /** The scanner's steps, once each run end is known. */
  lemma QtyRateAtParts(s: string, p: nat, a: nat, x: nat, b: nat, c: nat, e: nat)
    requires QtyRateShape(s, p, a, x, b, c, e)
    requires DigitEnd(s, p) == a && SpaceEnd(s, a) == x && SpaceEnd(s, x + 1) == b && DigitEnd(s, b) == c
    ensures QtyRateAt(s, p) == Some(QtyRate(DecimalValue(s[p..a]) * 100, DecimalValue(s[b..c]) * 100 + FractionValue(s, c, e)))
  {
    assert IsDigit(s[p]) by { assert s[p..a][0] == s[p]; }
    assert IsDigit(s[b]) by { assert s[b..c][0] == s[b]; }
    assert FractionEnd(s, c) == e;
  }

  /** The space run end is the one position closing a run of spaces. */
  lemma {:induction false} SpaceEndUnique(s: string, i: nat, j: nat)
    requires i <= j <= |s|
    requires forall k :: i <= k < j ==> IsSpace(s[k])
    requires j == |s| || !IsSpace(s[j])
    ensures SpaceEnd(s, i) == j
    decreases j - i
  {
    if i < j {
      SpaceEndUnique(s, i + 1, j);
    }
  }

  /** Whenever the pattern matches at `p`, it does so in that shape. */
  lemma QtyRateAtFound(s: string, p: nat)
    requires p <= |s| && QtyRateAt(s, p).Some?
    ensures exists a, x, b, c, e :: QtyRateShape(s, p, a, x, b, c, e)
  {
    var a := DigitEnd(s, p);
    var x := SpaceEnd(s, a);
    var b := SpaceEnd(s, x + 1);
    var c := DigitEnd(s, b);
    var e := FractionEnd(s, c);
    assert AllDigits(s[p..a]) && AllDigits(s[b..c]);
    assert QtyRateShape(s, p, a, x, b, c, e);
  }

  /** The search finds the match at the first position where the pattern matches. */
  lemma {:induction false} SearchQtyRateFirst(s: string, from: nat, p: nat)
    requires from <= p <= |s| && QtyRateAt(s, p).Some?
    requires forall k :: from <= k < p ==> QtyRateAt(s, k).None?
    ensures SearchQtyRate(s, from) == QtyRateAt(s, p)
    decreases p - from
  {
    if from < p {
      assert QtyRateAt(s, from).None?;
      SearchQtyRateFirst(s, from + 1, p);
      assert SearchQtyRate(s, from) == SearchQtyRate(s, from + 1);
    }
  }

  /** The search finds nothing exactly when the pattern matches nowhere. */
  lemma {:induction false} SearchQtyRateNone(s: string, from: nat)
    requires from <= |s|
    ensures SearchQtyRate(s, from).None? <==> forall k :: from <= k <= |s| ==> QtyRateAt(s, k).None?
    decreases |s| - from
  {
    if from < |s| {
      SearchQtyRateNone(s, from + 1);
    }
  }

  /** A quantity and rate are found only in a text that has a digit, and then an amount is found too. */
  lemma {:induction false} QtyRateNeedsDigit(s: string, from: nat)
    requires from <= |s|
    requires SearchQtyRate(s, from).Some?
    ensures HasDigit(s) && ParseAmount(s).Some?
    decreases |s| - from
  {
    if QtyRateAt(s, from).Some? {
      assert IsDigit(s[from]);
    } else {
      QtyRateNeedsDigit(s, from + 1);
    }
    ParseAmountNoneIff(s);
  }
}

/**
 * app/extractor.py: box overlap, duplicate suppression, line-item candidates
 * and total/subtotal detection.  Amounts, rates and quantities are integer
 * hundredths; the fuzzy name similarity is a parameter `sim`.
 */
module Extractor {
  import opened Wrappers
  import opened Text
  import opened AmountPattern
  import opened OcrUtils

  const TotalKeywords: seq<string> :=
    ["total", "grand total", "amount payable", "net total", "invoice total", "amount due"]
  const SubtotalKeywords: seq<string> := ["subtotal", "sub total", "sub-total", "sub-total:"]

  /** Defaults of `dedupe_items`, the only values its caller uses. */
  const IouThreshold: real := 0.4
  const TextThreshold: int := 90

  /** A token-sort similarity score on the 0..100 scale. */
  type Score = x: int | 0 <= x <= 100

  /** A candidate or kept line item. */
  datatype Item = Item(
    name: string,
    amount: int,
    rate: Option<int>,
    quantity: Option<int>,
    left: int, top: int, width: int, height: int)

  /** `(left, top, width, height)`. */
  datatype Box = Box(left: int, top: int, width: int, height: int)

  function BoxOf(it: Item): Box {
    Box(it.left, it.top, it.width, it.height)
  }

  function Intersection(a: Box, b: Box): int {
    var xA := Max(a.left, b.left);
    var yA := Max(a.top, b.top);
    var xB := Min(a.left + a.width, b.left + b.width);
    var yB := Min(a.top + a.height, b.top + b.height);
    Max(0, xB - xA) * Max(0, yB - yA)
  }

  function Union(a: Box, b: Box): int {
    a.width * a.height + b.width * b.height - Intersection(a, b)
  }

  /** `iou`: intersection over union as an exact ratio, 0 when the union is empty. */
  function IoU(a: Box, b: Box): real {
    if Union(a, b) == 0 then 0.0 else Intersection(a, b) as real / Union(a, b) as real
  }

  predicate NonNegative(a: Box) {
    a.width >= 0 && a.height >= 0
  }

  lemma {:induction false} IoUSymmetric(a: Box, b: Box)
    ensures Intersection(a, b) == Intersection(b, a) && IoU(a, b) == IoU(b, a)
  {
  }

  lemma MulMono(x: int, y: int, cx: int, cy: int)
    requires 0 <= x <= cx && 0 <= y <= cy
    ensures 0 <= x * y <= cx * cy
  {
    assert x * y <= cx * y;
    assert cx * y <= cx * cy;
  }

  /** For boxes of non-negative size the overlap is at most each box's area. */
  lemma {:induction false} IntersectionBounds(a: Box, b: Box)
    requires NonNegative(a) && NonNegative(b)
    ensures 0 <= Intersection(a, b) <= a.width * a.height
    ensures Intersection(a, b) <= b.width * b.height
  {
    var xA := Max(a.left, b.left);
    var yA := Max(a.top, b.top);
    var xB := Min(a.left + a.width, b.left + b.width);
    var yB := Min(a.top + a.height, b.top + b.height);
    MulMono(Max(0, xB - xA), Max(0, yB - yA), a.width, a.height);
    MulMono(Max(0, xB - xA), Max(0, yB - yA), b.width, b.height);
  }

  lemma RatioAtMostOne(x: real, y: real)
    requires 0.0 <= x <= y && y > 0.0
    ensures 0.0 <= x / y <= 1.0
  {
    assert x / y * y == x;
  }

  /** For boxes of non-negative size the IoU lies in [0, 1]. */
  lemma {:induction false} IoUBounds(a: Box, b: Box)
    requires NonNegative(a) && NonNegative(b)
    ensures 0.0 <= IoU(a, b) <= 1.0
  {
    IntersectionBounds(a, b);
    if Union(a, b) != 0 {
      RatioAtMostOne(Intersection(a, b) as real, Union(a, b) as real);
    }
  }

  /** Boxes that do not overlap, or whose union is empty, have IoU 0. */
  lemma {:induction false} IoUDisjoint(a: Box, b: Box)
    requires a.left + a.width <= b.left || b.left + b.width <= a.left
          || a.top + a.height <= b.top || b.top + b.height <= a.top
          || Union(a, b) == 0
    ensures IoU(a, b) == 0.0
  {
    if Union(a, b) != 0 {
      assert Intersection(a, b) == 0;
    }
  }

  /** A box of positive area has IoU 1 with itself. */
  lemma {:induction false} IoUIdentical(a: Box)
    requires a.width > 0 && a.height > 0
    ensures IoU(a, a) == 1.0
  {
    var area := a.width * a.height;
    assert area > 0 by { MulMono(1, 1, a.width, a.height); }
    assert Intersection(a, a) == area && Union(a, a) == area;
    assert area as real / area as real == 1.0;
  }

  /**
   * The duplicate test of `dedupe_items` for a new item `it` against a kept
   * item `k`: equal amounts (|difference| < 0.01) and IoU above 0.4, or names
   * more than 90 similar and amounts closer than 1.00.
   */
  predicate IsDuplicate(it: Item, k: Item, sim: (string, string) -> Score) {
    (Abs(it.amount - k.amount) < 1 && IoU(BoxOf(it), BoxOf(k)) > IouThreshold)
    || (sim(it.name, k.name) > TextThreshold && Abs(it.amount - k.amount) < 100)
  }

  predicate DuplicateOfAny(it: Item, kept: seq<Item>, sim: (string, string) -> Score) {
    exists j :: 0 <= j < |kept| && IsDuplicate(it, kept[j], sim)
  }

  /** First-seen-wins filter: each item is kept unless it duplicates an item kept before it. */
  function Dedupe(items: seq<Item>, sim: (string, string) -> Score): seq<Item> {
    if items == [] then []
    else
      var kept := Dedupe(items[..|items| - 1], sim);
      var it := items[|items| - 1];
      if DuplicateOfAny(it, kept, sim) then kept else kept + [it]
  }

  /** `dedupe_items`. */
  method DedupeItems(items: seq<Item>, sim: (string, string) -> Score) returns (kept: seq<Item>)
    ensures kept == Dedupe(items, sim)
  {
    kept := [];
    var i := 0;
    while i < |items|
      invariant 0 <= i <= |items|
      invariant kept == Dedupe(items[..i], sim)
    {
      var it := items[i];
      var duplicate := false;
      var j := 0;
      while j < |kept|
        invariant 0 <= j <= |kept|
        invariant !duplicate
        invariant forall m :: 0 <= m < j ==> !IsDuplicate(it, kept[m], sim)
      {
        var k := kept[j];
        if Abs(it.amount - k.amount) < 1 && IoU(BoxOf(it), BoxOf(k)) > IouThreshold {
          duplicate := true;
          break;
        }
        if sim(it.name, k.name) > TextThreshold && Abs(it.amount - k.amount) < 100 {
          duplicate := true;
          break;
        }
        j := j + 1;
      }
      assert duplicate <==> DuplicateOfAny(it, kept, sim);
      if !duplicate {
        kept := kept + [it];
      }
      assert items[..i + 1][..i] == items[..i];
      i := i + 1;
    }
    assert items[..|items|] == items;
  }

  /** The positions in `items` of the items `Dedupe` keeps, in order. */
  ghost function KeptIndices(items: seq<Item>, sim: (string, string) -> Score): (r: seq<nat>)
    ensures |r| == |Dedupe(items, sim)| && StrictlyIncreasing(r)
    ensures forall j :: 0 <= j < |r| ==> r[j] < |items| && Dedupe(items, sim)[j] == items[r[j]]
  {
    if items == [] then []
    else
      var init := items[..|items| - 1];
      var r := KeptIndices(init, sim);
      assert forall j :: 0 <= j < |r| ==> init[r[j]] == items[r[j]];
      if DuplicateOfAny(items[|items| - 1], Dedupe(init, sim), sim) then r else r + [|items| - 1]
  }

  /** The first item of a non-empty input is always kept. */
  lemma {:induction false} DedupeKeepsFirst(items: seq<Item>, sim: (string, string) -> Score)
    requires |items| > 0
    ensures |Dedupe(items, sim)| > 0 && Dedupe(items, sim)[0] == items[0]
  {
    if |items| > 1 {
      var init := items[..|items| - 1];
      DedupeKeepsFirst(init, sim);
      assert init[0] == items[0];
    }
  }

  /** No kept item duplicates an item kept before it. */
  predicate DuplicateFree(kept: seq<Item>, sim: (string, string) -> Score) {
    forall i, j :: 0 <= i < j < |kept| ==> !IsDuplicate(kept[j], kept[i], sim)
  }

  lemma {:induction false} DedupeDuplicateFree(items: seq<Item>, sim: (string, string) -> Score)
    ensures DuplicateFree(Dedupe(items, sim), sim)
  {
    if items != [] {
      DedupeDuplicateFree(items[..|items| - 1], sim);
    }
  }

  /** Every dropped item duplicates an item kept before it. */
  lemma {:induction false} DedupeDropsOnlyDuplicates(items: seq<Item>, sim: (string, string) -> Score, i: nat)
    requires i < |items| && i !in KeptIndices(items, sim)
    ensures exists j :: 0 <= j < |KeptIndices(items, sim)| && KeptIndices(items, sim)[j] < i
                        && IsDuplicate(items[i], items[KeptIndices(items, sim)[j]], sim)
  {
    var init := items[..|items| - 1];
    var r := KeptIndices(init, sim);
    var kept := Dedupe(init, sim);
    if i == |items| - 1 {
      var j :| 0 <= j < |kept| && IsDuplicate(items[i], kept[j], sim);
      assert KeptIndices(items, sim)[j] == r[j] && r[j] < |init|;
    } else {
      assert i !in r;
      DedupeDropsOnlyDuplicates(init, sim, i);
      var j :| 0 <= j < |r| && r[j] < i && IsDuplicate(init[i], init[r[j]], sim);
      assert KeptIndices(items, sim)[j] == r[j];
    }
  }

  /** Dropping the last item keeps a list duplicate-free. */
  lemma DuplicateFreeInit(items: seq<Item>, sim: (string, string) -> Score)
    requires items != [] && DuplicateFree(items, sim)
    ensures DuplicateFree(items[..|items| - 1], sim)
  {
    var init := items[..|items| - 1];
    forall i, j | 0 <= i < j < |init| ensures !IsDuplicate(init[j], init[i], sim) {
      assert init[i] == items[i] && init[j] == items[j];
    }
  }

  /** The last item of a duplicate-free list duplicates none before it. */
  lemma DuplicateFreeLast(items: seq<Item>, sim: (string, string) -> Score)
    requires items != [] && DuplicateFree(items, sim)
    ensures !DuplicateOfAny(items[|items| - 1], items[..|items| - 1], sim)
  {
    var init := items[..|items| - 1];
    forall j | 0 <= j < |init| ensures !IsDuplicate(items[|items| - 1], init[j], sim) {
      assert init[j] == items[j];
    }
  }

  /** A duplicate-free list passes through `Dedupe` unchanged; so `Dedupe` is idempotent. */
  lemma {:induction false} DedupeFixesDuplicateFree(items: seq<Item>, sim: (string, string) -> Score)
    requires DuplicateFree(items, sim)
    ensures Dedupe(items, sim) == items
  {
    if items != [] {
      var init := items[..|items| - 1];
      var last := items[|items| - 1];
      DuplicateFreeInit(items, sim);
      DedupeFixesDuplicateFree(init, sim);
      DuplicateFreeLast(items, sim);
      DedupeKeepsFresh(items, Dedupe(init, sim), sim);
    }
  }

  /** An item that duplicates nothing kept so far is kept. */
  lemma DedupeKeepsFresh(items: seq<Item>, kept: seq<Item>, sim: (string, string) -> Score)
    requires items != [] && kept == Dedupe(items[..|items| - 1], sim)
    requires !DuplicateOfAny(items[|items| - 1], kept, sim)
    ensures Dedupe(items, sim) == kept + [items[|items| - 1]]
  {
  }

  lemma {:induction false} DedupeIdempotent(items: seq<Item>, sim: (string, string) -> Score)
    ensures Dedupe(Dedupe(items, sim), sim) == Dedupe(items, sim)
  {
    DedupeDuplicateFree(items, sim);
    DedupeFixesDuplicateFree(Dedupe(items, sim), sim);
  }

  /** The candidate one line yields, if its stripped text holds an amount. */
  function CandidateOf(ln: Line): Option<Item> {
    var text := Strip(ln.text);
    match ParseAmount(text)
    case None => None
    case Some(amt) =>
      var qr := SearchQtyRate(text, 0);
      var name := Strip(RemoveAmounts(text));
      Some(Item(if name != [] then name else text, amt,
                if qr.Some? then Some(qr.value.rate) else None,
                if qr.Some? then Some(qr.value.quantity) else None,
                ln.left, ln.top, ln.width, ln.height))
  }

  /** Each line's candidate, position by position. */
  function LineCandidates(lines: seq<Line>): (r: seq<Option<Item>>)
    ensures |r| == |lines|
  {
    seq(|lines|, i requires 0 <= i < |lines| => CandidateOf(lines[i]))
  }

  /** The candidates of the lines, in line order, before de-duplication. */
  function Candidates(lines: seq<Line>): seq<Item> {
    Somes(LineCandidates(lines))
  }

  /** The body of the loop of `extract_line_items_from_lines`, for one line. */
  method BuildCandidate(ln: Line) returns (c: Option<Item>)
    ensures c == CandidateOf(ln)
  {
    var text := Strip(ln.text);
    var amt := ParseAmount(text);
    c := None;
    if amt.Some? {
      var qty: Option<int> := None;
      var rate: Option<int> := None;
      var m := SearchQtyRate(text, 0);
      if m.Some? {
        qty := Some(m.value.quantity);
        rate := Some(m.value.rate);
      }
      var name := Strip(RemoveAmounts(text));
      c := Some(Item(if name != [] then name else text, amt.value, rate, qty,
                     ln.left, ln.top, ln.width, ln.height));
    }
  }

  /** `extract_line_items_from_lines`: one candidate per line with an amount, then `dedupe_items`. */
  method ExtractLineItems(lines: seq<Line>, sim: (string, string) -> Score) returns (items: seq<Item>)
    ensures items == Dedupe(Candidates(lines), sim)
  {
    var candidates := CollectCandidates(lines);
    items := DedupeItems(candidates, sim);
  }

  /** The candidate loop of `extract_line_items_from_lines`. */
  method CollectCandidates(lines: seq<Line>) returns (candidates: seq<Item>)
    ensures candidates == Candidates(lines)
  {
    ghost var cs := LineCandidates(lines);
    candidates := [];
    var i := 0;
    while i < |lines|
      invariant 0 <= i <= |lines|
      invariant candidates == Somes(cs[..i])
    {
      var c := BuildCandidate(lines[i]);
      assert cs[..i + 1][..i] == cs[..i];
      assert cs[..i + 1][i] == c;
      if c.Some? {
        candidates := candidates + [c.value];
      }
      i := i + 1;
    }
    assert cs[..|lines|] == cs;
  }

  /** A line has a candidate exactly when its stripped text parses to an amount (zero included). */
  predicate HasAmount(ln: Line) {
    ParseAmount(Strip(ln.text)).Some?
  }

  /**
   * The candidates come from the lines with an amount, one each, in line order:
   * the `j`-th candidate is the candidate of line `src[j]`.
   */
  lemma CandidateSources(lines: seq<Line>)
    ensures var src := SomeIndices(LineCandidates(lines));
            && |src| == |Candidates(lines)| && StrictlyIncreasing(src)
            && (forall j :: 0 <= j < |src| ==> src[j] < |lines| && CandidateOf(lines[src[j]]) == Some(Candidates(lines)[j]))
            && (forall i :: 0 <= i < |lines| ==> (CandidateOf(lines[i]).Some? <==> i in src))
  {
    var cs := LineCandidates(lines);
    var src := SomeIndices(cs);
    assert forall j :: 0 <= j < |src| ==> cs[src[j]] == CandidateOf(lines[src[j]]);
    assert forall i :: 0 <= i < |lines| ==> cs[i] == CandidateOf(lines[i]);
  }

  /**
   * A line has a candidate exactly when it has an amount. The candidate copies
   * its line's box, takes the amount of the stripped text, has rate and
   * quantity both set exactly when the quantity x rate pattern is found in the
   * stripped text and then its two numbers, and a non-empty name: the stripped text
   * with every amount removed, then stripped, or the stripped text itself when
   * nothing is left.
   */
  lemma {:induction false} CandidateShape(ln: Line)
    ensures CandidateOf(ln).Some? <==> HasAmount(ln)
    ensures CandidateOf(ln).Some? ==>
            var c := CandidateOf(ln).value; var text := Strip(ln.text);
            && c.left == ln.left && c.top == ln.top && c.width == ln.width && c.height == ln.height
            && Some(c.amount) == ParseAmount(text) && 0 <= c.amount <= 99999
            && (c.rate.Some? <==> c.quantity.Some?)
            && c.name != [] && |c.name| <= |text|
            && (c.name == Strip(RemoveAmounts(text)) || (Strip(RemoveAmounts(text)) == [] && c.name == text))
    ensures CandidateOf(ln).Some? ==>
            var c := CandidateOf(ln).value; var qr := SearchQtyRate(Strip(ln.text), 0);
            && (c.rate.Some? <==> qr.Some?)
            && (qr.Some? ==> c.rate == Some(qr.value.rate) && c.quantity == Some(qr.value.quantity))
  {
    var text := Strip(ln.text);
    if ParseAmount(text).Some? {
      ParseAmountRange(text);
      ParseAmountNoneIff(text);
      RemoveAmountsSpec(text);
    }
  }

  /** The amount of a line with total keywords counts only when it is present and non-zero. */
  predicate Truthy(amt: Option<int>) {
    amt.Some? && amt.value != 0
  }

  predicate AnyKeyword(keywords: seq<string>, t: string) {
    exists j :: 0 <= j < |keywords| && Contains(t, keywords[j])
  }

  /** How many of the keywords occur in `t`. */
  function KeywordHits(keywords: seq<string>, t: string): (n: nat)
    ensures n <= |keywords|
    ensures n > 0 <==> AnyKeyword(keywords, t)
  {
    if keywords == [] then 0
    else
      var init := keywords[..|keywords| - 1];
      var n := KeywordHits(init, t) + if Contains(t, keywords[|keywords| - 1]) then 1 else 0;
      assert AnyKeyword(init, t) ==> AnyKeyword(keywords, t) by {
        if AnyKeyword(init, t) {
          var j :| 0 <= j < |init| && Contains(t, init[j]);
          assert keywords[j] == init[j];
        }
      }
      assert AnyKeyword(keywords, t) ==> n > 0 by {
        if AnyKeyword(keywords, t) {
          var j :| 0 <= j < |keywords| && Contains(t, keywords[j]);
          if j < |init| { assert init[j] == keywords[j]; }
        }
      }
      n
  }

  function Repeat(v: int, n: nat): (r: seq<int>)
    ensures |r| == n && forall k :: 0 <= k < n ==> r[k] == v
  {
    seq(n, _ => v)
  }

  lemma RepeatAppend(prefix: seq<int>, v: int, n: nat)
    ensures prefix + Repeat(v, n + 1) == prefix + Repeat(v, n) + [v]
  {
    assert Repeat(v, n + 1) == Repeat(v, n) + [v];
  }

  /** `{"detected_invoice_total": ..., "detected_subtotals": [...]}`. */
  datatype Totals = Totals(invoiceTotal: Option<int>, subtotals: seq<int>)

  /**
   * What `find_totals` observes on one line: the amount of its (unstripped)
   * text, whether its lowered text holds a total keyword, and how many
   * subtotal keywords it holds.
   */
  datatype Reading = Reading(amount: Option<int>, totalHit: bool, subtotalHits: nat)

  function ReadingOf(ln: Line): Reading {
    var t := Lower(ln.text);
    Reading(ParseAmount(ln.text), AnyKeyword(TotalKeywords, t), KeywordHits(SubtotalKeywords, t))
  }

  function Readings(lines: seq<Line>): (r: seq<Reading>)
    ensures |r| == |lines|
  {
    seq(|lines|, i requires 0 <= i < |lines| => ReadingOf(lines[i]))
  }

  /** A reading that sets the invoice total. */
  predicate IsTotal(r: Reading) {
    r.totalHit && Truthy(r.amount)
  }

  /** What one line does to the totals record. */
  function Step(acc: Totals, r: Reading): Totals {
    Totals(
      if IsTotal(r) then r.amount else acc.invoiceTotal,
      if Truthy(r.amount) then acc.subtotals + Repeat(r.amount.value, r.subtotalHits) else acc.subtotals)
  }

  function Accumulate(rs: seq<Reading>): Totals {
    if rs == [] then Totals(None, [])
    else Step(Accumulate(rs[..|rs| - 1]), rs[|rs| - 1])
  }

  function TotalsOf(lines: seq<Line>): Totals {
    Accumulate(Readings(lines))
  }

  lemma AnyKeywordStep(keywords: seq<string>, j: nat, t: string)
    requires j < |keywords|
    ensures AnyKeyword(keywords[..j + 1], t) <==> AnyKeyword(keywords[..j], t) || Contains(t, keywords[j])
  {
    assert keywords[..j + 1][..j] == keywords[..j];
  }

  lemma KeywordHitsStep(keywords: seq<string>, j: nat, t: string)
    requires j < |keywords|
    ensures KeywordHits(keywords[..j + 1], t) == KeywordHits(keywords[..j], t) + if Contains(t, keywords[j]) then 1 else 0
  {
    assert keywords[..j + 1][..j] == keywords[..j];
  }

  /** The loop of `find_totals` over the total keywords `keywords`, on the lowered text `t` of the line `text`. */
  method ScanTotalKeywords(keywords: seq<string>, current: Option<int>, t: string, text: string) returns (total: Option<int>)
    ensures total == if AnyKeyword(keywords, t) && Truthy(ParseAmount(text)) then ParseAmount(text) else current
  {
    total := current;
    ghost var a := ParseAmount(text);
    var j := 0;
    while j < |keywords|
      invariant 0 <= j <= |keywords|
      invariant total == if AnyKeyword(keywords[..j], t) && Truthy(a) then a else current
    {
      if Contains(t, keywords[j]) {
        var amt := ParseAmount(text);
        if amt.Some? && amt.value != 0 {
          total := Some(amt.value);
        }
      }
      AnyKeywordStep(keywords, j, t);
      j := j + 1;
    }
    assert keywords[..j] == keywords;
  }

  /** The loop of `find_totals` over the subtotal keywords `keywords`: one append per keyword found. */
  method ScanSubtotalKeywords(keywords: seq<string>, subtotals: seq<int>, t: string, text: string) returns (r: seq<int>)
    ensures r == if Truthy(ParseAmount(text))
                 then subtotals + Repeat(ParseAmount(text).value, KeywordHits(keywords, t))
                 else subtotals
  {
    r := subtotals;
    ghost var a := ParseAmount(text);
    var j := 0;
    while j < |keywords|
      invariant 0 <= j <= |keywords|
      invariant r == if Truthy(a) then subtotals + Repeat(a.value, KeywordHits(keywords[..j], t)) else subtotals
    {
      if Contains(t, keywords[j]) {
        var amt := ParseAmount(text);
        if amt.Some? && amt.value != 0 {
          RepeatAppend(subtotals, amt.value, KeywordHits(keywords[..j], t));
          r := r + [amt.value];
        }
      }
      KeywordHitsStep(keywords, j, t);
      j := j + 1;
    }
    assert keywords[..j] == keywords;
  }

  /** The body of the loop of `find_totals`, for one line. */
  method ScanLine(acc: Totals, ln: Line) returns (totals: Totals)
    ensures totals == Step(acc, ReadingOf(ln))
  {
    var t := Lower(ln.text);
    var total := ScanTotalKeywords(TotalKeywords, acc.invoiceTotal, t, ln.text);
    var subtotals := ScanSubtotalKeywords(SubtotalKeywords, acc.subtotals, t, ln.text);
    totals := Totals(total, subtotals);
  }

  /** `find_totals`. */
  method FindTotals(lines: seq<Line>) returns (totals: Totals)
    ensures totals == TotalsOf(lines)
  {
    ghost var rs := Readings(lines);
    totals := Totals(None, []);
    var i := 0;
    while i < |lines|
      invariant 0 <= i <= |lines|
      invariant totals == Accumulate(rs[..i])
    {
      totals := ScanLine(totals, lines[i]);
      assert rs[..i + 1][..i] == rs[..i];
      i := i + 1;
    }
    assert rs[..|lines|] == rs;
  }

  /**
   * The detected invoice total is the amount of the last total reading, and is
   * absent exactly when there is none; it is never zero.
   */
  lemma {:induction false} InvoiceTotalIsLast(rs: seq<Reading>)
    ensures Accumulate(rs).invoiceTotal.None? <==> forall i :: 0 <= i < |rs| ==> !IsTotal(rs[i])
    ensures forall i :: 0 <= i < |rs| && IsTotal(rs[i]) && (forall j :: i < j < |rs| ==> !IsTotal(rs[j]))
                        ==> Accumulate(rs).invoiceTotal == rs[i].amount
    ensures Accumulate(rs).invoiceTotal.Some? ==> Accumulate(rs).invoiceTotal.value != 0
  {
    if rs != [] {
      var init := rs[..|rs| - 1];
      InvoiceTotalIsLast(init);
      assert forall i :: 0 <= i < |init| ==> init[i] == rs[i];
    }
  }

  /** Every subtotal keyword contains "total", so every subtotal line is also a total line. */
  lemma {:induction false} SubtotalLineIsTotalLine(t: string)
    requires AnyKeyword(SubtotalKeywords, t)
    ensures AnyKeyword(TotalKeywords, t)
  {
    var j :| 0 <= j < |SubtotalKeywords| && Contains(t, SubtotalKeywords[j]);
    var k := SubtotalKeywords[j];
    assert Contains(k, "total") by {
      if j == 0 { assert OccursAt(k, "total", 3); }
      else { assert OccursAt(k, "total", 4); }
    }
    ContainsTransitive(t, k, "total");
    assert Contains(t, TotalKeywords[0]);
  }

  /** What every line's reading satisfies: subtotal keywords imply a total keyword, amounts at most 999.99. */
  predicate Consistent(r: Reading) {
    (r.subtotalHits > 0 ==> r.totalHit) && (r.amount.Some? ==> 0 <= r.amount.value <= 99999)
  }

  lemma {:induction false} ReadingConsistent(ln: Line)
    ensures Consistent(ReadingOf(ln))
  {
    var t := Lower(ln.text);
    if ParseAmount(ln.text).Some? {
      ParseAmountRange(ln.text);
    }
    if KeywordHits(SubtotalKeywords, t) > 0 {
      SubtotalLineIsTotalLine(t);
    }
  }

  /** Subtotals are all non-zero, at most 999.99, and found only where an invoice total is found too. */
  lemma {:induction false} SubtotalsImplyTotal(rs: seq<Reading>)
    requires forall i :: 0 <= i < |rs| ==> Consistent(rs[i])
    ensures forall k :: 0 <= k < |Accumulate(rs).subtotals| ==> 0 < Accumulate(rs).subtotals[k] <= 99999
    ensures |Accumulate(rs).subtotals| > 0 ==> Accumulate(rs).invoiceTotal.Some?
  {
    if rs != [] {
      SubtotalsImplyTotal(rs[..|rs| - 1]);
    }
  }

  lemma ReadingsConsistent(lines: seq<Line>)
    ensures forall i :: 0 <= i < |lines| ==> Consistent(Readings(lines)[i])
  {
    forall i | 0 <= i < |lines| ensures Consistent(Readings(lines)[i]) {
      ReadingConsistent(lines[i]);
    }
  }

  /** The subtotal property above for the totals `find_totals` computes from lines. */
  lemma FindTotalsSubtotals(lines: seq<Line>)
    ensures forall k :: 0 <= k < |TotalsOf(lines).subtotals| ==> 0 < TotalsOf(lines).subtotals[k] <= 99999
    ensures |TotalsOf(lines).subtotals| > 0 ==> TotalsOf(lines).invoiceTotal.Some?
  {
    ReadingsConsistent(lines);
    SubtotalsImplyTotal(Readings(lines));
  }

  /** "sub-total:" matches both "sub-total" and "sub-total:", so such a line appends its amount twice. */
  lemma {:induction false} ColonSubtotalCountsTwice(t: string)
    requires Contains(t, "sub-total:")
    ensures KeywordHits(SubtotalKeywords, t) >= 2
  {
    assert Contains("sub-total:", "sub-total") by { assert OccursAt("sub-total:", "sub-total", 0); }
    ContainsTransitive(t, "sub-total:", "sub-total");
    assert SubtotalKeywords[..3][..2] == SubtotalKeywords[..2];
    assert SubtotalKeywords[..3] == SubtotalKeywords[..4][..3];
    assert SubtotalKeywords[..4] == SubtotalKeywords;
  }
}

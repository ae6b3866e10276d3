/**
 * app/main.py, lines 37-84 of `extract_bill_data`: the per-page loop that
 * collects cleaned bill items, the item count, the summed item amounts and
 * the page invoice totals, then the reconciliation of the two totals.
 * Rasterising, preprocessing and OCR of each page are replaced by the
 * page's words (`ProcessPage`) or by the page's extraction results.
 */
module BillData {
  import opened Wrappers
  import opened Text
  import opened OcrUtils
  import opened Extractor

  /** What one page yields: `extract_line_items_from_lines(lines)` and `find_totals(lines)`. */
  datatype PageResult = PageResult(items: seq<Item>, totals: Totals)

  /** An entry of `bill_items`: only name, amount, rate and quantity are kept. */
  datatype BillItem = BillItem(name: string, amount: int, rate: Option<int>, quantity: Option<int>)

  /** An entry of `pagewise_line_items`. */
  datatype PageOut = PageOut(pageNo: string, pageType: string, billItems: seq<BillItem>)

  datatype Status = Match | Mismatch | Unknown

  datatype Reconciliation = Reconciliation(difference: Option<int>, status: Status)

  /** The `data` part of the response, less timing and token usage. */
  datatype BillSummary = BillSummary(
    pages: seq<PageOut>,
    totalItemCount: nat,
    finalTotal: int,
    invoiceTotal: Option<int>,
    reconciliation: Reconciliation)

  const PageType: string := "Bill Detail"

  /** `round(float(v), 2) if v else None`: a missing or zero value becomes `None`. */
  function CleanValue(v: Option<int>): Option<int> {
    if Truthy(v) then v else None
  }

  function CleanItem(it: Item): BillItem {
    BillItem(it.name, it.amount, CleanValue(it.rate), CleanValue(it.quantity))
  }

  function CleanItems(items: seq<Item>): (r: seq<BillItem>)
    ensures |r| == |items|
  {
    seq(|items|, k requires 0 <= k < |items| => CleanItem(items[k]))
  }

  /** The page record for the `i`-th page (counting from 0). */
  function PageOutOf(i: nat, p: PageResult): PageOut {
    PageOut(NatToDecimal(i + 1), PageType, CleanItems(p.items))
  }

  function PagesOf(pages: seq<PageResult>): (r: seq<PageOut>)
    ensures |r| == |pages|
  {
    seq(|pages|, i requires 0 <= i < |pages| => PageOutOf(i, pages[i]))
  }

  /** The number of bill items over all emitted pages. */
  function BillItemCount(ps: seq<PageOut>): nat {
    if ps == [] then 0 else BillItemCount(ps[..|ps| - 1]) + |ps[|ps| - 1].billItems|
  }

  function ItemsAmount(items: seq<Item>): int {
    if items == [] then 0 else ItemsAmount(items[..|items| - 1]) + items[|items| - 1].amount
  }

  /** The sum of every kept item amount of every page. */
  function AmountOf(pages: seq<PageResult>): int {
    if pages == [] then 0 else AmountOf(pages[..|pages| - 1]) + ItemsAmount(pages[|pages| - 1].items)
  }

  /** The page invoice totals that count (present and non-zero), in page order. */
  function InvoiceTotals(pages: seq<PageResult>): seq<int> {
    if pages == [] then []
    else
      var init := InvoiceTotals(pages[..|pages| - 1]);
      var t := pages[|pages| - 1].totals.invoiceTotal;
      if Truthy(t) then init + [t.value] else init
  }

  /** `invoice_totals[-1] if invoice_totals else None`. */
  function LastInvoiceTotal(pages: seq<PageResult>): Option<int> {
    var ts := InvoiceTotals(pages);
    if ts == [] then None else Some(ts[|ts| - 1])
  }

  /**
   * The reconciliation fields: with a total that counts, the difference
   * total - final and MATCH when they agree to the hundredth, MISMATCH
   * otherwise; with none, no difference and UNKNOWN.
   */
  function Reconcile(actual: Option<int>, final: int): Reconciliation {
    if Truthy(actual) then
      Reconciliation(Some(actual.value - final), if Abs(actual.value - final) < 1 then Match else Mismatch)
    else Reconciliation(None, Unknown)
  }

  /** The inner loop: cleaned items of one page and the sum of their amounts, added to `acc`. */
  method CleanPage(items: seq<Item>, acc: int) returns (billItems: seq<BillItem>, amount: int)
    ensures billItems == CleanItems(items)
    ensures amount == acc + ItemsAmount(items)
  {
    billItems := [];
    amount := acc;
    var k := 0;
    while k < |items|
      invariant 0 <= k <= |items|
      invariant billItems == CleanItems(items[..k])
      invariant amount == acc + ItemsAmount(items[..k])
    {
      var it := items[k];
      billItems := billItems + [BillItem(it.name, it.amount,
                                         if it.rate.Some? && it.rate.value != 0 then it.rate else None,
                                         if it.quantity.Some? && it.quantity.value != 0 then it.quantity else None)];
      amount := amount + it.amount;
      assert items[..k + 1][..k] == items[..k];
      k := k + 1;
    }
    assert items[..|items|] == items;
  }

  /** Lines 37-63: the page loop and its four accumulators. */
  method AccumulatePages(pages: seq<PageResult>)
    returns (pagewise: seq<PageOut>, totalItems: nat, allAmount: int, invoiceTotals: seq<int>)
    ensures pagewise == PagesOf(pages)
    ensures totalItems == BillItemCount(pagewise)
    ensures allAmount == AmountOf(pages)
    ensures invoiceTotals == InvoiceTotals(pages)
  {
    pagewise, totalItems, allAmount, invoiceTotals := [], 0, 0, [];
    var i := 0;
    while i < |pages|
      invariant 0 <= i <= |pages|
      invariant pagewise == PagesOf(pages[..i])
      invariant totalItems == BillItemCount(pagewise)
      invariant allAmount == AmountOf(pages[..i])
      invariant invoiceTotals == InvoiceTotals(pages[..i])
    {
      var totals := pages[i].totals;
      if totals.invoiceTotal.Some? && totals.invoiceTotal.value != 0 {
        invoiceTotals := invoiceTotals + [totals.invoiceTotal.value];
      }
      var billItems;
      billItems, allAmount := CleanPage(pages[i].items, allAmount);
      var page := PageOut(NatToDecimal(i + 1), PageType, billItems);
      PagesOfStep(pages, i);
      AmountOfStep(pages, i);
      InvoiceTotalsStep(pages, i);
      BillItemCountAppend(pagewise, page);
      pagewise := pagewise + [page];
      totalItems := totalItems + |billItems|;
      i := i + 1;
    }
    assert pages[..|pages|] == pages;
  }

  /** Lines 37-84 of `extract_bill_data`, on the pages' extraction results. */
  method ExtractBillData(pages: seq<PageResult>) returns (d: BillSummary)
    ensures d.pages == PagesOf(pages)
    ensures d.totalItemCount == BillItemCount(d.pages)
    ensures d.finalTotal == AmountOf(pages)
    ensures d.invoiceTotal == LastInvoiceTotal(pages)
    ensures d.reconciliation == Reconcile(d.invoiceTotal, d.finalTotal)
  {
    var pagewise, totalItems, allAmount, invoiceTotals := AccumulatePages(pages);
    var finalTotal := allAmount;
    var actual := if invoiceTotals != [] then Some(invoiceTotals[|invoiceTotals| - 1]) else None;
    var reconciliation := ReconcileTotals(actual, finalTotal);
    d := BillSummary(pagewise, totalItems, finalTotal, actual, reconciliation);
  }

  /** Lines 82-84: the difference and the status of the detected against the summed total. */
  method ReconcileTotals(actual: Option<int>, finalTotal: int) returns (r: Reconciliation)
    ensures r == Reconcile(actual, finalTotal)
  {
    var difference := if actual.Some? && actual.value != 0 then Some(actual.value - finalTotal) else None;
    var status := if actual.Some? && actual.value != 0 && Abs(actual.value - finalTotal) < 1 then Match
                  else if actual.Some? && actual.value != 0 then Mismatch
                  else Unknown;
    r := Reconciliation(difference, status);
  }

  /** How each reference function grows by one page. */
  lemma PagesOfStep(pages: seq<PageResult>, i: nat)
    requires i < |pages|
    ensures PagesOf(pages[..i + 1]) == PagesOf(pages[..i]) + [PageOutOf(i, pages[i])]
  {
  }

  lemma AmountOfStep(pages: seq<PageResult>, i: nat)
    requires i < |pages|
    ensures AmountOf(pages[..i + 1]) == AmountOf(pages[..i]) + ItemsAmount(pages[i].items)
  {
    assert pages[..i + 1][..i] == pages[..i];
  }

  lemma InvoiceTotalsStep(pages: seq<PageResult>, i: nat)
    requires i < |pages|
    ensures InvoiceTotals(pages[..i + 1]) ==
              InvoiceTotals(pages[..i]) + (if Truthy(pages[i].totals.invoiceTotal) then [pages[i].totals.invoiceTotal.value] else [])
  {
    assert pages[..i + 1][..i] == pages[..i];
  }

  lemma BillItemCountAppend(ps: seq<PageOut>, p: PageOut)
    ensures BillItemCount(ps + [p]) == BillItemCount(ps) + |p.billItems|
  {
    assert (ps + [p])[..|ps|] == ps;
  }

  /** One page: OCR lines from its words, then line items and totals from those lines. */
  method ProcessPage(raw: seq<RawToken>, sim: (string, string) -> Score) returns (p: PageResult)
    ensures var lines := LinesOf(SortByTopLeft(Tokens(raw)));
            p == PageResult(Dedupe(Candidates(lines), sim), TotalsOf(lines))
    ensures AmountsInRange(p.items)
  {
    var lines := OcrLines(raw);
    var items := ExtractLineItems(lines, sim);
    var totals := FindTotals(lines);
    ExtractedAmountsInRange(lines, sim);
    p := PageResult(items, totals);
  }

  /** Every amount lies in 0..999.99, the range the amount pattern can express. */
  predicate AmountsInRange(items: seq<Item>) {
    forall k :: 0 <= k < |items| ==> 0 <= items[k].amount <= 99999
  }

  /** The items extracted from any lines have amounts in range and non-empty names. */
  lemma ExtractedAmountsInRange(lines: seq<Line>, sim: (string, string) -> Score)
    ensures AmountsInRange(Dedupe(Candidates(lines), sim))
    ensures forall k :: 0 <= k < |Dedupe(Candidates(lines), sim)| ==> Dedupe(Candidates(lines), sim)[k].name != []
  {
    var cs := Candidates(lines);
    var kept := KeptIndices(cs, sim);
    CandidateSources(lines);
    var src := SomeIndices(LineCandidates(lines));
    forall j | 0 <= j < |cs|
      ensures 0 <= cs[j].amount <= 99999 && cs[j].name != []
    {
      CandidateShape(lines[src[j]]);
    }
  }

  /** With every page's amounts in range, the final total is between 0 and 999.99 per item. */
  lemma {:induction false} FinalTotalBound(pages: seq<PageResult>)
    requires forall i :: 0 <= i < |pages| ==> AmountsInRange(pages[i].items)
    ensures 0 <= AmountOf(pages) <= 99999 * ItemCount(pages)
  {
    if pages != [] {
      var last := pages[|pages| - 1].items;
      FinalTotalBound(pages[..|pages| - 1]);
      ItemsAmountBound(last);
    }
  }

  /**
   * Pages come out in input order, numbered "1", "2", ...: the number is a
   * digit string with no leading zero that reads back as the position plus
   * one, so by `NatToDecimalCanonical` it is exactly `str(i + 1)`.  Every
   * page has type "Bill Detail" and one cleaned bill item per extracted item.
   */
  lemma PagesSpec(pages: seq<PageResult>)
    ensures forall i :: 0 <= i < |pages| ==>
              var po := PagesOf(pages)[i];
              && |po.pageNo| > 0 && AllDigits(po.pageNo) && DecimalValue(po.pageNo) == i + 1
              && po.pageNo[0] != '0'
              && po.pageType == "Bill Detail"
              && |po.billItems| == |pages[i].items|
              && forall k :: 0 <= k < |pages[i].items| ==> po.billItems[k] == CleanItem(pages[i].items[k])
  {
  }

  /** A cleaned item keeps name and amount; rate and quantity survive exactly when present and non-zero. */
  lemma CleanItemSpec(it: Item)
    ensures CleanItem(it).name == it.name && CleanItem(it).amount == it.amount
    ensures CleanItem(it).rate.None? <==> it.rate.None? || it.rate.value == 0
    ensures CleanItem(it).quantity.None? <==> it.quantity.None? || it.quantity.value == 0
    ensures CleanItem(it).rate.Some? ==> CleanItem(it).rate == it.rate
    ensures CleanItem(it).quantity.Some? ==> CleanItem(it).quantity == it.quantity
  {
  }

  /** The item count is the total number of extracted items over all pages. */
  lemma {:induction false} ItemCountIsItemTotal(pages: seq<PageResult>)
    ensures BillItemCount(PagesOf(pages)) == ItemCount(pages)
  {
    if pages != [] {
      var init := pages[..|pages| - 1];
      ItemCountIsItemTotal(init);
      assert PagesOf(pages)[..|pages| - 1] == PagesOf(init);
    }
  }

  function ItemCount(pages: seq<PageResult>): nat {
    if pages == [] then 0 else ItemCount(pages[..|pages| - 1]) + |pages[|pages| - 1].items|
  }

  /** All pages' items, page after page. */
  function AllItems(pages: seq<PageResult>): seq<Item> {
    if pages == [] then [] else AllItems(pages[..|pages| - 1]) + pages[|pages| - 1].items
  }

  lemma {:induction false} ItemsAmountAppend(a: seq<Item>, b: seq<Item>)
    ensures ItemsAmount(a + b) == ItemsAmount(a) + ItemsAmount(b)
    decreases |b|
  {
    if b == [] {
      assert a + b == a;
    } else {
      var b' := b[..|b| - 1];
      ItemsAmountAppend(a, b');
      assert (a + b)[..|a + b| - 1] == a + b';
    }
  }

  /**
   * The final total sums the amounts of all items of all pages, one list
   * after the other: nothing is de-duplicated across pages.
   */
  lemma {:induction false} FinalTotalIsItemSum(pages: seq<PageResult>)
    ensures AmountOf(pages) == ItemsAmount(AllItems(pages))
    ensures |AllItems(pages)| == ItemCount(pages)
  {
    if pages != [] {
      var init := pages[..|pages| - 1];
      FinalTotalIsItemSum(init);
      ItemsAmountAppend(AllItems(init), pages[|pages| - 1].items);
    }
  }

  /** No page from `i` on has a total that counts. */
  predicate NoTotalFrom(pages: seq<PageResult>, i: nat) {
    forall j :: i <= j < |pages| ==> !Truthy(pages[j].totals.invoiceTotal)
  }

  lemma {:induction false} InvoiceTotalsEmpty(pages: seq<PageResult>)
    ensures InvoiceTotals(pages) == [] <==> NoTotalFrom(pages, 0)
  {
    if pages != [] {
      var init := pages[..|pages| - 1];
      InvoiceTotalsEmpty(init);
      assert forall j :: 0 <= j < |init| ==> init[j] == pages[j];
    }
  }

  lemma {:induction false} InvoiceTotalsNonZero(pages: seq<PageResult>)
    ensures forall k :: 0 <= k < |InvoiceTotals(pages)| ==> InvoiceTotals(pages)[k] != 0
  {
    if pages != [] {
      InvoiceTotalsNonZero(pages[..|pages| - 1]);
    }
  }

  lemma {:induction false} LastInvoiceTotalAt(pages: seq<PageResult>, i: nat)
    requires i < |pages| && Truthy(pages[i].totals.invoiceTotal) && NoTotalFrom(pages, i + 1)
    ensures LastInvoiceTotal(pages) == pages[i].totals.invoiceTotal
  {
    if i < |pages| - 1 {
      var init := pages[..|pages| - 1];
      assert init[i] == pages[i];
      assert NoTotalFrom(init, i + 1) by {
        assert forall j :: i + 1 <= j < |init| ==> init[j] == pages[j];
      }
      LastInvoiceTotalAt(init, i);
      assert !Truthy(pages[|pages| - 1].totals.invoiceTotal);
    }
  }

  /**
   * The detected total is the last page total, in page order, that is
   * present and non-zero, and absent exactly when no page has one.
   */
  lemma LastInvoiceTotalSpec(pages: seq<PageResult>)
    ensures LastInvoiceTotal(pages).None? <==> forall i :: 0 <= i < |pages| ==> !Truthy(pages[i].totals.invoiceTotal)
    ensures forall i :: 0 <= i < |pages| && Truthy(pages[i].totals.invoiceTotal) && NoTotalFrom(pages, i + 1)
                        ==> LastInvoiceTotal(pages) == pages[i].totals.invoiceTotal
    ensures LastInvoiceTotal(pages).Some? ==> LastInvoiceTotal(pages).value != 0
  {
    InvoiceTotalsEmpty(pages);
    InvoiceTotalsNonZero(pages);
    forall i | 0 <= i < |pages| && Truthy(pages[i].totals.invoiceTotal) && NoTotalFrom(pages, i + 1)
      ensures LastInvoiceTotal(pages) == pages[i].totals.invoiceTotal
    {
      LastInvoiceTotalAt(pages, i);
    }
  }

  /** Without a total that counts the status is UNKNOWN; otherwise MATCH exactly when the totals are equal. */
  lemma ReconcileSpec(actual: Option<int>, final: int)
    ensures Reconcile(actual, final).status == Unknown <==> !Truthy(actual)
    ensures Reconcile(actual, final).difference.None? <==> !Truthy(actual)
    ensures Truthy(actual) ==>
              Reconcile(actual, final).difference == Some(actual.value - final)
              && (Reconcile(actual, final).status == Match <==> actual.value == final)
  {
  }

  lemma {:induction false} ItemsAmountBound(items: seq<Item>)
    requires AmountsInRange(items)
    ensures 0 <= ItemsAmount(items) <= 99999 * |items|
  {
    if items != [] {
      ItemsAmountBound(items[..|items| - 1]);
    }
  }
}

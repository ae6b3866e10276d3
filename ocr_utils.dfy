/**
 * app/ocr_utils.py, the grouping half of `ocr_image_with_boxes`: word tokens
 * are filtered, sorted by `(top, left)` and merged into lines in one forward
 * pass.  The word list that `pytesseract.image_to_data` would produce is an
 * input.
 */
module OcrUtils {
  import opened Wrappers
  import opened Text

  /** One word as the OCR engine reports it; `conf` is still text. */
  datatype RawToken = RawToken(text: string, left: int, top: int, width: int, height: int, conf: string)

  /** A kept word: stripped non-empty text and an integer confidence. */
  datatype Token = Token(text: string, left: int, top: int, width: int, height: int, conf: int)

  /** A line handed to the extractor. */
  datatype Line = Line(text: string, left: int, top: int, width: int, height: int)

  function Max(a: int, b: int): int { if a >= b then a else b }
  function Min(a: int, b: int): int { if a <= b then a else b }
  function Abs(a: int): nat { if a >= 0 then a else -a }

  /** `str.isdigit()`: non-empty and all digits. */
  predicate IsDigitString(s: string) {
    |s| > 0 && AllDigits(s)
  }

  /** `int(conf) if conf.isdigit() else -1`. */
  function ParseConf(c: string): (n: int)
    ensures n >= -1
    ensures n == -1 <==> !IsDigitString(c)
  {
    if IsDigitString(c) then DecimalValue(c) else -1
  }

  /** A confidence written in decimal reads back as itself. */
  lemma ParseConfRoundTrip(n: nat)
    ensures ParseConf(NatToDecimal(n)) == n
  {
  }

  /** The record a raw word becomes, or `None` when its stripped text is empty. */
  function TokenOf(r: RawToken): Option<Token> {
    var text := Strip(r.text);
    if text == "" then None
    else Some(Token(text, r.left, r.top, r.width, r.height, ParseConf(r.conf)))
  }

  function TokenCandidates(raw: seq<RawToken>): (r: seq<Option<Token>>)
    ensures |r| == |raw|
  {
    seq(|raw|, i requires 0 <= i < |raw| => TokenOf(raw[i]))
  }

  /** The `results` list. */
  function Tokens(raw: seq<RawToken>): seq<Token> {
    Somes(TokenCandidates(raw))
  }

  /** The index loop that builds `results`. */
  method FilterTokens(raw: seq<RawToken>) returns (results: seq<Token>)
    ensures results == Tokens(raw)
  {
    ghost var cs := TokenCandidates(raw);
    results := [];
    var i := 0;
    while i < |raw|
      invariant 0 <= i <= |raw|
      invariant results == Somes(cs[..i])
    {
      assert cs[..i + 1][..i] == cs[..i];
      var text := Strip(raw[i].text);
      if text != "" {
        var conf := if IsDigitString(raw[i].conf) then DecimalValue(raw[i].conf) else -1;
        results := results + [Token(text, raw[i].left, raw[i].top, raw[i].width, raw[i].height, conf)];
      }
      i := i + 1;
    }
    assert cs[..|raw|] == cs;
  }

  /**
   * A word is kept exactly when its text is not all whitespace; kept words
   * keep their order and box, carry their stripped text, which neither starts
   * nor ends with whitespace, and their parsed confidence.
   */
  lemma TokensSpec(raw: seq<RawToken>)
    ensures var src := SomeIndices(TokenCandidates(raw)); var ts := Tokens(raw);
            && |src| == |ts| && StrictlyIncreasing(src)
            && (forall i :: 0 <= i < |raw| ==> (i in src <==> exists k :: 0 <= k < |raw[i].text| && !IsSpace(raw[i].text[k])))
            && (forall j :: 0 <= j < |src| ==>
                  src[j] < |raw| && ts[j].text == Strip(raw[src[j]].text) && ts[j].text != []
                  && !IsSpace(ts[j].text[0]) && !IsSpace(ts[j].text[|ts[j].text| - 1])
                  && ts[j].left == raw[src[j]].left && ts[j].top == raw[src[j]].top
                  && ts[j].width == raw[src[j]].width && ts[j].height == raw[src[j]].height
                  && ts[j].conf == ParseConf(raw[src[j]].conf))
  {
    var cs := TokenCandidates(raw);
    var src := SomeIndices(cs);
    forall i | 0 <= i < |raw| ensures cs[i] == TokenOf(raw[i]) {
    }
    forall i | 0 <= i < |raw| ensures (Strip(raw[i].text) == []) <==> forall k :: 0 <= k < |raw[i].text| ==> IsSpace(raw[i].text[k]) {
      StripSpec(raw[i].text);
    }
    forall j | 0 <= j < |src|
      ensures Strip(raw[src[j]].text) != [] ==>
                !IsSpace(Strip(raw[src[j]].text)[0]) && !IsSpace(Strip(raw[src[j]].text)[|Strip(raw[src[j]].text)| - 1])
    {
      StripSpec(raw[src[j]].text);
    }
  }

  /** The sort key `(top, left)`, compared lexicographically. */
  predicate KeyLe(a: Token, b: Token) {
    a.top < b.top || (a.top == b.top && a.left <= b.left)
  }

  predicate SortedByKey(ts: seq<Token>) {
    forall i, j :: 0 <= i < j < |ts| ==> KeyLe(ts[i], ts[j])
  }

  /** Places `t` after every element whose key is at most its own, so equal keys keep their order. */
  function Insert(t: Token, ts: seq<Token>): (r: seq<Token>)
    ensures |r| == |ts| + 1
  {
    if ts == [] then [t]
    else if KeyLe(ts[0], t) then [ts[0]] + Insert(t, ts[1..])
    else [t] + ts
  }

  /** `sorted(results, key=lambda r: (r['top'], r['left']))`, as a stable insertion sort. */
  function SortByTopLeft(ts: seq<Token>): (r: seq<Token>)
    ensures |r| == |ts|
  {
    if ts == [] then [] else Insert(ts[|ts| - 1], SortByTopLeft(ts[..|ts| - 1]))
  }

  /** Whatever is bounded below by `a` stays so once `t`, also above `a`, is inserted. */
  lemma {:induction false} InsertBounded(a: Token, t: Token, ts: seq<Token>)
    requires KeyLe(a, t) && forall i :: 0 <= i < |ts| ==> KeyLe(a, ts[i])
    ensures forall i :: 0 <= i < |Insert(t, ts)| ==> KeyLe(a, Insert(t, ts)[i])
  {
    if ts != [] && KeyLe(ts[0], t) {
      var rest := ts[1..];
      assert forall i :: 0 <= i < |rest| ==> rest[i] == ts[i + 1];
      InsertBounded(a, t, rest);
    }
  }

  lemma {:induction false} InsertSorted(t: Token, ts: seq<Token>)
    requires SortedByKey(ts)
    ensures SortedByKey(Insert(t, ts))
  {
    if ts != [] && KeyLe(ts[0], t) {
      var rest := ts[1..];
      assert forall i :: 0 <= i < |rest| ==> rest[i] == ts[i + 1];
      InsertSorted(t, rest);
      InsertBounded(ts[0], t, rest);
      var r := Insert(t, rest);
      var out := [ts[0]] + r;
      forall i, j | 0 <= i < j < |out| ensures KeyLe(out[i], out[j]) {
        assert out[j] == r[j - 1];
        if i > 0 {
          assert out[i] == r[i - 1];
        }
      }
    }
  }

  lemma {:induction false} InsertPermutes(t: Token, ts: seq<Token>)
    ensures multiset(Insert(t, ts)) == multiset(ts) + multiset{t}
  {
    if ts != [] && KeyLe(ts[0], t) {
      InsertPermutes(t, ts[1..]);
      assert ts == [ts[0]] + ts[1..];
    }
  }

  /** The sort orders by `(top, left)` and neither adds nor loses a word. */
  lemma {:induction false} SortByTopLeftSpec(ts: seq<Token>)
    ensures SortedByKey(SortByTopLeft(ts))
    ensures multiset(SortByTopLeft(ts)) == multiset(ts)
  {
    if ts != [] {
      var init := ts[..|ts| - 1];
      SortByTopLeftSpec(init);
      InsertSorted(ts[|ts| - 1], SortByTopLeft(init));
      InsertPermutes(ts[|ts| - 1], SortByTopLeft(init));
      assert ts == init + [ts[|ts| - 1]];
    }
  }

  /** The words of `ts` whose key is `(top, left)`, in their order in `ts`. */
  function KeyRun(ts: seq<Token>, top: int, left: int): seq<Token> {
    if ts == [] then []
    else (if ts[0].top == top && ts[0].left == left then [ts[0]] else []) + KeyRun(ts[1..], top, left)
  }

  lemma {:induction false} KeyRunAppend(a: seq<Token>, b: seq<Token>, top: int, left: int)
    ensures KeyRun(a + b, top, left) == KeyRun(a, top, left) + KeyRun(b, top, left)
  {
    if a == [] {
      assert a + b == b;
    } else {
      var h := if a[0].top == top && a[0].left == left then [a[0]] else [];
      KeyRunAppend(a[1..], b, top, left);
      assert (a + b)[0] == a[0];
      assert (a + b)[1..] == a[1..] + b;
      assert KeyRun(a + b, top, left) == h + KeyRun(a[1..] + b, top, left);
      assert KeyRun(a, top, left) == h + KeyRun(a[1..], top, left);
    }
  }

  /** No word of a list entirely above `t` shares `t`'s key. */
  lemma {:induction false} KeyRunAbove(t: Token, ts: seq<Token>)
    requires forall i :: 0 <= i < |ts| ==> !KeyLe(ts[i], t)
    ensures KeyRun(ts, t.top, t.left) == []
  {
    if ts != [] {
      assert forall i :: 0 <= i < |ts[1..]| ==> ts[1..][i] == ts[i + 1];
      KeyRunAbove(t, ts[1..]);
    }
  }

  /** In a sorted list whose first word lies above `t`, every word does. */
  lemma SortedAbove(t: Token, ts: seq<Token>)
    requires SortedByKey(ts) && ts != [] && !KeyLe(ts[0], t)
    ensures forall i :: 0 <= i < |ts| ==> !KeyLe(ts[i], t)
  {
    forall i | 0 <= i < |ts| ensures !KeyLe(ts[i], t) {
      if i > 0 { assert KeyLe(ts[0], ts[i]); }
    }
  }

  /** Inserting into a sorted list puts `t` after every word with its key. */
  lemma {:induction false} InsertKeyRun(t: Token, ts: seq<Token>, top: int, left: int)
    requires SortedByKey(ts)
    ensures KeyRun(Insert(t, ts), top, left) == KeyRun(ts, top, left) + KeyRun([t], top, left)
  {
    if ts == [] {
      assert Insert(t, ts) == [t] && KeyRun(ts, top, left) == [];
    } else if KeyLe(ts[0], t) {
      var rest := ts[1..];
      assert SortedByKey(rest) by {
        assert forall i :: 0 <= i < |rest| ==> rest[i] == ts[i + 1];
      }
      InsertKeyRun(t, rest, top, left);
      assert Insert(t, ts) == [ts[0]] + Insert(t, rest);
      KeyRunAppend([ts[0]], Insert(t, rest), top, left);
      assert ts == [ts[0]] + rest;
      KeyRunAppend([ts[0]], rest, top, left);
    } else {
      assert Insert(t, ts) == [t] + ts;
      KeyRunAppend([t], ts, top, left);
      if t.top == top && t.left == left {
        SortedAbove(t, ts);
        KeyRunAbove(t, ts);
      } else {
        assert [t][1..] == [];
        assert KeyRun([t], top, left) == [];
      }
    }
  }

  /**
   * The sort is stable: the words sharing any one key `(top, left)` come out in
   * their input order. With sortedness and permutation this fixes the result.
   */
  lemma {:induction false} SortByTopLeftStable(ts: seq<Token>, top: int, left: int)
    ensures KeyRun(SortByTopLeft(ts), top, left) == KeyRun(ts, top, left)
  {
    if ts != [] {
      var init := ts[..|ts| - 1];
      SortByTopLeftStable(init, top, left);
      SortByTopLeftSpec(init);
      InsertKeyRun(ts[|ts| - 1], SortByTopLeft(init), top, left);
      assert ts == init + [ts[|ts| - 1]];
      KeyRunAppend(init, [ts[|ts| - 1]], top, left);
    }
  }

  /** `int(x / 2)` for an integer `x`: division truncated toward zero, as Python's `int` does. */
  function TruncHalf(x: int): (h: int)
    ensures Abs(2 * h) <= Abs(x) < Abs(2 * h) + 2
    ensures (x >= 0 ==> h >= 0) && (x <= 0 ==> h <= 0)
  {
    if x >= 0 then x / 2 else -((-x) / 2)
  }

  /** The line being built: its member words and its box so far. */
  datatype OpenLine = OpenLine(members: seq<Token>, left: int, top: int, right: int, bottom: int)

  /**
   * `max(10, int(0.5 * bottom - top))`: the product binds first, so this is
   * half the bottom minus the full top, truncated, and at least 10.
   */
  function Threshold(o: OpenLine): (n: int)
    ensures n >= 10
  {
    Max(10, TruncHalf(o.bottom - 2 * o.top))
  }

  /** Below 10 the rounding direction cannot matter, so floor division gives the same threshold. */
  lemma ThresholdFloor(o: OpenLine)
    ensures Threshold(o) == Max(10, (o.bottom - 2 * o.top) / 2)
  {
  }

  /** The line seeded before the loop: the first word's box and no members yet. */
  function Start(t: Token): OpenLine {
    OpenLine([], t.left, t.top, t.left + t.width, t.top + t.height)
  }

  /** The line seeded by a word that does not fit the previous one. */
  function Seed(t: Token): OpenLine {
    OpenLine([t], t.left, t.top, t.left + t.width, t.top + t.height)
  }

  predicate Joins(o: OpenLine, t: Token) {
    Abs(t.top - o.top) <= Threshold(o)
  }

  function Absorb(o: OpenLine, t: Token): OpenLine {
    OpenLine(o.members + [t], Min(o.left, t.left), o.top,
             Max(o.right, t.left + t.width), Max(o.bottom, t.top + t.height))
  }

  /** The finished lines so far and the open one. */
  datatype Grouping = Grouping(done: seq<OpenLine>, open: OpenLine)

  /** One step of the loop. */
  function Feed(g: Grouping, t: Token): Grouping {
    if Joins(g.open, t) then Grouping(g.done, Absorb(g.open, t))
    else Grouping(g.done + [g.open], Seed(t))
  }

  /** The loop after the words `ts`, starting from the line seeded by `first`. */
  function Run(first: Token, ts: seq<Token>): Grouping {
    if ts == [] then Grouping([], Start(first))
    else Feed(Run(first, ts[..|ts| - 1]), ts[|ts| - 1])
  }

  /** Every line the pass emits, in order: the finished ones, then the last open one. */
  function Groups(ts: seq<Token>): (gs: seq<OpenLine>)
    requires ts != []
    ensures |gs| > 0
  {
    var g := Run(ts[0], ts);
    g.done + [g.open]
  }

  function Texts(ms: seq<Token>): (r: seq<string>)
    ensures |r| == |ms|
  {
    seq(|ms|, i requires 0 <= i < |ms| => ms[i].text)
  }

  /** The record emitted for a line: joined text and the box as left, top, width and height. */
  function LineOf(o: OpenLine): Line {
    Line(Join(" ", Texts(o.members)), o.left, o.top, o.right - o.left, o.bottom - o.top)
  }

  function LinesOfGroups(gs: seq<OpenLine>): (r: seq<Line>)
    ensures |r| == |gs|
  {
    seq(|gs|, k requires 0 <= k < |gs| => LineOf(gs[k]))
  }

  /** The `lines` list for sorted words `ts`. */
  function LinesOf(ts: seq<Token>): seq<Line> {
    if ts == [] then [] else LinesOfGroups(Groups(ts))
  }

  /** The grouping loop of `ocr_image_with_boxes`, on the sorted words. */
  method GroupLines(ts: seq<Token>) returns (lines: seq<Line>)
    ensures lines == LinesOf(ts)
  {
    lines := [];
    if ts == [] {
      return;
    }
    var cur := Start(ts[0]);
    ghost var done: seq<OpenLine> := [];
    var i := 0;
    while i < |ts|
      invariant 0 <= i <= |ts|
      invariant Run(ts[0], ts[..i]) == Grouping(done, cur)
      invariant lines == LinesOfGroups(done)
    {
      var r := ts[i];
      assert ts[..i + 1][..i] == ts[..i];
      if Abs(r.top - cur.top) <= Max(10, TruncHalf(cur.bottom - 2 * cur.top)) {
        cur := cur.(members := cur.members + [r], left := Min(cur.left, r.left),
                    right := Max(cur.right, r.left + r.width), bottom := Max(cur.bottom, r.top + r.height));
      } else {
        var lineText := Join(" ", Texts(cur.members));
        lines := lines + [Line(lineText, cur.left, cur.top, cur.right - cur.left, cur.bottom - cur.top)];
        assert LinesOfGroups(done + [cur]) == LinesOfGroups(done) + [LineOf(cur)];
        done := done + [cur];
        cur := OpenLine([r], r.left, r.top, r.left + r.width, r.top + r.height);
      }
      i := i + 1;
    }
    assert ts[..|ts|] == ts;
    assert LinesOfGroups(done + [cur]) == LinesOfGroups(done) + [LineOf(cur)];
    lines := lines + [Line(Join(" ", Texts(cur.members)), cur.left, cur.top, cur.right - cur.left, cur.bottom - cur.top)];
  }

  /** Lines 33-78 of `ocr_image_with_boxes`: filter, sort, group. */
  method OcrLines(raw: seq<RawToken>) returns (lines: seq<Line>)
    ensures lines == LinesOf(SortByTopLeft(Tokens(raw)))
  {
    var results := FilterTokens(raw);
    var sorted := SortByTopLeft(results);
    lines := GroupLines(sorted);
  }

  /** The concatenation of the member lists of `gs`. */
  function Flatten(gs: seq<OpenLine>): seq<Token> {
    if gs == [] then [] else Flatten(gs[..|gs| - 1]) + gs[|gs| - 1].members
  }

  lemma {:induction false} FlattenAppend(gs: seq<OpenLine>, o: OpenLine)
    ensures Flatten(gs + [o]) == Flatten(gs) + o.members
  {
    assert (gs + [o])[..|gs|] == gs;
  }

  /** No words, no lines. */
  lemma NoTokensNoLines()
    ensures LinesOf([]) == []
  {
  }

  /** The words taken so far: the members of the finished lines, then those of the open one. */
  function Members(g: Grouping): seq<Token> {
    Flatten(g.done) + g.open.members
  }

  /** One step adds the word at the end of the member lists. */
  lemma FeedMembers(g: Grouping, t: Token)
    ensures Members(Feed(g, t)) == Members(g) + [t]
  {
    var f := Flatten(g.done);
    if Joins(g.open, t) {
      assert f + (g.open.members + [t]) == (f + g.open.members) + [t];
    } else {
      FlattenAppend(g.done, g.open);
    }
  }

  lemma RunStep(first: Token, ts: seq<Token>)
    requires ts != []
    ensures Run(first, ts) == Feed(Run(first, ts[..|ts| - 1]), ts[|ts| - 1])
  {
  }

  /** The pass never loses, repeats or reorders a word: the members of the lines, in order, are the words. */
  lemma {:induction false} RunMembers(first: Token, ts: seq<Token>)
    ensures Members(Run(first, ts)) == ts
  {
    if ts != [] {
      var init := ts[..|ts| - 1];
      var t := ts[|ts| - 1];
      RunStep(first, ts);
      RunMembers(first, init);
      FeedMembers(Run(first, init), t);
      assert ts == init + [t];
    }
  }

  lemma GroupsPartition(ts: seq<Token>)
    requires ts != []
    ensures Flatten(Groups(ts)) == ts
  {
    var g := Run(ts[0], ts);
    RunMembers(ts[0], ts);
    FlattenAppend(g.done, g.open);
  }

  /** The first word always joins the line seeded from it: its top difference is 0. */
  lemma FirstTokenJoins(t: Token)
    ensures Joins(Start(t), t) && Absorb(Start(t), t) == Seed(t)
  {
  }

  /**
   * The join rule: a word whose top is within the threshold of the open
   * line's top extends that line, which keeps its top; any other word closes
   * the open line and seeds a new one from its own box.
   */
  lemma FeedSpec(g: Grouping, t: Token)
    ensures Abs(t.top - g.open.top) <= Threshold(g.open) <==> |Feed(g, t).done| == |g.done|
    ensures Abs(t.top - g.open.top) <= Threshold(g.open) ==>
              Feed(g, t).done == g.done && Feed(g, t).open.members == g.open.members + [t]
              && Feed(g, t).open.top == g.open.top
    ensures Abs(t.top - g.open.top) > Threshold(g.open) ==>
              Feed(g, t).done == g.done + [g.open] && Feed(g, t).open == Seed(t)
  {
  }

  function MinLeft(ms: seq<Token>): int
    requires ms != []
  {
    if |ms| == 1 then ms[0].left else Min(MinLeft(ms[..|ms| - 1]), ms[|ms| - 1].left)
  }

  function MaxRight(ms: seq<Token>): int
    requires ms != []
  {
    if |ms| == 1 then ms[0].left + ms[0].width
    else Max(MaxRight(ms[..|ms| - 1]), ms[|ms| - 1].left + ms[|ms| - 1].width)
  }

  function MaxBottom(ms: seq<Token>): int
    requires ms != []
  {
    if |ms| == 1 then ms[0].top + ms[0].height
    else Max(MaxBottom(ms[..|ms| - 1]), ms[|ms| - 1].top + ms[|ms| - 1].height)
  }

  /** A line's box is the extent of its members; its top is its first member's top. */
  predicate WellBuilt(o: OpenLine) {
    o.members != [] && o.top == o.members[0].top && o.left == MinLeft(o.members)
    && o.right == MaxRight(o.members) && o.bottom == MaxBottom(o.members)
  }

  lemma {:induction false} AbsorbWellBuilt(o: OpenLine, t: Token)
    requires WellBuilt(o)
    ensures WellBuilt(Absorb(o, t))
  {
    var ms := o.members + [t];
    assert ms[..|ms| - 1] == o.members;
  }

  /** Once the first word is in, every line of the pass is non-empty and spans exactly its members. */
  lemma {:induction false} RunWellBuilt(ts: seq<Token>)
    requires ts != []
    ensures var g := Run(ts[0], ts);
            (forall k :: 0 <= k < |g.done| ==> WellBuilt(g.done[k])) && WellBuilt(g.open)
  {
    var init := ts[..|ts| - 1];
    var t := ts[|ts| - 1];
    if init == [] {
      FirstTokenJoins(t);
    } else {
      assert init[0] == ts[0];
      RunWellBuilt(init);
      var g := Run(ts[0], init);
      if Joins(g.open, t) {
        AbsorbWellBuilt(g.open, t);
      }
    }
  }

  predicate NonNegativeSize(t: Token) {
    t.width >= 0 && t.height >= 0
  }

  lemma {:induction false} ExtentBelowMembers(ms: seq<Token>)
    requires ms != []
    ensures MinLeft(ms) <= ms[0].left
    ensures NonNegativeSize(ms[0]) ==> MaxRight(ms) >= ms[0].left && MaxBottom(ms) >= ms[0].top
  {
    if |ms| > 1 {
      ExtentBelowMembers(ms[..|ms| - 1]);
    }
  }

  /**
   * Each emitted line joins its members' texts with single spaces, takes the
   * smallest member left and the first member's top, and spans to the
   * furthest member right and bottom; with sizes not negative, its width and
   * height are not negative.
   */
  lemma LinesSpec(ts: seq<Token>)
    requires ts != []
    ensures var gs := Groups(ts); var ls := LinesOf(ts);
            |ls| == |gs| &&
            forall k :: 0 <= k < |gs| ==>
              gs[k].members != []
              && ls[k].text == Join(" ", Texts(gs[k].members))
              && ls[k].left == MinLeft(gs[k].members) && ls[k].top == gs[k].members[0].top
              && ls[k].left + ls[k].width == MaxRight(gs[k].members)
              && ls[k].top + ls[k].height == MaxBottom(gs[k].members)
              && (NonNegativeSize(gs[k].members[0]) ==> ls[k].width >= 0 && ls[k].height >= 0)
  {
    var gs := Groups(ts);
    RunWellBuilt(ts);
    forall k | 0 <= k < |gs| ensures WellBuilt(gs[k]) {
      if k < |gs| - 1 {
        assert gs[k] == Run(ts[0], ts).done[k];
      }
    }
    forall k | 0 <= k < |gs| ensures NonNegativeSize(gs[k].members[0]) ==>
                                       MaxRight(gs[k].members) >= MinLeft(gs[k].members)
                                       && MaxBottom(gs[k].members) >= gs[k].members[0].top {
      ExtentBelowMembers(gs[k].members);
    }
  }

  /** Line tops, in order, each more than 10 below the previous. */
  predicate Spread(gs: seq<OpenLine>) {
    forall k, k' :: 0 <= k < k' < |gs| ==> gs[k].top + 10 < gs[k'].top
  }

  lemma {:induction false} RunSpread(ts: seq<Token>)
    requires ts != [] && SortedByKey(ts)
    ensures var g := Run(ts[0], ts); Spread(g.done + [g.open]) && g.open.top <= ts[|ts| - 1].top
  {
    var init := ts[..|ts| - 1];
    var t := ts[|ts| - 1];
    if init == [] {
      FirstTokenJoins(t);
    } else {
      assert init[0] == ts[0];
      assert SortedByKey(init) by {
        forall i, j | 0 <= i < j < |init| ensures KeyLe(init[i], init[j]) {
          assert init[i] == ts[i] && init[j] == ts[j];
        }
      }
      RunSpread(init);
      var g := Run(ts[0], init);
      assert KeyLe(init[|init| - 1], t);
      if Joins(g.open, t) {
        var gs := g.done + [g.open];
        var gs' := g.done + [Absorb(g.open, t)];
        forall k, k' | 0 <= k < k' < |gs'| ensures gs'[k].top + 10 < gs'[k'].top {
          assert gs'[k].top == gs[k].top && gs'[k'].top == gs[k'].top;
        }
      } else {
        var gs := g.done + [g.open];
        var gs' := gs + [Seed(t)];
        forall k, k' | 0 <= k < k' < |gs'| ensures gs'[k].top + 10 < gs'[k'].top {
          if k' < |gs| {
            assert gs'[k] == gs[k] && gs'[k'] == gs[k'];
          } else if k < |gs| - 1 {
            assert gs'[k] == gs[k] && gs[|gs| - 1] == g.open;
          }
        }
      }
    }
  }

  /** With sorted words, line tops strictly increase, each new line more than 10 below the previous one. */
  lemma LineTopsSpread(ts: seq<Token>)
    requires ts != [] && SortedByKey(ts)
    ensures forall k, k' :: 0 <= k < k' < |LinesOf(ts)| ==> LinesOf(ts)[k].top + 10 < LinesOf(ts)[k'].top
  {
    RunSpread(ts);
  }
}

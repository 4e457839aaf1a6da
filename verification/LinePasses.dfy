// pass1() of filter_lp/filter_lp.c: measure the document and choose a layout.

module LineMeasure {
  import opened LineMachine
  import opened LinePrinterModel
  import opened LineSheets

  /** Which line of its page line i is, pages being divided by form feeds alone. */
  function Row(s: seq<Line>, i: nat): (r: nat)
    requires i < |s|
    ensures r <= i
  {
    if i == 0 || s[i - 1].formfeed then 0 else Row(s, i - 1) + 1
  }

  /** The lines of its page down to line i; the form feed is not one. */
  function Depth(s: seq<Line>, i: nat): nat
    requires i < |s|
  {
    Row(s, i) + if s[i].formfeed then 0 else 1
  }

  /** What pass 1 finds: top_skip, left_skip, max_plen and has_formfeeds. */
  datatype Findings = Findings(top: nat, left: nat, depth: nat, formfeeds: bool)

  predicate HasText(s: seq<Line>, i: nat)
    requires i < |s|
  {
    s[i].cells != []
  }

  /** Over the first n lines, `top` is the least row of a non-blank line, or 1000
      ("infinity") if that is less. */
  ghost predicate LeastRow(s: seq<Line>, n: nat, top: nat)
    requires n <= |s|
  {
    && top <= 1000
    && (forall i :: 0 <= i < n && HasText(s, i) ==> top <= Row(s, i))
    && (top < 1000 ==> exists i :: 0 <= i < n && HasText(s, i) && Row(s, i) == top)
  }

  /** `left` is the least indent of a non-blank line, or 1000 if that is less. */
  ghost predicate LeastIndent(s: seq<Line>, n: nat, left: nat)
    requires n <= |s|
  {
    && left <= 1000
    && (forall i :: 0 <= i < n && HasText(s, i) ==> left <= Span(s[i].cells, 0))
    && (left < 1000 ==> exists i :: 0 <= i < n && HasText(s, i) && Span(s[i].cells, 0) == left)
  }

  /** `depth` is the length of the longest page, one of `current` lines not counted in yet. */
  ghost predicate Deepest(s: seq<Line>, n: nat, depth: nat, current: nat)
    requires n <= |s|
  {
    && (forall i :: 0 <= i < n ==> Depth(s, i) <= depth || Depth(s, i) <= current)
    && (depth > 0 ==> exists i :: 0 <= i < n && Depth(s, i) == depth)
    && (current > 0 ==> n > 0 && Depth(s, n - 1) == current)
  }

  ghost predicate HasFormFeed(s: seq<Line>) { exists i :: 0 <= i < |s| && s[i].formfeed }

  ghost predicate Measured(s: seq<Line>, f: Findings) {
    && LeastRow(s, |s|, f.top) && LeastIndent(s, |s|, f.left) && Deepest(s, |s|, f.depth, 0)
    && (f.formfeeds <==> HasFormFeed(s))
  }

  /** The row the next line would have. */
  function NextRow(s: seq<Line>, i: nat): nat
    requires i <= |s|
  {
    if i == 0 || s[i - 1].formfeed then 0 else Row(s, i - 1) + 1
  }

  method Pass1(s: seq<Line>) returns (f: Findings)
    ensures Measured(s, f)
  {
    StartMeasure(s);
    hide LeastRow, LeastIndent, Deepest, HasFormFeed, NextRow;
    var top, left, depth, formfeeds := 1000, 1000, 0, false;
    var lineCount, inBody := 0, false;
    for i := 0 to |s|
      invariant 0 <= top && 0 <= left && 0 <= depth && 0 <= lineCount
      invariant Measuring(s, i, top, left, depth, formfeeds, lineCount, inBody)
    {
      top, left, depth, formfeeds, lineCount, inBody := MeasureLine(s, i, top, left, depth, formfeeds, lineCount, inBody);
    }
    LastPage(s, depth, lineCount);
    assert s[..|s|] == s;
    if lineCount > depth {
      depth := lineCount;
    }
    f := Findings(top, left, depth, formfeeds);
  }

  /** What pass 1 knows after `i` lines. */
  ghost predicate Measuring(s: seq<Line>, i: nat, top: nat, left: nat, depth: nat, formfeeds: bool, lineCount: nat, inBody: bool)
    requires i <= |s|
  {
    && lineCount == NextRow(s, i) && LeastRow(s, i, top) && (inBody ==> top < lineCount)
    && LeastIndent(s, i, left) && Deepest(s, i, depth, lineCount) && (formfeeds <==> HasFormFeed(s[..i]))
  }

  /** One line of the document. */
  method MeasureLine(s: seq<Line>, i: nat, top0: nat, left0: nat, depth0: nat, formfeeds0: bool, lineCount0: nat, inBody0: bool)
    returns (top: nat, left: nat, depth: nat, formfeeds: bool, lineCount: nat, inBody: bool)
    requires i < |s| && Measuring(s, i, top0, left0, depth0, formfeeds0, lineCount0, inBody0)
    ensures Measuring(s, i + 1, top, left, depth, formfeeds, lineCount, inBody)
  {
    hide LeastRow, LeastIndent, Deepest, Span, Row, Depth, HasFormFeed, NextRow;
    NextRowStep(s, i);
    RowStep(s, i, top0);
    IndentStep(s, i, left0);
    DepthStep(s, i, depth0);
    FormFeedStep(s, i);
    depth, formfeeds, lineCount := depth0, formfeeds0, lineCount0 + 1;
    left, top, inBody := NoteText(s[i].cells, lineCount, left0, top0, inBody0);
    if s[i].formfeed {
      formfeeds := true;
      lineCount := lineCount - 1;
      if lineCount > depth {
        depth := lineCount;
      }
      lineCount := 0;
      inBody := false;
    }
  }

  /** What pass 1 notes about a line with something on it. */
  method NoteText(cells: Cells, lineCount: nat, left0: nat, top0: nat, inBody0: bool)
    returns (left: nat, top: nat, inBody: bool)
    requires lineCount > 0
    ensures left == if cells != [] && Span(cells, 0) < left0 then Span(cells, 0) else left0
    ensures top == if cells != [] && !inBody0 && lineCount - 1 < top0 then lineCount - 1 else top0
    ensures inBody <==> inBody0 || cells != []
  {
    left, top, inBody := left0, top0, inBody0;
    if |cells| > 0 {
      var leadlen := Span(cells, 0);
      if leadlen < left {
        left := leadlen;
      }
      if !inBody {
        var thisTopSkip := lineCount - 1;
        if thisTopSkip < top {
          top := thisTopSkip;
        }
        inBody := true;
      }
    }
  }

  lemma NextRowStep(s: seq<Line>, i: nat)
    requires i < |s|
    ensures Row(s, i) == NextRow(s, i) && NextRow(s, i + 1) == if s[i].formfeed then 0 else NextRow(s, i) + 1
  {
  }

  lemma StartMeasure(s: seq<Line>)
    ensures LeastRow(s, 0, 1000) && LeastIndent(s, 0, 1000) && Deepest(s, 0, 0, 0) && !HasFormFeed(s[..0])
    ensures NextRow(s, 0) == 0
  {
  }

  // Reading one more line:

  lemma FormFeedStep(s: seq<Line>, i: nat)
    requires i < |s|
    ensures HasFormFeed(s[..i + 1]) <==> HasFormFeed(s[..i]) || s[i].formfeed
  {
    assert s[..i + 1] == s[..i] + [s[i]];
    if s[i].formfeed {
      assert s[..i + 1][i].formfeed;
    }
    if HasFormFeed(s[..i]) {
      var j :| 0 <= j < i && s[..i][j].formfeed;
      assert s[..i + 1][j].formfeed;
    }
  }

  lemma RowStep(s: seq<Line>, i: nat, top: nat)
    requires i < |s| && LeastRow(s, i, top)
    ensures LeastRow(s, i + 1, if HasText(s, i) && Row(s, i) < top then Row(s, i) else top)
  {
    hide Row;
  }

  lemma IndentStep(s: seq<Line>, i: nat, left: nat)
    requires i < |s| && LeastIndent(s, i, left)
    ensures LeastIndent(s, i + 1, if HasText(s, i) && Span(s[i].cells, 0) < left then Span(s[i].cells, 0) else left)
  {
    hide Span;
  }

  lemma DepthStep(s: seq<Line>, i: nat, depth: nat)
    requires i < |s| && Deepest(s, i, depth, NextRow(s, i))
    ensures Row(s, i) == NextRow(s, i)
    ensures if s[i].formfeed then Deepest(s, i + 1, if Row(s, i) > depth then Row(s, i) else depth, 0)
            else Deepest(s, i + 1, depth, Row(s, i) + 1)
  {
    assert Row(s, i) == NextRow(s, i);
    assert Depth(s, i) == Row(s, i) + if s[i].formfeed then 0 else 1;
    DeeperBy(s, i, depth, Row(s, i));
  }

  lemma DeeperBy(s: seq<Line>, i: nat, depth: nat, r: nat)
    requires i < |s| && Deepest(s, i, depth, r)
    requires Depth(s, i) == r + if s[i].formfeed then 0 else 1
    ensures if s[i].formfeed then Deepest(s, i + 1, if r > depth then r else depth, 0)
            else Deepest(s, i + 1, depth, r + 1)
  {
    hide Depth, Row;
  }

  lemma LastPage(s: seq<Line>, depth: nat, current: nat)
    requires Deepest(s, |s|, depth, current)
    ensures Deepest(s, |s|, if current > depth then current else depth, 0)
  {
    hide Row, Depth;
  }

  /** The options MAX_LINES and MIN_LINES and the default lines per page. */
  datatype Limits = Limits(maxLines: int, minLines: int, defaultLines: int)

  /** The layout pass 1 chooses. */
  function Choose(f: Findings, l: Limits): Layout {
    var left := if f.left == 1000 then 0 else f.left;
    var perPage :=
      if !f.formfeeds || f.depth - f.top > l.maxLines then 0
      else if f.depth - f.top > l.minLines then f.depth - f.top else l.minLines;
    Layout(if !f.formfeeds || f.depth - f.top > l.maxLines then 0 else f.top, left,
           if perPage == 0 then l.defaultLines else perPage)
  }

  // ------------------------------------------ the layout drops nothing but blanks

  lemma {:induction false} RowInSegment(s: seq<Line>, i: nat)
    requires i < |s| && i <= Segment(s)
    ensures Row(s, i) == i
  {
    if i > 0 {
      RowInSegment(s, i - 1);
    }
  }

  lemma {:induction false} RowAfter(s: seq<Line>, n: nat, i: nat)
    requires n + 1 + i < |s| && s[n].formfeed
    ensures Row(s[n + 1..], i) == Row(s, n + 1 + i)
  {
    if i > 0 {
      RowAfter(s, n, i - 1);
    }
  }

  /** Lines above row `top` are blank, and no page is longer than one can be printed. */
  ghost predicate Roomy(s: seq<Line>, d: Layout) {
    && (forall i :: 0 <= i < |s| && HasText(s, i) ==> d.top <= Row(s, i))
    && (forall i :: 0 <= i < |s| ==> d.perPage <= 0 || Depth(s, i) <= d.top + d.perPage || Depth(s, i) <= d.top)
  }

  lemma {:induction false} RoomyFits(s: seq<Line>, d: Layout)
    requires Roomy(s, d)
    ensures Fits(s, d)
    decreases |s|
  {
    if d.top > 0 && s != [] {
      var n := Segment(s);
      forall i | 0 <= i < n && i < d.top ensures s[i].cells == [] {
        RowInSegment(s, i);
        assert !HasText(s, i);
      }
      if n > 0 {
        RowInSegment(s, n - 1);
        assert Depth(s, n - 1) == n;
      }
      if n < |s| {
        var t := s[n + 1..];
        forall i | 0 <= i < |t|
          ensures Row(t, i) == Row(s, n + 1 + i) && Depth(t, i) == Depth(s, n + 1 + i)
          ensures HasText(t, i) == HasText(s, n + 1 + i)
        {
          RowAfter(s, n, i);
        }
        RoomyFits(t, d);
      }
    }
  }

  /** Whatever the document, the layout chosen from what pass 1 measured drops only
      blank lines at the top and only spaces at the left. */
  lemma ChosenLayoutFits(s: seq<Line>, f: Findings, l: Limits)
    requires Measured(s, f) && forall i :: 0 <= i < |s| ==> WellFormed(s[i])
    ensures Fits(s, Choose(f, l))
    ensures forall i :: 0 <= i < |s| ==> LeftBlank(s[i], Choose(f, l).left)
  {
    var d := Choose(f, l);
    if d.top > 0 {
      assert Roomy(s, d);
      RoomyFits(s, d);
    }
    forall i | 0 <= i < |s| && s[i].cells != [] ensures LeftBlank(s[i], d.left) {
      assert HasText(s, i);
      var n := Span(s[i].cells, 0);
      assert n < |s[i].cells|;
    }
  }

  // --------------------------------- and skips all that can be skipped

  predicate Indented(s: seq<Line>) { exists i :: 0 <= i < |s| && HasText(s, i) && Span(s[i].cells, 0) < 1000 }

  predicate Topped(s: seq<Line>) { exists i :: 0 <= i < |s| && HasText(s, i) && Row(s, i) < 1000 }

  /** The length of the longest page. */
  ghost predicate Longest(s: seq<Line>, n: nat) {
    && (forall i :: 0 <= i < |s| ==> Depth(s, i) <= n)
    && (n > 0 ==> exists i :: 0 <= i < |s| && Depth(s, i) == n)
  }

  /** Form feeds divide the document into pages, of which the longest, of `n` lines,
      is within the limit once `top` lines are dropped. */
  predicate Paged(s: seq<Line>, n: nat, top: nat, l: Limits) {
    (exists i :: 0 <= i < |s| && s[i].formfeed) && n - top <= l.maxLines
  }

  /** Nothing but spaces is dropped on the left, and the line that is indented least
      begins in column 0. */
  ghost predicate LeftSuits(s: seq<Line>, left: nat) {
    && (forall i :: 0 <= i < |s| ==> LeftBlank(s[i], left))
    && if Indented(s) then exists i :: 0 <= i < |s| && TextAt(s[i], left) else left == 0
  }

  predicate TextAt(l: Line, c: nat) { c < |l.cells| && l.cells[c].c != ' ' }

  /** The row of the line that is highest on its page, or 1000 if that is less. */
  ghost predicate TopRow(s: seq<Line>, top: nat) {
    && (forall i :: 0 <= i < |s| && HasText(s, i) ==> top <= Row(s, i))
    && if Topped(s) then exists i :: 0 <= i < |s| && HasText(s, i) && Row(s, i) == top else top == 1000
  }

  /** If form feeds divide the document into pages within the limit, the line that is
      highest on its page comes to row 0, and pages are as long as the longest of them
      or the least length allowed; otherwise nothing is dropped at the top and pages
      have the default length. */
  predicate PagesSuit(s: seq<Line>, l: Limits, n: nat, top: nat, d: Layout) {
    if Paged(s, n, top, l) then
      d.top == top && d.perPage == Length(if n - top > l.minLines then n - top else l.minLines, l)
    else d.top == 0 && d.perPage == l.defaultLines
  }

  /** A length of 0 stands for the default. */
  function Length(n: int, l: Limits): int { if n == 0 then l.defaultLines else n }

  /** What a layout should be. */
  ghost predicate Suits(s: seq<Line>, l: Limits, d: Layout) {
    LeftSuits(s, d.left) && exists n: nat, top: nat :: Longest(s, n) && TopRow(s, top) && PagesSuit(s, l, n, top, d)
  }

  lemma ChosenLeft(s: seq<Line>, f: Findings)
    requires Measured(s, f) && forall i :: 0 <= i < |s| ==> WellFormed(s[i])
    ensures if Indented(s) then f.left < 1000 && exists i :: 0 <= i < |s| && TextAt(s[i], f.left) else f.left == 1000
  {
    hide Deepest, LeastRow, Row, Depth;
    if Indented(s) {
      var i :| 0 <= i < |s| && HasText(s, i) && Span(s[i].cells, 0) < 1000;
      assert f.left < 1000;
      var j :| 0 <= j < |s| && HasText(s, j) && Span(s[j].cells, 0) == f.left;
      assert WellFormed(s[j]);
      assert TextAt(s[j], f.left);
    }
  }

  lemma ChosenTop(s: seq<Line>, f: Findings)
    requires Measured(s, f)
    ensures TopRow(s, f.top) && Longest(s, f.depth)
  {
    hide LeastIndent, Row, Depth;
    if Topped(s) {
      var i :| 0 <= i < |s| && HasText(s, i) && Row(s, i) < 1000;
      assert f.top < 1000;
    }
  }

  /** The layout that pass 1 chooses is what it should be. */
  lemma ChosenLayoutSuits(s: seq<Line>, f: Findings, l: Limits)
    requires Measured(s, f) && forall i :: 0 <= i < |s| ==> WellFormed(s[i])
    ensures Suits(s, l, Choose(f, l))
  {
    var d := Choose(f, l);
    ChosenLayoutFits(s, f, l);
    ChosenLeft(s, f);
    ChosenTop(s, f);
    ChosenPages(s, f, l);
    hide Choose, Fits, Indented, LeastIndent, LeastRow, LeftBlank, Longest, PagesSuit, Row, Depth, Deepest, TextAt, TopRow, WellFormed;
    LeftDropped(s, f, l);
    assert PagesSuit(s, l, f.depth, f.top, d);
  }

  lemma ChosenPages(s: seq<Line>, f: Findings, l: Limits)
    requires Measured(s, f)
    ensures PagesSuit(s, l, f.depth, f.top, Choose(f, l))
  {
    hide LeastIndent, LeastRow, Deepest;
  }

  lemma LeftDropped(s: seq<Line>, f: Findings, l: Limits)
    requires forall i :: 0 <= i < |s| ==> LeftBlank(s[i], Choose(f, l).left)
    requires if Indented(s) then f.left < 1000 && exists i :: 0 <= i < |s| && TextAt(s[i], f.left) else f.left == 1000
    ensures LeftSuits(s, Choose(f, l).left)
  {
    hide Indented, LeftBlank, TextAt;
  }

  /** There is only one such layout. */
  lemma OneLayoutSuits(s: seq<Line>, l: Limits, d: Layout, d': Layout)
    requires Suits(s, l, d) && Suits(s, l, d')
    ensures d == d'
  {
    var n: nat, top: nat :| Longest(s, n) && TopRow(s, top) && PagesSuit(s, l, n, top, d);
    var n': nat, top': nat :| Longest(s, n') && TopRow(s, top') && PagesSuit(s, l, n', top', d');
    SameTop(s, n, top, n', top');
    SameLeft(s, d.left, d'.left);
    hide Longest, TopRow, LeftSuits;
  }

  lemma SameTop(s: seq<Line>, n: nat, top: nat, n': nat, top': nat)
    requires Longest(s, n) && Longest(s, n') && TopRow(s, top) && TopRow(s, top')
    ensures n == n' && top == top'
  {
    hide Row, Depth;
  }

  lemma SameLeft(s: seq<Line>, a: nat, b: nat)
    requires LeftSuits(s, a) && LeftSuits(s, b)
    ensures a == b
  {
    hide Indented;
    if Indented(s) {
      var i :| 0 <= i < |s| && TextAt(s[i], a);
      var j :| 0 <= j < |s| && TextAt(s[j], b);
      assert LeftBlank(s[i], b) && LeftBlank(s[j], a);
    }
  }

  // ------------------------------------------------- where a character comes to be

  /** The place on its page of the r-th line printed, pages being full after `perPage`. */
  function OnItsPage(r: int, perPage: int): int
    decreases if r > 0 then r else 0
  {
    if perPage <= 0 || r < perPage then r else OnItsPage(r - perPage, perPage)
  }

  /** The row on its printed page of line `i`. */
  function PaperRow(s: seq<Line>, d: Layout, i: nat): int
    requires i < |s|
  {
    OnItsPage(Row(s, i) - d.top, d.perPage)
  }

  /** A new count of rows from line `k` on, up to the next form feed. */
  lemma {:induction false} RowSuffix(s: seq<Line>, k: nat, j: nat)
    requires k + j < |s| && (forall i :: 0 <= i < k ==> !s[i].formfeed)
    ensures Row(s, k + j) == Row(s[k..], j) || Row(s, k + j) == Row(s[k..], j) + k
    ensures j > 0 && s[k].formfeed ==> Row(s, k + j) == Row(s[k..], j)
  {
    if j == 0 {
      RowsBefore(s, k);
    } else {
      RowSuffix(s, k, j - 1);
    }
  }

  lemma {:induction false} RowsBefore(s: seq<Line>, k: nat)
    requires k < |s| && forall i :: 0 <= i < k ==> !s[i].formfeed
    ensures Row(s, k) == k
  {
    if k > 0 {
      RowsBefore(s, k - 1);
    }
  }

  lemma FullSuffix(s: seq<Line>, d: Layout, k: nat, i: nat)
    requires k <= i < |s| && d.perPage > 0 && k == d.top + d.perPage && !s[i].formfeed
    requires (forall j :: 0 <= j < k ==> !s[j].formfeed) && (d.top > 0 ==> s[k].formfeed)
    ensures PaperRow(s[k..], d, i - k) == PaperRow(s, d, i)
  {
    RowSuffix(s, k, i - k);
    hide Row;
  }

  lemma FeedSuffix(s: seq<Line>, d: Layout, k: nat, i: nat)
    requires k < i < |s| && s[k].formfeed
    ensures PaperRow(s[k + 1..], d, i - k - 1) == PaperRow(s, d, i)
  {
    RowAfter(s, k, i - k - 1);
    hide Row, OnItsPage;
  }

  lemma PaperRowSuffix(s: seq<Line>, d: Layout, i: nat)
    requires Fits(s, d) && i < |s| && |AfterSheet(s, d)| > 0 && i >= |s| - |AfterSheet(s, d)|
    requires !s[i].formfeed
    ensures PaperRow(AfterSheet(s, d), d, i - (|s| - |AfterSheet(s, d)|)) == PaperRow(s, d, i)
  {
    hide *;
    var k := SheetEnd(s, d, 0);
    Broken(s, d);
    if d.top > 0 {
      FullBeforeFeed(s, d, k);
    }
    if d.perPage > 0 && k == d.top + d.perPage {
      FullSuffix(s, d, k, i);
    } else {
      FeedSuffix(s, d, k, i);
    }
  }

  lemma Broken(s: seq<Line>, d: Layout)
    requires |AfterSheet(s, d)| > 0
    ensures var k := SheetEnd(s, d, 0);
      && k < |s| && (forall i :: 0 <= i < k ==> !s[i].formfeed)
      && if d.perPage > 0 && k == d.top + d.perPage then AfterSheet(s, d) == s[k..]
         else s[k].formfeed && AfterSheet(s, d) == s[k + 1..]
  {
    PageBreaks(s, d);
    hide *;
  }

  /** Where lines are dropped at the top, a page that is full is followed by a form feed. */
  lemma FullBeforeFeed(s: seq<Line>, d: Layout, k: nat)
    requires s != [] && Fits(s, d) && d.top > 0 && k == SheetEnd(s, d, 0)
    ensures k < |s| ==> s[k].formfeed
  {
    SheetWithinSegment(s, d);
  }

  lemma SheetRow(s: seq<Line>, d: Layout, i: nat)
    requires Fits(s, d) && i < SheetEnd(s, d, 0) && s[i].cells != []
    ensures d.top <= i && i - d.top < |Sheet(s, d)| && Sheet(s, d)[i - d.top] == s[i]
    ensures PaperRow(s, d, i) == i - d.top
  {
    PageBreaks(s, d);
    if d.top > 0 {
      SheetWithinSegment(s, d);
    }
    hide Fits, SheetEnd, AfterSheet, Sheet, Row;
    RowsBefore(s, i);
  }

  /** A character of the document other than a space, on a line that does not come with
      a form feed, is on some page: on the row its line has on its page, counted from
      the first that is not dropped and beginning again when a page is full, and in its
      column, counted from the first that is not dropped. */
  lemma {:induction false} GlyphLands(s: seq<Line>, d: Layout, number: int, i: nat, c: nat)
    returns (p: nat)
    requires Fits(s, d) && (forall i :: 0 <= i < |s| ==> LeftBlank(s[i], d.left))
    requires i < |s| && !s[i].formfeed && c < |s[i].cells| && s[i].cells[c].c != ' '
    ensures c >= d.left && p < |Pages(s, d, number)|
    ensures Mark(s[i].cells[c].c, c - d.left, PaperRow(s, d, i), s[i].cells[c].bold) in Pages(s, d, number)[p].marks
    decreases |s|, 1
  {
    assert LeftBlank(s[i], d.left);
    var sheet, rest, k := Sheet(s, d), AfterSheet(s, d), SheetEnd(s, d, 0);
    PageBreaks(s, d);
    FitsAfter(s, d);
    AfterIsSuffix(s, d);
    UsedUp(s, d);
    if i < k {
      GlyphOnFirst(s, d, number, i, c);
      p := 0;
    } else {
      var used := |s| - |rest|;
      PaperRowSuffix(s, d, i);
      hide Fits, SheetEnd, AfterSheet, Sheet, SheetMarks, PaperRow, LeftBlank, Pages;
      p := GlyphOnRest(s, d, number, i, c, used);
    }
  }

  lemma GlyphOnFirst(s: seq<Line>, d: Layout, number: int, i: nat, c: nat)
    requires Fits(s, d) && i < SheetEnd(s, d, 0) && d.left <= c < |s[i].cells| && s[i].cells[c].c != ' '
    ensures |Pages(s, d, number)| > 0
    ensures Mark(s[i].cells[c].c, c - d.left, PaperRow(s, d, i), s[i].cells[c].bold) in Pages(s, d, number)[0].marks
  {
    hide *;
    var sheet := Sheet(s, d);
    SheetRow(s, d, i);
    SheetMarksIff(sheet, d, Mark(s[i].cells[c].c, c - d.left, i - d.top, s[i].cells[c].bold));
    FirstPage(s, d, number, i - d.top);
  }

  lemma FirstPage(s: seq<Line>, d: Layout, number: int, r: nat)
    requires r < |Sheet(s, d)| && Sheet(s, d)[r].cells != []
    ensures Pages(s, d, number) != [] && Pages(s, d, number)[0].marks == SheetMarks(Sheet(s, d), d)
  {
    hide SheetMarks, AfterSheet, SheetEnd;
    assert s != [] && !AllEmpty(Sheet(s, d));
  }

  lemma {:induction false} GlyphOnRest(s: seq<Line>, d: Layout, number: int, i: nat, c: nat, used: nat) returns (p: nat)
    requires s != [] && 0 < used <= i < |s| && AfterSheet(s, d) == s[used..] && Fits(AfterSheet(s, d), d)
    requires forall i :: 0 <= i < |s| ==> LeftBlank(s[i], d.left)
    requires !s[i].formfeed && c < |s[i].cells| && s[i].cells[c].c != ' '
    requires PaperRow(AfterSheet(s, d), d, i - used) == PaperRow(s, d, i)
    ensures c >= d.left && p < |Pages(s, d, number)|
    ensures Mark(s[i].cells[c].c, c - d.left, PaperRow(s, d, i), s[i].cells[c].bold) in Pages(s, d, number)[p].marks
    decreases |s|, 0
  {
    hide Fits, SheetEnd, AfterSheet, Sheet, SheetMarks, PaperRow, LeftBlank, AllEmpty;
    var blank := AllEmpty(Sheet(s, d));
    p := GlyphLands(AfterSheet(s, d), d, if blank then number else number + 1, i - used, c);
    p := if blank then p else p + 1;
  }

  /** So the margins are used: on the pages printed something is in column 0, if any
      line without a form feed is indented no more than the others and less than 1000
      columns. */
  lemma LeftMarginUsed(s: seq<Line>, f: Findings, l: Limits, i: nat) returns (p: nat, m: Mark)
    requires Measured(s, f) && forall i :: 0 <= i < |s| ==> WellFormed(s[i])
    requires i < |s| && HasText(s, i) && !s[i].formfeed && Span(s[i].cells, 0) < 1000
    requires forall j :: 0 <= j < |s| && HasText(s, j) ==> Span(s[i].cells, 0) <= Span(s[j].cells, 0)
    ensures p < |Pages(s, Choose(f, l), 1)| && m in Pages(s, Choose(f, l), 1)[p].marks && m.col == 0
  {
    var d := Choose(f, l);
    ChosenLayoutFits(s, f, l);
    assert WellFormed(s[i]);
    var c := Span(s[i].cells, 0);
    assert d.left == c by { hide LeastRow, Deepest, Row, Depth, Fits, WellFormed, LeftBlank; }
    hide Measured, Fits, Pages, WellFormed, LeftBlank;
    p := GlyphLands(s, d, 1, i, c);
    m := Mark(s[i].cells[c].c, c - d.left, PaperRow(s, d, i), s[i].cells[c].bold);
  }

  lemma TopIsRow(s: seq<Line>, f: Findings, l: Limits, i: nat)
    requires Measured(s, f) && i < |s| && HasText(s, i) && Row(s, i) < 1000
    requires forall j :: 0 <= j < |s| && HasText(s, j) ==> Row(s, i) <= Row(s, j)
    requires forall n :: Longest(s, n) ==> Paged(s, n, Row(s, i), l)
    ensures s[i].cells != [] && Choose(f, l).top == Row(s, i)
  {
    hide LeastIndent, Row, Depth;
    assert Longest(s, f.depth);
  }

  /** And something is on row 0, if form feeds divide the document into pages within the
      limit and a line without a form feed is as high on its page as any, and less than
      1000 rows down. */
  lemma TopMarginUsed(s: seq<Line>, f: Findings, l: Limits, i: nat) returns (p: nat, m: Mark)
    requires Measured(s, f) && forall i :: 0 <= i < |s| ==> WellFormed(s[i])
    requires i < |s| && HasText(s, i) && !s[i].formfeed && Row(s, i) < 1000
    requires forall j :: 0 <= j < |s| && HasText(s, j) ==> Row(s, i) <= Row(s, j)
    requires forall n :: Longest(s, n) ==> Paged(s, n, Row(s, i), l)
    ensures p < |Pages(s, Choose(f, l), 1)| && m in Pages(s, Choose(f, l), 1)[p].marks && m.row == 0
  {
    hide *;
    var d := Choose(f, l);
    ChosenLayoutFits(s, f, l);
    assert WellFormed(s[i]);
    TopIsRow(s, f, l, i);
    var c := |s[i].cells| - 1;
    LastIsText(s[i]);
    p := GlyphLands(s, d, 1, i, c);
    m := Mark(s[i].cells[c].c, c - d.left, PaperRow(s, d, i), s[i].cells[c].bold);
    HighestRow(s, d, i);
  }

  lemma HighestRow(s: seq<Line>, d: Layout, i: nat)
    requires i < |s| && Row(s, i) == d.top
    ensures PaperRow(s, d, i) == 0
  {
    hide Row;
  }

  lemma LastIsText(l: Line)
    requires WellFormed(l) && l.cells != []
    ensures l.cells[|l.cells| - 1].c != ' '
  {
  }
}

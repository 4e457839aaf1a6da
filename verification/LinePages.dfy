// The two passes of filter_lp/filter_lp.c over a document: pass1() measures it,
// pass2() prints it page by page.

/** What the document's pages are to look like. */
module LineSheets {
  import opened LineMachine
  import opened LinePrinterModel

  /** What readline() delivers: the characters of a line, trailing spaces
      removed, or a form feed. */
  datatype Line = Line(cells: Cells, formfeed: bool)

  predicate WellFormed(l: Line) {
    Printable(l.cells) && (l.cells != [] ==> l.cells[|l.cells| - 1].c != ' ')
  }

  /** How the document is cut: lines dropped at the top of each page, columns
      dropped at the left, and lines to a page (no limit unless positive). */
  datatype Layout = Layout(top: nat, left: nat, perPage: int)

  /** Where the page that starts with s[0] ends, if its first `i` lines are read:
      at the end of the document, when it is full, or at a form feed. */
  function SheetEnd(s: seq<Line>, d: Layout, i: nat): (k: nat)
    requires i <= |s|
    ensures i <= k <= |s|
    decreases |s| - i
  {
    if i == |s| || Full(d, i) || s[i].formfeed then i else SheetEnd(s, d, i + 1)
  }

  predicate Full(d: Layout, i: nat) { d.perPage > 0 && i == d.top + d.perPage }

  /** The rest of the document; a form feed that ended the page is used up. */
  function AfterSheet(s: seq<Line>, d: Layout): (r: seq<Line>)
    ensures s != [] ==> |r| < |s|
  {
    var k := SheetEnd(s, d, 0);
    if k == |s| then [] else if Full(d, k) then s[k..] else s[k + 1..]
  }

  /** The lines of the page below the ones dropped at its top. */
  function Sheet(s: seq<Line>, d: Layout): seq<Line> {
    var k := SheetEnd(s, d, 0);
    if k <= d.top then [] else s[d.top..k]
  }

  predicate LeftBlank(l: Line, left: nat) {
    l.cells == [] || (left < |l.cells| && forall i :: 0 <= i < left ==> l.cells[i].c == ' ')
  }

  function Shown(l: Line, d: Layout): Cells {
    if d.left <= |l.cells| then l.cells[d.left..] else []
  }

  /** The glyphs of a page: line r of it on row r. */
  function SheetMarks(sheet: seq<Line>, d: Layout): seq<Mark> {
    if sheet == [] then []
    else
      var n := |sheet| - 1;
      var cells := Shown(sheet[n], d);
      SheetMarks(sheet[..n], d) + LineMarks(cells, |cells|, n)
  }

  predicate AllEmpty(sheet: seq<Line>) { forall i :: 0 <= i < |sheet| ==> sheet[i].cells == [] }

  /** The pages of the document, numbered from `number`; blank ones are left out. */
  function Pages(s: seq<Line>, d: Layout, number: int): seq<Page>
    decreases |s|
  {
    if s == [] then []
    else
      var sheet := Sheet(s, d);
      var rest := AfterSheet(s, d);
      if AllEmpty(sheet) then Pages(rest, d, number)
      else [Page(number, SheetMarks(sheet, d))] + Pages(rest, d, number + 1)
  }

  /** The lines that get printed. */
  function NonEmpty(sheet: seq<Line>): seq<Cells> {
    if sheet == [] then []
    else NonEmpty(sheet[..|sheet| - 1]) +
         if sheet[|sheet| - 1].cells == [] then [] else [sheet[|sheet| - 1].cells]
  }

  function Printed(s: seq<Line>, d: Layout): seq<Cells>
    decreases |s|
  {
    if s == [] then [] else NonEmpty(Sheet(s, d)) + Printed(AfterSheet(s, d), d)
  }

  /** No line of the list has an octal escape that runs into a digit. */
  predicate AllGood(lines: seq<Cells>, left: nat) {
    forall i :: 0 <= i < |lines| ==> left <= |lines[i]| && GoodUpTo(lines[i][left..], |lines[i]| - left)
  }

  // -------------------------------------------- every line once, in order

  /** The lines between form feeds. */
  function Segment(s: seq<Line>): (n: nat)
    ensures n <= |s| && (forall i :: 0 <= i < n ==> !s[i].formfeed) && (n < |s| ==> s[n].formfeed)
    decreases |s|
  {
    if s == [] || s[0].formfeed then 0 else 1 + Segment(s[1..])
  }

  /** The layout drops only blank lines: either nothing is dropped at the top, or
      every stretch between form feeds fits on a page below `top` blank lines. */
  predicate Fits(s: seq<Line>, d: Layout)
    decreases |s|
  {
    d.top == 0 || s == [] ||
    (var n := Segment(s);
     && (forall i :: 0 <= i < n && i < d.top ==> s[i].cells == [])
     && (n <= d.top || d.perPage <= 0 || n <= d.top + d.perPage)
     && (n < |s| ==> Fits(s[n + 1..], d)))
  }

  /** The non-blank lines of the document, but not those that come with a form feed. */
  function Lines(s: seq<Line>): seq<Cells> {
    if s == [] then []
    else Lines(s[..|s| - 1]) +
         if s[|s| - 1].cells == [] || s[|s| - 1].formfeed then [] else [s[|s| - 1].cells]
  }

  lemma {:induction false} LinesConcat(a: seq<Line>, b: seq<Line>)
    ensures Lines(a + b) == Lines(a) + Lines(b)
    decreases |b|
  {
    if b == [] {
      assert a + b == a;
    } else {
      var k := |b| - 1;
      LinesConcat(a, b[..k]);
      assert (a + b)[..|a| + k] == a + b[..k];
    }
  }

  lemma {:induction false} LinesOfSheet(sheet: seq<Line>)
    requires forall i :: 0 <= i < |sheet| ==> !sheet[i].formfeed
    ensures Lines(sheet) == NonEmpty(sheet)
    decreases |sheet|
  {
    if sheet != [] {
      LinesOfSheet(sheet[..|sheet| - 1]);
    }
  }

  lemma {:induction false} LinesOfBlanks(sheet: seq<Line>)
    requires AllEmpty(sheet)
    ensures Lines(sheet) == []
    decreases |sheet|
  {
    if sheet != [] {
      LinesOfBlanks(sheet[..|sheet| - 1]);
    }
  }

  lemma {:induction false} SheetEndFacts(s: seq<Line>, d: Layout, i: nat)
    requires i <= |s| && forall j :: 0 <= j < i ==> !s[j].formfeed
    ensures var k := SheetEnd(s, d, i);
            && (forall j :: 0 <= j < k ==> !s[j].formfeed)
            && (k == |s| || Full(d, k) || s[k].formfeed)
            && (d.perPage > 0 && i <= d.top + d.perPage ==> k <= d.top + d.perPage)
    decreases |s| - i
  {
    if !(i == |s| || Full(d, i) || s[i].formfeed) {
      SheetEndFacts(s, d, i + 1);
    }
  }

  /** A page that is not the last ends at its form feed, or has filled up just
      before it and leaves the form feed to a blank page. */
  lemma SheetWithinSegment(s: seq<Line>, d: Layout)
    requires s != [] && Fits(s, d) && d.top > 0
    ensures var k, n := SheetEnd(s, d, 0), Segment(s);
            k == n && (forall i :: 0 <= i < k && i < d.top ==> s[i].cells == [])
  {
    SheetEndFacts(s, d, 0);
  }

  /** With nothing printed from the dropped lines, the printed lines are the
      document's lines: each one once, and in order. */
  lemma {:induction false} EveryLineOnce(s: seq<Line>, d: Layout)
    requires Fits(s, d)
    ensures Printed(s, d) == Lines(s)
    decreases |s|
  {
    if s != [] {
      var rest := AfterSheet(s, d);
      var used := s[..|s| - |rest|];
      FitsAfter(s, d);
      UsedLines(s, d);
      EveryLineOnce(rest, d);
      AfterIsSuffix(s, d);
      hide AfterSheet, Sheet, Lines, Fits, NonEmpty;
      assert s == used + rest;
      LinesConcat(used, rest);
    }
  }

  lemma AfterIsSuffix(s: seq<Line>, d: Layout)
    ensures var r := AfterSheet(s, d); |r| <= |s| && r == s[|s| - |r|..]
  {
  }

  /** What is left after a page still fits. */
  lemma FitsAfter(s: seq<Line>, d: Layout)
    requires s != [] && Fits(s, d)
    ensures Fits(AfterSheet(s, d), d)
  {
    if d.top > 0 {
      SheetWithinSegment(s, d);
      var n := Segment(s);
      if n < |s| && Full(d, n) {
        assert Segment(s[n..]) == 0;
        assert s[n..][1..] == s[n + 1..];
      }
    }
  }

  lemma UsedLines(s: seq<Line>, d: Layout)
    requires s != [] && Fits(s, d)
    ensures Lines(s[..|s| - |AfterSheet(s, d)|]) == NonEmpty(Sheet(s, d))
  {
    var k := SheetEnd(s, d, 0);
    SheetEndFacts(s, d, 0);
    UsedUp(s, d);
    hide Lines, NonEmpty, Fits, SheetEnd, Sheet, AfterSheet, Full;
    LinesToSheetEnd(s, d);
    if |s| - |AfterSheet(s, d)| > k {
      FormFeedIsNoLine(s, k);
    }
  }

  /** A page uses up its lines, and the form feed if it ends with one. */
  lemma UsedUp(s: seq<Line>, d: Layout)
    ensures var k, used := SheetEnd(s, d, 0), |s| - |AfterSheet(s, d)|;
            used == k || (used == k + 1 && k < |s| && !Full(d, k))
  {
    hide SheetEnd;
  }

  lemma FormFeedIsNoLine(s: seq<Line>, k: nat)
    requires k < |s| && s[k].formfeed
    ensures Lines(s[..k + 1]) == Lines(s[..k])
  {
    assert s[..k + 1][..k] == s[..k];
  }

  /** The lines dropped at the top of a page are blank. */
  lemma DropIsBlank(s: seq<Line>, d: Layout)
    requires s != [] && Fits(s, d)
    ensures var k := SheetEnd(s, d, 0);
            var drop := if k <= d.top then k else d.top;
            drop <= k && AllEmpty(s[..drop]) && Sheet(s, d) == s[drop..k] && forall i :: 0 <= i < k ==> !s[i].formfeed
  {
    hide Fits, SheetEnd;
    SheetEndFacts(s, d, 0);
    if d.top > 0 {
      SheetWithinSegment(s, d);
    }
  }

  lemma LinesToSheetEnd(s: seq<Line>, d: Layout)
    requires s != [] && Fits(s, d)
    ensures Lines(s[..SheetEnd(s, d, 0)]) == NonEmpty(Sheet(s, d))
  {
    hide Fits, SheetEnd, Sheet, Lines, NonEmpty, AllEmpty;
    var k := SheetEnd(s, d, 0);
    var drop := if k <= d.top then k else d.top;
    DropIsBlank(s, d);
    assert s[..k] == s[..drop] + s[drop..k];
    LinesOfBlanks(s[..drop]);
    LinesOfSheet(s[drop..k]);
    LinesConcat(s[..drop], s[drop..k]);
  }

  // ------------------------------------------------------ what is where on a page

  lemma {:induction false} LineMarksIff(cells: Cells, k: nat, row: int, m: Mark)
    requires k <= |cells|
    ensures m in LineMarks(cells, k, row) <==>
            m.row == row && 0 <= m.col < k && cells[m.col] == Cell(m.c, m.bold) && m.c != ' '
  {
    if k > 0 {
      LineMarksIff(cells, k - 1, row, m);
    }
  }

  /** A page shows the characters of its lines other than spaces and nothing else: those
      of its r-th line on row r, in their own weight, as many columns further left as
      are dropped. */
  lemma {:induction false} SheetMarksIff(sheet: seq<Line>, d: Layout, m: Mark)
    ensures m in SheetMarks(sheet, d) <==>
            0 <= m.row < |sheet| && 0 <= m.col && d.left + m.col < |sheet[m.row].cells|
            && sheet[m.row].cells[d.left + m.col] == Cell(m.c, m.bold) && m.c != ' '
    decreases |sheet|
  {
    if sheet != [] {
      var n := |sheet| - 1;
      SheetMarksIff(sheet[..n], d, m);
      ShownMarksIff(sheet[n], d, n, m);
      hide LineMarks, Shown;
      if 0 <= m.row < n {
        assert sheet[..n][m.row] == sheet[m.row];
      }
    }
  }

  lemma ShownMarksIff(l: Line, d: Layout, row: nat, m: Mark)
    ensures m in LineMarks(Shown(l, d), |Shown(l, d)|, row) <==>
            m.row == row && 0 <= m.col && d.left + m.col < |l.cells|
            && l.cells[d.left + m.col] == Cell(m.c, m.bold) && m.c != ' '
  {
    var cells := Shown(l, d);
    hide LineMarks;
    LineMarksIff(cells, |cells|, row, m);
  }

  /** Where pages break: after the lines dropped at the top and `perPage` more, and
      before that only at a form feed, which is used up, or at the end. */
  lemma PageBreaks(s: seq<Line>, d: Layout)
    ensures var k := SheetEnd(s, d, 0);
            && (forall i :: 0 <= i < k ==> !s[i].formfeed)
            && (d.perPage > 0 ==> k <= d.top + d.perPage)
            && (if d.perPage > 0 && k == d.top + d.perPage then AfterSheet(s, d) == s[k..]
                else (k == |s| && AfterSheet(s, d) == []) || (k < |s| && s[k].formfeed && AfterSheet(s, d) == s[k + 1..]))
            && |Sheet(s, d)| == (if k <= d.top then 0 else k - d.top)
            && forall r :: 0 <= r < |Sheet(s, d)| ==> Sheet(s, d)[r] == s[d.top + r]
  {
    SheetEndFacts(s, d, 0);
    hide SheetEnd;
  }

  /** The pages are those with something on them, numbered one after another. */
  lemma {:induction false} PagesNumbered(s: seq<Line>, d: Layout, number: int)
    ensures forall p :: 0 <= p < |Pages(s, d, number)| ==> Pages(s, d, number)[p].number == number + p
    decreases |s|
  {
    hide Sheet, AfterSheet, SheetMarks;
    if s != [] {
      PagesNumbered(AfterSheet(s, d), d, if AllEmpty(Sheet(s, d)) then number else number + 1);
    }
  }
}

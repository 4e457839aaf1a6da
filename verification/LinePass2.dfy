// pass2() of filter_lp/filter_lp.c: print the document.

module LinePrinting {
  import opened PostScript
  import opened LineMachine
  import opened LineCommands
  import opened LinePrinterModel
  import opened LineSheets
  import opened Options

  /** No page is open. */
  predicate Between(v: Machine) {
    && v.ok && v.stack == [] && v.saved.None? && v.marks == []
    && v.vars == Vars(0, false, 0, v.vars.page) && v.graphics == Graphics(None, false)
  }

  /** Page `number` is open. */
  predicate OnPage(v: Machine, number: int) {
    && v.ok && v.stack == [SaveObject] && v.vars.page == number && !v.vars.moved
    && v.saved == Some((Vars(0, false, 0, number), Graphics(None, false)))
  }

  // ------------------------------------------------------------- page commands

  lemma ViewPageDef(out: string, n: int)
    requires ModeOf(out).Idle? && Between(Interp(out))
    ensures var out' := out + ("/page " + Decimal(n) + " def\n");
            ModeOf(out').Idle? && Interp(out') == Interp(out).(vars := Interp(out).vars.(page := n))
  {
    hide Interp, ModeOf, Decimal;
    InterpWord(out, "/page", " ");
    var o1 := out + ("/page" + " ");
    assert Classify("/page") == Literal("page") by { assert "/page"[1..] == "page"; }
    InterpNumber(o1, n);
    var o2 := o1 + (Decimal(n) + " ");
    assert Classify("def") == Name("def") by { assert !IsDigit("def"[0]); }
    InterpWord(o2, "def", "\n");
    assert o2 + ("def" + "\n") == out + ("/page " + Decimal(n) + " def\n");
    var m := Interp(out);
    var m2 := Push(Push(m, Lit("page")), Num(n));
    assert Pop(m2, 2) == m && m2.stack[|m2.stack| - 2] == Lit("page");
  }

  lemma ViewSp(out: string)
    requires ModeOf(out).Idle? && Between(Interp(out))
    ensures ModeOf(out + "sp\n").Idle? && OnPage(Interp(out + "sp\n"), Interp(out).vars.page)
    ensures Interp(out + "sp\n") ==
            Interp(out).(stack := [SaveObject], saved := Some((Interp(out).vars, Interp(out).graphics)))
  {
    hide Interp, ModeOf;
    assert Classify("sp") == Name("sp") by { assert !IsDigit("sp"[0]); }
    InterpWord(out, "sp", "\n");
    assert "sp" + "\n" == "sp\n";
  }

  lemma ViewEp(out: string, number: int)
    requires ModeOf(out).Idle? && OnPage(Interp(out), number)
    ensures ModeOf(out + "ep\n\n").Idle? && Between(Interp(out + "ep\n\n"))
    ensures Interp(out + "ep\n\n").pages == Interp(out).pages + [Page(number, Interp(out).marks)]
  {
    hide Interp, ModeOf;
    assert Classify("ep") == Name("ep") by { assert !IsDigit("ep"[0]); }
    InterpWord(out, "ep", "\n");
    InterpNewline(out + ("ep" + "\n"));
    assert out + ("ep" + "\n") + "\n" == out + "ep\n\n";
  }

  lemma ViewNewLines(out: string, k: nat)
    requires ModeOf(out).Idle? && Plainly(Interp(out))
    ensures var out' := out + (if k == 1 then "n\n" else Decimal(k) + " nx\n");
            ModeOf(out').Idle? && Interp(out') == NewLines(Interp(out), k)
  {
    hide Interp, ModeOf, Decimal;
    if k == 1 {
      assert Classify("n") == Name("n") by { assert !IsDigit("n"[0]); }
      InterpWord(out, "n", "\n");
      assert "n" + "\n" == "n\n";
    } else {
      InterpNumber(out, k);
      var o1 := out + (Decimal(k) + " ");
      assert Classify("nx") == Name("nx") by { assert !IsDigit("nx"[0]); }
      InterpWord(o1, "nx", "\n");
      assert o1 + ("nx" + "\n") == out + (Decimal(k) + " nx\n");
      assert Pop(Push(Interp(out), Num(k)), 1) == Interp(out);
    }
  }

  method StartPage(p: LinePrinter, page: int)
    requires ModeOf(p.out).Idle? && Between(View(p.out)) && !p.fontChanged
    modifies p`out, p`font, p`indent
    ensures p.Ready(View(p.out)) && OnPage(View(p.out), page)
    ensures View(p.out).vars.row == 0 && View(p.out).marks == [] && View(p.out).pages == old(View(p.out)).pages
  {
    hide Interp, ModeOf, Decimal;
    ViewIdle(p.out);
    NoNewlineInDecimal(page);
    InterpCommentLine(p.out, "%Page: " + Decimal(page) + " " + Decimal(page));
    p.out := p.out + ("%" + ("%Page: " + Decimal(page) + " " + Decimal(page)) + "\n");
    InterpCommentLine(p.out, "%BeginPageSetup");
    p.out := p.out + ("%" + "%BeginPageSetup" + "\n");
    ViewPageDef(p.out, page);
    p.out := p.out + ("/page " + Decimal(page) + " def\n");
    ViewSp(p.out);
    p.out := p.out + "sp\n";
    InterpCommentLine(p.out, "%EndPageSetup");
    p.out := p.out + ("%" + "%EndPageSetup" + "\n");
    ViewIdle(p.out);
    p.font, p.indent := false, 0;
  }

  method EndPage(p: LinePrinter, ghost number: int)
    requires ModeOf(p.out).Idle? && OnPage(View(p.out), number)
    modifies p`out
    ensures ModeOf(p.out).Idle? && Between(View(p.out))
    ensures View(p.out).pages == old(View(p.out)).pages + [Page(number, old(View(p.out)).marks)]
  {
    hide Interp, ModeOf;
    ViewIdle(p.out);
    ViewEp(p.out, number);
    p.out := p.out + "ep\n\n";
    ViewIdle(p.out);
  }

  /** Send the pending newlines. */
  method FlushNewLines(p: LinePrinter, nlpend: nat)
    requires p.Ready(View(p.out))
    modifies p`out
    ensures p.Ready(View(p.out))
    ensures View(p.out) == old(View(p.out)).(vars := old(View(p.out)).vars.(row := old(View(p.out)).vars.row + nlpend))
  {
    if nlpend > 0 {
      hide Interp, ModeOf, Decimal;
      ViewIdle(p.out);
      ViewNewLines(p.out, nlpend);
      p.out := p.out + (if nlpend == 1 then "n\n" else Decimal(nlpend) + " nx\n");
      ViewIdle(p.out);
    }
  }

  // ------------------------------------------------------------------ one page

  /** What is on the paper of a page so far: the right glyphs if every line is
      good, and too few otherwise. */
  predicate OnPaper(good: bool, marks: seq<Mark>, wanted: seq<Mark>) {
    if good then marks == wanted else |marks| < |wanted|
  }

  /** The lines of the page that are read, after the first i. */
  function SoFar(s: seq<Line>, d: Layout, i: nat): seq<Line>
    requires i <= |s|
  {
    if i <= d.top then [] else s[d.top..i]
  }

  lemma SoFarSnoc(s: seq<Line>, d: Layout, i: nat)
    requires d.top <= i < |s|
    ensures SoFar(s, d, i + 1) == SoFar(s, d, i) + [s[i]] && |SoFar(s, d, i)| == i - d.top
  {
  }

  lemma SheetMarksSnoc(sheet: seq<Line>, l: Line, d: Layout)
    ensures SheetMarks(sheet + [l], d) == SheetMarks(sheet, d) + LineMarks(Shown(l, d), |Shown(l, d)|, |sheet|)
    ensures NonEmpty(sheet + [l]) == NonEmpty(sheet) + if l.cells == [] then [] else [l.cells]
  {
    assert (sheet + [l])[..|sheet|] == sheet;
  }

  lemma AllGoodSnoc(lines: seq<Cells>, c: Cells, left: nat)
    requires left <= |c|
    ensures AllGood(lines + [c], left) <==> AllGood(lines, left) && GoodUpTo(c[left..], |c| - left)
  {
    var all := lines + [c];
    if AllGood(all, left) {
      forall i | 0 <= i < |lines| ensures left <= |lines[i]| && GoodUpTo(lines[i][left..], |lines[i]| - left) {
        assert all[i] == lines[i];
      }
      assert all[|lines|] == c;
    }
  }

  /** The page being printed: `i` lines of `s` are read, `nlpend` newlines are owed. */
  ghost predicate PageState(p: LinePrinter, s: seq<Line>, d: Layout, i: nat, nlpend: nat, writ: bool,
                            number: int, pages: seq<Page>)
    requires i <= |s|
    reads p
  {
    var sofar := SoFar(s, d, i);
    var v := View(p.out);
    && v.pages == pages && ModeOf(p.out).Idle? && !p.fontChanged
    && (writ <==> !AllEmpty(sofar))
    && (if writ then
          && p.Ready(v) && OnPage(v, number) && v.vars.row + nlpend == |sofar|
          && OnPaper(AllGood(NonEmpty(sofar), d.left), v.marks, SheetMarks(sofar, d))
        else
          Between(v) && nlpend == |sofar| && NonEmpty(sofar) == [] && SheetMarks(sofar, d) == [])
  }

  /** Print one line that is not empty. */
  method PrintLine(p: LinePrinter, s: seq<Line>, d: Layout, i: nat, nlpend: nat, writ: bool,
                   number: int, ghost pages: seq<Page>)
    requires i < |s| && d.top <= i && PageState(p, s, d, i, nlpend, writ, number, pages)
    requires WellFormed(s[i]) && s[i].cells != [] && LeftBlank(s[i], d.left)
    modifies p`out, p`font, p`fontChanged, p`indent
    ensures PageState(p, s, d, i + 1, 0, true, number, pages)
  {
    hide View, ModeOf, LineMarks, GoodUpTo, SheetMarks, AllGood, NonEmpty;
    var sofar := SoFar(s, d, i);
    SoFarSnoc(s, d, i);
    SheetMarksSnoc(sofar, s[i], d);
    AllGoodSnoc(NonEmpty(sofar), s[i].cells, d.left);
    StillEmpty(sofar, d);
    if !writ {
      StartPage(p, number);
    }
    FlushNewLines(p, nlpend);
    var cells := s[i].cells[d.left..];
    assert cells == Shown(s[i], d) && cells[|cells| - 1].c != ' ';
    p.OutputLine(cells);
    assert !AllEmpty(SoFar(s, d, i + 1)) by { assert SoFar(s, d, i + 1)[|sofar|] == s[i]; }
  }

  lemma StillEmpty(sofar: seq<Line>, d: Layout)
    ensures NonEmpty(sofar) == [] ==> AllGood(NonEmpty(sofar), d.left)
  {
  }

  lemma SoFarEmpty(s: seq<Line>, d: Layout, i: nat)
    requires i < |s| && (i >= d.top ==> s[i].cells == [])
    ensures var a, b := SoFar(s, d, i), SoFar(s, d, i + 1);
            && (AllEmpty(b) <==> AllEmpty(a)) && |b| == |a| + (if i < d.top then 0 else 1)
            && SheetMarks(b, d) == SheetMarks(a, d) && NonEmpty(b) == NonEmpty(a)
  {
    var a := SoFar(s, d, i);
    if i >= d.top {
      SoFarSnoc(s, d, i);
      SheetMarksSnoc(a, s[i], d);
      assert Shown(s[i], d) == [];
      hide SheetMarks, NonEmpty;
      var b := a + [s[i]];
      if AllEmpty(b) {
        forall j | 0 <= j < |a| ensures a[j].cells == [] { assert b[j] == a[j]; }
      }
    }
  }

  /** Count a line that is empty. */
  lemma SkipLine(p: LinePrinter, s: seq<Line>, d: Layout, i: nat, nlpend: nat, writ: bool,
                 number: int, pages: seq<Page>)
    requires i < |s| && PageState(p, s, d, i, nlpend, writ, number, pages)
    requires i >= d.top ==> s[i].cells == []
    ensures PageState(p, s, d, i + 1, if i < d.top then nlpend else nlpend + 1, writ, number, pages)
  {
    SoFarEmpty(s, d, i);
    hide View, ModeOf, SheetMarks, AllGood, NonEmpty, SoFar, AllEmpty;
  }

  /** Read and print one page. It ends where SheetEnd says; `eof` is len < 0. */
  method OnePage(p: LinePrinter, s: seq<Line>, d: Layout, number: int) returns (rest: seq<Line>, eof: bool, writ: bool)
    requires forall i :: 0 <= i < |s| ==> WellFormed(s[i]) && LeftBlank(s[i], d.left)
    requires ModeOf(p.out).Idle? && Between(View(p.out)) && !p.fontChanged
    modifies p`out, p`font, p`fontChanged, p`indent
    ensures ModeOf(p.out).Idle? && Between(View(p.out)) && !p.fontChanged
    ensures rest == AfterSheet(s, d) && (eof ==> rest == []) && (s == [] ==> eof)
    ensures writ <==> !AllEmpty(Sheet(s, d))
    ensures var v, pages := View(p.out), old(View(p.out)).pages;
            if writ then
              && |v.pages| == |pages| + 1 && v.pages == pages + [Page(number, v.pages[|pages|].marks)]
              && OnPaper(AllGood(NonEmpty(Sheet(s, d)), d.left), v.pages[|pages|].marks, SheetMarks(Sheet(s, d), d))
            else v.pages == pages && NonEmpty(Sheet(s, d)) == []
  {
    ghost var pages := View(p.out).pages;
    var i, nlpend, formfeed;
    i, nlpend, formfeed, eof, writ := ReadPage(p, s, d, number);
    SheetFound(s, d, i);
    hide SheetEnd, Sheet, AfterSheet, SoFar, AllEmpty, NonEmpty, SheetMarks, AllGood, OnPaper, Between, View, ModeOf, PageState;
    FinalState(p, s, d, i, nlpend, writ, number, pages);
    rest := if formfeed then s[i + 1..] else s[i..];
    if writ {
      EndPage(p, number);
    }
  }

  lemma SheetFound(s: seq<Line>, d: Layout, i: nat)
    requires i <= |s| && i == SheetEnd(s, d, 0)
    ensures SoFar(s, d, i) == Sheet(s, d)
    ensures if i < |s| && !Full(d, i) then s[i].formfeed && AfterSheet(s, d) == s[i + 1..]
            else AfterSheet(s, d) == s[i..]
  {
    SheetEndFacts(s, d, 0);
  }

  /** One line: dropped at the top, counted as blank, or printed. */
  method TakeLine(p: LinePrinter, s: seq<Line>, d: Layout, i: nat, nlpend0: nat, writ0: bool, number: int,
                  ghost pages: seq<Page>)
    returns (nlpend: nat, writ: bool)
    requires i < |s| && WellFormed(s[i]) && LeftBlank(s[i], d.left)
    requires PageState(p, s, d, i, nlpend0, writ0, number, pages)
    modifies p`out, p`font, p`fontChanged, p`indent
    ensures PageState(p, s, d, i + 1, nlpend, writ, number, pages)
  {
    hide PageState, WellFormed, LeftBlank;
    nlpend, writ := nlpend0, writ0;
    if i + 1 <= d.top {
      SkipLine(p, s, d, i, nlpend, writ, number, pages);
    } else if |s[i].cells| == 0 {
      SkipLine(p, s, d, i, nlpend, writ, number, pages);
      nlpend := nlpend + 1;
    } else {
      PrintLine(p, s, d, i, nlpend, writ, number, pages);
      writ, nlpend := true, 0;
    }
  }

  /** Count a line and take it; `full` if it fills the page. */
  method CountLine(p: LinePrinter, s: seq<Line>, d: Layout, i: nat, linen0: nat, linen20: nat, nlpend0: nat, writ0: bool,
                   number: int, ghost pages: seq<Page>)
    returns (linen: nat, linen2: nat, nlpend: nat, writ: bool, full: bool)
    requires i < |s| && WellFormed(s[i]) && LeftBlank(s[i], d.left)
    requires linen0 == i && linen20 == (if i < d.top then 0 else i - d.top) && !Full(d, i)
    requires PageState(p, s, d, i, nlpend0, writ0, number, pages)
    modifies p`out, p`font, p`fontChanged, p`indent
    ensures PageState(p, s, d, i + 1, nlpend, writ, number, pages)
    ensures linen == i + 1 && linen2 == (if i + 1 < d.top then 0 else i + 1 - d.top) && (full <==> Full(d, i + 1))
  {
    hide PageState, WellFormed, LeftBlank;
    linen, linen2, full := linen0 + 1, linen20, false;
    nlpend, writ := TakeLine(p, s, d, i, nlpend0, writ0, number, pages);
    if linen > d.top {
      linen2 := linen2 + 1;
      full := linen2 == d.perPage;
    }
  }

  /** The inner loop: read and print lines to the end of the page. */
  method ReadPage(p: LinePrinter, s: seq<Line>, d: Layout, number: int)
    returns (i: nat, nlpend: nat, formfeed: bool, eof: bool, writ: bool)
    requires forall k :: 0 <= k < |s| ==> WellFormed(s[k]) && LeftBlank(s[k], d.left)
    requires ModeOf(p.out).Idle? && Between(View(p.out)) && !p.fontChanged
    modifies p`out, p`font, p`fontChanged, p`indent
    ensures i <= |s| && i == SheetEnd(s, d, 0)
    ensures formfeed <==> i < |s| && !Full(d, i)
    ensures (eof ==> i == |s|) && (s == [] ==> eof)
    ensures PageState(p, s, d, i, nlpend, writ, number, old(View(p.out)).pages)
  {
    ghost var pages := View(p.out).pages;
    StartState(p, s, d, number, pages);
    hide *;
    i, nlpend, formfeed, eof, writ := ReadOn(p, s, d, number, pages);
    SheetEndAt(s, d, i);
  }

  method ReadOn(p: LinePrinter, s: seq<Line>, d: Layout, number: int, ghost pages: seq<Page>)
    returns (i: nat, nlpend: nat, formfeed: bool, eof: bool, writ: bool)
    requires forall k :: 0 <= k < |s| ==> WellFormed(s[k]) && LeftBlank(s[k], d.left)
    requires PageState(p, s, d, 0, 0, false, number, pages)
    modifies p`out, p`font, p`fontChanged, p`indent
    ensures i <= |s| && SheetEnd(s, d, 0) == SheetEnd(s, d, i)
    ensures i == |s| || Full(d, i) || s[i].formfeed
    ensures formfeed <==> i < |s| && !Full(d, i)
    ensures (eof ==> i == |s|) && (s == [] ==> eof)
    ensures PageState(p, s, d, i, nlpend, writ, number, pages)
  {
    hide *;
    FullUnless(d, 0);
    var linen: nat, linen2: nat := 0, 0;
    var full := false;
    i, nlpend, formfeed, writ, eof := 0, 0, false, false, false;
    while !eof && !formfeed && !full
      invariant i <= |s| && linen == i && linen2 == (if i < d.top then 0 else i - d.top)
      invariant PageState(p, s, d, i, nlpend, writ, number, pages)
      invariant SheetEnd(s, d, 0) == SheetEnd(s, d, i)
      invariant full <==> Full(d, i)
      invariant formfeed ==> i < |s| && s[i].formfeed && !full
      invariant eof ==> i == |s|
      invariant full ==> i > 0
      decreases |s| - i, !eof && !formfeed && !full
    {
      if i == |s| {
        eof := true;
      } else if s[i].formfeed {
        formfeed := true;
      } else {
        SheetEndStep(s, d, i);
        linen, linen2, nlpend, writ, full := CountLine(p, s, d, i, linen, linen2, nlpend, writ, number, pages);
        i := i + 1;
      }
    }
  }

  lemma SheetEndStep(s: seq<Line>, d: Layout, i: nat)
    requires i < |s| && !Full(d, i) && !s[i].formfeed
    ensures SheetEnd(s, d, i) == SheetEnd(s, d, i + 1)
  {
  }

  lemma SheetEndAt(s: seq<Line>, d: Layout, i: nat)
    requires i <= |s| && (i == |s| || Full(d, i) || s[i].formfeed)
    ensures SheetEnd(s, d, i) == i
  {
  }

  lemma FullUnless(d: Layout, i: nat)
    ensures Full(d, i) <==> i > d.top && i - d.top == d.perPage
  {
  }

  lemma StartState(p: LinePrinter, s: seq<Line>, d: Layout, number: int, pages: seq<Page>)
    requires ModeOf(p.out).Idle? && Between(View(p.out)) && !p.fontChanged && pages == View(p.out).pages
    ensures PageState(p, s, d, 0, 0, false, number, pages)
  {
  }

  lemma FinalState(p: LinePrinter, s: seq<Line>, d: Layout, i: nat, nlpend: nat, writ: bool, number: int, pages: seq<Page>)
    requires i <= |s| && PageState(p, s, d, i, nlpend, writ, number, pages)
    ensures ModeOf(p.out).Idle? && !p.fontChanged && View(p.out).pages == pages
    ensures writ <==> !AllEmpty(SoFar(s, d, i))
    ensures if writ then
              OnPage(View(p.out), number) &&
              OnPaper(AllGood(NonEmpty(SoFar(s, d, i)), d.left), View(p.out).marks, SheetMarks(SoFar(s, d, i), d))
            else Between(View(p.out)) && NonEmpty(SoFar(s, d, i)) == []
  {
  }

  // -------------------------------------------------------------- the document

  /** Page lists that agree so far, and a page with too few marks in one of them. */
  ghost predicate Document(good: bool, pages: seq<Page>, wanted: seq<Page>) {
    && |pages| == |wanted|
    && (if good then pages == wanted else exists i :: 0 <= i < |pages| && |pages[i].marks| < |wanted[i].marks|)
  }

  lemma DocumentSnoc(good: bool, pages: seq<Page>, wanted: seq<Page>, good': bool, page: Page, want: Page)
    requires Document(good, pages, wanted) && page.number == want.number && OnPaper(good', page.marks, want.marks)
    ensures Document(good && good', pages + [page], wanted + [want])
  {
    if !good {
      var i :| 0 <= i < |pages| && |pages[i].marks| < |wanted[i].marks|;
      assert |(pages + [page])[i].marks| < |(wanted + [want])[i].marks|;
    } else if !good' {
      assert |(pages + [page])[|pages|].marks| < |(wanted + [want])[|pages|].marks|;
    }
  }

  lemma DocumentRight(good: bool, pages: seq<Page>, wanted: seq<Page>)
    requires Document(good, pages, wanted)
    ensures pages == wanted <==> good
  {
  }

  lemma AllGoodConcat(a: seq<Cells>, b: seq<Cells>, left: nat)
    ensures AllGood(a + b, left) <==> AllGood(a, left) && AllGood(b, left)
  {
    var all := a + b;
    hide GoodUpTo;
    if AllGood(all, left) {
      forall i | 0 <= i < |a| ensures left <= |a[i]| && GoodUpTo(a[i][left..], |a[i]| - left) { assert all[i] == a[i]; }
      forall i | 0 <= i < |b| ensures left <= |b[i]| && GoodUpTo(b[i][left..], |b[i]| - left) {
        assert all[|a| + i] == b[i];
      }
    }
  }

  /** One turn of the outer loop: `done` printed so far, `s` to come. */
  lemma DocumentStep(s: seq<Line>, d: Layout, number: int, wanted: seq<Page>, all: seq<Page>)
    requires all == wanted + Pages(s, d, number) && s != []
    ensures var blank := AllEmpty(Sheet(s, d));
            all == (if blank then wanted else wanted + [Page(number, SheetMarks(Sheet(s, d), d))])
                   + Pages(AfterSheet(s, d), d, if blank then number else number + 1)
    ensures Printed(s, d) == NonEmpty(Sheet(s, d)) + Printed(AfterSheet(s, d), d)
  {
    hide SheetMarks, Sheet, AfterSheet, NonEmpty, AllEmpty;
    var page := [Page(number, SheetMarks(Sheet(s, d), d))];
    var rest := Pages(AfterSheet(s, d), d, number + 1);
    assert wanted + (page + rest) == (wanted + page) + rest;
  }

  lemma SuffixFits(lines: seq<Line>, s: seq<Line>, d: Layout)
    requires |s| <= |lines| && s == lines[|lines| - |s|..]
    requires forall i :: 0 <= i < |lines| ==> WellFormed(lines[i]) && LeftBlank(lines[i], d.left)
    ensures forall i :: 0 <= i < |s| ==> WellFormed(s[i]) && LeftBlank(s[i], d.left)
    ensures var r := AfterSheet(s, d); |r| <= |lines| && r == lines[|lines| - |r|..]
  {
    AfterIsSuffix(s, d);
  }

  /** The pages wanted by now, and whether every line printed was good. */
  datatype Account = Account(wanted: seq<Page>, good: bool)

  /** `n` pages are printed, and `s` of the document is left. */
  ghost predicate Progress(lines: seq<Line>, s: seq<Line>, d: Layout, n: nat, a: Account, pages: seq<Page>)
  {
    && |s| <= |lines| && s == lines[|lines| - |s|..]
    && Document(a.good, pages, a.wanted) && n == |a.wanted|
    && Pages(lines, d, 1) == a.wanted + Pages(s, d, n + 1)
    && (AllGood(Printed(lines, d), d.left) <==> a.good && AllGood(Printed(s, d), d.left))
  }

  /** What one turn of the outer loop does to the account, if it prints a page. */
  lemma TurnPage(lines: seq<Line>, s: seq<Line>, d: Layout, n: nat, a: Account, pages: seq<Page>, marks: seq<Mark>)
    returns (a': Account)
    requires Progress(lines, s, d, n, a, pages) && !AllEmpty(Sheet(s, d))
    requires OnPaper(AllGood(NonEmpty(Sheet(s, d)), d.left), marks, SheetMarks(Sheet(s, d), d))
    ensures Progress(lines, AfterSheet(s, d), d, n + 1, a', pages + [Page(n + 1, marks)])
  {
    var sheet, rest := Sheet(s, d), AfterSheet(s, d);
    NoSheet(d);
    AfterIsSuffix(s, d);
    hide AllGood, Document, SheetMarks, Sheet, AfterSheet, NonEmpty, AllEmpty, OnPaper, Pages, Printed;
    DocumentStep(s, d, n + 1, a.wanted, Pages(lines, d, 1));
    AllGoodConcat(NonEmpty(sheet), Printed(rest, d), d.left);
    var want := Page(n + 1, SheetMarks(sheet, d));
    var good := AllGood(NonEmpty(sheet), d.left);
    DocumentSnoc(a.good, pages, a.wanted, good, Page(n + 1, marks), want);
    a' := Account(a.wanted + [want], a.good && good);
    SuffixOfSuffix(lines, s, rest);
  }

  lemma SuffixOfSuffix(lines: seq<Line>, s: seq<Line>, r: seq<Line>)
    requires |s| <= |lines| && s == lines[|lines| - |s|..] && |r| <= |s| && r == s[|s| - |r|..]
    ensures r == lines[|lines| - |r|..]
  {
  }

  /** And if the page is blank. */
  lemma TurnBlank(lines: seq<Line>, s: seq<Line>, d: Layout, n: nat, a: Account, pages: seq<Page>)
    requires Progress(lines, s, d, n, a, pages) && AllEmpty(Sheet(s, d)) && NonEmpty(Sheet(s, d)) == []
    ensures Progress(lines, AfterSheet(s, d), d, n, a, pages)
  {
    var sheet, rest := Sheet(s, d), AfterSheet(s, d);
    NoSheet(d);
    NothingIsGood(d.left);
    AfterIsSuffix(s, d);
    hide AllGood, Document, SheetMarks, Sheet, AfterSheet, NonEmpty, AllEmpty, Pages, Printed;
    if s != [] {
      DocumentStep(s, d, n + 1, a.wanted, Pages(lines, d, 1));
      AllGoodConcat(NonEmpty(sheet), Printed(rest, d), d.left);
    }
    SuffixOfSuffix(lines, s, rest);
  }

  lemma Finished(lines: seq<Line>, d: Layout, n: nat, a: Account, pages: seq<Page>)
    requires Progress(lines, [], d, n, a, pages)
    ensures n == |pages| == |Pages(lines, d, 1)|
    ensures pages == Pages(lines, d, 1) <==> AllGood(Printed(lines, d), d.left)
  {
    DocumentRight(a.good, pages, a.wanted);
    NothingIsGood(d.left);
    assert a.wanted + Pages([], d, n + 1) == a.wanted;
  }

  lemma Begun(lines: seq<Line>, d: Layout)
    ensures Progress(lines, lines, d, 0, Account([], true), [])
  {
  }

  lemma StillFits(lines: seq<Line>, s: seq<Line>, d: Layout, n: nat, a: Account, pages: seq<Page>)
    requires Progress(lines, s, d, n, a, pages)
    requires forall i :: 0 <= i < |lines| ==> WellFormed(lines[i]) && LeftBlank(lines[i], d.left)
    ensures forall i :: 0 <= i < |s| ==> WellFormed(s[i]) && LeftBlank(s[i], d.left)
  {
    SuffixFits(lines, s, d);
  }

  /** The second pass. An interpreter of its output has made exactly the wanted
      pages, numbered from 1, glyph by glyph, if and only if no printed line holds
      an octal escape that runs into a digit. The trailer counts the pages. */
  method Pass2(p: LinePrinter, lines: seq<Line>, d: Layout) returns (trailer: string)
    requires forall i :: 0 <= i < |lines| ==> WellFormed(lines[i]) && LeftBlank(lines[i], d.left)
    requires ModeOf(p.out).Idle? && View(p.out) == Setup && !p.fontChanged
    modifies p`out, p`font, p`fontChanged, p`indent
    ensures Interp(p.out).ok && |Interp(p.out).pages| == |Pages(lines, d, 1)|
    ensures Interp(p.out).pages == Pages(lines, d, 1) <==> AllGood(Printed(lines, d), d.left)
    ensures trailer == "%%Trailer\n%%Pages: " + Decimal(|Pages(lines, d, 1)|) + "\n%%EOF\n"
  {
    assert Between(View(p.out)) && View(p.out).pages == [];
    hide View, ModeOf, Between, AllGood, SheetMarks, Sheet, AfterSheet, NonEmpty, AllEmpty, OnPaper, Progress,
      WellFormed, LeftBlank, Pages, Printed, Decimal;
    var currentPage: nat := 0;
    var s, eof := lines, false;
    ghost var a := Account([], true);
    Begun(lines, d);
    while !eof
      invariant ModeOf(p.out).Idle? && Between(View(p.out)) && !p.fontChanged && (eof ==> s == [])
      invariant Progress(lines, s, d, currentPage, a, View(p.out).pages)
      decreases |s|, !eof
    {
      s, eof, currentPage, a := NextPage(p, lines, s, d, currentPage, a);
    }
    Finished(lines, d, currentPage, a, View(p.out).pages);
    ViewIdle(p.out);
    assert View(p.out).ok by { BetweenOk(View(p.out)); }
    trailer := "%%Trailer\n%%Pages: " + Decimal(currentPage) + "\n%%EOF\n";
  }

  /** One turn of the outer loop. A page that turns out blank does not count. */
  method NextPage(p: LinePrinter, ghost lines: seq<Line>, s0: seq<Line>, d: Layout, page0: nat, ghost a0: Account)
    returns (s: seq<Line>, eof: bool, currentPage: nat, ghost a: Account)
    requires forall i :: 0 <= i < |lines| ==> WellFormed(lines[i]) && LeftBlank(lines[i], d.left)
    requires ModeOf(p.out).Idle? && Between(View(p.out)) && !p.fontChanged
    requires Progress(lines, s0, d, page0, a0, View(p.out).pages)
    modifies p`out, p`font, p`fontChanged, p`indent
    ensures ModeOf(p.out).Idle? && Between(View(p.out)) && !p.fontChanged && (eof ==> s == [])
    ensures Progress(lines, s, d, currentPage, a, View(p.out).pages)
    ensures |s| < |s0| || (s == s0 && eof)
  {
    hide View, ModeOf, Between, AllGood, SheetMarks, Sheet, AfterSheet, NonEmpty, AllEmpty, OnPaper, Progress,
      WellFormed, LeftBlank, Pages, Printed;
    StillFits(lines, s0, d, page0, a0, View(p.out).pages);
    ghost var pages := View(p.out).pages;
    var writ;
    s, eof, writ := OnePage(p, s0, d, page0 + 1);
    ShorterAfter(s0, d);
    if writ {
      a := TurnPage(lines, s0, d, page0, a0, pages, View(p.out).pages[|pages|].marks);
      currentPage := page0 + 1;
    } else {
      TurnBlank(lines, s0, d, page0, a0, pages);
      a, currentPage := a0, page0;
    }
  }

  lemma BetweenOk(v: Machine)
    requires Between(v)
    ensures v.ok
  {
  }

  lemma ShorterAfter(s: seq<Line>, d: Layout)
    ensures s != [] ==> |AfterSheet(s, d)| < |s|
  {
  }

  lemma NoSheet(d: Layout)
    ensures AllEmpty(Sheet([], d)) && AfterSheet([], d) == []
  {
  }

  lemma NothingIsGood(left: nat)
    ensures AllGood([], left)
  {
  }
}

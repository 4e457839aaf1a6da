// Whole runs of the PCL filter's generator: what any sequence of cursor moves,
// font changes, characters and page ejects paints, compared with a printer that
// puts every character straight at the cursor.

module PclRun {
  import opened PageMachine
  import opened PageCommands
  import opened PSoutModel
  import opened Options

  datatype Command =
    | MoveTo(x: int, y: int)
    | MoveBy(dx: int, dy: int)
    | SelectFont(font: PSfont)
    | PageSize(width: int, height: int)
    | Orient(orientation: int)
    | Print(c: char)
    | Eject

  predicate Sensible(cmd: Command) {
    match cmd
    case Print(c) => ' ' < c < 256 as char
    case SelectFont(f) => f.size > 0
    case Orient(o) => 0 <= o <= 3
    case _ => true
  }

  // ----------------------------------------------------------- the naive printer

  datatype Ideal = Ideal(x: int, y: int, font: PSfont, width: int, height: int, orientation: int,
                         pageOpen: bool, sheet: Geometry, marks: seq<Mark>, pages: seq<Page>)

  function PsFont(f: PSfont): Font { Font(PsName(f.name), f.size as real) }

  function IdealStep(i: Ideal, cmd: Command): Ideal {
    match cmd
    case MoveTo(x, y) => i.(x := x, y := y)
    case MoveBy(dx, dy) => i.(x := i.x + dx, y := i.y + dy)
    case SelectFont(f) => i.(font := f)
    case PageSize(w, h) => i.(width := w, height := h)
    case Orient(o) => i.(orientation := o)
    case Print(c) =>
      i.(x := i.x + Width(i.font.size), pageOpen := true,
         sheet := if i.pageOpen then i.sheet else Sheet(i.height, i.width, i.orientation),
         marks := i.marks + [Mark(c, i.x as real, -(i.y as real), PsFont(i.font))])
    case Eject =>
      i.(x := 0, y := 0, pageOpen := false, marks := [],
         pages := i.pages + if i.pageOpen then [Page(i.sheet, i.marks)] else [])
  }

  function IdealRun(start: Ideal, cmds: seq<Command>): Ideal {
    if cmds == [] then start else IdealStep(IdealRun(start, cmds[..|cmds| - 1]), cmds[|cmds| - 1])
  }

  // ----------------------------------------------------- what really gets painted

  /** The naive printer's state, what is really on the paper, whether the job is
      still running, where the last glyph ended, and how far off that point is. */
  datatype Job = Job(ideal: Ideal, ok: bool, endX: int, endY: int, endSize: int, drift: real,
                     marks: seq<Mark>, pages: seq<Page>)

  /** A gap that PSout prints as spaces: to the right on the same line, a whole
      number of spaces of the font now selected. */
  predicate Gap(j: Job)
    requires j.ideal.font.size > 0
  {
    j.ideal.y == j.endY && j.ideal.x > j.endX && Width(j.ideal.font.size) > 0 &&
    (j.ideal.x - j.endX) % Width(j.ideal.font.size) == 0
  }

  /** How far right of its place the next glyph goes. The spaces are as wide as
      those of the font the last glyph was printed in. */
  function NextDrift(j: Job): real
    requires j.ideal.font.size > 0
  {
    if !j.ideal.pageOpen || (j.ideal.x != j.endX && j.ideal.y != j.endY) then 0.0
    else if Gap(j) then
      j.drift + Shift((j.ideal.x - j.endX) / Width(j.ideal.font.size), j.endSize as real * 0.6)
              - (j.ideal.x - j.endX) as real
    else j.drift
  }

  /** Is there a current point for the first glyph of a page? */
  predicate Reaches(j: Job) { j.ideal.pageOpen || (j.ideal.x != 0 && j.ideal.y != 0) }

  function JobStep(j: Job, cmd: Command): Job
    requires j.ideal.font.size > 0
  {
    var i := j.ideal;
    var i' := IdealStep(i, cmd);
    match cmd
    case Print(c) =>
      var d := NextDrift(j);
      Job(i', j.ok && Reaches(j), i'.x, i'.y, i.font.size,
          d + i.font.size as real * 0.6 - Width(i.font.size) as real,
          j.marks + [Mark(c, i.x as real + d, -(i.y as real), PsFont(i.font))], j.pages)
    case Eject =>
      j.(ideal := i', marks := [], pages := j.pages + if i.pageOpen then [Page(i.sheet, j.marks)] else [])
    case _ => j.(ideal := i')
  }

  predicate AllSensible(cmds: seq<Command>) { forall k :: 0 <= k < |cmds| ==> Sensible(cmds[k]) }

  function JobRun(start: Ideal, cmds: seq<Command>): (j: Job)
    requires start.font.size > 0 && AllSensible(cmds)
    ensures j.ideal.font.size > 0
  {
    if cmds == [] then Job(start, true, 0, 0, 0, 0.0, start.marks, start.pages)
    else JobStep(JobRun(start, cmds[..|cmds| - 1]), cmds[|cmds| - 1])
  }

  // -------------------------------------------------- when the two are the same

  /** The next command puts its glyph where it belongs. */
  predicate Placed(j: Job, cmd: Command)
    requires j.ideal.font.size > 0
  {
    cmd.Print? ==> Reaches(j) && NextDrift(j) == 0.0
  }

  /** Every command does, run after those before it. */
  predicate AllPlaced(start: Ideal, cmds: seq<Command>)
    requires start.font.size > 0 && AllSensible(cmds)
  {
    cmds == [] ||
    (AllPlaced(start, cmds[..|cmds| - 1]) && Placed(JobRun(start, cmds[..|cmds| - 1]), cmds[|cmds| - 1]))
  }

  /** The paper is the naive printer's paper. */
  predicate Faithful(j: Job) { j.ok && j.marks == j.ideal.marks && j.pages == j.ideal.pages }

  lemma {:induction false} JobTracksIdeal(start: Ideal, cmds: seq<Command>)
    requires start.font.size > 0 && AllSensible(cmds)
    ensures var j := JobRun(start, cmds);
            j.ideal == IdealRun(start, cmds) && |j.marks| == |j.ideal.marks| && |j.pages| == |j.ideal.pages|
  {
    if cmds != [] {
      JobTracksIdeal(start, cmds[..|cmds| - 1]);
    }
  }

  /** One command keeps the paper faithful just when it was and the glyph is placed. */
  lemma FaithfulStep(j: Job, cmd: Command)
    requires j.ideal.font.size > 0 && |j.marks| == |j.ideal.marks| && |j.pages| == |j.ideal.pages|
    requires cmd.Eject? && !j.ideal.pageOpen ==> j.marks == [] && j.ideal.marks == []
    ensures Faithful(JobStep(j, cmd)) <==> Faithful(j) && Placed(j, cmd)
  {
    var j', i := JobStep(j, cmd), j.ideal;
    match cmd {
      case Print(c) =>
        assert j'.marks[|j.marks|].x == i.x as real + NextDrift(j);
        assert j'.marks[..|j.marks|] == j.marks && j'.ideal.marks[..|i.marks|] == i.marks;
      case Eject =>
        assert j'.pages[..|j.pages|] == j.pages && j'.ideal.pages[..|i.pages|] == i.pages;
        if i.pageOpen {
          assert j'.pages[|j.pages|].marks == j.marks && j'.ideal.pages[|i.pages|].marks == i.marks;
        }
      case _ =>
    }
  }

  lemma {:induction false} ClosedPageIsBlank(start: Ideal, cmds: seq<Command>)
    requires start.font.size > 0 && AllSensible(cmds) && !start.pageOpen && start.marks == []
    ensures var j := JobRun(start, cmds);
            !j.ideal.pageOpen ==> j.marks == [] && j.ideal.marks == []
  {
    if cmds != [] {
      ClosedPageIsBlank(start, cmds[..|cmds| - 1]);
    }
  }

  /** The painted document is the naive printer's, glyph by glyph and page by
      page, if and only if every glyph has a current point to start from and no drift. */
  lemma {:induction false} FaithfulIffPlaced(start: Ideal, cmds: seq<Command>)
    requires start.font.size > 0 && AllSensible(cmds) && !start.pageOpen && start.marks == []
    ensures Faithful(JobRun(start, cmds)) <==> AllPlaced(start, cmds)
  {
    if cmds != [] {
      var k := |cmds| - 1;
      var j := JobRun(start, cmds[..k]);
      FaithfulIffPlaced(start, cmds[..k]);
      JobTracksIdeal(start, cmds[..k]);
      ClosedPageIsBlank(start, cmds[..k]);
      hide Faithful, Placed, JobStep, IdealStep, NextDrift;
      FaithfulStep(j, cmds[k]);
    }
  }

  // ------------------------------------------------------- sizes that never drift

  /** Between fonts of exact width, from a point that is not off, a glyph goes
      astray just when a gap is spaced out after the size has changed. */
  lemma DriftlessStep(j: Job)
    requires j.ideal.font.size > 0 && j.ideal.font.size % 5 == 0
    requires j.ideal.pageOpen ==> j.drift == 0.0 && j.endSize > 0 && j.endSize % 5 == 0
    ensures NextDrift(j) == 0.0 <==> !(j.ideal.pageOpen && Gap(j)) || j.endSize == j.ideal.font.size
    ensures forall c :: NextDrift(j) == 0.0 ==> JobStep(j, Print(c)).drift == 0.0
  {
    var w := Width(j.ideal.font.size);
    WidthExact(j.ideal.font.size);
    if j.ideal.pageOpen && Gap(j) {
      var d := j.ideal.x - j.endX;
      var n := d / w;
      assert d == n * w && n > 0;
      var e := j.endSize as real * 0.6;
      ShiftIsProduct(n, e);
      assert d as real == n as real * w as real;
      assert NextDrift(j) == n as real * e - n as real * w as real;
      assert NextDrift(j) == n as real * (e - w as real);
      assert e == w as real <==> j.endSize == j.ideal.font.size;
      NonzeroProduct(n as real, e - w as real);
    }
  }

  lemma NonzeroProduct(a: real, b: real)
    requires a > 0.0
    ensures a * b == 0.0 <==> b == 0.0
  {
    if b > 0.0 { assert a * b > 0.0; } else if b < 0.0 { assert a * b < 0.0; }
  }

  /** Every font has a size that is a multiple of 5. */
  predicate Fives(start: Ideal, cmds: seq<Command>) {
    start.font.size % 5 == 0 && forall k :: 0 <= k < |cmds| && cmds[k].SelectFont? ==> cmds[k].font.size % 5 == 0
  }

  /** Where the last glyph ended, on the naive printer's paper, and its size. */
  datatype End = End(x: int, y: int, size: int)

  function LastEnd(start: Ideal, cmds: seq<Command>): End {
    if cmds == [] then End(0, 0, 0)
    else
      var front := cmds[..|cmds| - 1];
      if cmds[|cmds| - 1].Print? then
        var i := IdealRun(start, front);
        End(i.x + Width(i.font.size), i.y, i.font.size)
      else LastEnd(start, front)
  }

  /** No page begins with a glyph in column 0 or on row 0. */
  predicate NoPageBeginsAtZero(start: Ideal, cmds: seq<Command>) {
    cmds == [] ||
    var front := cmds[..|cmds| - 1];
    NoPageBeginsAtZero(start, front) &&
    (cmds[|cmds| - 1].Print? ==> var i := IdealRun(start, front); i.pageOpen || (i.x != 0 && i.y != 0))
  }

  /** The cursor is a whole number of spaces of its font right of the last glyph of
      the page, which was printed in another size. */
  predicate GapAfterSizeChange(i: Ideal, e: End) {
    && i.pageOpen && e.size != i.font.size && i.y == e.y && i.x > e.x
    && Width(i.font.size) > 0 && (i.x - e.x) % Width(i.font.size) == 0
  }

  /** No glyph is printed across such a gap. */
  predicate NoGapAfterSizeChange(start: Ideal, cmds: seq<Command>) {
    cmds == [] ||
    var front := cmds[..|cmds| - 1];
    NoGapAfterSizeChange(start, front) &&
    (cmds[|cmds| - 1].Print? ==> !GapAfterSizeChange(IdealRun(start, front), LastEnd(start, front)))
  }

  /** The job remembers the end of the last glyph, and as long as every glyph is
      placed it is not off. */
  lemma {:induction false} DriftlessRun(start: Ideal, cmds: seq<Command>)
    requires start.font.size > 0 && !start.pageOpen && AllSensible(cmds) && Fives(start, cmds)
    ensures var j := JobRun(start, cmds);
            && LastEnd(start, cmds) == End(j.endX, j.endY, j.endSize) && j.ideal.font.size % 5 == 0
            && (j.ideal.pageOpen ==> j.endSize > 0 && j.endSize % 5 == 0)
            && (AllPlaced(start, cmds) && j.ideal.pageOpen ==> j.drift == 0.0)
  {
    if cmds != [] {
      var front := cmds[..|cmds| - 1];
      var j := JobRun(start, front);
      DriftlessRun(start, front);
      JobTracksIdeal(start, front);
      hide NextDrift, Width;
      if cmds[|cmds| - 1].Print? && AllPlaced(start, cmds) {
        DriftlessStep(j);
        assert JobRun(start, cmds) == JobStep(j, Print(cmds[|cmds| - 1].c));
      }
    }
  }

  lemma PlacedStep(j: Job, cmd: Command, i: Ideal, e: End)
    requires j.ideal.font.size > 0 && j.ideal.font.size % 5 == 0 && i == j.ideal && e == End(j.endX, j.endY, j.endSize)
    requires j.ideal.pageOpen ==> j.drift == 0.0 && j.endSize > 0 && j.endSize % 5 == 0
    ensures Placed(j, cmd) <==>
            (cmd.Print? ==> (i.pageOpen || (i.x != 0 && i.y != 0)) && !GapAfterSizeChange(i, e))
  {
    DriftlessStep(j);
    hide NextDrift, Width;
  }

  /** With sizes that are all multiples of 5, a run comes out right if and only if no
      page begins with a glyph in column 0 or on row 0, and no glyph comes a whole
      number of spaces after one of another size. */
  lemma {:induction false} FivesIff(start: Ideal, cmds: seq<Command>)
    requires start.font.size > 0 && !start.pageOpen && start.marks == []
    requires AllSensible(cmds) && Fives(start, cmds)
    ensures Faithful(JobRun(start, cmds)) <==> NoPageBeginsAtZero(start, cmds) && NoGapAfterSizeChange(start, cmds)
  {
    FaithfulIffPlaced(start, cmds);
    PlacedIff(start, cmds);
  }

  lemma {:induction false} PlacedIff(start: Ideal, cmds: seq<Command>)
    requires start.font.size > 0 && !start.pageOpen && AllSensible(cmds) && Fives(start, cmds)
    ensures AllPlaced(start, cmds) <==> NoPageBeginsAtZero(start, cmds) && NoGapAfterSizeChange(start, cmds)
  {
    if cmds != [] {
      hide NextDrift, JobStep, IdealStep, Placed, GapAfterSizeChange, LastEnd, JobRun;
      var front := cmds[..|cmds| - 1];
      PlacedIff(start, front);
      JobTracksIdeal(start, front);
      DriftlessRun(start, front);
      if AllPlaced(start, front) {
        PlacedStep(JobRun(start, front), cmds[|cmds| - 1], IdealRun(start, front), LastEnd(start, front));
      }
    }
  }

  /** Every font selected has the size the document starts with. */
  predicate Steady(start: Ideal, cmds: seq<Command>) {
    forall k :: 0 <= k < |cmds| && cmds[k].SelectFont? ==> cmds[k].font.size == start.font.size
  }

  lemma {:induction false} SteadyEnds(start: Ideal, cmds: seq<Command>)
    requires !start.pageOpen && Steady(start, cmds)
    ensures var i := IdealRun(start, cmds);
            i.font.size == start.font.size && (i.pageOpen ==> LastEnd(start, cmds).size == start.font.size)
    ensures NoGapAfterSizeChange(start, cmds)
  {
    if cmds != [] {
      hide Width, PsFont, Sheet;
      SteadyEnds(start, cmds[..|cmds| - 1]);
    }
  }

  /** So with one size only the first condition is left. */
  lemma SteadyIffReaches(start: Ideal, cmds: seq<Command>)
    requires start.font.size > 0 && start.font.size % 5 == 0 && !start.pageOpen && start.marks == []
    requires AllSensible(cmds) && Steady(start, cmds)
    ensures Faithful(JobRun(start, cmds)) <==> NoPageBeginsAtZero(start, cmds)
  {
    FivesIff(start, cmds);
    SteadyEnds(start, cmds);
  }

  // --------------------------------------------------------- three runs that fail

  lemma JobRunSnoc(start: Ideal, cmds: seq<Command>, a: Command)
    requires start.font.size > 0 && AllSensible(cmds) && Sensible(a)
    ensures AllSensible(cmds + [a]) && JobRun(start, cmds + [a]) == JobStep(JobRun(start, cmds), a)
    ensures AllPlaced(start, cmds + [a]) <==> AllPlaced(start, cmds) && Placed(JobRun(start, cmds), a)
    ensures IdealRun(start, cmds + [a]) == IdealStep(IdealRun(start, cmds), a)
  {
    assert (cmds + [a])[..|cmds|] == cmds;
  }

  lemma EndSnoc(start: Ideal, cmds: seq<Command>, a: Command)
    ensures var i := IdealRun(start, cmds);
            && IdealRun(start, cmds + [a]) == IdealStep(i, a)
            && LastEnd(start, cmds + [a]) ==
               (if a.Print? then End(i.x + Width(i.font.size), i.y, i.font.size) else LastEnd(start, cmds))
            && (a.Print? && GapAfterSizeChange(i, LastEnd(start, cmds)) ==> !NoGapAfterSizeChange(start, cmds + [a]))
            && (a.Print? && !i.pageOpen && (i.x == 0 || i.y == 0) ==> !NoPageBeginsAtZero(start, cmds + [a]))
  {
    assert (cmds + [a])[..|cmds|] == cmds;
    hide Width, IdealStep, GapAfterSizeChange;
  }

  /** A new document in Courier, the cursor at PCLparse's first position. */
  function Fresh(size: int): Ideal {
    Ideal(2375, 4175, PSfont(FontName(0, false, false), size), 61200, 79200, 0, false, NoGeometry, [], [])
  }

  lemma FreshStep(size: int, font: PSfont)
    ensures var i := IdealStep(Fresh(size), Print('a'));
            i.pageOpen && i.x == 2375 + Width(size) && i.y == 4175
    ensures var i := IdealStep(IdealStep(IdealStep(Fresh(size), Print('a')), SelectFont(font)), MoveBy(432, 0));
            i.pageOpen && i.x == 2375 + Width(size) + 432 && i.y == 4175 && i.font == font
  {
    hide Width, Sheet, PsFont;
  }

  /** A gap of one space, after the size went from 1200 to 720: the space printed
      is 720 wide and not 432, and the second letter goes astray. */
  lemma SpaceInOldFont()
    ensures var cmds := [Print('a'), SelectFont(PSfont(FontName(0, false, false), 720)), MoveBy(432, 0), Print('b')];
            AllSensible(cmds) && !Faithful(JobRun(Fresh(1200), cmds))
  {
    var start := Fresh(1200);
    var small := PSfont(FontName(0, false, false), 720);
    var c1 := [Print('a')];
    var c2 := c1 + [SelectFont(small)];
    var c3 := c2 + [MoveBy(432, 0)];
    var cmds := c3 + [Print('b')];
    assert [] + [Print('a')] == c1;
    assert Width(1200) == 720 && Width(720) == 432;
    hide Width, IdealStep, GapAfterSizeChange, JobRun, Faithful, NoGapAfterSizeChange, NoPageBeginsAtZero;
    EndSnoc(start, [], Print('a'));
    EndSnoc(start, c1, SelectFont(small));
    EndSnoc(start, c2, MoveBy(432, 0));
    EndSnoc(start, c3, Print('b'));
    FreshStep(1200, small);
    IsGap(IdealRun(start, c3), LastEnd(start, c3));
    FivesIff(start, cmds);
    assert cmds == [Print('a'), SelectFont(small), MoveBy(432, 0), Print('b')];
  }

  lemma IsGap(i: Ideal, e: End)
    requires i.pageOpen && e == End(2375 + 720, 4175, 1200) && i.font.size == 720 && i.y == 4175 && i.x == 2375 + 720 + 432
    ensures GapAfterSizeChange(i, e)
  {
    assert Width(720) == 432;
  }

  /** A page that begins at the left edge: the first character printed after the left
      margin was set to 0 has no current point, since the coordinates PSout starts a
      page with are taken to be right. */
  lemma LeftEdgeFails(c: char, y: int)
    requires ' ' < c < 256 as char
    ensures var cmds := [MoveTo(0, y), Print(c)];
            AllSensible(cmds) && !JobRun(Fresh(1200), cmds).ok && !Faithful(JobRun(Fresh(1200), cmds))
  {
    var start := Fresh(1200);
    assert [] + [MoveTo(0, y)] == [MoveTo(0, y)] && [MoveTo(0, y)] + [Print(c)] == [MoveTo(0, y), Print(c)];
    JobRunSnoc(start, [], MoveTo(0, y));
    JobRunSnoc(start, [MoveTo(0, y)], Print(c));
    hide NextDrift, Width, PsFont, Sheet;
  }

  /** A size that is not a multiple of 5 drifts: at 17 characters an inch PCLparse
      selects size 706, whose glyphs are 423.6 wide but are counted as 424. */
  lemma PitchDrifts()
    ensures var cmds := [Print('a'), Print('b')];
            AllSensible(cmds) && !Faithful(JobRun(Fresh(706), cmds))
  {
    var start := Fresh(706);
    assert [] + [Print('a')] == [Print('a')];
    JobRunSnoc(start, [], Print('a'));
    JobRunSnoc(start, [Print('a')], Print('b'));
    FaithfulIffPlaced(start, [Print('a')] + [Print('b')]);
    assert Width(706) == 424;
    assert NextDrift(JobRun(start, [Print('a')])) != 0.0;
  }

  // ------------------------------------------------------------- the generator

  /** The generator `p` and the job `j` have the same cursor, font, page set-up and
      tracked position. */
  ghost predicate SameFields(p: PSout, j: Job)
    reads p
  {
    && j.ideal.font.size > 0
    && p.xpos == j.ideal.x && p.ypos == j.ideal.y && p.font == j.ideal.font
    && p.physWidth == j.ideal.width && p.physHeight == j.ideal.height && p.orientation == j.ideal.orientation
    && p.pageOpen == j.ideal.pageOpen
    && (p.pageOpen ==> p.psX == j.endX && p.psY == j.endY && p.psSize == j.endSize && p.stringOpen)
  }

  /** What has been printed paints what the job says. */
  ghost predicate SamePaper(p: PSout, j: Job)
    reads p
  {
    && (p.View().ok <==> j.ok)
    && (j.ok ==> p.View().marks == j.marks && p.View().pages == j.pages)
    && (j.ok && p.pageOpen ==>
          && p.View().sheet == j.ideal.sheet && p.View().graphics.at.Some? && p.Drift() == j.drift)
  }

  /** The generator `p` and the job `j` are in step. */
  ghost predicate InStep(p: PSout, j: Job)
    reads p
  {
    p.Valid() && SameFields(p, j) && SamePaper(p, j)
  }

  /** JobStep for a character, field by field. */
  lemma JobPrint(j: Job, c: char)
    requires j.ideal.font.size > 0
    ensures var j', i, d := JobStep(j, Print(c)), j.ideal, NextDrift(j);
            && j'.ideal.x == i.x + Width(i.font.size) && j'.ideal.y == i.y && j'.ideal.font == i.font
            && j'.ideal.width == i.width && j'.ideal.height == i.height && j'.ideal.orientation == i.orientation
            && j'.ideal.pageOpen && j'.endX == j'.ideal.x && j'.endY == i.y && j'.endSize == i.font.size
  {
    hide NextDrift, Sheet, PsFont, Width;
  }

  lemma JobPaints(j: Job, c: char)
    requires j.ideal.font.size > 0
    ensures var j', i, d := JobStep(j, Print(c)), j.ideal, NextDrift(j);
            && (j'.ok <==> j.ok && (i.pageOpen || (i.x != 0 && i.y != 0)))
            && j'.ideal.sheet == (if i.pageOpen then i.sheet else Sheet(i.height, i.width, i.orientation))
            && j'.drift == d + i.font.size as real * 0.6 - Width(i.font.size) as real
            && j'.marks == j.marks + [Mark(c, i.x as real + d, -(i.y as real), Font(PsName(i.font.name), i.font.size as real))]
            && j'.pages == j.pages
  {
    hide NextDrift, Sheet, Width;
  }

  /** The job predicts where PSout puts the next glyph. */
  lemma DriftInStep(p: PSout, j: Job)
    requires InStep(p, j)
    ensures p.pageOpen && p.View().ok ==> p.View().graphics.at.Some? && p.NextDrift() == NextDrift(j)
    ensures !p.pageOpen ==> NextDrift(j) == 0.0
    ensures p.CurrentSheet() == Sheet(j.ideal.height, j.ideal.width, j.ideal.orientation)
  {
  }

  method PrintOne(p: PSout, ghost j: Job, c: char)
    requires InStep(p, j) && Sensible(Print(c))
    modifies p
    ensures InStep(p, JobStep(j, Print(c)))
  {
    hide JobStep, NextDrift, Sheet, PsName, Width, PSout.View, PSout.Valid, PSout.NextDrift, PSout.CurrentSheet;
    hide Closed;
    ghost var j' := JobStep(j, Print(c));
    DriftInStep(p, j);
    ghost var drift := if p.pageOpen && p.View().ok then p.NextDrift() else 0.0;
    JobPrint(j, c);
    JobPaints(j, c);
    p.Printable(c);
    assert SameFields(p, j') by {
      hide SamePaper;
    }
    assert SamePaper(p, j') by {
      if p.View().ok {
        HasPoint(p);
      }
    }
  }

  lemma HasPoint(p: PSout)
    requires p.Valid() && p.pageOpen && p.View().ok
    ensures p.View().graphics.at.Some?
  {
  }

  method EjectOne(p: PSout, ghost j: Job)
    requires InStep(p, j)
    modifies p
    ensures InStep(p, JobStep(j, Eject))
  {
    hide Closed, PSout.Scanned;
    p.ClosePage();
  }

  method SetOne(p: PSout, ghost j: Job, cmd: Command)
    requires InStep(p, j) && Sensible(cmd) && !cmd.Print? && !cmd.Eject?
    modifies p
    ensures InStep(p, JobStep(j, cmd))
  {
    hide Closed, PSout.View, PSout.Valid;
    match cmd
    case MoveTo(x, y) => p.MoveCursor(x, y);
    case MoveBy(dx, dy) => p.MoveCursorBy(dx, dy);
    case SelectFont(f) => p.SetFont(f);
    case PageSize(w, h) => p.SetPageSize(w, h);
    case Orient(o) => var ok := p.SetOrientation(o);
  }

  method Perform(p: PSout, ghost j: Job, cmd: Command)
    requires InStep(p, j) && Sensible(cmd)
    modifies p
    ensures InStep(p, JobStep(j, cmd))
  {
    hide InStep, JobStep;
    match cmd
    case Print(c) => PrintOne(p, j, c);
    case Eject => EjectOne(p, j);
    case _ => SetOne(p, j, cmd);
  }

  /** The driver's loop. What PSout has printed, read by an interpreter, is the
      paper JobRun describes; so by FaithfulIffPlaced the naive printer's paper
      just when every glyph is placed. */
  method PrintAll(p: PSout, ghost start: Ideal, cmds: seq<Command>)
    requires p.Valid() && p.View() == PageMachine.Reset && !p.pageOpen
    requires AllSensible(cmds) && start.font.size > 0 && !start.pageOpen && start.marks == [] && start.pages == []
    requires start.x == p.xpos && start.y == p.ypos && start.font == p.font
    requires start.width == p.physWidth && start.height == p.physHeight && start.orientation == p.orientation
    modifies p
    ensures InStep(p, JobRun(start, cmds))
    ensures p.View().ok && p.View().marks == IdealRun(start, cmds).marks && p.View().pages == IdealRun(start, cmds).pages
            <==> AllPlaced(start, cmds)
  {
    ghost var j := JobRun(start, []);
    for k := 0 to |cmds|
      invariant j == JobRun(start, cmds[..k]) && InStep(p, j)
    {
      assert cmds[..k + 1][..k] == cmds[..k];
      Perform(p, j, cmds[k]);
      j := JobStep(j, cmds[k]);
    }
    assert cmds[..|cmds|] == cmds;
    JobTracksIdeal(start, cmds);
    FaithfulIffPlaced(start, cmds);
  }
}

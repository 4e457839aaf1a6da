// The PostScript generator of the PCL filter (filter_pcl/PSout.java), which
// delays and merges cursor moves, and what its output paints.

module PSoutModel {
  import opened PostScript
  import opened PageMachine
  import opened PageCommands
  import opened Options

  /** A name String as PSfont builds it. Java's `!=` compares references; two
      Strings that are the same object have the same characters. */
  datatype FontName = FontName(id: nat, bold: bool, italic: bool)

  function PsName(f: FontName): string {
    if f.bold then (if f.italic then "Courier-BoldOblique" else "Courier-Bold")
    else if f.italic then "Courier-Oblique"
    else "Courier"
  }

  lemma PsNameIsName(f: FontName)
    ensures IsName(PsName(f))
  {
  }

  /** get_postscript_name(), which builds the name piece by piece: the four fonts of the
      Courier family have four different names. */
  method GetPostscriptName(f: FontName) returns (name: string)
    ensures name == PsName(f)
    ensures name == "Courier" <==> !f.bold && !f.italic
    ensures name == "Courier-Bold" <==> f.bold && !f.italic
    ensures name == "Courier-Oblique" <==> !f.bold && f.italic
    ensures name == "Courier-BoldOblique" <==> f.bold && f.italic
  {
    name := "Courier";
    if f.bold {
      name := name + "-Bold";
    }
    if f.italic {
      if !f.bold {
        name := name + "-";
      }
      name := name + "Oblique";
    }
    FourNames(f, name);
  }

  lemma FourNames(f: FontName, name: string)
    requires name == "Courier" + (if f.bold then "-Bold" else "") +
                     (if f.italic then (if f.bold then "" else "-") + "Oblique" else "")
    ensures name == PsName(f)
    ensures |name| == if f.italic then (if f.bold then 19 else 15) else if f.bold then 12 else 7
  {
  }

  datatype PSfont = PSfont(name: FontName, size: int)

  /** (int)(size * 0.6 + 0.5), for a positive size. */
  function Width(size: int): int { (size as real * 0.6 + 0.5).Floor }

  /** The width is the whole number nearest to six tenths of the size, and exactly that
      just for sizes that are multiples of 5. */
  lemma WidthExact(size: int)
    ensures -0.5 < Width(size) as real - size as real * 0.6 <= 0.5
    ensures Width(size) as real == size as real * 0.6 <==> size % 5 == 0
  {
    var w := Width(size);
    var x := size as real * 0.6 + 0.5;
    assert w as real <= x < w as real + 1.0;
    assert 10 * w <= 6 * size + 5 < 10 * w + 10;
    if size % 5 == 0 {
      assert 10 * w == 6 * size;
    }
  }

  function Sheet(height: int, width: int, orientation: int): Geometry {
    Geometry(height as real / 100.0, width as real / 100.0, orientation as real)
  }

  class PSout {
    var out: string
    var docOpen: bool
    var pageOpen: bool
    var stringOpen: bool
    var physWidth: int
    var physHeight: int
    var orientation: int
    var defaultWidth: int
    var defaultHeight: int
    var defaultOrientation: int
    var xpos: int
    var ypos: int
    var psX: int
    var psY: int
    var page: nat
    var font: PSfont
    var psFont: Option<FontName>      // None for ""
    var psSize: int

    // ------------------------------------------------------------ the invariant

    /** What an interpreter has done by now, with a string still open closed. */
    ghost function View(): Machine
      reads `out
    {
      Closed(out)
    }

    ghost predicate Scanned()
      reads `out, `stringOpen, `pageOpen, `docOpen
    {
      && (if stringOpen then pageOpen && Scan(Start, out).mode.InText? && Scan(Start, out).mode.escape.Plain?
          else Ready(out))
      && (pageOpen ==> docOpen)
      && (!docOpen ==> out == "")
    }

    ghost function CurrentSheet(): Geometry
      reads `physHeight, `physWidth, `orientation
    {
      Sheet(physHeight, physWidth, orientation)
    }

    ghost function DefaultSheet(): Geometry
      reads `defaultHeight, `defaultWidth, `defaultOrientation
    {
      Sheet(defaultHeight, defaultWidth, defaultOrientation)
    }

    /** The tracked state agrees with the interpreter's. */
    ghost predicate Tracked(m: Machine)
      reads this
    {
      if pageOpen then
        && m.stack == [SaveObject] && m.saved == Some((NoGraphics, DefaultSheet()))
        && (m.graphics.at.Some? ==> m.graphics.at.value.1 == -(psY as real))
        && m.graphics.font ==
           (if psFont.Some? then Some(Font(PsName(psFont.value), psSize as real)) else None)
        && (psFont.None? ==> psSize == 0)
        && (stringOpen ==> CanShow(m))
      else
        && m.stack == [] && m.saved.None? && m.graphics == NoGraphics && m.marks == []
        && (docOpen ==> m.geometry == DefaultSheet())
    }

    ghost predicate Core()
      reads this
    {
      Scanned() && (View().ok ==> Tracked(View()))
    }

    /** What holds between calls: an open page has a current point and a font. */
    ghost predicate Valid()
      reads this
    {
      Core() && (View().ok && pageOpen ==> CanShow(View()))
    }

    /** How far right of the tracked position the current point is. */
    ghost function Drift(): real
      requires View().graphics.at.Some?
      reads `out, `psX
    {
      View().graphics.at.value.0 - psX as real
    }

    /** The guard under which a gap is printed as spaces of the PostScript font. */
    predicate SpaceGap()
      requires font.size > 0
      reads `xpos, `ypos, `psX, `psY, `stringOpen, `font
    {
      ypos == psY && stringOpen && xpos - psX > 0 && (xpos - psX) % SpaceWidth() == 0
    }

    function SpaceWidth(): (w: int)
      requires font.size > 0
      reads `font
      ensures w > 0
    {
      Width(font.size)
    }

    /** How far right of (xpos, ypos) the next glyph will be painted on an open page. */
    ghost function NextDrift(): real
      requires font.size > 0 && View().graphics.at.Some?
      reads `out, `xpos, `ypos, `psX, `psY, `psSize, `stringOpen, `font
    {
      if xpos != psX && ypos != psY then 0.0
      else if SpaceGap() then
        Drift() + Shift((xpos - psX) / SpaceWidth(), psSize as real * 0.6) - (xpos - psX) as real
      else Drift()
    }

    constructor (width: int, height: int, orient: int, f: PSfont)
      ensures Valid() && View() == Reset && page == 0 && !pageOpen
      ensures xpos == 0 && ypos == 0 && font == f && CurrentSheet() == Sheet(height, width, orient)
    {
      out := "";
      docOpen, pageOpen, stringOpen := false, false, false;
      physWidth, physHeight, orientation := width, height, orient;
      defaultWidth, defaultHeight, defaultOrientation := 0, 0, 0;
      xpos, ypos, psX, psY, page := 0, 0, 0, 0, 0;
      font, psFont, psSize := f, None, 0;
      new;
      assert Scan(Start, "") == Start;
    }

    // ------------------------------------------------------------------ setters

    method SetPageSize(width: int, height: int)
      requires Valid()
      modifies `physWidth, `physHeight
      ensures Valid() && View() == old(View()) && physWidth == width && physHeight == height
    {
      physWidth, physHeight := width, height;
    }

    method SetOrientation(o: int) returns (ok: bool)
      requires Valid()
      modifies `orientation
      ensures Valid() && View() == old(View())
      ensures ok <==> 0 <= o <= 3
      ensures orientation == if ok then o else old(orientation)
    {
      ok := 0 <= o <= 3;
      if ok {
        orientation := o;
      }
    }

    method SetFont(f: PSfont)
      requires Valid()
      modifies `font
      ensures Valid() && View() == old(View()) && font == f
    {
      font := f;
    }

    method MoveCursor(x: int, y: int)
      requires Valid()
      modifies `xpos, `ypos
      ensures Valid() && View() == old(View()) && xpos == x && ypos == y
    {
      xpos, ypos := x, y;
    }

    method MoveCursorBy(x: int, y: int)
      requires Valid()
      modifies `xpos, `ypos
      ensures Valid() && View() == old(View()) && xpos == old(xpos) + x && ypos == old(ypos) + y
    {
      xpos, ypos := xpos + x, ypos + y;
    }

    // ------------------------------------------------------------------ strings

    method CloseString()
      requires Core()
      modifies `out, `stringOpen
      ensures Core() && View() == old(View()) && !stringOpen
    {
      if stringOpen {
        InterpClose(out, Scan(Start, out).mode.text);
        out := out + ")s ";
        stringOpen := false;
      }
    }

    method OpenString()
      requires Core() && pageOpen
      modifies `out, `stringOpen
      ensures Core() && stringOpen
      ensures View() == if old(View()).ok && !CanShow(old(View())) then Fail(old(View())) else old(View())
    {
      if !stringOpen {
        ClosedOpen(out);
        out := out + "(";
        stringOpen := true;
      }
    }

    /** One character into the open string. */
    method Put(c: char)
      requires Core() && stringOpen
      modifies `out
      ensures Core()
      ensures View() == if old(View()).ok then Glyph(old(View()), c) else old(View())
      ensures View().ok <==> old(View()).ok
    {
      ClosedChar(out, Scan(Start, out).mode.text, c);
      out := out + Escaped(c);
    }

    // -------------------------------------------------------------------- pages

    /** Print a definition of a page dimension, in hundredths of a point. */
    method Define(name: string, v: int)
      requires !stringOpen && Ready(out) && (name == "ph" || name == "pw")
      modifies `out
      ensures Ready(out) && out != "" && Interp(out) == AfterDefine(Interp(old(out)), name, v as real / 100.0)
    {
      InterpHundredths(out, name, v);
      out := out + ("/" + name + " " + Decimal(v) + " 100 div def\n");
    }

    method DefineOrient()
      requires !stringOpen && Ready(out)
      modifies `out
      ensures Ready(out) && out != "" && Interp(out) == AfterDefine(Interp(old(out)), "orient", orientation as real)
    {
      InterpOrient(out, orientation);
      out := out + ("/orient " + Decimal(orientation) + " def\n");
    }

    method Operator(op: string)
      requires !stringOpen && Ready(out) && IsName(op)
      modifies `out
      ensures Ready(out) && out != "" && Interp(out) == AfterOperator(Interp(old(out)), op)
    {
      InterpOperatorLine(out, op);
      out := out + (op + "\n");
    }

    method PageComments()
      requires !stringOpen && Ready(out)
      modifies `out
      ensures Ready(out) && out != "" && Interp(out) == Interp(old(out))
    {
      hide Ready, Interp, Decimal, Scan;
      NoNewlineInDecimal(page);
      InterpComment(out, "%Page: " + Decimal(page) + " " + Decimal(page));
      out := out + ("%" + ("%Page: " + Decimal(page) + " " + Decimal(page)) + "\n");
      if orientation == 1 {
        InterpComment(out, "%PageOrientation: Landscape");
        out := out + ("%" + "%PageOrientation: Landscape" + "\n");
      }
      InterpComment(out, "%BeginPageSetup");
      out := out + ("%" + "%BeginPageSetup" + "\n");
    }

    /** Start the document: the setup section defines the page geometry. The
        prolog before it is what PageMachine.ExecProlog stands for. */
    method OpenDoc()
      requires Core() && !pageOpen
      modifies `out, `docOpen, `defaultWidth, `defaultHeight, `defaultOrientation
      ensures Core() && docOpen && (View().ok <==> old(View()).ok)
      ensures View().ok ==> View().pages == old(View()).pages
      ensures old(docOpen) ==> View() == old(View()) && DefaultSheet() == old(DefaultSheet())
      ensures !old(docOpen) ==> DefaultSheet() == CurrentSheet()
    {
      if !docOpen {
        assert Interp(out) == Reset && Closed(out) == Reset && Ready(out) by { assert Scan(Start, "") == Start; }
        hide Closed, Interp, Scan, Ready;
        Define("ph", physHeight);
        Define("pw", physWidth);
        DefineOrient();
        ClosedReady(out);
        defaultHeight, defaultWidth, defaultOrientation := physHeight, physWidth, orientation;
        docOpen := true;
      }
    }

    /** save, the definitions that differ from the document's, and bp. */
    method PageSetup()
      requires !stringOpen && Ready(out)
      requires Interp(out).ok ==> Tracked(Interp(out)) && !pageOpen && docOpen
      modifies `out
      ensures Ready(out) && out != ""
      ensures Interp(out) == var m := Interp(old(out));
                             if m.ok then
                               m.(stack := [SaveObject], saved := Some((NoGraphics, DefaultSheet())),
                                  geometry := CurrentSheet(), sheet := CurrentSheet())
                             else m
    {
      hide Ready, Interp;
      Operator("save");
      if physHeight != defaultHeight {
        Define("ph", physHeight);
      }
      if physWidth != defaultWidth {
        Define("pw", physWidth);
      }
      if orientation != defaultOrientation {
        DefineOrient();
      }
      Operator("bp");
    }

    method StartPage()
      requires Core() && !pageOpen && docOpen
      modifies `out, `page, `pageOpen, `psX, `psY, `psFont, `psSize
      ensures Core() && pageOpen && (View().ok <==> old(View()).ok) && !stringOpen
      ensures page == old(page) + 1 && psX == 0 && psY == 0 && psFont.None?
      ensures View().ok ==> View() == old(View()).(stack := [SaveObject], saved := Some((NoGraphics, DefaultSheet())),
                                                   geometry := CurrentSheet(), sheet := CurrentSheet())
    {
      hide Ready, Interp, Closed, Scan, Decimal, AfterOperator;
      ClosedReady(out);
      page := page + 1;
      PageComments();
      PageSetup();
      InterpComment(out, "%EndPageSetup");
      out := out + ("%" + "%EndPageSetup" + "\n");
      ClosedReady(out);
      pageOpen := true;
      psX, psY := 0, 0;
      psFont, psSize := None, 0;
    }

    /** Start a page if none is open, with the geometry now asked for. */
    method OpenPage()
      requires Core()
      modifies `out, `docOpen, `defaultWidth, `defaultHeight, `defaultOrientation
      modifies `page, `pageOpen, `psX, `psY, `psFont, `psSize
      ensures Core() && pageOpen && (View().ok <==> old(View()).ok)
      ensures View().ok ==> View().pages == old(View()).pages && View().marks == old(View()).marks
      ensures old(pageOpen) ==>
                View() == old(View()) && page == old(page) && out == old(out)
                && psX == old(psX) && psY == old(psY) && psFont == old(psFont) && psSize == old(psSize)
      ensures !old(pageOpen) ==>
                && page == old(page) + 1 && psX == 0 && psY == 0 && psFont.None? && !stringOpen
                && (View().ok ==> View().sheet == CurrentSheet() && View().graphics == NoGraphics)
    {
      if !pageOpen {
        hide Ready, Interp, Closed, Scan, Decimal;
        OpenDoc();
        StartPage();
      }
    }

    /** Eject: the page made so far joins the pages shown. */
    method ClosePage()
      requires Valid()
      modifies `out, `stringOpen, `pageOpen, `xpos, `ypos
      ensures Valid() && !pageOpen && xpos == 0 && ypos == 0 && (View().ok <==> old(View()).ok)
      ensures View().ok ==>
                View().pages == old(View()).pages +
                                if old(pageOpen) then [Page(old(View()).sheet, old(View()).marks)] else []
    {
      if pageOpen {
        EndPage();
      }
      xpos, ypos := 0, 0;
    }

    method EndPage()
      requires Core() && pageOpen
      modifies `out, `stringOpen, `pageOpen
      ensures Core() && !pageOpen && (View().ok <==> old(View()).ok)
      ensures View().ok ==> View().pages == old(View()).pages + [Page(old(View()).sheet, old(View()).marks)]
    {
      CloseString();
      hide Ready, Interp, Closed, Scan;
      ClosedReady(out);
      EndPageEffect(View());
      InterpEndPage(out);
      out := out + "\nep\n\n";
      ClosedReady(out);
      pageOpen := false;
    }

    lemma EndPageEffect(m: Machine)
      requires pageOpen && (m.ok ==> Tracked(m))
      ensures AfterOperator(m, "ep") ==
              if m.ok then
                m.(stack := [], graphics := NoGraphics, geometry := DefaultSheet(), saved := None,
                   pages := m.pages + [Page(m.sheet, m.marks)], marks := [])
              else m
    {
    }

    // ------------------------------------------------------------- printing text

    /** "x y XY", out of any string. */
    method EmitXY()
      requires Core()
      modifies `out, `stringOpen
      ensures !stringOpen && Ready(out)
      ensures View() == AfterXY(old(View()), xpos, ypos)
    {
      CloseString();
      hide Ready, Interp, Closed, Scan, Decimal, Core;
      CoreReady();
      InterpXY(out, xpos, ypos);
      out := out + ("\n" + Decimal(xpos) + " " + Decimal(ypos) + " XY ");
      ClosedReady(out);
    }

    method EmitRelativeY(difference: int)
      requires Core()
      modifies `out, `stringOpen
      ensures !stringOpen && Ready(out)
      ensures View() == AfterRelative(old(View()), 0, difference)
    {
      CloseString();
      hide Ready, Interp, Closed, Scan, Decimal, Core;
      CoreReady();
      InterpRelativeY(out, difference);
      out := out + ("\n" + Decimal(difference) + " y ");
      ClosedReady(out);
    }

    method EmitRelativeX(difference: int)
      requires Core()
      modifies `out, `stringOpen
      ensures !stringOpen && Ready(out)
      ensures View() == AfterRelative(old(View()), difference, 0)
    {
      CloseString();
      hide Ready, Interp, Closed, Scan, Decimal, Core;
      CoreReady();
      InterpRelativeX(out, difference);
      out := out + (Decimal(difference) + " x ");
      ClosedReady(out);
    }

    method EmitSpaces(n: nat)
      requires Core() && n >= 1
      modifies `out, `stringOpen
      ensures !stringOpen && Ready(out)
      ensures View() == AfterSpaces(old(View()), n)
    {
      CloseString();
      hide Ready, Interp, Closed, Scan, Decimal, Core;
      CoreReady();
      InterpSpaces(out, n);
      out := out + (Decimal(n) + " S ");
      ClosedReady(out);
    }

    lemma CoreReady()
      requires Core() && !stringOpen
      ensures Ready(out) && View() == Interp(out)
    {
    }

    method PutSpaces(n: nat)
      requires Core() && stringOpen
      modifies `out
      ensures Core()
      ensures View() == if old(View()).ok then Glyphs(old(View()), Spaces(n)) else old(View())
    {
      hide Core, Closed, Glyph, Tracked;
      var spaces := n;
      while spaces > 0
        invariant 0 <= spaces <= n && Core()
        invariant View() == if old(View()).ok then Glyphs(old(View()), Spaces(n - spaces)) else old(View())
        invariant old(View()).ok ==> View().ok
      {
        OneMoreSpace(old(View()), n - spaces);
        Put(' ');
        spaces := spaces - 1;
      }
    }

    lemma OneMoreSpace(m: Machine, n: nat)
      ensures Glyphs(m, Spaces(n + 1)) == Glyph(Glyphs(m, Spaces(n)), ' ')
    {
      assert Spaces(n + 1)[..n] == Spaces(n);
    }

    /** What the move commands do to the machine. */
    ghost function Moved(m: Machine): Machine
      requires font.size > 0
      reads this
    {
      if xpos != psX && ypos != psY then AfterXY(m, xpos, ypos)
      else if ypos != psY then AfterRelative(m, 0, ypos - psY)
      else if SpaceGap() then AfterSpaces(m, (xpos - psX) / SpaceWidth())
      else if xpos != psX then AfterRelative(m, xpos - psX, 0)
      else m
    }

    method Move()
      requires Core() && pageOpen && font.size > 0
      modifies `out, `stringOpen
      ensures Scanned() && View() == old(Moved(View()))
      ensures stringOpen ==> View() == old(View()) || old(SpaceGap())
      ensures stringOpen ==> old(stringOpen)
    {
      hide Closed, Interp, Scan, Decimal, Show, Tracked, Glyphs, AfterXY, AfterRelative;
      if xpos != psX && ypos != psY {
        EmitXY();
      } else if ypos != psY {
        EmitRelativeY(ypos - psY);
      } else if xpos != psX {
        var difference := xpos - psX;
        if stringOpen && difference > 0 && difference % SpaceWidth() == 0 {
          var spaces := difference / SpaceWidth();
          if spaces <= 6 {
            StringShows();
            PutSpaces(spaces);
          } else {
            EmitSpaces(spaces);
          }
        } else {
          EmitRelativeX(difference);
        }
      }
    }

    lemma StringShows()
      requires Core() && stringOpen
      ensures View().ok ==> forall s :: Show(View(), s) == Glyphs(View(), s)
    {
    }

    lemma SpaceGapEffect(m: Machine)
      requires font.size > 0 && SpaceGap() && m.ok && CanShow(m)
      ensures var n := (xpos - psX) / SpaceWidth();
              AfterSpaces(m, n) == MoveTo(m, m.graphics.at.value.0 + Shift(n, Advance(m.graphics.font.value)), m.graphics.at.value.1)
    {
      var n: nat := (xpos - psX) / SpaceWidth();
      assert AfterSpaces(m, n) == Glyphs(m, Spaces(n));
      hide Glyphs, Show, AfterSpaces;
      GlyphsOfSpaces(m, n);
    }

    /** The machine and the tracked position stay together over a move. */
    lemma MoveEffect(m: Machine)
      requires pageOpen && font.size > 0 && m.ok && Tracked(m) && m == View()
      requires m.graphics.at.Some? && m.graphics.font.Some?
      ensures Moved(m).ok
      ensures Moved(m) == MoveTo(m, xpos as real + NextDrift(), -(ypos as real))
    {
      hide Closed, Show;
      var (x, y) := m.graphics.at.value;
      assert xpos as real == psX as real + (xpos - psX) as real;
      assert ypos as real == psY as real + (ypos - psY) as real;
      if xpos != psX && ypos != psY {
        assert NextDrift() == 0.0;
      } else if SpaceGap() {
        SpaceGapEffect(m);
        assert Moved(m) == AfterSpaces(m, (xpos - psX) / SpaceWidth());
        assert Advance(m.graphics.font.value) == psSize as real * 0.6 && y == -(ypos as real);
        hide AfterSpaces;
        var w := Shift((xpos - psX) / SpaceWidth(), psSize as real * 0.6);
        assert NextDrift() == x - psX as real + w - (xpos - psX) as real;
        assert x + w == xpos as real + NextDrift();
      } else {
        assert NextDrift() == x - psX as real;
      }
    }

    lemma MovedOk(m: Machine)
      requires font.size > 0
      ensures Moved(m).ok ==> m.ok
    {
    }

    /** From no current point only XY gets one. */
    lemma MoveFromNowhere(m: Machine)
      requires pageOpen && font.size > 0 && m.ok && m.graphics.at.None? && psX == 0 && psY == 0 && !SpaceGap()
      ensures if xpos != 0 && ypos != 0 then Moved(m) == MoveTo(m, xpos as real, -(ypos as real))
              else Moved(m).ok ==> Moved(m) == m
    {
    }

    method MoveThere()
      requires Core() && pageOpen && font.size > 0
      requires View().ok ==> CanShow(View()) || (View().graphics == NoGraphics && psX == 0 && psY == 0 && !stringOpen)
      modifies `out, `stringOpen, `psX, `psY
      ensures Core() && psX == xpos && psY == ypos && (stringOpen ==> old(stringOpen))
      ensures View().ok ==> old(View()).ok
      ensures old(View()).ok ==>
                if old(CanShow(View())) then
                  View() == MoveTo(old(View()), xpos as real + old(NextDrift()), -(ypos as real))
                else if xpos != 0 && ypos != 0 then
                  View() == MoveTo(old(View()), xpos as real, -(ypos as real))
                else View().ok ==> View() == old(View())
    {
      hide Closed, Interp, Scan, Ready, NextDrift, CurrentSheet, DefaultSheet, Moved;
      MovedOk(View());
      if View().ok {
        if CanShow(View()) {
          MoveEffect(View());
        } else {
          MoveFromNowhere(View());
        }
      }
      Move();
      psX, psY := xpos, ypos;
    }

    /** Bring the current point to the cursor. */
    method AttainPosition()
      requires Valid() && font.size > 0
      modifies `out, `docOpen, `defaultWidth, `defaultHeight, `defaultOrientation
      modifies `page, `pageOpen, `psX, `psY, `psFont, `psSize, `stringOpen
      ensures Core() && pageOpen && psX == xpos && psY == ypos && (View().ok ==> old(View()).ok)
      ensures View().ok ==> View().pages == old(View()).pages && View().marks == old(View()).marks
      ensures old(pageOpen) ==>
                && psFont == old(psFont) && psSize == old(psSize) && page == old(page)
                && (View().ok <==> old(View()).ok)
                && (View().ok ==>
                      && View().sheet == old(View()).sheet && View().graphics.font == old(View()).graphics.font
                      && View().graphics.at == Some((xpos as real + old(NextDrift()), -(ypos as real))))
      ensures !old(pageOpen) ==>
                && page == old(page) + 1 && psFont.None? && !stringOpen
                && (View().ok ==> View().sheet == CurrentSheet() && View().graphics.font.None?)
                && (if xpos != 0 && ypos != 0 then
                      (View().ok <==> old(View()).ok) &&
                      (View().ok ==> View().graphics.at == Some((xpos as real, -(ypos as real))))
                    else View().ok ==> View().graphics.at.None?)
    {
      hide Closed, Interp, Scan, Ready, NextDrift, CurrentSheet, DefaultSheet, Core, Tracked;
      if pageOpen {
        OpenIsCore();
        OpenPage();
        MoveThere();
      } else {
        OpenIsCore();
        OpenPage();
        MoveThere();
      }
    }

    lemma OpenIsCore()
      requires Valid()
      ensures Core() && (View().ok && pageOpen ==> CanShow(View()))
    {
    }

    method EmitSetFont()
      requires Core()
      modifies `out, `stringOpen
      ensures !stringOpen && Ready(out)
      ensures View() == AfterSetFont(old(View()), PsName(font.name), font.size)
    {
      CloseString();
      hide Ready, Interp, Closed, Scan, Decimal, PsName, Core;
      PsNameIsName(font.name);
      CoreReady();
      InterpSetFont(out, PsName(font.name), font.size);
      out := out + ("/" + PsName(font.name) + " findfont " + Decimal(font.size) + " scalefont setfont ");
      ClosedReady(out);
    }

    /** A font selected already need not be selected again. */
    lemma FontSelected(m: Machine)
      requires Tracked(m) && pageOpen && psFont == Some(font.name) && psSize == font.size
      ensures AfterSetFont(m, PsName(font.name), font.size) == m
    {
    }

    /** Select the font, if it is not the one selected on this page. */
    method AttainFont()
      requires Core() && pageOpen && font.size > 0
      modifies `out, `stringOpen, `psFont, `psSize
      ensures Core() && psFont == Some(font.name) && psSize == font.size
      ensures View() == AfterSetFont(old(View()), PsName(font.name), font.size)
    {
      hide Closed, Interp, Scan, Ready, PsName, DefaultSheet;
      if psSize != font.size || psFont != Some(font.name) {
        EmitSetFont();
        psFont, psSize := Some(font.name), font.size;
      } else if View().ok {
        FontSelected(View());
      }
    }

    /** Where the next glyph goes, as far off as its place as it will be. */
    ghost function NextPoint(): (real, real)
      requires font.size > 0 && (pageOpen ==> View().graphics.at.Some?)
      reads `out, `xpos, `ypos, `psX, `psY, `psSize, `stringOpen, `font, `pageOpen
    {
      (xpos as real + if pageOpen then NextDrift() else 0.0, -(ypos as real))
    }

    /** Does the next glyph have a current point to start from? Not if the page is
        new and one cursor coordinate is still 0. */
    predicate Reaches()
      reads `pageOpen, `xpos, `ypos
    {
      pageOpen || (xpos != 0 && ypos != 0)
    }

    /** Bring the current point to the cursor, and select the font. */
    method Attain()
      requires Valid() && font.size > 0
      modifies `out, `docOpen, `defaultWidth, `defaultHeight, `defaultOrientation
      modifies `page, `pageOpen, `psX, `psY, `psFont, `psSize, `stringOpen
      ensures Core() && pageOpen && psX == xpos && psY == ypos && psSize == font.size
      ensures old(View()).ok && old(Reaches()) ==> View().ok
      ensures View().ok ==>
                && old(View()).ok && View().pages == old(View()).pages && View().marks == old(View()).marks
                && View().graphics.font == Some(Font(PsName(font.name), font.size as real))
                && View().sheet == (if old(pageOpen) then old(View()).sheet else CurrentSheet())
                && View().graphics.at == if old(Reaches()) then Some(old(NextPoint())) else None
    {
      hide Closed, Interp, Scan, Ready, PsName, NextDrift, DefaultSheet, Core, Tracked;
      if View().ok && pageOpen {
        OpenPageShows();
      }
      AttainPosition();
      AttainFont();
    }

    lemma OpenPageShows()
      requires Valid() && View().ok && pageOpen
      ensures View().graphics.at.Some?
    {
    }

    /** Paint a character at the current point, in the current font, if there is one. */
    method Paint(c: char)
      requires Core() && pageOpen && font.size > 0 && psX == xpos && psY == ypos && psSize == font.size
      requires View().ok ==> View().graphics.font == Some(Font(PsName(font.name), font.size as real))
      modifies `out, `stringOpen, `xpos, `psX
      ensures Core() && stringOpen && pageOpen
      ensures xpos == old(xpos) + Width(font.size) && psX == xpos
      ensures View() == if old(View()).ok then Glyph(old(View()), c) else old(View())
    {
      hide Closed, Interp, Scan, Ready, Decimal, PsName, Width, Scanned, DefaultSheet;
      OpenString();
      Put(c);
      var width := Width(font.size);
      xpos := xpos + width;
      psX := psX + width;
    }

    /** Print a character. Exactly when the page is new and one cursor coordinate
        is still 0 there is no current point to move from, and the job fails.
        Otherwise one glyph joins the page, NextDrift() right of the cursor. */
    method Printable(c: char)
      requires Valid() && font.size > 0
      requires ' ' < c < 256 as char
      modifies `out, `docOpen, `defaultWidth, `defaultHeight, `defaultOrientation
      modifies `page, `pageOpen, `psX, `psY, `psFont, `psSize, `stringOpen, `xpos
      ensures Valid() && pageOpen && stringOpen
      ensures View().ok <==> old(View()).ok && old(Reaches())
      ensures xpos == old(xpos) + Width(font.size) && psX == xpos && psY == ypos && psSize == font.size
      ensures View().ok ==>
                var drift := old(if pageOpen then NextDrift() else 0.0);
                && View().pages == old(View()).pages
                && View().marks == old(View()).marks +
                   [Mark(c, old(xpos) as real + drift, -(ypos as real), Font(PsName(font.name), font.size as real))]
                && View().sheet == (if old(pageOpen) then old(View()).sheet else CurrentSheet())
                && Drift() == drift + font.size as real * 0.6 - Width(font.size) as real
    {
      hide Closed, Interp, Scan, Ready, Decimal, PsName, Width, NextDrift, CurrentSheet, DefaultSheet, Core, Tracked;
      Attain();
      Paint(c);
    }

    /** End of the document: the page count goes into the trailer. */
    method Finish() returns (trailer: string)
      requires Valid()
      modifies `out, `stringOpen, `pageOpen, `xpos, `ypos, `docOpen
      ensures Interp(out).ok <==> old(View()).ok
      ensures Interp(out).ok ==>
                Interp(out).pages == old(View()).pages +
                                     if old(pageOpen) then [Page(old(View()).sheet, old(View()).marks)] else []
      ensures trailer == if old(docOpen) then "%%Trailer\n%%Pages: " + Decimal(page) + "\n%%EOF\n" else ""
    {
      trailer := "";
      if docOpen {
        ClosePage();
        trailer := "%%Trailer\n%%Pages: " + Decimal(page) + "\n%%EOF\n";
        docOpen := false;
      }
    }
  }
}

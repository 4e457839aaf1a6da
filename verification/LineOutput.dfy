// output_line() of filter_lp/filter_lp.c and what its text paints.

/** The pieces of text that output_line() prints, as steps of the machine. */
module LineCommands {
  import opened PostScript
  import opened LineMachine
  import opened Options

  lemma ClassifyLetter(c: char)
    requires 'a' <= c <= 'z' || 'A' <= c <= 'Z'
    ensures Classify([c]) == Name([c]) && IsRegular(c)
  {
    assert !IsDigit([c][0]);
  }

  /** Showing nothing changes nothing once the line has begun. */
  lemma ShowTextIsShow(m: Machine, s: string)
    requires m.ok
    ensures ShowText(m, s) == Show(m, s)
  {
    assert Pop(Push(m, Str(s)), 1) == m;
  }

  /** Glyphs change the marks and the column, and nothing else. */
  predicate Beside(a: Machine, b: Machine) {
    && a.stack == b.stack && a.vars == b.vars && a.graphics.bold == b.graphics.bold
    && a.saved == b.saved && a.pages == b.pages && a.ok == b.ok
    && a.graphics.at.Some? && b.graphics.at.Some? && a.graphics.at.value.1 == b.graphics.at.value.1
  }

  lemma {:induction false} GlyphsBeside(m: Machine, s: string)
    requires m.ok && m.graphics.at.Some?
    ensures Beside(Glyphs(m, s), m) && |m.marks| <= |Glyphs(m, s).marks|
    decreases |s|
  {
    if s != "" {
      GlyphsBeside(m, s[..|s| - 1]);
    }
  }

  lemma ShowBegins(m: Machine, s: string)
    requires m.ok && (m.vars.moved ==> m.graphics.at.Some?)
    ensures var v := Show(m, s); v.ok && v.vars.moved && v.graphics.at.Some? && v.stack == m.stack
    ensures Begin(m).graphics.at.Some?
  {
    GlyphsBeside(Begin(m), s);
  }

  /** A string is open, and the text in it can be shown. */
  predicate Showing(out: string) {
    InString(out) && Interp(out).ok && (Interp(out).vars.moved ==> Interp(out).graphics.at.Some?)
  }

  lemma ShowingView(out: string)
    requires Showing(out)
    ensures View(out) == Show(Interp(out), Settled(ModeOf(out)))
    ensures View(out).ok && View(out).vars.moved && View(out).graphics.at.Some?
    ensures View(out).stack == Interp(out).stack
  {
    ShowTextIsShow(Interp(out), Settled(ModeOf(out)));
    ShowBegins(Interp(out), Settled(ModeOf(out)));
  }

  // ----------------------------------------------------------- words and strings

  predicate Plainly(m: Machine) { m.ok && !TopStr(m) }

  predicate InWord(out: string) { ModeOf(out).Word? && ModeOf(out).word != "" }

  lemma InterpNumber(out: string, k: int)
    requires ModeOf(out).Idle?
    ensures var out' := out + (Decimal(k) + " ");
            ModeOf(out').Idle? && Interp(out') == Exec(Interp(out), Number(k)) && View(out') == Interp(out')
  {
    ScanConcat(Start, out, Decimal(k) + " ");
    ScanNumber(Scan(Start, out), k);
    ExecAppend(Scan(Start, out).tokens, Number(k));
  }

  /** An operator of one letter, with nothing after it yet. */
  lemma ViewLetter(out: string, op: char)
    requires ModeOf(out).Idle? && ('a' <= op <= 'z' || 'A' <= op <= 'Z')
    ensures InWord(out + [op]) && View(out + [op]) == Exec(Interp(out), Name([op]))
  {
    ClassifyLetter(op);
    ScanConcat(Start, out, [op]);
    ScanChar(Scan(Start, out), op);
  }

  lemma ViewSpaced(out: string, space: char)
    requires InWord(out) && (space == ' ' || space == '\n')
    ensures ModeOf(out + [space]).Idle? && View(out + [space]) == View(out) == Interp(out + [space])
  {
    ScanConcat(Start, out, [space]);
    ScanChar(Scan(Start, out), space);
    ExecAppend(Scan(Start, out).tokens, Classify(ModeOf(out).word));
  }

  /** "(" ends a word and opens a string. */
  lemma ViewOpen(out: string)
    requires ModeOf(out).Idle? || InWord(out)
    requires View(out).ok && (View(out).vars.moved ==> View(out).graphics.at.Some?)
    ensures var out' := out + "(";
            Showing(out') && !Pending(out') && Interp(out') == View(out) && View(out') == Begin(View(out))
  {
    ScanConcat(Start, out, "(");
    ScanChar(Scan(Start, out), '(');
    if InWord(out) {
      ExecAppend(Scan(Start, out).tokens, Classify(ModeOf(out).word));
    }
    ShowTextIsShow(View(out), "");
  }

  /** ")" leaves the string on the stack for the operator that follows. */
  lemma ViewClose(out: string)
    requires Showing(out)
    ensures ModeOf(out + ")").Idle? && Interp(out + ")") == Push(Interp(out), Str(Settled(ModeOf(out))))
  {
    ScanConcat(Start, out, ")");
    ScanChar(Scan(Start, out), ')');
    ExecAppend(Scan(Start, out).tokens, Text(Settled(ModeOf(out))));
  }

  lemma InterpWord(out: string, w: string, space: string)
    requires ModeOf(out).Idle? && w != "" && (space == " " || space == "\n")
    requires forall i :: 0 <= i < |w| ==> IsRegular(w[i]) || (i == 0 && w[0] == '/')
    ensures ModeOf(out + (w + space)).Idle? && Interp(out + (w + space)) == Exec(Interp(out), Classify(w))
  {
    ScanConcat(Start, out, w + space);
    ScanSpaced(Scan(Start, out), w, space);
    ExecAppend(Scan(Start, out).tokens, Classify(w));
  }

  lemma InterpCommentLine(out: string, t: string)
    requires ModeOf(out).Idle? && forall i :: 0 <= i < |t| ==> t[i] != '\n'
    ensures ModeOf(out + ("%" + t + "\n")).Idle? && Interp(out + ("%" + t + "\n")) == Interp(out)
  {
    ScanConcat(Start, out, "%" + t + "\n");
    ScanCommentLine(Scan(Start, out), t);
  }

  lemma InterpNewline(out: string)
    requires ModeOf(out).Idle?
    ensures ModeOf(out + "\n").Idle? && Interp(out + "\n") == Interp(out)
  {
    ScanConcat(Start, out, "\n");
    ScanChar(Scan(Start, out), '\n');
  }

  // ------------------------------------------------------------ pieces of a line

  /** "12 i", with nothing after it yet. */
  lemma ViewIndent(out: string, k: int)
    requires ModeOf(out).Idle? && Plainly(Interp(out))
    ensures var out' := out + (Decimal(k) + " i");
            InWord(out') && View(out') == View(out).(vars := View(out).vars.(indent := k))
  {
    hide Interp, ModeOf;
    InterpNumber(out, k);
    ViewLetter(out + (Decimal(k) + " "), 'i');
    assert out + (Decimal(k) + " ") + ['i'] == out + (Decimal(k) + " i");
    var m := Interp(out);
    assert Pop(Push(m, Num(k)), 1) == m;
    ViewIdle(out);
  }

  lemma ViewIdle(out: string)
    requires ModeOf(out).Idle?
    ensures View(out) == Interp(out)
  {
  }

  /** "b" or "r", with nothing after it yet. */
  lemma ViewFont(out: string, bold: bool)
    requires ModeOf(out).Idle? && Plainly(Interp(out))
    ensures var out' := out + (if bold then "b" else "r");
            InWord(out') && View(out') == SetBold(View(out), bold)
  {
    hide Interp, ModeOf;
    ViewLetter(out, if bold then 'b' else 'r');
    ViewIdle(out);
  }

  /** ")" and an operator of one letter. */
  lemma ViewStringOp(out: string, op: char)
    requires Showing(out) && ('a' <= op <= 'z' || 'A' <= op <= 'Z')
    ensures InWord(out + ")" + [op])
    ensures View(out + ")" + [op]) == ExecText(Interp(out), Settled(ModeOf(out)), [op])
  {
    hide ExecText, ModeOf, Interp;
    ViewClose(out);
    ViewLetter(out + ")", op);
    var m, t := Interp(out), Settled(ModeOf(out));
    assert m.ok && Pop(Push(m, Str(t)), 1) == m by { ShowingOk(out); }
  }

  lemma ShowingOk(out: string)
    requires Showing(out)
    ensures Interp(out).ok
  {
  }

  /** ")C(": show, then skip 4 to 29 columns. */
  lemma ViewSkipLetter(out: string, n: nat)
    requires Showing(out) && 4 <= n <= 29
    ensures var out' := out + (")" + [(n - 4 + 'A' as int) as char] + "(");
            Showing(out') && !Pending(out') && View(out') == Skip(View(out), n)
  {
    hide ModeOf, Interp, Show;
    var op := (n - 4 + 'A' as int) as char;
    ShowingView(out);
    ViewStringOp(out, op);
    ViewOpen(out + ")" + [op]);
    assert out + ")" + [op] + "(" == out + (")" + [op] + "(");
  }

  /** ")a(" and ")q(": show, then change the font. */
  lemma ViewFontInString(out: string, bold: bool)
    requires Showing(out)
    ensures var out' := out + (if bold then ")a(" else ")q(");
            Showing(out') && !Pending(out') && View(out') == SetBold(View(out), bold)
  {
    hide ModeOf, Interp, Show;
    var op := if bold then 'a' else 'q';
    ShowingView(out);
    ViewStringOp(out, op);
    ViewOpen(out + ")" + [op]);
    assert out + ")" + [op] + "(" == out + (if bold then ")a(" else ")q(");
  }

  /** ")30 t(": show, then skip. */
  lemma ViewSkipLong(out: string, n: nat)
    requires Showing(out)
    ensures var out' := out + (")" + Decimal(n) + " t(");
            Showing(out') && !Pending(out') && View(out') == Skip(View(out), n)
  {
    hide ModeOf, Interp, Show, Decimal;
    ShowingView(out);
    ShowingOk(out);
    ViewClose(out);
    InterpNumber(out + ")", n);
    var o2 := out + ")" + (Decimal(n) + " ");
    ViewLetter(o2, 't');
    var m, t := Interp(out), Settled(ModeOf(out));
    assert Pop(Push(Push(m, Str(t)), Num(n)), 2) == m;
    ViewOpen(o2 + ['t']);
    assert o2 + ['t'] + "(" == out + (")" + Decimal(n) + " t(");
  }

  /** ")p" ends the line. */
  lemma ViewEnd(out: string)
    requires Showing(out)
    ensures ModeOf(out + ")p\n").Idle? && View(out + ")p\n") == NewLines(View(out), 1)
  {
    hide ModeOf, Interp, Show;
    ShowingView(out);
    ViewStringOp(out, 'p');
    ViewSpaced(out + ")" + ['p'], '\n');
    assert out + ")" + ['p'] + ['\n'] == out + ")p\n";
  }

  // ----------------------------------------------------------------- characters

  lemma ShowSnoc(m: Machine, s: string, c: char)
    requires m.ok && (m.vars.moved ==> m.graphics.at.Some?)
    ensures Show(m, s + [c]) == Glyph(Show(m, s), c)
  {
    ShowBegins(m, s);
    assert (s + [c])[..|s|] == s;
  }

  lemma ViewWritten(out: string, c: char, eighth: bool)
    requires Showing(out) && 0 as char < c < 256 as char && !(Pending(out) && IsOctal(c))
    ensures var out' := out + Written(c, eighth);
            && Showing(out') && View(out') == Glyph(View(out), c)
            && (Pending(out') <==> c < ' ')
            && (Pending(out') ==> ModeOf(out').escape.value == c as int)
  {
    ScanWritten(out, c, eighth);
    ShowingView(out);
    ShowingView(out + Written(c, eighth));
    ShowSnoc(Interp(out), Settled(ModeOf(out)), c);
  }

  /** A digit taken into an octal escape paints no glyph of its own. */
  lemma ViewAbsorbed(out: string, c: char, eighth: bool)
    requires Showing(out) && Pending(out) && IsOctal(c)
    ensures var out' := out + Written(c, eighth);
            && Showing(out') && Beside(View(out'), View(out))
            && |View(out').marks| <= |View(out).marks| + 1
            && (OctalChar(ModeOf(out).escape.value) != ' ' ==> |View(out').marks| <= |View(out).marks|)
  {
    ScanAbsorbed(out, c, eighth);
    var out' := out + Written(c, eighth);
    ShowingView(out);
    ShowingView(out');
    var v := ModeOf(out).escape.value;
    ShowSnoc(Interp(out), ModeOf(out).text, OctalChar(v));
    ShowSnoc(Interp(out), ModeOf(out).text, OctalChar(v * 8 + (c as int - 48)));
    ShowBegins(Interp(out), ModeOf(out).text);
  }
}

/** The second pass's printer state, and output_line(). */
module LinePrinterModel {
  import opened PostScript
  import opened LineMachine
  import opened LineCommands
  import opened Options

  /** A position of the line buffer: the character and its ATTR_BOLD bit. */
  datatype Cell = Cell(c: char, bold: bool)

  type Cells = seq<Cell>

  predicate Printable(cells: Cells) { forall k :: 0 <= k < |cells| ==> 0 as char < cells[k].c < 256 as char }

  predicate Blank(cells: Cells) { forall k :: 0 <= k < |cells| ==> cells[k].c == ' ' }

  /** wcsspn(cptr, L" ") at position k. */
  function Span(cells: Cells, k: nat): (n: nat)
    requires k <= |cells|
    ensures k + n <= |cells|
    ensures forall i :: k <= i < k + n ==> cells[i].c == ' '
    ensures k + n < |cells| ==> cells[k + n].c != ' '
    decreases |cells| - k
  {
    if k < |cells| && cells[k].c == ' ' then 1 + Span(cells, k + 1) else 0
  }

  /** The marks the first k characters make: each in its own column, row and weight. */
  function LineMarks(cells: Cells, k: nat, row: int): seq<Mark>
    requires k <= |cells|
  {
    if k == 0 then []
    else LineMarks(cells, k - 1, row) +
         if cells[k - 1].c == ' ' then [] else [Mark(cells[k - 1].c, k - 1, row, cells[k - 1].bold)]
  }

  /** A control character printed as an octal escape of one or two digits, and in
      the same string straight after it an octal digit. */
  predicate BadAt(cells: Cells, k: nat) {
    0 < k < |cells| && cells[k - 1].c < ' ' && IsOctal(cells[k].c) && cells[k - 1].bold == cells[k].bold
  }

  predicate GoodUpTo(cells: Cells, k: nat) { forall i: nat :: i < k ==> !BadAt(cells, i) }

  lemma {:induction false} LineMarksOfSpaces(cells: Cells, k: nat, n: nat, row: int)
    requires k + n <= |cells| && forall i :: k <= i < k + n ==> cells[i].c == ' '
    ensures LineMarks(cells, k + n, row) == LineMarks(cells, k, row)
    decreases n
  {
    if n > 0 {
      LineMarksOfSpaces(cells, k, n - 1, row);
    }
  }

  class LinePrinter {
    const eighth: bool
    var out: string
    var font: bool                // font: 0 roman, 1 bold
    var fontChanged: bool
    var indent: int

    constructor (e: bool)
      ensures out == "" && !font && !fontChanged && indent == 0 && eighth == e
      ensures ModeOf(out).Idle? && View(out) == Setup
    {
      eighth, out, font, fontChanged, indent := e, "", false, false, 0;
      new;
      assert Scan(Start, "") == Start;
    }

    /** Between lines of a page: the tracked font and indent are the
        interpreter's, and no moveto has been done for the next line. */
    ghost predicate Ready(v: Machine)
      reads `out, `font, `fontChanged, `indent
    {
      && ModeOf(out).Idle? && v == View(out)
      && v.ok && !TopStr(v) && !v.vars.moved
      && v.vars.indent == indent && v.graphics.bold == font && !fontChanged
    }

    /** Inside a line, k characters of which are printed. */
    ghost predicate Printing(v0: Machine, cells: Cells, k: nat, lead: nat)
      requires k <= |cells|
      reads `out, `font, `fontChanged, `indent
    {
      var v := View(out);
      && Showing(out) && v.ok && v.graphics.at.Some?
      && v.stack == v0.stack && v.saved == v0.saved && v.pages == v0.pages
      && v.vars == v0.vars.(indent := lead, moved := true) && indent == lead
      && v.graphics.bold == font && !fontChanged
      && (if GoodUpTo(cells, k) then
            && v.marks == v0.marks + LineMarks(cells, k, v0.vars.row)
            && v.graphics.at == Some((k, v0.vars.row))
            && (k > 0 && cells[k - 1].c != ' ' ==> font == cells[k - 1].bold)
            && (Pending(out) <==> k > lead && cells[k - 1].c < ' ')
            && (Pending(out) ==> ModeOf(out).escape.value == cells[k - 1].c as int)
          else |v.marks| < |v0.marks| + |LineMarks(cells, k, v0.vars.row)|)
    }

    /** Set the indent, if it is not the last line's. */
    method PrintIndent(len: nat) returns (newindent: bool)
      requires Ready(View(out))
      modifies `out, `indent
      ensures indent == len && View(out) == old(View(out)).(vars := old(View(out)).vars.(indent := len))
      ensures if newindent then InWord(out) else ModeOf(out).Idle?
    {
      newindent := false;
      if len != indent {
        ViewIndent(out, len);
        out := out + (Decimal(len) + " i");
        indent := len;
        newindent := true;
      }
    }

    /** Change the font before the first string of a line. */
    method PrintFont(newindent: bool)
      requires if newindent then InWord(out) else ModeOf(out).Idle?
      requires View(out).ok && !TopStr(View(out))
      modifies `out
      ensures ModeOf(out).Idle? || InWord(out)
      ensures View(out) == SetBold(old(View(out)), font)
    {
      hide Scan;
      if newindent {
        ViewSpaced(out, ' ');
        out := out + " ";
      }
      ViewFont(out, font);
      out := out + (if font then "b" else "r");
    }

    method SkipRun(len: nat)
      requires Showing(out) && len > 3
      modifies `out
      ensures Showing(out) && !Pending(out) && View(out) == Skip(old(View(out)), len)
    {
      if len > 29 {
        ViewSkipLong(out, len);
        out := out + (")" + Decimal(len) + " t(");
      } else {
        ViewSkipLetter(out, len);
        out := out + (")" + [(len - 4 + 'A' as int) as char] + "(");
      }
    }

    /** The first character of a line: select its font, then open the string. */
    method BeginLine(cell: Cell, newindent: bool)
      requires if newindent then InWord(out) else ModeOf(out).Idle?
      requires View(out).ok && !TopStr(View(out)) && !View(out).vars.moved
      requires View(out).graphics.bold == font && !fontChanged
      modifies `out, `font, `fontChanged
      ensures Showing(out) && !Pending(out) && !fontChanged
      ensures font == if cell.c == ' ' then old(font) else cell.bold
      ensures View(out) == Begin(SetBold(old(View(out)), font))
    {
      if cell.c != ' ' && cell.bold != font {
        font := cell.bold;
        fontChanged := true;
      }
      if fontChanged {
        PrintFont(newindent);
        fontChanged := false;
      }
      ViewOpen(out);
      out := out + "(";
    }

    /** A later character: change the font inside the string if need be. */
    method ChangeFont(cell: Cell)
      requires Showing(out) && View(out).graphics.bold == font && !fontChanged
      modifies `out, `font, `fontChanged
      ensures Showing(out) && !fontChanged
      ensures font == if cell.c == ' ' then old(font) else cell.bold
      ensures View(out) == SetBold(old(View(out)), font)
      ensures if font == old(font) then out == old(out) else !Pending(out)
    {
      if cell.c != ' ' && cell.bold != font {
        font := cell.bold;
        fontChanged := true;
      }
      if fontChanged {
        ViewFontInString(out, font);
        out := out + (if font then ")a(" else ")q(");
        fontChanged := false;
      }
    }

    /** What printing a character can do to the paper, misread or not. */
    method Put(c: char)
      requires Showing(out) && 0 as char < c < 256 as char && View(out).ok && View(out).graphics.at.Some?
      modifies `out
      ensures Showing(out) && Beside(View(out), old(View(out)))
      ensures |View(out).marks| <= |old(View(out)).marks| + if c == ' ' then 0 else 1
      ensures old(Pending(out)) && IsOctal(c) ==>
                OctalChar(old(ModeOf(out)).escape.value) != ' ' ==> |View(out).marks| <= |old(View(out)).marks|
      ensures !(old(Pending(out)) && IsOctal(c)) ==>
                && View(out) == Glyph(old(View(out)), c)
                && (Pending(out) <==> c < ' ')
                && (Pending(out) ==> ModeOf(out).escape.value == c as int)
    {
      if Pending(out) && IsOctal(c) {
        ViewAbsorbed(out, c, eighth);
      } else {
        ViewWritten(out, c, eighth);
      }
      out := out + Written(c, eighth);
    }

    method PrintChar(ghost v0: Machine, cells: Cells, k: nat, ghost lead: nat)
      requires k < |cells| && Printable(cells) && lead <= k && Printing(v0, cells, k, lead)
      requires forall i :: 0 <= i < lead ==> cells[i].c == ' '
      modifies `out, `font, `fontChanged
      ensures Printing(v0, cells, k + 1, lead)
    {
      hide View, ModeOf, Showing, Pending;
      GoodStep(cells, k);
      ChangeFont(cells[k]);
      if GoodUpTo(cells, k) {
        assert Pending(out) && IsOctal(cells[k].c) <==> BadAt(cells, k);
      }
      Put(cells[k].c);
    }

    lemma GoodStep(cells: Cells, k: nat)
      ensures GoodUpTo(cells, k + 1) <==> GoodUpTo(cells, k) && !BadAt(cells, k)
    {
    }

    method PrintFirst(ghost v0: Machine, cells: Cells, lead: nat, newindent: bool)
      requires lead < |cells| && Printable(cells) && cells[lead].c != ' '
      requires forall i :: 0 <= i < lead ==> cells[i].c == ' '
      requires if newindent then InWord(out) else ModeOf(out).Idle?
      requires View(out) == v0.(vars := v0.vars.(indent := lead)) && indent == lead
      requires v0.ok && !TopStr(v0) && !v0.vars.moved && v0.graphics.bold == font && !fontChanged
      modifies `out, `font, `fontChanged
      ensures Printing(v0, cells, lead + 1, lead)
    {
      hide View, ModeOf, Showing, Pending;
      BeginLine(cells[lead], newindent);
      LineMarksOfSpaces(cells, 0, lead, v0.vars.row);
      Put(cells[lead].c);
    }

    method SkipSpaces(ghost v0: Machine, cells: Cells, k: nat, len: nat, ghost lead: nat)
      requires 3 < len && k + len <= |cells| && lead < k && Printing(v0, cells, k, lead)
      requires forall i :: k <= i < k + len ==> cells[i].c == ' '
      modifies `out
      ensures Printing(v0, cells, k + len, lead)
    {
      hide View, ModeOf, Showing, Pending;
      SkipRun(len);
      LineMarksOfSpaces(cells, k, len, v0.vars.row);
      assert GoodUpTo(cells, k + len) <==> GoodUpTo(cells, k) by { GoodOverSpaces(cells, k, len); }
    }

    lemma GoodOverSpaces(cells: Cells, k: nat, len: nat)
      requires k + len <= |cells| && forall i :: k <= i < k + len ==> cells[i].c == ' '
      ensures GoodUpTo(cells, k + len) <==> GoodUpTo(cells, k)
    {
    }

    /** Print a line that is not blank. The glyphs land in their own columns, on
        the current row, in their own weight, if and only if no octal escape is
        followed by an octal digit; otherwise there are too few of them. Either way
        the next line starts right. */
    method OutputLine(cells: Cells)
      requires Printable(cells) && !Blank(cells) && Ready(View(out))
      modifies `out, `font, `fontChanged, `indent
      ensures Ready(View(out))
      ensures var v, v0 := View(out), old(View(out));
              && v.stack == v0.stack && v.saved == v0.saved && v.pages == v0.pages
              && v.vars.row == v0.vars.row + 1 && v.vars.page == v0.vars.page
              && (if GoodUpTo(cells, |cells|) then v.marks == v0.marks + LineMarks(cells, |cells|, v0.vars.row)
                  else |v.marks| < |v0.marks| + |LineMarks(cells, |cells|, v0.vars.row)|)
    {
      hide View, ModeOf, Showing, Pending;
      ghost var v0 := View(out);
      var lead := Span(cells, 0);
      var newindent := PrintIndent(lead);
      var started := false;
      var k := lead;
      while k < |cells|
        invariant lead <= k <= |cells| && (started <==> lead < k)
        invariant if started then Printing(v0, cells, k, lead) else
                    && (if newindent then InWord(out) else ModeOf(out).Idle?)
                    && View(out) == v0.(vars := v0.vars.(indent := lead)) && indent == lead
                    && font == v0.graphics.bold && !fontChanged
      {
        var len := Span(cells, k);
        if len > 3 {
          SkipSpaces(v0, cells, k, len, lead);
          k := k + len;
        } else {
          if started {
            PrintChar(v0, cells, k, lead);
          } else {
            PrintFirst(v0, cells, lead, newindent);
            newindent := false;
            started := true;
          }
          k := k + 1;
        }
      }
      ViewEnd(out);
      out := out + ")p\n";
      ViewIdle(out);
    }
  }
}

// What a PostScript interpreter does with the operators that PSout emits. The
// operators XY, x, y, S, s, bp and ep are those its prolog defines
// (filter_pcl/PSout.java:279-294).

module PageMachine {
  import opened PostScript
  import opened Options

  datatype Font = Font(name: string, size: real)

  datatype Operand =
    | Num(n: real)
    | Lit(name: string)
    | Str(s: string)
    | FontDict(font: Font)
    | SaveObject

  /** The part of the graphics state in use: the current point and the font. */
  datatype Graphics = Graphics(at: Option<(real, real)>, font: Option<Font>)

  /** The variables /ph, /pw and /orient. */
  datatype Geometry = Geometry(height: real, width: real, orient: real)

  /** One glyph on the paper: x and y in 1/7200 inch from the top left corner, y upward. */
  datatype Mark = Mark(c: char, x: real, y: real, font: Font)

  datatype Page = Page(geometry: Geometry, marks: seq<Mark>)

  datatype Machine = Machine(
    stack: seq<Operand>,
    graphics: Graphics,
    geometry: Geometry,
    saved: Option<(Graphics, Geometry)>,
    sheet: Geometry,            // the geometry bp set the page up with
    marks: seq<Mark>,           // on the page being made
    pages: seq<Page>,           // pages shown
    ok: bool)                   // no PostScript error so far

  const NoGraphics := Graphics(None, None)
  const NoGeometry := Geometry(0.0, 0.0, 0.0)
  const Reset := Machine([], NoGraphics, NoGeometry, None, NoGeometry, [], [], true)

  function Fail(m: Machine): Machine { m.(ok := false) }

  // ------------------------------------------------------------------- glyphs

  /** Every character of the Courier family is 0.6 of the font size wide. */
  function Advance(f: Font): real { f.size * 0.6 }

  predicate CanShow(m: Machine) { m.graphics.at.Some? && m.graphics.font.Some? }

  function Glyph(m: Machine, c: char): Machine {
    if !CanShow(m) then Fail(m)
    else
      var (x, y) := m.graphics.at.value;
      var f := m.graphics.font.value;
      m.(marks := if c == ' ' then m.marks else m.marks + [Mark(c, x, y, f)],
         graphics := Graphics(Some((x + Advance(f), y)), Some(f)))
  }

  function Glyphs(m: Machine, s: string): Machine {
    if s == "" then m else Glyph(Glyphs(m, s[..|s| - 1]), s[|s| - 1])
  }

  /** show: an error without a current point or font, even for an empty string. */
  function Show(m: Machine, s: string): Machine {
    if CanShow(m) then Glyphs(m, s) else Fail(m)
  }

  function Spaces(n: nat): string { seq(n, _ => ' ') }

  // ---------------------------------------------------------------- operators

  function Top(m: Machine, n: nat): Operand
    requires n < |m.stack|
  {
    m.stack[|m.stack| - 1 - n]
  }

  function Pop(m: Machine, n: nat): Machine
    requires n <= |m.stack|
  {
    m.(stack := m.stack[..|m.stack| - n])
  }

  function Push(m: Machine, v: Operand): Machine { m.(stack := m.stack + [v]) }

  predicate Num1(m: Machine) { |m.stack| >= 1 && Top(m, 0).Num? }

  predicate Num2(m: Machine) { |m.stack| >= 2 && Top(m, 0).Num? && Top(m, 1).Num? }

  function MoveTo(m: Machine, x: real, y: real): Machine {
    m.(graphics := m.graphics.(at := Some((x, y))))
  }

  /** rmoveto: an error without a current point. */
  function RMoveTo(m: Machine, dx: real, dy: real): Machine {
    if m.graphics.at.None? then Fail(m)
    else MoveTo(m, m.graphics.at.value.0 + dx, m.graphics.at.value.1 + dy)
  }

  function Define(m: Machine, name: string, v: real): Machine {
    if name == "ph" then m.(geometry := m.geometry.(height := v))
    else if name == "pw" then m.(geometry := m.geometry.(width := v))
    else if name == "orient" then m.(geometry := m.geometry.(orient := v))
    else Fail(m)
  }

  /** The operators of the prolog. */
  function ExecProlog(m: Machine, op: string): Machine {
    if op == "XY" then if Num2(m) then MoveTo(Pop(m, 2), Top(m, 1).n, -Top(m, 0).n) else Fail(m)
    else if op == "x" then if Num1(m) then RMoveTo(Pop(m, 1), Top(m, 0).n, 0.0) else Fail(m)
    else if op == "y" then if Num1(m) then RMoveTo(Pop(m, 1), 0.0, -Top(m, 0).n) else Fail(m)
    else if op == "S" then
      if Num1(m) && Top(m, 0).n >= 1.0 then Show(Pop(m, 1), Spaces(Top(m, 0).n.Floor)) else Fail(m)
    else if op == "s" then
      if |m.stack| >= 1 && Top(m, 0).Str? then Show(Pop(m, 1), Top(m, 0).s) else Fail(m)
    else if op == "bp" then m.(sheet := m.geometry)
    else if op == "ep" then
      if |m.stack| >= 1 && Top(m, 0).SaveObject? && m.saved.Some? then
        Pop(m, 1).(graphics := m.saved.value.0, geometry := m.saved.value.1, saved := None,
                   pages := m.pages + [Page(m.sheet, m.marks)], marks := [])
      else Fail(m)
    else ExecBuiltIn(m, op)
  }

  /** The operators of the language. */
  function ExecBuiltIn(m: Machine, op: string): Machine {
    if op == "findfont" then
      if |m.stack| >= 1 && Top(m, 0).Lit? then Push(Pop(m, 1), FontDict(Font(Top(m, 0).name, 1.0))) else Fail(m)
    else if op == "scalefont" then
      if |m.stack| >= 2 && Top(m, 0).Num? && Top(m, 1).FontDict? then
        Push(Pop(m, 2), FontDict(Font(Top(m, 1).font.name, Top(m, 1).font.size * Top(m, 0).n)))
      else Fail(m)
    else if op == "setfont" then
      if |m.stack| >= 1 && Top(m, 0).FontDict? then
        Pop(m, 1).(graphics := m.graphics.(font := Some(Top(m, 0).font)))
      else Fail(m)
    else if op == "div" then
      if Num2(m) && Top(m, 0).n != 0.0 then Push(Pop(m, 2), Num(Top(m, 1).n / Top(m, 0).n)) else Fail(m)
    else if op == "def" then
      if |m.stack| >= 2 && Top(m, 0).Num? && Top(m, 1).Lit? then Define(Pop(m, 2), Top(m, 1).name, Top(m, 0).n)
      else Fail(m)
    else if op == "save" then
      if m.saved.None? then Push(m, SaveObject).(saved := Some((m.graphics, m.geometry))) else Fail(m)
    else Fail(m)
  }

  function Exec(m: Machine, t: Token): Machine {
    if !m.ok then m else
    match t
    case Number(n) => Push(m, Num(n as real))
    case Literal(s) => Push(m, Lit(s))
    case Text(s) => Push(m, Str(s))
    case Name(s) => ExecProlog(m, s)
  }

  function ExecAll(ts: seq<Token>): Machine {
    if ts == [] then Reset else Exec(ExecAll(ts[..|ts| - 1]), ts[|ts| - 1])
  }

  lemma ExecAppend(ts: seq<Token>, t: Token)
    ensures ExecAll(ts + [t]) == Exec(ExecAll(ts), t)
  {
    assert (ts + [t])[..|ts|] == ts;
  }

  // ------------------------------------------------- interpreting what is printed

  /** What has been done once `out` has been read. */
  function Interp(out: string): Machine { ExecAll(Scan(Start, out).tokens) }

  /** `out` ends between tokens. */
  predicate Ready(out: string) { Scan(Start, out).mode.Idle? }

  /** `out` ends inside a string, of which `t` has been read. */
  predicate Inside(out: string, t: string) { Scan(Start, out).mode == InText(t, Plain) }

  predicate IsLetter(c: char) { 'a' <= c <= 'z' || 'A' <= c <= 'Z' }

  predicate IsName(w: string) { w != "" && forall i :: 0 <= i < |w| ==> IsLetter(w[i]) || (i > 0 && w[i] == '-') }

  lemma InterpName(out: string, w: string, space: string)
    requires Ready(out) && IsName(w) && (space == " " || space == "\n")
    ensures Ready(out + (w + space)) && Interp(out + (w + space)) == Exec(Interp(out), Name(w))
  {
    ScanConcat(Start, out, w + space);
    ScanSpaced(Scan(Start, out), w, space);
    assert !IsDigit(w[0]);
    ExecAppend(Scan(Start, out).tokens, Name(w));
  }

  lemma InterpLiteral(out: string, w: string)
    requires Ready(out) && IsName(w)
    ensures Ready(out + ("/" + w + " ")) && Interp(out + ("/" + w + " ")) == Exec(Interp(out), Literal(w))
  {
    ScanConcat(Start, out, "/" + w + " ");
    ScanSpaced(Scan(Start, out), "/" + w, " ");
    assert ("/" + w)[1..] == w;
    ExecAppend(Scan(Start, out).tokens, Literal(w));
  }

  lemma InterpNumber(out: string, n: int)
    requires Ready(out)
    ensures Ready(out + (Decimal(n) + " ")) && Interp(out + (Decimal(n) + " ")) == Exec(Interp(out), Number(n))
  {
    ScanConcat(Start, out, Decimal(n) + " ");
    ScanNumber(Scan(Start, out), n);
    ExecAppend(Scan(Start, out).tokens, Number(n));
  }

  lemma InterpNewline(out: string)
    requires Ready(out)
    ensures Ready(out + "\n") && Interp(out + "\n") == Interp(out)
  {
    ScanConcat(Start, out, "\n");
    ScanChar(Scan(Start, out), '\n');
  }

  lemma InterpComment(out: string, t: string)
    requires Ready(out) && forall i :: 0 <= i < |t| ==> t[i] != '\n'
    ensures Ready(out + ("%" + t + "\n")) && Interp(out + ("%" + t + "\n")) == Interp(out)
  {
    ScanConcat(Start, out, "%" + t + "\n");
    ScanCommentLine(Scan(Start, out), t);
  }

  lemma InterpOpen(out: string)
    requires Ready(out)
    ensures Inside(out + "(", "") && Interp(out + "(") == Interp(out)
  {
    ScanConcat(Start, out, "(");
    ScanChar(Scan(Start, out), '(');
  }

  /** A character in a string, with the escape printable() gives it. */
  function Escaped(c: char): string {
    if c == '(' || c == ')' || c == '\\' then ['\\', c] else [c]
  }

  lemma InterpEscaped(out: string, t: string, c: char)
    requires Inside(out, t)
    ensures Inside(out + Escaped(c), t + [c]) && Interp(out + Escaped(c)) == Interp(out)
  {
    var s := Scan(Start, out);
    ScanConcat(Start, out, Escaped(c));
    if c == '(' || c == ')' || c == '\\' {
      Scan2(s, '\\', c);
    } else {
      ScanChar(s, c);
    }
  }

  /** Closing the string shows it. */
  lemma InterpClose(out: string, t: string)
    requires Inside(out, t)
    ensures Ready(out + ")s ") && Interp(out + ")s ") == Exec(Exec(Interp(out), Text(t)), Name("s"))
  {
    hide *;
    var s := Scan(Start, out);
    IsInside(out, t);
    ScanConcat(Start, out, ")s ");
    CloseScans(s, t);
    ClosedIs(out + ")s ", s.tokens + [Text(t)] + [Name("s")]);
    ExecAppend(s.tokens, Text(t));
    ExecAppend(s.tokens + [Text(t)], Name("s"));
    InterpIs(out);
  }

  lemma IsInside(out: string, t: string)
    requires Inside(out, t)
    ensures Scan(Start, out).mode == InText(t, Plain)
  {
  }

  lemma InterpIs(out: string)
    ensures Interp(out) == ExecAll(Scan(Start, out).tokens)
  {
  }

  lemma ClosedIs(out: string, tokens: seq<Token>)
    requires Scan(Start, out).mode.Idle? && Scan(Start, out).tokens == tokens
    ensures Ready(out) && Interp(out) == ExecAll(tokens)
  {
    hide Scan, ExecAll;
  }

  lemma CloseScans(s: Scanner, t: string)
    requires s.mode == InText(t, Plain)
    ensures Scan(s, ")s ").mode.Idle? && Scan(s, ")s ").tokens == s.tokens + [Text(t)] + [Name("s")]
  {
    Scan3(s, ')', 's', ' ');
    assert Classify("s") == Name("s") by { assert !IsDigit("s"[0]); }
  }
}

/** Each command that PSout prints, as one step of the machine. */
module PageCommands {
  import opened PostScript
  import opened PageMachine
  import opened Options

  function AfterXY(m: Machine, x: int, y: int): Machine {
    if m.ok then MoveTo(m, x as real, -(y as real)) else m
  }

  lemma InterpXY(out: string, x: int, y: int)
    requires Ready(out)
    ensures var out' := out + ("\n" + Decimal(x) + " " + Decimal(y) + " XY ");
            Ready(out') && Interp(out') == AfterXY(Interp(out), x, y)
  {
    hide Ready, Interp, Decimal;
    InterpNewline(out);
    var o1 := out + "\n";
    InterpNumber(o1, x);
    var o2 := o1 + (Decimal(x) + " ");
    InterpNumber(o2, y);
    var o3 := o2 + (Decimal(y) + " ");
    InterpName(o3, "XY", " ");
    assert o3 + ("XY" + " ") == out + ("\n" + Decimal(x) + " " + Decimal(y) + " XY ");
    var m := Interp(out);
    assert Pop(Push(Push(m, Num(x as real)), Num(y as real)), 2) == m;
  }

  function AfterRelative(m: Machine, dx: int, dy: int): Machine {
    if m.ok then RMoveTo(m, dx as real, -(dy as real)) else m
  }

  lemma InterpRelativeY(out: string, d: int)
    requires Ready(out)
    ensures var out' := out + ("\n" + Decimal(d) + " y ");
            Ready(out') && Interp(out') == AfterRelative(Interp(out), 0, d)
  {
    hide Ready, Interp, Decimal;
    InterpNewline(out);
    InterpNumber(out + "\n", d);
    var o2 := out + "\n" + (Decimal(d) + " ");
    InterpName(o2, "y", " ");
    assert o2 + ("y" + " ") == out + ("\n" + Decimal(d) + " y ");
    var m := Interp(out);
    assert Pop(Push(m, Num(d as real)), 1) == m;
  }

  lemma InterpRelativeX(out: string, d: int)
    requires Ready(out)
    ensures var out' := out + (Decimal(d) + " x ");
            Ready(out') && Interp(out') == AfterRelative(Interp(out), d, 0)
  {
    hide Ready, Interp, Decimal;
    InterpNumber(out, d);
    var o2 := out + (Decimal(d) + " ");
    InterpName(o2, "x", " ");
    assert o2 + ("x" + " ") == out + (Decimal(d) + " x ");
    var m := Interp(out);
    assert Pop(Push(m, Num(d as real)), 1) == m;
  }

  /** n times a, added up. */
  function Shift(n: nat, a: real): real { if n == 0 then 0.0 else Shift(n - 1, a) + a }

  lemma {:induction false} ShiftIsProduct(n: nat, a: real)
    ensures Shift(n, a) == n as real * a
    decreases n
  {
    if n > 0 {
      ShiftIsProduct(n - 1, a);
      var k := (n - 1) as real;
      assert n as real == k + 1.0;
      assert (k + 1.0) * a == k * a + a;
    }
  }

  /** Spaces make no mark; they only move the current point. */
  lemma {:induction false} GlyphsOfSpaces(m: Machine, n: nat)
    requires CanShow(m)
    ensures Glyphs(m, Spaces(n)) ==
            MoveTo(m, m.graphics.at.value.0 + Shift(n, Advance(m.graphics.font.value)), m.graphics.at.value.1)
    decreases n
  {
    if n > 0 {
      GlyphsOfSpaces(m, n - 1);
      var s := Spaces(n);
      assert |s| == n && s[..n - 1] == Spaces(n - 1) && s[n - 1] == ' ';
      assert Glyphs(m, s) == Glyph(Glyphs(m, s[..n - 1]), s[n - 1]);
    }
  }

  function AfterSpaces(m: Machine, n: nat): Machine {
    if m.ok then Show(m, Spaces(n)) else m
  }

  lemma InterpSpaces(out: string, n: nat)
    requires Ready(out) && n >= 1
    ensures var out' := out + (Decimal(n) + " S ");
            Ready(out') && Interp(out') == AfterSpaces(Interp(out), n)
  {
    hide Ready, Interp, Decimal;
    InterpNumber(out, n);
    var o2 := out + (Decimal(n) + " ");
    InterpName(o2, "S", " ");
    assert o2 + ("S" + " ") == out + (Decimal(n) + " S ");
    var m := Interp(out);
    var m' := Push(m, Num(n as real));
    assert Pop(m', 1) == m && Top(m', 0).n == n as real;
    assert (n as real).Floor == n && n as real >= 1.0;
  }

  function AfterSetFont(m: Machine, name: string, size: int): Machine {
    if m.ok then m.(graphics := m.graphics.(font := Some(Font(name, size as real)))) else m
  }

  lemma InterpFindFont(out: string, name: string)
    requires Ready(out) && IsName(name)
    ensures var out' := out + ("/" + name + " findfont ");
            Ready(out') && Interp(out') == Exec(Exec(Interp(out), Literal(name)), Name("findfont"))
  {
    hide Ready, Interp, Exec;
    InterpLiteral(out, name);
    var o1 := out + ("/" + name + " ");
    InterpName(o1, "findfont", " ");
    assert o1 + ("findfont" + " ") == out + ("/" + name + " findfont ");
  }

  lemma InterpScaleFont(out: string, size: int)
    requires Ready(out)
    ensures var out' := out + (Decimal(size) + " scalefont setfont ");
            Ready(out') && Interp(out') ==
            Exec(Exec(Exec(Interp(out), Number(size)), Name("scalefont")), Name("setfont"))
  {
    hide Ready, Interp, Exec, Decimal;
    InterpNumber(out, size);
    var o1 := out + (Decimal(size) + " ");
    InterpName(o1, "scalefont", " ");
    var o2 := o1 + ("scalefont" + " ");
    InterpName(o2, "setfont", " ");
    assert o2 + ("setfont" + " ") == out + (Decimal(size) + " scalefont setfont ");
  }

  lemma InterpSetFont(out: string, name: string, size: int)
    requires Ready(out) && IsName(name)
    ensures var out' := out + ("/" + name + " findfont " + Decimal(size) + " scalefont setfont ");
            Ready(out') && Interp(out') == AfterSetFont(Interp(out), name, size)
  {
    hide Ready, Interp, Decimal, Exec, AfterSetFont;
    InterpFindFont(out, name);
    var o1 := out + ("/" + name + " findfont ");
    InterpScaleFont(o1, size);
    assert o1 + (Decimal(size) + " scalefont setfont ")
        == out + ("/" + name + " findfont " + Decimal(size) + " scalefont setfont ");
    FontSteps(Interp(out), name, size);
  }

  lemma FontSteps(m: Machine, name: string, size: int)
    ensures var m1 := Exec(m, Literal(name));
            var m2 := Exec(m1, Name("findfont"));
            var m3 := Exec(m2, Number(size));
            var m4 := Exec(m3, Name("scalefont"));
            Exec(m4, Name("setfont")) == AfterSetFont(m, name, size)
  {
    if m.ok {
      var f := FontDict(Font(name, 1.0));
      assert Pop(Push(m, Lit(name)), 1) == m;
      assert Pop(Push(Push(m, f), Num(size as real)), 2) == m;
      assert 1.0 * (size as real) == size as real;
      assert Pop(Push(m, FontDict(Font(name, size as real))), 1) == m;
    }
  }

  function AfterDefine(m: Machine, name: string, v: real): Machine {
    if m.ok then Define(m, name, v) else m
  }

  /** "/ph 79200 100 div def" and its like. */
  lemma InterpHundredths(out: string, name: string, n: int)
    requires Ready(out) && IsName(name)
    ensures var out' := out + ("/" + name + " " + Decimal(n) + " 100 div def\n");
            Ready(out') && Interp(out') == AfterDefine(Interp(out), name, n as real / 100.0)
  {
    hide Ready, Interp, Decimal, Exec, AfterDefine;
    InterpLiteral(out, name);
    var o1 := out + ("/" + name + " ");
    InterpNumber(o1, n);
    var o2 := o1 + (Decimal(n) + " ");
    InterpNumber(o2, 100);
    var o3 := o2 + (Decimal(100) + " ");
    InterpName(o3, "div", " ");
    var o4 := o3 + ("div" + " ");
    InterpName(o4, "def", "\n");
    assert Decimal(100) == "100" by { DecimalHundred(); }
    assert o4 + ("def" + "\n") == out + ("/" + name + " " + Decimal(n) + " 100 div def\n");
    DefineSteps(Interp(out), name, n);
  }

  lemma DefineSteps(m: Machine, name: string, n: int)
    ensures var m2 := Exec(Exec(Exec(m, Literal(name)), Number(n)), Number(100));
            Exec(Exec(m2, Name("div")), Name("def")) == AfterDefine(m, name, n as real / 100.0)
  {
    if m.ok {
      var l := Push(m, Lit(name));
      assert Pop(Push(Push(l, Num(n as real)), Num(100.0)), 2) == l;
      assert Pop(Push(l, Num(n as real / 100.0)), 2) == m;
    }
  }

  lemma DecimalHundred()
    ensures Decimal(100) == "100"
  {
    assert Digits(1) == "1" && Digits(10) == "10";
  }

  lemma InterpOrient(out: string, n: int)
    requires Ready(out)
    ensures var out' := out + ("/orient " + Decimal(n) + " def\n");
            Ready(out') && Interp(out') == AfterDefine(Interp(out), "orient", n as real)
  {
    hide Ready, Interp, Decimal;
    InterpLiteral(out, "orient");
    var o1 := out + ("/" + "orient" + " ");
    InterpNumber(o1, n);
    var o2 := o1 + (Decimal(n) + " ");
    InterpName(o2, "def", "\n");
    assert o2 + ("def" + "\n") == out + ("/orient " + Decimal(n) + " def\n");
    var m := Interp(out);
    assert Pop(Push(Push(m, Lit("orient")), Num(n as real)), 2) == m;
  }

  function AfterOperator(m: Machine, op: string): Machine { Exec(m, Name(op)) }

  lemma InterpOperatorLine(out: string, op: string)
    requires Ready(out) && IsName(op)
    ensures Ready(out + (op + "\n")) && Interp(out + (op + "\n")) == AfterOperator(Interp(out), op)
  {
    InterpName(out, op, "\n");
  }

  lemma InterpEndPage(out: string)
    requires Ready(out)
    ensures Ready(out + "\nep\n\n") && Interp(out + "\nep\n\n") == AfterOperator(Interp(out), "ep")
  {
    hide Ready, Interp;
    InterpNewline(out);
    InterpName(out + "\n", "ep", "\n");
    InterpNewline(out + "\n" + ("ep" + "\n"));
    assert out + "\n" + ("ep" + "\n") + "\n" == out + "\nep\n\n";
  }

  // ------------------------------------------------- what an open string amounts to

  /** The state once `out` is closed, if it ends inside a string. */
  function Closed(out: string): Machine { Interp(if Scan(Start, out).mode.InText? then out + ")s " else out) }

  lemma ClosedReady(out: string)
    requires Ready(out)
    ensures Closed(out) == Interp(out)
  {
  }

  lemma ClosedInside(out: string, t: string)
    requires Inside(out, t)
    ensures Closed(out) == if Interp(out).ok then Show(Interp(out), t) else Interp(out)
  {
    InterpClose(out, t);
    var m := Interp(out);
    assert Pop(Push(m, Str(t)), 1) == m;
  }

  lemma ClosedOpen(out: string)
    requires Ready(out)
    ensures Inside(out + "(", "")
    ensures var m := Interp(out);
            Closed(out + "(") == if m.ok && !CanShow(m) then Fail(m) else m
  {
    InterpOpen(out);
    ClosedInside(out + "(", "");
  }

  lemma {:induction false} GlyphsKeepShowing(m: Machine, t: string)
    requires CanShow(m) && m.ok
    ensures CanShow(Glyphs(m, t)) && Glyphs(m, t).ok
    decreases |t|
  {
    if t != "" {
      GlyphsKeepShowing(m, t[..|t| - 1]);
    }
  }

  /** Printing one more character into an open string shows one more glyph. */
  lemma ClosedChar(out: string, t: string, c: char)
    requires Inside(out, t)
    ensures Inside(out + Escaped(c), t + [c])
    ensures Closed(out + Escaped(c)) == if Closed(out).ok then Glyph(Closed(out), c) else Closed(out)
  {
    InterpEscaped(out, t, c);
    ClosedInside(out, t);
    ClosedInside(out + Escaped(c), t + [c]);
    assert (t + [c])[..|t|] == t;
    if Interp(out).ok && CanShow(Interp(out)) {
      GlyphsKeepShowing(Interp(out), t);
    }
  }
}

// What a PostScript interpreter does with the text filter_lp prints. The
// operators are those of its procset (filter_lp/filter_lp.c:842-902).
//
// Positions are kept in columns and rows: column c is at
// lm + c * ptsize * width (plus the gutter on odd pages) and row r at
// the first line's y minus r * yspace. Every move of the procset is a
// whole number of these, and so is every glyph of a fixed-width font.

module LineMachine {
  import opened PostScript
  import opened Options

  datatype Mark = Mark(c: char, col: int, row: int, bold: bool)

  datatype Page = Page(number: int, marks: seq<Mark>)

  datatype Operand = Num(n: int) | Str(s: string) | Lit(name: string) | SaveObject

  /** /y (as a row), /m, /indent and /page. */
  datatype Vars = Vars(row: int, moved: bool, indent: int, page: int)

  datatype Graphics = Graphics(at: Option<(int, int)>, bold: bool)

  datatype Machine = Machine(
    stack: seq<Operand>,
    vars: Vars,
    graphics: Graphics,
    saved: Option<(Vars, Graphics)>,
    marks: seq<Mark>,
    pages: seq<Page>,
    ok: bool)

  /** After the setup section: "y" at the top line, "0 i" and "r". */
  const Setup := Machine([], Vars(0, false, 0, 0), Graphics(None, false), None, [], [], true)

  function Fail(m: Machine): Machine { m.(ok := false) }

  function Glyph(m: Machine, c: char): Machine {
    if m.graphics.at.None? then Fail(m)
    else
      var (col, row) := m.graphics.at.value;
      m.(marks := if c == ' ' then m.marks else m.marks + [Mark(c, col, row, m.graphics.bold)],
         graphics := m.graphics.(at := Some((col + 1, row))))
  }

  function Glyphs(m: Machine, s: string): Machine {
    if s == "" then m else Glyph(Glyphs(m, s[..|s| - 1]), s[|s| - 1])
  }

  /** The start of /s: move to the indent on this row if that is not done yet. */
  function Begin(m: Machine): Machine {
    if m.vars.moved then m
    else m.(vars := m.vars.(moved := true), graphics := m.graphics.(at := Some((m.vars.indent, m.vars.row))))
  }

  function Show(m: Machine, s: string): Machine {
    if Begin(m).graphics.at.None? then Fail(m) else Glyphs(Begin(m), s)
  }

  function NewLines(m: Machine, k: int): Machine {
    m.(vars := m.vars.(row := m.vars.row + k, moved := false))
  }

  function Skip(m: Machine, k: int): Machine {
    if m.graphics.at.None? then Fail(m)
    else m.(graphics := m.graphics.(at := Some((m.graphics.at.value.0 + k, m.graphics.at.value.1))))
  }

  function SetBold(m: Machine, b: bool): Machine { m.(graphics := m.graphics.(bold := b)) }

  // ---------------------------------------------------------------- operators

  predicate TopNum(m: Machine) { |m.stack| >= 1 && m.stack[|m.stack| - 1].Num? }

  predicate TopStr(m: Machine) { |m.stack| >= 1 && m.stack[|m.stack| - 1].Str? }

  predicate TopStrNum(m: Machine) { TopNum(m) && |m.stack| >= 2 && m.stack[|m.stack| - 2].Str? }

  function Pop(m: Machine, n: nat): Machine
    requires n <= |m.stack|
  {
    m.(stack := m.stack[..|m.stack| - n])
  }

  function Push(m: Machine, v: Operand): Machine { m.(stack := m.stack + [v]) }

  /** /t: show, then skip columns. */
  function ShowSkip(m: Machine, s: string, k: int): Machine { Skip(Show(m, s), k) }

  function ExecText(m: Machine, s: string, op: string): Machine {
    if op == "s" then Show(m, s)
    else if op == "p" then NewLines(Show(m, s), 1)
    else if op == "a" then SetBold(Show(m, s), true)
    else if op == "q" then SetBold(Show(m, s), false)
    else if |op| == 1 && 'A' <= op[0] <= 'Z' then ShowSkip(m, s, op[0] as int - 'A' as int + 4)
    else Fail(m)
  }

  function ExecOther(m: Machine, op: string): Machine {
    if op == "n" then NewLines(m, 1)
    else if op == "nx" then if TopNum(m) then NewLines(Pop(m, 1), m.stack[|m.stack| - 1].n) else Fail(m)
    else if op == "i" then
      if TopNum(m) then Pop(m, 1).(vars := m.vars.(indent := m.stack[|m.stack| - 1].n)) else Fail(m)
    else if op == "b" then SetBold(m, true)
    else if op == "r" then SetBold(m, false)
    else if op == "t" then
      if TopStrNum(m) then ShowSkip(Pop(m, 2), m.stack[|m.stack| - 2].s, m.stack[|m.stack| - 1].n) else Fail(m)
    else ExecPage(m, op)
  }

  function ExecPage(m: Machine, op: string): Machine {
    if op == "def" then
      if TopNum(m) && |m.stack| >= 2 && m.stack[|m.stack| - 2] == Lit("page") then
        Pop(m, 2).(vars := m.vars.(page := m.stack[|m.stack| - 1].n))
      else Fail(m)
    else if op == "sp" then
      if m.saved.None? then Push(m, SaveObject).(saved := Some((m.vars, m.graphics))) else Fail(m)
    else if op == "ep" then
      if |m.stack| >= 1 && m.stack[|m.stack| - 1].SaveObject? && m.saved.Some? then
        Pop(m, 1).(vars := m.saved.value.0, graphics := m.saved.value.1, saved := None,
                   pages := m.pages + [Page(m.vars.page, m.marks)], marks := [])
      else Fail(m)
    else Fail(m)
  }

  function Exec(m: Machine, t: Token): Machine {
    if !m.ok then m else
    match t
    case Number(n) => Push(m, Num(n))
    case Literal(s) => Push(m, Lit(s))
    case Text(s) => Push(m, Str(s))
    case Name(op) => if TopStr(m) then ExecText(Pop(m, 1), m.stack[|m.stack| - 1].s, op) else ExecOther(m, op)
  }

  /** Which operators the interpreter knows, and what they need: a string and a point to
      show it from, numbers, and for the end of a page the state saved at its beginning. */
  lemma WorksIff(m: Machine, op: string)
    requires m.ok
    ensures TopStr(m) ==>
      (Exec(m, Name(op)).ok <==>
         (op in {"s", "p", "a", "q"} || (|op| == 1 && 'A' <= op[0] <= 'Z')) && (m.vars.moved ==> m.graphics.at.Some?))
    ensures !TopStr(m) ==>
      (Exec(m, Name(op)).ok <==>
         || op in {"n", "b", "r"} || (op in {"nx", "i"} && TopNum(m))
         || (op == "t" && TopStrNum(m) && (m.vars.moved ==> m.graphics.at.Some?))
         || (op == "def" && TopNum(m) && |m.stack| >= 2 && m.stack[|m.stack| - 2] == Lit("page"))
         || (op == "sp" && m.saved.None?)
         || (op == "ep" && m.saved.Some? && |m.stack| >= 1 && m.stack[|m.stack| - 1].SaveObject?))
  {
    if TopStr(m) {
      ShowWorks(Pop(m, 1), m.stack[|m.stack| - 1].s);
    } else if TopStrNum(m) {
      ShowWorks(Pop(m, 2), m.stack[|m.stack| - 2].s);
    }
    hide Show;
  }

  lemma ShowWorks(m: Machine, s: string)
    requires m.ok
    ensures var n := Show(m, s);
      (n.ok <==> (m.vars.moved ==> m.graphics.at.Some?)) && (n.ok ==> n.graphics.at.Some?)
  {
    if Begin(m).graphics.at.Some? {
      GlyphsWork(Begin(m), s);
    }
  }

  lemma {:induction false} GlyphsWork(m: Machine, s: string)
    requires m.ok && m.graphics.at.Some?
    ensures Glyphs(m, s).ok && Glyphs(m, s).graphics.at.Some?
  {
    if s != "" {
      GlyphsWork(m, s[..|s| - 1]);
    }
  }

  function ExecAll(ts: seq<Token>): Machine {
    if ts == [] then Setup else Exec(ExecAll(ts[..|ts| - 1]), ts[|ts| - 1])
  }

  lemma ExecAppend(ts: seq<Token>, t: Token)
    ensures ExecAll(ts + [t]) == Exec(ExecAll(ts), t)
  {
    assert (ts + [t])[..|ts|] == ts;
  }

  function Interp(out: string): Machine { ExecAll(Scan(Start, out).tokens) }

  function ModeOf(out: string): Mode { Scan(Start, out).mode }

  /** The state once a word or string still open at the end is finished. */
  function View(out: string): Machine {
    match ModeOf(out)
    case Word(w) => if w == "" then Interp(out) else Exec(Interp(out), Classify(w))
    case InText(t, e) => ShowText(Interp(out), Settled(ModeOf(out)))
    case _ => Interp(out)
  }

  function ShowText(m: Machine, s: string): Machine { Exec(Exec(m, Text(s)), Name("s")) }

  /** The text of an open string, with an octal escape not yet ended counted in. */
  function Settled(mode: Mode): string
    requires mode.InText?
  {
    match mode.escape
    case Octal(v, _) => mode.text + [OctalChar(v)]
    case _ => mode.text
  }

  predicate InString(out: string) { ModeOf(out).InText? && !ModeOf(out).escape.Backslash? }

  /** The next character may be taken as one more octal digit. */
  predicate Pending(out: string) {
    ModeOf(out).InText? && ModeOf(out).escape.Octal? && ModeOf(out).escape.digits < 3
  }

  // ------------------------------------------------------------ what is printed

  function OctalDigits(n: nat): string
    requires n < 512
  {
    if n < 8 then [(n + 48) as char]
    else if n < 64 then [(n / 8 + 48) as char, (n % 8 + 48) as char]
    else [(n / 64 + 48) as char, (n / 8 % 8 + 48) as char, (n % 8 + 48) as char]
  }

  /** How output_line() writes a character: `eighth` is eighth_bit_ok. */
  function Written(c: char, eighth: bool): string
    requires c < 256 as char
  {
    if c == '(' || c == ')' || c == '\\' then ['\\', c]
    else if c < ' ' || c == 127 as char then "\\" + OctalDigits(c as int)
    else if c < 127 as char || eighth then [c]
    else "\\" + OctalDigits(c as int)
  }

  lemma OctalDigit(s: Scanner, text: string, v: nat, n: nat, d: nat)
    requires d < 8
    ensures s.mode == InText(text, Backslash) ==> Step(s, (d + 48) as char) == s.(mode := InText(text, Octal(d, 1)))
    ensures s.mode == InText(text, Octal(v, n)) && n < 3 ==>
              Step(s, (d + 48) as char) == s.(mode := InText(text, Octal(v * 8 + d, n + 1)))
  {
  }

  lemma ScanOctal(s: Scanner, text: string, n: nat)
    requires n < 256 && s.mode == InText(text, Backslash)
    ensures Scan(s, OctalDigits(n)) ==
            s.(mode := InText(text, Octal(n, if n < 8 then 1 else if n < 64 then 2 else 3)))
  {
    hide Scan, Step;
    if n < 8 {
      OctalDigit(s, text, 0, 0, n);
      ScanChar(s, (n + 48) as char);
    } else {
      var h := if n < 64 then n / 8 else n / 64;
      OctalDigit(s, text, 0, 0, h);
      var s1 := s.(mode := InText(text, Octal(h, 1)));
      var d := if n < 64 then n % 8 else n / 8 % 8;
      OctalDigit(s1, text, h, 1, d);
      if n < 64 {
        Scan2(s, (n / 8 + 48) as char, (n % 8 + 48) as char);
      } else {
        OctalDigit(s1.(mode := InText(text, Octal(h * 8 + d, 2))), text, h * 8 + d, 2, n % 8);
        Scan3(s, (n / 64 + 48) as char, (n / 8 % 8 + 48) as char, (n % 8 + 48) as char);
      }
    }
  }

  /** Ending an octal escape, if there is one, leaves the settled text. */
  lemma ScanEscape(s: Scanner, t: string)
    requires s.mode.InText? && !s.mode.escape.Backslash?
    ensures Step(s, '\\') == s.(mode := InText(Settled(s.mode), Backslash))
  {
  }

  lemma ScanBackslashed(s: Scanner, c: char)
    requires s.mode.InText? && !s.mode.escape.Backslash? && (c == '(' || c == ')' || c == '\\')
    ensures Scan(s, ['\\', c]) == s.(mode := InText(Settled(s.mode) + [c], Plain))
  {
    hide Settled;
    Scan2(s, '\\', c);
    ScanEscape(s, "");
  }

  lemma ScanPlainChar(s: Scanner, c: char)
    requires s.mode.InText? && !s.mode.escape.Backslash? && c != '(' && c != ')' && c != '\\'
    requires !(s.mode.escape.Octal? && s.mode.escape.digits < 3 && IsOctal(c))
    ensures Scan(s, [c]) == s.(mode := InText(Settled(s.mode) + [c], Plain))
  {
    ScanChar(s, c);
  }

  lemma ScanOctalChar(s: Scanner, c: char)
    requires s.mode.InText? && !s.mode.escape.Backslash? && c < 256 as char
    ensures Scan(s, "\\" + OctalDigits(c as int)) ==
            s.(mode := InText(Settled(s.mode), Octal(c as int, if c < 8 as char then 1 else if c < 64 as char then 2 else 3)))
  {
    hide Settled, Scan;
    ScanEscape(s, "");
    ScanChar(s, '\\');
    ScanConcat(s, "\\", OctalDigits(c as int));
    ScanOctal(s.(mode := InText(Settled(s.mode), Backslash)), Settled(s.mode), c as int);
  }

  /** A written character adds itself to the text, unless it is an octal digit
      right after an unfinished octal escape. Only a control character below
      space leaves an unfinished one. */
  lemma ScanWritten(out: string, c: char, eighth: bool)
    requires InString(out) && 0 as char < c < 256 as char
    requires !(Pending(out) && IsOctal(c))
    ensures var out' := out + Written(c, eighth);
            && InString(out') && Interp(out') == Interp(out)
            && Settled(ModeOf(out')) == Settled(ModeOf(out)) + [c]
            && (Pending(out') <==> c < ' ')
            && (Pending(out') ==> ModeOf(out').escape.value == c as int)
  {
    hide Scan, ExecAll, OctalDigits;
    var s := Scan(Start, out);
    ScanConcat(Start, out, Written(c, eighth));
    if c == '(' || c == ')' || c == '\\' {
      ScanBackslashed(s, c);
    } else if ' ' <= c < 127 as char || (c > 127 as char && eighth) {
      ScanPlainChar(s, c);
    } else {
      ScanOctalChar(s, c);
    }
  }

  /** An octal digit after an unfinished octal escape changes its last character. */
  lemma ScanAbsorbed(out: string, c: char, eighth: bool)
    requires InString(out) && Pending(out) && IsOctal(c)
    ensures var out' := out + Written(c, eighth);
            var v := ModeOf(out).escape.value * 8 + (c as int - 48);
            && InString(out') && Interp(out') == Interp(out)
            && Settled(ModeOf(out)) == ModeOf(out).text + [OctalChar(ModeOf(out).escape.value)]
            && Settled(ModeOf(out')) == ModeOf(out).text + [OctalChar(v)]
  {
    ScanConcat(Start, out, [c]);
    ScanChar(Scan(Start, out), c);
  }
}

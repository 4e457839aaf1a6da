// readline_normal() of filter_lp/filter_lp.c: the bytes of the file become lines, with
// overstriking for bold, tabs, carriage returns and form feeds.

module LineBytes {
  import opened Bytes
  import opened LinePrinterModel
  import opened LineSheets
  import opened Options

  /** auto_lf, MAX_WIDTH and TAB_WIDTH. */
  datatype Config = Config(autoLf: bool, width: nat, tab: nat)

  predicate Proper(k: Config) { k.width >= 10 && k.tab >= 1 }

  /** What has been put on a line, and the column that comes next. Backspaces at the
      left edge take it off the line. */
  datatype Pen = Pen(cells: Cells, count: int)

  const LeftEdge := Pen([], 0)

  /** Spaces are never bold, for they leave what is there alone. */
  predicate SpacesPlain(cells: Cells) {
    forall i :: 0 <= i < |cells| ==> cells[i].c == ' ' ==> !cells[i].bold
  }

  predicate OnLine(p: Pen) { p.count <= |p.cells| && SpacesPlain(p.cells) && Printable(p.cells) }

  /** A character at a column: what is there already becomes bold. */
  function Put(cells: Cells, at: nat, c: char): Cells
    requires at <= |cells|
  {
    if at == |cells| then cells + [Cell(c, false)]
    else if cells[at].c == c then cells[at := Cell(c, true)]
    else cells[at := Cell(c, cells[at].bold)]
  }

  /** Spaces, where there is nothing yet. */
  function Pad(cells: Cells, to: int): (r: Cells)
    ensures |r| == if to > |cells| then to else |cells|
    ensures cells <= r && forall i :: |cells| <= i < |r| ==> r[i] == Cell(' ', false)
  {
    if to > |cells| then cells + seq(to - |cells|, _ => Cell(' ', false)) else cells
  }

  /** The column after a tab. */
  function TabStop(k: Config, count: nat): (n: nat)
    requires Proper(k)
    ensures count < n <= count + k.tab
  {
    count + k.tab - count % k.tab
  }

  /** Bytes that end a line. */
  predicate Ends(k: Config, c: byte) { c == 10 || c == 12 || (c == 13 && k.autoLf) }

  /** Bytes that put something on the line. */
  predicate Marks(c: byte) { c != 0 && c != 8 && c != 10 && c != 12 && c != 13 }

  /** What another byte does, unless it would be put left of the line. */
  function Stroke(k: Config, p: Pen, c: byte): (r: Option<Pen>)
    requires Proper(k) && !Ends(k, c) && OnLine(p)
    ensures r.Some? ==> OnLine(r.value)
  {
    if c == 0 then Some(p)
    else if c == 8 then Some(p.(count := p.count - 1))
    else if c == 13 then Some(p.(count := 0))
    else if p.count < 0 then None
    else if c == 9 then Some(Pen(Pad(p.cells, TabStop(k, p.count)), TabStop(k, p.count)))
    else if c == 32 then Some(Pen(Pad(p.cells, p.count + 1), p.count + 1))
    else Some(Pen(Put(p.cells, p.count, c as char), p.count + 1))
  }

  function Trim(cells: Cells): (r: Cells)
    ensures r <= cells
  {
    if cells != [] && cells[|cells| - 1].c == ' ' && !cells[|cells| - 1].bold then Trim(cells[..|cells| - 1]) else cells
  }

  /** A line and the bytes it took, and whether its form feed is yet to come; or the end
      of the file; or a character put left of the line, which is memory of something else. */
  datatype Got = Got(line: Line, used: nat, pending: bool) | EndOfFile | Outside

  function More(g: Got, n: nat): Got { if g.Got? then g.(used := g.used + n) else g }

  function ReadLine(k: Config, s: seq<byte>, p: Pen): (g: Got)
    requires Proper(k) && OnLine(p)
    ensures g.Got? ==> g.used <= |s| && (p == LeftEdge ==> g.used > 0)
    decreases |s|
  {
    if p.count >= k.width then Got(Line(Trim(p.cells), false), 0, false)
    else if s == [] then if p.cells == [] then EndOfFile else Got(Line(Trim(p.cells), false), 0, false)
    else if s[0] == 12 then Got(Line(Trim(p.cells), p.count == 0), 1, p.count != 0)
    else if Ends(k, s[0]) then Got(Line(Trim(p.cells), false), 1, false)
    else
      var q := Stroke(k, p, s[0]);
      if q.None? then Outside else More(ReadLine(k, s[1..], q.value), 1)
  }

  /** The lines of a file, as far as it can be read. */
  datatype Document = Document(lines: seq<Line>, whole: bool)

  function ReadFile(k: Config, s: seq<byte>, pending: bool): Document
    requires Proper(k)
    decreases |s|, pending
  {
    if pending then
      var rest := ReadFile(k, s, false);
      rest.(lines := [Line([], true)] + rest.lines)
    else
      match ReadLine(k, s, LeftEdge)
      case EndOfFile => Document([], true)
      case Outside => Document([], false)
      case Got(line, used, p) =>
        var rest := ReadFile(k, s[used..], p);
        rest.(lines := [line] + rest.lines)
  }

  /** The lines read before the rest of a document. */
  ghost function Before(lines: seq<Line>, d: Document): Document { d.(lines := lines + d.lines) }

  lemma Append(lines: seq<Line>, line: Line, d: Document)
    ensures Before(lines, Before([line], d)) == Before(lines + [line], d)
  {
    assert lines + ([line] + d.lines) == lines + [line] + d.lines;
  }

  lemma FileStep(k: Config, s: seq<byte>, pending: bool)
    requires Proper(k)
    ensures ReadFile(k, s, pending) ==
            if pending then Before([Line([], true)], ReadFile(k, s, false))
            else
              match ReadLine(k, s, LeftEdge)
              case EndOfFile => Document([], true)
              case Outside => Document([], false)
              case Got(line, used, p) => Before([line], ReadFile(k, s[used..], p))
  {
    hide ReadLine;
  }

  // -------------------------------------------------------------- what is delivered

  lemma {:induction false} TrimEnds(cells: Cells)
    requires SpacesPlain(cells) && Printable(cells)
    ensures var r := Trim(cells); Printable(r) && (r != [] ==> r[|r| - 1].c != ' ')
  {
    if cells != [] {
      var n := |cells| - 1;
      assert cells[n].c == ' ' ==> !cells[n].bold;
      if cells[n].c == ' ' {
        assert forall i :: 0 <= i < n ==> cells[..n][i] == cells[i];
        TrimEnds(cells[..n]);
      }
    }
  }

  lemma {:induction false} LineWellFormed(k: Config, s: seq<byte>, p: Pen)
    requires Proper(k) && OnLine(p)
    ensures ReadLine(k, s, p).Got? ==> WellFormed(ReadLine(k, s, p).line)
    decreases |s|
  {
    TrimEnds(p.cells);
    hide Trim, Stroke, Printable, SpacesPlain;
    if s != [] && !Ends(k, s[0]) && p.count < k.width {
      var q := Stroke(k, p, s[0]);
      if q.Some? {
        LineWellFormed(k, s[1..], q.value);
      }
    }
  }

  /** Every line delivered is fit for the rest of the filter. */
  lemma {:induction false} FileWellFormed(k: Config, s: seq<byte>, pending: bool)
    requires Proper(k)
    ensures var d := ReadFile(k, s, pending); forall i :: 0 <= i < |d.lines| ==> WellFormed(d.lines[i])
    decreases |s|, pending
  {
    hide ReadLine, ReadFile, WellFormed;
    EmptyWellFormed();
    FileStep(k, s, pending);
    if pending {
      FileWellFormed(k, s, false);
    } else {
      LineWellFormed(k, s, LeftEdge);
      var g := ReadLine(k, s, LeftEdge);
      if g.Got? {
        FileWellFormed(k, s[g.used..], g.pending);
      }
    }
  }

  lemma EmptyWellFormed()
    ensures WellFormed(Line([], true))
  {
  }

  // ---------------------------------------------------------- a form feed in column 0

  /** A form feed is read in column 0 of a line that has something on it. */
  predicate FeedsUnderText(k: Config, s: seq<byte>, p: Pen)
    requires Proper(k) && OnLine(p)
    decreases |s|
  {
    p.count < k.width && s != [] &&
    if s[0] == 12 then p.count == 0 && Trim(p.cells) != []
    else !Ends(k, s[0]) && var q := Stroke(k, p, s[0]); q.Some? && FeedsUnderText(k, s[1..], q.value)
  }

  predicate TextAtFormFeed(l: Line) { l.formfeed && l.cells != [] }

  lemma {:induction false} FeedsIff(k: Config, s: seq<byte>, p: Pen)
    requires Proper(k) && OnLine(p)
    ensures FeedsUnderText(k, s, p) <==>
            var g := ReadLine(k, s, p); g.Got? && TextAtFormFeed(g.line)
    decreases |s|
  {
    hide Trim, Stroke, Printable, SpacesPlain;
    if p.count < k.width && s != [] && !Ends(k, s[0]) {
      var q := Stroke(k, p, s[0]);
      if q.Some? {
        FeedsIff(k, s[1..], q.value);
      }
    }
  }

  /** Some line of the file is delivered together with its form feed. */
  predicate FileFeedsUnderText(k: Config, s: seq<byte>, pending: bool)
    requires Proper(k)
    decreases |s|, pending
  {
    if pending then FileFeedsUnderText(k, s, false)
    else
      var g := ReadLine(k, s, LeftEdge);
      g.Got? && (FeedsUnderText(k, s, LeftEdge) || FileFeedsUnderText(k, s[g.used..], g.pending))
  }

  lemma OneMoreLine(l: Line, rest: seq<Line>)
    ensures (exists i :: 0 <= i < |[l] + rest| && TextAtFormFeed(([l] + rest)[i])) <==>
            TextAtFormFeed(l) || exists i :: 0 <= i < |rest| && TextAtFormFeed(rest[i])
  {
    var all := [l] + rest;
    if TextAtFormFeed(l) {
      assert TextAtFormFeed(all[0]);
    }
    if i :| 0 <= i < |rest| && TextAtFormFeed(rest[i]) {
      assert TextAtFormFeed(all[i + 1]);
    }
  }

  lemma {:induction false} FileFeedsIff(k: Config, s: seq<byte>, pending: bool)
    requires Proper(k)
    ensures var d := ReadFile(k, s, pending);
            FileFeedsUnderText(k, s, pending) <==> exists i :: 0 <= i < |d.lines| && TextAtFormFeed(d.lines[i])
    decreases |s|, pending
  {
    hide ReadLine, ReadFile, FeedsUnderText, TextAtFormFeed;
    FileStep(k, s, pending);
    if pending {
      FileFeedsIff(k, s, false);
      NoTextThere();
      OneMoreLine(Line([], true), ReadFile(k, s, false).lines);
    } else {
      var g := ReadLine(k, s, LeftEdge);
      FeedsIff(k, s, LeftEdge);
      if g.Got? {
        FileFeedsIff(k, s[g.used..], g.pending);
        OneMoreLine(g.line, ReadFile(k, s[g.used..], g.pending).lines);
      }
    }
  }

  lemma NoTextThere()
    ensures !TextAtFormFeed(Line([], true))
  {
  }

  /** Bytes that are nothing but characters. */
  predicate Plain(s: seq<byte>) { forall i :: 0 <= i < |s| ==> Marks(s[i]) && s[i] != 9 }

  /** Plain characters on a line of their own: as many columns. */
  lemma {:induction false} PlainLine(k: Config, x: seq<byte>, rest: seq<byte>, p: Pen)
    requires Proper(k) && OnLine(p) && Plain(x) && p.count == |p.cells| && p.count + |x| < k.width
    ensures var q := Pen(p.cells + Typed(x), p.count + |x|);
            OnLine(q) && ReadLine(k, x + rest, p) == More(ReadLine(k, rest, q), |x|)
            && (FeedsUnderText(k, x + rest, p) <==> FeedsUnderText(k, rest, q))
    decreases |x|
  {
    hide Stroke, Trim, Typed, SpacesPlain, Printable, ReadLine, FeedsUnderText;
    TypedFirst(x);
    if x == [] {
      assert x + rest == rest && p.cells + [] == p.cells;
      NoMore(ReadLine(k, rest, p));
    } else {
      PlainStep(k, x[0], x[1..] + rest, p);
      var q := Pen(p.cells + [Cell(x[0] as char, false)], p.count + 1);
      PlainLine(k, x[1..], rest, q);
      assert [x[0]] + (x[1..] + rest) == x + rest;
      assert p.cells + ([Cell(x[0] as char, false)] + Typed(x[1..])) == q.cells + Typed(x[1..]);
      MoreMore(ReadLine(k, rest, Pen(q.cells + Typed(x[1..]), q.count + |x| - 1)), |x| - 1, 1);
    }
  }

  lemma NoMore(g: Got)
    ensures More(g, 0) == g
  {
  }

  lemma MoreMore(g: Got, m: nat, n: nat)
    ensures More(More(g, m), n) == More(g, m + n)
  {
  }

  lemma PlainStep(k: Config, c: byte, rest: seq<byte>, p: Pen)
    requires Proper(k) && OnLine(p) && Marks(c) && c != 9 && p.count == |p.cells| < k.width
    ensures var q := Pen(p.cells + [Cell(c as char, false)], p.count + 1);
            && OnLine(q) && ReadLine(k, [c] + rest, p) == More(ReadLine(k, rest, q), 1)
            && (FeedsUnderText(k, [c] + rest, p) <==> FeedsUnderText(k, rest, q))
  {
    OneTyped(k, p, c);
    hide Stroke, Trim, SpacesPlain, Printable;
    assert ([c] + rest)[0] == c && ([c] + rest)[1..] == rest;
  }

  function Typed(x: seq<byte>): Cells { seq(|x|, i requires 0 <= i < |x| => Cell(x[i] as char, false)) }

  lemma TypedFirst(x: seq<byte>)
    ensures Typed(x) == if x == [] then [] else [Cell(x[0] as char, false)] + Typed(x[1..])
  {
  }

  lemma OneTyped(k: Config, p: Pen, c: byte)
    requires Proper(k) && OnLine(p) && Marks(c) && c != 9 && p.count == |p.cells|
    ensures !Ends(k, c) && Stroke(k, p, c) == Some(Pen(p.cells + [Cell(c as char, false)], p.count + 1))
  {
    if c == 32 {
      assert Pad(p.cells, p.count + 1) == p.cells + [Cell(' ', false)];
    }
  }

  /** Any text that is not all spaces, a carriage return and a form feed: one line,
      delivered together with its form feed. */
  lemma ReturnThenFeed(k: Config, x: seq<byte>, rest: seq<byte>)
    requires Proper(k) && !k.autoLf && Plain(x) && 0 < |x| < k.width && x[|x| - 1] != 32
    ensures FeedsUnderText(k, x + [13, 12] + rest, LeftEdge)
    ensures ReadLine(k, x + [13, 12] + rest, LeftEdge) == Got(Line(Typed(x), true), |x| + 2, false)
  {
    var q := Pen(Typed(x), |x|);
    TypedKept(x);
    hide ReadLine, FeedsUnderText, Trim, Typed, Stroke;
    PlainLine(k, x, [13] + ([12] + rest), LeftEdge);
    hide OnLine;
    assert [] + Typed(x) == Typed(x);
    ReturnStep(k, [12] + rest, q);
    FeedStep(k, rest, q.(count := 0));
    ReturnAndFeed(x, rest);
  }

  lemma ReturnAndFeed(x: seq<byte>, rest: seq<byte>)
    ensures x + [13, 12] + rest == x + ([13] + ([12] + rest))
  {
  }

  lemma TypedKept(x: seq<byte>)
    requires x != [] && x[|x| - 1] != 32
    ensures Trim(Typed(x)) == Typed(x) && |Typed(x)| == |x|
  {
  }

  lemma ReturnStep(k: Config, rest: seq<byte>, p: Pen)
    requires Proper(k) && OnLine(p) && !k.autoLf && p.count < k.width
    ensures OnLine(p.(count := 0))
    ensures ReadLine(k, [13] + rest, p) == More(ReadLine(k, rest, p.(count := 0)), 1)
    ensures FeedsUnderText(k, [13] + rest, p) <==> FeedsUnderText(k, rest, p.(count := 0))
  {
    assert ([13] + rest)[0] == 13 && ([13] + rest)[1..] == rest;
    hide Trim, SpacesPlain, Printable;
  }

  lemma FeedStep(k: Config, rest: seq<byte>, p: Pen)
    requires Proper(k) && OnLine(p) && p.count < k.width
    ensures ReadLine(k, [12] + rest, p) == Got(Line(Trim(p.cells), p.count == 0), 1, p.count != 0)
    ensures FeedsUnderText(k, [12] + rest, p) <==> p.count == 0 && Trim(p.cells) != []
  {
    hide Trim, Stroke, SpacesPlain, Printable;
    assert ([12] + rest)[0] == 12;
  }

  /** The form feed alone: the line first, then the form feed. */
  lemma FeedAlone(k: Config, x: seq<byte>, rest: seq<byte>)
    requires Proper(k) && Plain(x) && 0 < |x| < k.width && x[|x| - 1] != 32
    ensures ReadLine(k, x + [12] + rest, LeftEdge) == Got(Line(Typed(x), false), |x| + 1, true)
  {
    var tail: seq<byte> := [12] + rest;
    assert x + [12] + rest == x + tail;
    PlainLine(k, x, tail, LeftEdge);
    assert [] + Typed(x) == Typed(x);
    TypedKept(x);
    hide ReadLine, FeedsUnderText, Trim, Typed, OnLine;
    FeedStep(k, rest, Pen(Typed(x), |x|));
  }
}

/** The line buffer itself. */
module LineReaderModel {
  import opened Bytes
  import opened LineBytes
  import opened LinePrinterModel
  import opened LineSheets
  import opened Options

  class LineReader {
    const autoLf: bool
    const MAX_WIDTH: nat
    const TAB_WIDTH: nat
    const input: seq<byte>
    var pos: nat

    const line: array<char>
    const lineAttr: array<bool>           // the ATTR_BOLD bit
    var formfeed: bool
    var formfeedPending: bool

    ghost function Settings(): Config { Config(autoLf, MAX_WIDTH, TAB_WIDTH) }

    ghost predicate Valid()
      reads `pos
    {
      && Proper(Settings()) && pos <= |input|
      && line.Length == MAX_WIDTH + TAB_WIDTH + 1 && lineAttr.Length == MAX_WIDTH + TAB_WIDTH
    }

    /** The buffer holds these characters, and zeros after them. */
    ghost predicate Holds(cells: Cells)
      reads line, lineAttr
    {
      && |cells| <= line.Length && |cells| <= lineAttr.Length
      && (forall i :: 0 <= i < |cells| ==> line[i] == cells[i].c && lineAttr[i] == cells[i].bold)
      && (forall i :: |cells| <= i < line.Length ==> line[i] == 0 as char)
      && (forall i :: |cells| <= i < lineAttr.Length ==> !lineAttr[i])
    }

    constructor (k: Config, input: seq<byte>)
      requires Proper(k)
      ensures Valid() && Settings() == k && this.input == input && pos == 0 && !formfeedPending
      ensures fresh(line) && fresh(lineAttr)
    {
      autoLf, MAX_WIDTH, TAB_WIDTH := k.autoLf, k.width, k.tab;
      this.input, pos, formfeed, formfeedPending := input, 0, false, false;
      line := new char[k.width + k.tab + 1];
      lineAttr := new bool[k.width + k.tab];
    }

    /** memset() */
    method Clear()
      modifies line, lineAttr
      ensures Valid() ==> Holds([])
    {
      forall i | 0 <= i < line.Length {
        line[i] := 0 as char;
      }
      forall i | 0 <= i < lineAttr.Length {
        lineAttr[i] := false;
      }
    }

    /** Advance over `x` columns, putting spaces where there is nothing. */
    method Advance(count0: nat, x: nat, ghost cells0: Cells) returns (count: nat, ghost cells: Cells)
      requires Holds(cells0) && count0 <= |cells0| && count0 + x <= lineAttr.Length <= line.Length
      requires Printable(cells0)
      modifies line
      ensures count == count0 + x && cells == Pad(cells0, count) && Holds(cells)
    {
      count, cells := count0, cells0;
      var left := x;
      while left > 0
        invariant 0 <= left <= x && count == count0 + x - left && count <= |cells|
        invariant cells == Pad(cells0, count) && Holds(cells)
      {
        Written(cells0, cells, count);
        if line[count] == 0 as char {
          line[count] := ' ';
          cells := cells + [Cell(' ', false)];
          assert cells == Pad(cells0, count + 1);
        }
        count := count + 1;
        left := left - 1;
      }
    }

    lemma Written(cells0: Cells, cells: Cells, count: nat)
      requires Holds(cells) && Printable(cells0) && cells == Pad(cells0, count) && count < line.Length
      ensures line[count] == 0 as char <==> count >= |cells|
    {
      assert count < |cells| ==> line[count] == cells[count].c && count < |cells0|;
    }

    /** Any other character: bold if it is there already. */
    method Strike(count: nat, c: char, ghost cells: Cells)
      requires Holds(cells) && count <= |cells| && count < lineAttr.Length <= line.Length && c > 0 as char
      modifies line, lineAttr
      ensures Holds(Put(cells, count, c))
    {
      if line[count] == c {
        lineAttr[count] := true;
      } else {
        line[count] := c;
      }
    }

    /** The end of readline_normal(): trailing spaces are taken off. */
    method TrimLine(maxcount0: nat, ghost cells: Cells) returns (maxcount: nat)
      requires Holds(cells) && maxcount0 == |cells|
      modifies line
      ensures maxcount == |Trim(cells)| && Holds(Trim(cells))
    {
      var count := maxcount0;
      maxcount := maxcount0;
      assert cells[..count] == cells;
      while count > 0 && line[count - 1] == ' ' && !lineAttr[count - 1]
        invariant 0 <= count == maxcount <= |cells| && Holds(cells[..count]) && Trim(cells) == Trim(cells[..count])
      {
        assert cells[..count][count - 1].c == ' ' && cells[..count][..count - 1] == cells[..count - 1];
        count := count - 1;
        line[count] := 0 as char;
        maxcount := count;
      }
    }

    /** One byte that does not end the line. Not `ok` if it goes left of the line. */
    method OneByte(c: byte, count0: int, ghost p: Pen) returns (count: int, ok: bool, ghost q: Pen)
      requires Valid() && Holds(p.cells) && OnLine(p) && count0 == p.count < MAX_WIDTH && !Ends(Settings(), c)
      requires |p.cells| < MAX_WIDTH + TAB_WIDTH
      modifies line, lineAttr
      ensures ok <==> Stroke(Settings(), p, c).Some?
      ensures ok ==> q == Stroke(Settings(), p, c).value && Holds(q.cells) && count == q.count && OnLine(q)
      ensures ok ==> |q.cells| < MAX_WIDTH + TAB_WIDTH
    {
      count, ok, q := count0, true, p;
      if c == 0 {
      } else if c == 8 {
        count := count - 1;
        q := p.(count := count);
      } else if c == 13 {
        count := 0;
        q := p.(count := 0);
      } else if count < 0 {
        ok := false;
      } else if c == 9 || c == 32 {
        var x := if c == 9 then TAB_WIDTH - count % TAB_WIDTH else 1;
        ghost var cells;
        count, cells := Advance(count, x, p.cells);
        q := Pen(cells, count);
      } else {
        Strike(count, c as char, p.cells);
        q := Pen(Put(p.cells, count, c as char), count + 1);
        count := count + 1;
      }
    }

    /** What the rest of the filter finds in the buffer, on the first `len` positions. */
    method Delivered(len: nat, ghost cells: Cells) returns (l: Line)
      requires Valid() && len == |cells| && (len > 0 ==> Holds(cells))
      ensures l == Line(cells, formfeed)
    {
      var got: Cells := [];
      var x := 0;
      while x < len
        invariant x <= len && got == cells[..x]
      {
        got := got + [Cell(line[x], lineAttr[x])];
        x := x + 1;
      }
      l := Line(got, formfeed);
    }

    /** readline_normal(): the length of the line in the buffer, or -1 at the end. */
    method ReadLine() returns (len: int, outside: bool, ghost got: Got)
      requires Valid()
      modifies `pos, `formfeed, `formfeedPending, line, lineAttr
      ensures Valid() && pos >= old(pos)
      ensures old(formfeedPending) ==> !formfeedPending && formfeed && len == 0 && !outside && pos == old(pos)
      ensures !old(formfeedPending) ==>
                && got == LineBytes.ReadLine(Settings(), input[old(pos)..], LeftEdge)
                && (outside <==> got.Outside?) && (!outside ==> (len == -1 <==> got.EndOfFile?))
                && (got.Got? ==>
                      && len == |got.line.cells| && Holds(got.line.cells) && formfeed == got.line.formfeed
                      && formfeedPending == got.pending && pos == old(pos) + got.used)
                && (!got.Got? ==> !formfeedPending)
    {
      formfeed := false;
      if formfeedPending {
        formfeedPending, formfeed := false, true;
        return 0, false, EndOfFile;
      }
      Clear();
      len, outside, got := LineLoop();
    }

    method LineLoop() returns (len: int, outside: bool, ghost got: Got)
      requires Valid() && Holds([]) && !formfeed && !formfeedPending
      modifies `pos, `formfeed, `formfeedPending, line, lineAttr
      ensures Valid() && pos >= old(pos)
      ensures got == LineBytes.ReadLine(Settings(), input[old(pos)..], LeftEdge)
      ensures (outside <==> got.Outside?) && (!outside ==> (len == -1 <==> got.EndOfFile?))
      ensures got.Got? ==>
                && len == |got.line.cells| && Holds(got.line.cells) && formfeed == got.line.formfeed
                && formfeedPending == got.pending && pos == old(pos) + got.used
      ensures !got.Got? ==> !formfeedPending
    {
      hide LineBytes.ReadLine, Stroke, Trim, Holds, OnLine;
      ghost var start := pos;
      LeftEdgeOnLine();
      got := LineBytes.ReadLine(Settings(), input[pos..], LeftEdge);
      ghost var p, g := LeftEdge, got;
      NoMore(got);
      var count, maxcount := 0, 0;
      len, outside := 0, false;
      while true
        invariant Valid() && start <= pos && !formfeed && !formfeedPending
        invariant OnLine(p) && Holds(p.cells) && p.count == count && |p.cells| < MAX_WIDTH + TAB_WIDTH
        invariant maxcount <= |p.cells| && (if count > maxcount then count else maxcount) == |p.cells|
        invariant g == LineBytes.ReadLine(Settings(), input[pos..], p) && got == More(g, pos - start)
        decreases |input| - pos
      {
        LineStep(input[pos..], p);
        if count > maxcount {
          maxcount := count;
        }
        if count >= MAX_WIDTH {
          len := TrimLine(maxcount, p.cells);
          return;
        }
        if pos == |input| {
          if maxcount == 0 {
            len := -1;
            return;
          }
          len := TrimLine(maxcount, p.cells);
          return;
        }
        var c := input[pos];
        assert input[pos..][0] == c && input[pos..][1..] == input[pos + 1..];
        pos := pos + 1;
        if c == 12 {
          if count != 0 {
            formfeedPending := true;
          } else {
            formfeed := true;
          }
          len := TrimLine(maxcount, p.cells);
          return;
        }
        if c == 10 || (c == 13 && autoLf) {
          len := TrimLine(maxcount, p.cells);
          return;
        }
        var ok;
        ghost var q;
        count, ok, q := OneByte(c, count, p);
        if !ok {
          outside := true;
          return;
        }
        KeptLength(p, c, q);
        p, g := q, LineBytes.ReadLine(Settings(), input[pos..], q);
      }
    }

    lemma LeftEdgeOnLine()
      ensures OnLine(LeftEdge) && LeftEdge == Pen([], 0)
    {
    }

    /** maxcount is the length of the line, once it has caught up. */
    lemma KeptLength(p: Pen, c: byte, q: Pen)
      requires Valid() && OnLine(p) && !Ends(Settings(), c) && Stroke(Settings(), p, c) == Some(q)
      ensures |q.cells| == if q.count > |p.cells| then q.count else |p.cells|
    {
    }

    /** ReadLine, unfolded once. */
    lemma LineStep(s: seq<byte>, p: Pen)
      requires Valid() && OnLine(p)
      ensures LineBytes.ReadLine(Settings(), s, p) ==
              if p.count >= MAX_WIDTH then Got(Line(Trim(p.cells), false), 0, false)
              else if s == [] then if p.cells == [] then EndOfFile else Got(Line(Trim(p.cells), false), 0, false)
              else if s[0] == 12 then Got(Line(Trim(p.cells), p.count == 0), 1, p.count != 0)
              else if Ends(Settings(), s[0]) then Got(Line(Trim(p.cells), false), 1, false)
              else
                var q := Stroke(Settings(), p, s[0]);
                if q.None? then Outside else More(LineBytes.ReadLine(Settings(), s[1..], q.value), 1)
    {
      hide Trim, Stroke;
    }
  }

  /** readline() called until it returns -1: the lines, and whether the file could be
      read to its end. */
  method ReadLines(k: Config, file: seq<byte>) returns (lines: seq<Line>, whole: bool)
    requires Proper(k)
    ensures Document(lines, whole) == ReadFile(k, file, false)
  {
    hide LineBytes.ReadLine, LineReader.Holds, ReadFile;
    var r := new LineReader(k, file);
    assert file[0..] == file;
    lines, whole := [], true;
    while true
      invariant r.Valid() && r.Settings() == k && r.input == file && fresh(r.line) && fresh(r.lineAttr) && fresh(r)
      invariant ReadFile(k, file, false) == Before(lines, ReadFile(k, file[r.pos..], r.formfeedPending))
      decreases |file| - r.pos, r.formfeedPending
    {
      FileStep(k, file[r.pos..], r.formfeedPending);
      ghost var was := r.pos;
      var len, outside;
      ghost var got;
      ghost var pending := r.formfeedPending;
      len, outside, got := r.ReadLine();
      if outside {
        assert Before(lines, Document([], false)) == Document(lines + [], false);
        whole := false;
        return;
      }
      if len < 0 {
        assert Before(lines, Document([], true)) == Document(lines + [], true);
        return;
      }
      var line := r.Delivered(len, if pending then [] else got.line.cells);
      assert pending ==> line == Line([], true);
      Append(lines, line, ReadFile(k, file[r.pos..], r.formfeedPending));
      lines := lines + [line];
      if !pending {
        assert file[was..][got.used..] == file[r.pos..];
      }
    }
  }
}

// What each byte does to a line (filter_lp/filter_lp.c, readline_normal()), and what two
// passes over the same columns make of it.

module LineStrokes {
  import opened Bytes
  import opened LineBytes
  import opened LinePrinterModel
  import opened LineSheets
  import opened Options

  /** `[c] + rest` is read at `p` as `rest` is at `q`. */
  ghost predicate Steps(k: Config, c: byte, p: Pen, q: Pen)
    requires Proper(k) && OnLine(p)
  {
    OnLine(q) && forall rest :: ReadLine(k, [c] + rest, p) == More(ReadLine(k, rest, q), 1)
  }

  lemma OneStroke(k: Config, c: byte, p: Pen)
    requires Proper(k) && OnLine(p) && p.count < k.width && !Ends(k, c) && Stroke(k, p, c).Some?
    ensures Steps(k, c, p, Stroke(k, p, c).value)
  {
    hide Stroke, OnLine, Trim;
    forall rest
      ensures ReadLine(k, [c] + rest, p) == More(ReadLine(k, rest, Stroke(k, p, c).value), 1)
    {
      assert ([c] + rest)[0] == c && ([c] + rest)[1..] == rest;
    }
  }

  /** A tab goes to the next multiple of the tab width, over what is there, with spaces
      where there is nothing. */
  lemma TabStep(k: Config, p: Pen, stop: nat) returns (q: Pen)
    requires Proper(k) && OnLine(p) && 0 <= p.count < k.width
    requires stop % k.tab == 0 && p.count < stop <= p.count + k.tab
    ensures Steps(k, 9, p, q) && q.count == stop
    ensures p.cells <= q.cells && |q.cells| == if stop > |p.cells| then stop else |p.cells|
    ensures forall i :: |p.cells| <= i < |q.cells| ==> q.cells[i] == Cell(' ', false)
  {
    NextStop(p.count, k.tab, stop);
    q := Stroke(k, p, 9).value;
    OneStroke(k, 9, p);
  }

  lemma NextStop(count: nat, tab: nat, stop: nat)
    requires tab > 0 && stop % tab == 0 && count < stop <= count + tab
    ensures count + tab - count % tab == stop
  {
    var a, b, r := count / tab, stop / tab, count % tab;
    DivMod(count, tab);
    DivMod(stop, tab);
    Monotone(tab, b, a);
    Monotone(tab, a + 2, b);
    Distributes(tab, a);
  }

  lemma DivMod(n: nat, tab: nat)
    requires tab > 0
    ensures n == tab * (n / tab) + n % tab && n % tab < tab
  {
  }

  lemma Distributes(t: nat, a: int)
    ensures t * (a + 1) == t * a + t && t * (a + 2) == t * a + t + t
  {
  }

  lemma Monotone(t: nat, a: int, b: int)
    ensures a <= b ==> t * a <= t * b
  {
  }

  /** A space moves on, over what is there. */
  lemma SpaceStep(k: Config, p: Pen) returns (q: Pen)
    requires Proper(k) && OnLine(p) && 0 <= p.count < k.width
    ensures Steps(k, 32, p, q) && q.count == p.count + 1
    ensures q.cells == if p.count == |p.cells| then p.cells + [Cell(' ', false)] else p.cells
  {
    q := Stroke(k, p, 32).value;
    OneStroke(k, 32, p);
  }

  /** Another character takes the place of what is there and keeps its weight; the same
      character becomes bold. */
  lemma CharacterStep(k: Config, p: Pen, c: byte) returns (q: Pen)
    requires Proper(k) && OnLine(p) && 0 <= p.count < k.width && c !in {0, 8, 9, 10, 12, 13, 32, 95}
    ensures Steps(k, c, p, q) && q.count == p.count + 1
    ensures |q.cells| == if p.count == |p.cells| then |p.cells| + 1 else |p.cells|
    ensures forall i :: 0 <= i < |p.cells| && i != p.count ==> q.cells[i] == p.cells[i]
    ensures q.cells[p.count].c == c as char
    ensures q.cells[p.count].bold <==>
      p.count < |p.cells| && (p.cells[p.count].bold || p.cells[p.count].c == c as char)
  {
    q := Stroke(k, p, c).value;
    OneStroke(k, c, p);
  }

  /** Backspaces and carriage returns move only, and zeros do nothing. */
  lemma MovingSteps(k: Config, p: Pen)
    requires Proper(k) && OnLine(p) && p.count < k.width
    ensures Steps(k, 0, p, p) && Steps(k, 8, p, Pen(p.cells, p.count - 1))
    ensures !k.autoLf ==> Steps(k, 13, p, Pen(p.cells, 0))
  {
    OneStroke(k, 0, p);
    OneStroke(k, 8, p);
    if !k.autoLf {
      OneStroke(k, 13, p);
    }
  }

  /** Left of the line there is nothing to put a character on. */
  lemma LeftOfLine(k: Config, p: Pen, c: byte, rest: seq<byte>)
    requires Proper(k) && OnLine(p) && p.count < 0 && c !in {0, 8, 10, 12, 13}
    ensures ReadLine(k, [c] + rest, p) == Outside
  {
    hide Trim, OnLine;
    assert ([c] + rest)[0] == c;
  }

  // ------------------------------------------------------------------ the end of a line

  /** All of a line but the spaces at its end. */
  ghost predicate Kept(cells: Cells, r: Cells) {
    && r <= cells && (r != [] ==> r[|r| - 1].c != ' ')
    && forall i :: |r| <= i < |cells| ==> cells[i].c == ' '
  }

  lemma {:induction false} TrimKeeps(cells: Cells)
    requires SpacesPlain(cells)
    ensures Kept(cells, Trim(cells))
  {
    if cells != [] {
      var n := |cells| - 1;
      assert cells[n].c == ' ' ==> !cells[n].bold;
      if cells[n].c == ' ' {
        assert forall i :: 0 <= i < n ==> cells[..n][i] == cells[i];
        TrimKeeps(cells[..n]);
      }
    }
  }

  /** A line ends after its last column, at a line feed, a form feed, at a carriage return
      if that stands for both, or with the file, and comes without the spaces at its end. */
  lemma LineEnds(k: Config, p: Pen, s: seq<byte>) returns (r: Cells)
    requires Proper(k) && OnLine(p)
    requires p.count >= k.width || s == [] || s[0] in {10, 12} || (s[0] == 13 && k.autoLf)
    ensures Kept(p.cells, r)
    ensures p.count >= k.width ==> ReadLine(k, s, p) == Got(Line(r, false), 0, false)
    ensures p.count < k.width && s == [] ==>
      ReadLine(k, s, p) == if p.cells == [] then EndOfFile else Got(Line(r, false), 0, false)
    ensures p.count < k.width && s != [] ==>
      ReadLine(k, s, p) == if s[0] == 12 && p.count == 0 then Got(Line(r, true), 1, false)
                           else Got(Line(r, false), 1, s[0] == 12)
  {
    TrimKeeps(p.cells);
    r := Trim(p.cells);
  }

  // ------------------------------------------------------------------------ overstriking

  /** Text printed over itself: bold, but for its spaces. */
  function Overstruck(x: seq<byte>, n: nat): (cells: Cells)
    requires n <= |x|
    ensures |cells| == |x| && forall i :: 0 <= i < |x| ==> cells[i] == Cell(x[i] as char, i < n && x[i] != 32)
  {
    seq(|x|, i requires 0 <= i < |x| => Cell(x[i] as char, i < n && x[i] != 32))
  }

  lemma {:induction false} SecondTime(k: Config, x: seq<byte>, n: nat, rest: seq<byte>)
    requires Proper(k) && Plain(x) && 95 !in x && n <= |x| < k.width
    ensures OnLine(Pen(Overstruck(x, n), n)) && OnLine(Pen(Overstruck(x, |x|), |x|))
    ensures ReadLine(k, x[n..] + rest, Pen(Overstruck(x, n), n)) ==
            More(ReadLine(k, rest, Pen(Overstruck(x, |x|), |x|)), |x| - n)
    decreases |x| - n
  {
    var p := Pen(Overstruck(x, n), n);
    hide *;
    StruckOnLine(x, n);
    StruckOnLine(x, |x|);
    if n == |x| {
      assert x[n..] + rest == rest;
      NoMore(ReadLine(k, rest, p));
    } else {
      var q := StruckOnce(k, x, n);
      assert x[n..] + rest == [x[n]] + (x[n + 1..] + rest);
      SecondTime(k, x, n + 1, rest);
      MoreMore(ReadLine(k, rest, Pen(Overstruck(x, |x|), |x|)), |x| - n - 1, 1);
      SteppedOn(k, x[n], p, q, x[n + 1..] + rest);
    }
  }

  lemma SteppedOn(k: Config, c: byte, p: Pen, q: Pen, rest: seq<byte>)
    requires Proper(k) && OnLine(p) && Steps(k, c, p, q)
    ensures OnLine(q) && ReadLine(k, [c] + rest, p) == More(ReadLine(k, rest, q), 1)
  {
  }

  lemma StruckOnce(k: Config, x: seq<byte>, n: nat) returns (q: Pen)
    requires Proper(k) && Plain(x) && 95 !in x && n < |x| < k.width
    ensures OnLine(Pen(Overstruck(x, n), n)) && q == Pen(Overstruck(x, n + 1), n + 1)
    ensures Steps(k, x[n], Pen(Overstruck(x, n), n), q)
  {
    var p := Pen(Overstruck(x, n), n);
    StruckOnLine(x, n);
    hide OnLine, ReadLine, Stroke, Steps;
    assert Marks(x[n]) && x[n] != 9 && x[n] != 95;
    if x[n] == 32 {
      q := SpaceStep(k, p);
    } else {
      q := CharacterStep(k, p, x[n]);
    }
    assert q.cells == Overstruck(x, n + 1);
  }

  lemma StruckOnLine(x: seq<byte>, n: nat)
    requires Plain(x) && n <= |x|
    ensures OnLine(Pen(Overstruck(x, n), n))
  {
  }

  /** A line printed, and printed over once more after a carriage return, is bold. */
  lemma PrintedTwice(k: Config, x: seq<byte>, rest: seq<byte>)
    requires Proper(k) && !k.autoLf && Plain(x) && 95 !in x && 0 < |x| < k.width && x[|x| - 1] != 32
    ensures ReadLine(k, x + [13] + x + [10] + rest, LeftEdge) ==
            Got(Line(Overstruck(x, |x|), false), 2 * |x| + 2, false)
  {
    hide *;
    var once := Pen(Typed(x), |x|);
    var tail: seq<byte> := [10] + rest;
    Joined(x, rest);
    TypedIsStruck(x);
    LeftEdgeFits();
    PlainLine(k, x, [13] + (x + tail), LeftEdge);
    ReturnStep(k, x + tail, once);
    SecondLine(k, x, rest);
    GotMores(Line(Overstruck(x, |x|), false), |x|);
  }

  lemma Joined(x: seq<byte>, rest: seq<byte>)
    ensures x + [13] + x + [10] + rest == x + ([13] + (x + ([10] + rest)))
  {
  }

  lemma SecondLine(k: Config, x: seq<byte>, rest: seq<byte>)
    requires Proper(k) && Plain(x) && 95 !in x && 0 < |x| < k.width && x[|x| - 1] != 32
    ensures OnLine(Pen(Typed(x), 0))
    ensures ReadLine(k, x + ([10] + rest), Pen(Typed(x), 0)) == More(Got(Line(Overstruck(x, |x|), false), 1, false), |x|)
  {
    hide *;
    TypedIsStruck(x);
    SecondTime(k, x, 0, [10] + rest);
    Struck(k, x, rest);
    assert x[0..] == x && Pen(Typed(x), 0) == Pen(Overstruck(x, 0), 0);
  }

  lemma GotMores(l: Line, n: nat)
    ensures More(More(More(Got(l, 1, false), n), 1), n) == Got(l, 2 * n + 2, false)
  {
  }

  lemma GotMore(l: Line, n: nat)
    ensures More(Got(l, 1, false), n) == Got(l, n + 1, false)
  {
  }

  lemma LeftEdgeFits()
    ensures OnLine(LeftEdge) && LeftEdge.count == 0 == |LeftEdge.cells|
  {
  }

  lemma TypedIsStruck(x: seq<byte>)
    ensures LeftEdge.cells + Typed(x) == Typed(x) == Overstruck(x, 0) && |Typed(x)| == |x|
  {
  }

  lemma Struck(k: Config, x: seq<byte>, rest: seq<byte>)
    requires Proper(k) && Plain(x) && 0 < |x| < k.width && x[|x| - 1] != 32
    ensures OnLine(Pen(Overstruck(x, |x|), |x|))
    ensures ReadLine(k, [10] + rest, Pen(Overstruck(x, |x|), |x|)) == Got(Line(Overstruck(x, |x|), false), 1, false)
  {
    var cells := Overstruck(x, |x|);
    StruckOnLine(x, |x|);
    hide ReadLine, OnLine;
    assert ([10] + rest)[0] == 10;
    var r := LineEnds(k, Pen(cells, |x|), [10] + rest);
    assert cells[|x| - 1].c != ' ';
  }

  // ------------------------------------------------------------------ line after line

  /** The first line of a file that ends with a line feed, and the rest of the file. */
  lemma TextThenLineFeed(k: Config, x: seq<byte>, rest: seq<byte>)
    requires Proper(k) && Plain(x) && 0 < |x| < k.width && x[|x| - 1] != 32
    ensures var d, e := ReadFile(k, x + [10] + rest, false), ReadFile(k, rest, false);
      d.lines == [Line(Typed(x), false)] + e.lines && d.whole == e.whole
  {
    var s := x + [10] + rest;
    FeedLine(k, x, rest);
    FileStep(k, s, false);
    hide *;
    assert s[|x| + 1..] == rest;
  }

  lemma FeedLine(k: Config, x: seq<byte>, rest: seq<byte>)
    requires Proper(k) && Plain(x) && 0 < |x| < k.width && x[|x| - 1] != 32
    ensures ReadLine(k, x + [10] + rest, LeftEdge) == Got(Line(Typed(x), false), |x| + 1, false)
  {
    hide *;
    var tail: seq<byte> := [10] + rest;
    LeftEdgeFits();
    PlainLine(k, x, tail, LeftEdge);
    TypedIsStruck(x);
    StruckPlain(k, x, rest);
    assert x + [10] + rest == x + tail;
    GotMore(Line(Typed(x), false), |x|);
  }

  lemma StruckPlain(k: Config, x: seq<byte>, rest: seq<byte>)
    requires Proper(k) && Plain(x) && 0 < |x| < k.width && x[|x| - 1] != 32
    ensures OnLine(Pen(Typed(x), |x|))
    ensures ReadLine(k, [10] + rest, Pen(Typed(x), |x|)) == Got(Line(Typed(x), false), 1, false)
  {
    StruckOnLine(x, 0);
    assert Typed(x) == Overstruck(x, 0);
    hide ReadLine, OnLine;
    assert ([10] + rest)[0] == 10;
    var r := LineEnds(k, Pen(Typed(x), |x|), [10] + rest);
    assert Typed(x)[|x| - 1].c != ' ';
  }

  /** A line and a form feed: the line, and then an empty one with the form feed. */
  lemma TextThenFormFeed(k: Config, x: seq<byte>, rest: seq<byte>)
    requires Proper(k) && Plain(x) && 0 < |x| < k.width && x[|x| - 1] != 32
    ensures var d, e := ReadFile(k, x + [12] + rest, false), ReadFile(k, rest, false);
      d.lines == [Line(Typed(x), false), Line([], true)] + e.lines && d.whole == e.whole
  {
    var s := x + [12] + rest;
    FeedAlone(k, x, rest);
    FileStep(k, s, false);
    FileStep(k, rest, true);
    hide *;
    assert s[|x| + 1..] == rest;
  }
}

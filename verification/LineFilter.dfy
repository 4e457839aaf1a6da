// filter_lp as a whole: measure the document, choose a layout, print it.

module LineFilter {
  import opened Bytes
  import opened LineBytes
  import opened LineReaderModel
  import opened PostScript
  import opened LineMachine
  import opened LinePrinterModel
  import opened LineSheets
  import opened LineMeasure
  import opened LinePrinting

  /** Every line of the document with something on it. */
  function AllText(s: seq<Line>): seq<Cells> {
    if s == [] then []
    else AllText(s[..|s| - 1]) + if s[|s| - 1].cells == [] then [] else [s[|s| - 1].cells]
  }

  /** Both lists grow together until a form feed carries text. */
  lemma {:induction false} LostLines(s: seq<Line>)
    ensures |Lines(s)| <= |AllText(s)|
    ensures if exists i :: 0 <= i < |s| && TextAtFormFeed(s[i]) then |Lines(s)| < |AllText(s)|
            else Lines(s) == AllText(s)
    decreases |s|
  {
    if s != [] {
      var k := |s| - 1;
      LostLines(s[..k]);
      assert (exists i :: 0 <= i < |s| && TextAtFormFeed(s[i])) <==>
             (exists i :: 0 <= i < k && TextAtFormFeed(s[..k][i])) || TextAtFormFeed(s[k]) by {
        if i :| 0 <= i < |s| && TextAtFormFeed(s[i]) { if i < k { assert TextAtFormFeed(s[..k][i]); } }
        if i :| 0 <= i < k && TextAtFormFeed(s[..k][i]) { assert TextAtFormFeed(s[i]); }
      }
    }
  }

  /** Every non-blank line of the document is printed, once and in order, if and
      only if none comes together with a form feed, as the last line of a page
      does when a carriage return precedes the form feed. */
  lemma EveryLinePrinted(s: seq<Line>, f: Findings, l: Limits)
    requires Measured(s, f) && forall i :: 0 <= i < |s| ==> WellFormed(s[i])
    ensures Printed(s, Choose(f, l)) == AllText(s) <==> !exists i :: 0 <= i < |s| && TextAtFormFeed(s[i])
  {
    ChosenLayoutFits(s, f, l);
    EveryLineOnce(s, Choose(f, l));
    LostLines(s);
  }

  /** A line of text, a carriage return and a form feed, wherever in the file the line
      begins: the line is lost. */
  lemma CarriageReturnFormFeedLoses(k: Config, x: seq<byte>, rest: seq<byte>, f: Findings, l: Limits)
    requires Proper(k) && !k.autoLf && LineBytes.Plain(x) && 0 < |x| < k.width && x[|x| - 1] != 32
    ensures var s := ReadFile(k, x + [13, 12] + rest, false).lines;
            Measured(s, f) ==> Printed(s, Choose(f, l)) != AllText(s)
  {
    var file := x + [13, 12] + rest;
    var s := ReadFile(k, file, false).lines;
    ReturnThenFeed(k, x, rest);
    FileFeedsIff(k, file, false);
    FileWellFormed(k, file, false);
    hide ReadFile, LineBytes.ReadLine, WellFormed, Measured;
    if Measured(s, f) {
      EveryLinePrinted(s, f, l);
    }
  }

  /** No printed line has an octal escape that runs into a digit. */
  predicate Legible(lines: seq<Line>, left: nat) { AllGood(Lines(lines), left) }

  /** Both passes. The pages an interpreter makes of the output are the pages the
      layout calls for, holding the document's lines once each and in order. */
  method Filter(lines: seq<Line>, l: Limits, eighth: bool) returns (p: LinePrinter, d: Layout, trailer: string)
    requires forall i :: 0 <= i < |lines| ==> WellFormed(lines[i])
    ensures exists f :: Measured(lines, f) && d == Choose(f, l)
    ensures Suits(lines, l, d)
    ensures Interp(p.out).ok
    ensures Interp(p.out).pages == Pages(lines, d, 1) <==> Legible(lines, d.left)
    ensures Printed(lines, d) == Lines(lines)
    ensures trailer == "%%Trailer\n%%Pages: " + Decimal(|Interp(p.out).pages|) + "\n%%EOF\n"
  {
    var f := Pass1(lines);
    d := Choose(f, l);
    ChosenLayoutFits(lines, f, l);
    ChosenLayoutSuits(lines, f, l);
    hide Suits, Fits;
    EveryLineOnce(lines, d);
    p := new LinePrinter(eighth);
    trailer := Pass2(p, lines, d);
  }

  /** The filter on a file without underscores: if it can be read, every line of it with
      something on it is printed, once and in order, if and only if no form feed is read
      in column 0 of such a line. */
  method FilterFile(file: seq<byte>, k: Config, l: Limits, eighth: bool)
      returns (p: LinePrinter?, d: Layout, trailer: string)
    requires Proper(k) && 95 !in file
    ensures var doc := ReadFile(k, file, false);
            && (p == null <==> !doc.whole)
            && (p != null ==>
                  && Suits(doc.lines, l, d) && Interp(p.out).ok
                  && (Interp(p.out).pages == Pages(doc.lines, d, 1) <==> Legible(doc.lines, d.left))
                  && (Printed(doc.lines, d) == AllText(doc.lines) <==> !FileFeedsUnderText(k, file, false))
                  && trailer == "%%Trailer\n%%Pages: " + Decimal(|Interp(p.out).pages|) + "\n%%EOF\n")
  {
    d, trailer := Layout(0, 0, 0), "";
    var lines, whole := ReadLines(k, file);
    if !whole {
      return null, d, trailer;
    }
    FileWellFormed(k, file, false);
    FileFeedsIff(k, file, false);
    hide ReadFile, FileFeedsUnderText, Suits, WellFormed, Measured, Legible, Pages, Interp, Decimal;
    p, d, trailer := Filter(lines, l, eighth);
    ghost var f :| Measured(lines, f) && d == Choose(f, l);
    EveryLinePrinted(lines, f, l);
  }

  /** A bell and a digit: the escape for the bell takes the digit in. */
  lemma BellThenDigit()
    ensures var lines := [Line([Cell(7 as char, false), Cell('1', false)], false)]; !Legible(lines, 0)
  {
    var cells := [Cell(7 as char, false), Cell('1', false)];
    var lines := [Line(cells, false)];
    assert lines[..0] == [] && Lines(lines[..0]) == [];
    assert Lines(lines) == [cells];
    assert cells[0..] == cells && BadAt(cells, 1);
    assert !GoodUpTo(cells, 2);
    assert Lines(lines)[0] == cells;
  }
}

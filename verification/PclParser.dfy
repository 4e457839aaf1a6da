// The PCL parser (filter_pcl/PCLparse.java): what commands it makes of a stream, and
// that combined escape sequences mean what the separate ones do.

module PclParser {
  import opened Bytes

  const ESC := 27

  /** What the parser does, in order. A command that carries raster data reads it. */
  datatype Event =
    | Control(c: byte)
    | Printable(c: byte)
    | SimpleEsc(c: byte)
    | Command(parameterized: byte, group: byte, thousandths: int, parameter: int)
    | RasterData(bytes: seq<byte>)
    | Misterminated

  /** How parsing ends: at the end of the stream, in the middle of an escape sequence,
      or dividing by a value of zero. */
  datatype End = Complete | EofInEscape | DividedByZero

  datatype Parse = Parse(events: seq<Event>, end: End)

  predicate IsDigit(c: byte) { 48 <= c <= 57 }

  predicate IsGroup(c: byte) { 96 <= c <= 126 }

  predicate IsLast(c: byte) { 64 <= c <= 94 }

  // ------------------------------------------------------------------- numerals

  function DigitCount(s: seq<byte>): (n: nat)
    ensures n <= |s| && (n < |s| ==> !IsDigit(s[n]))
    ensures forall i :: 0 <= i < n ==> IsDigit(s[i])
  {
    if s != [] && IsDigit(s[0]) then 1 + DigitCount(s[1..]) else 0
  }

  function SignCount(s: seq<byte>): (n: nat)
    ensures n <= |s|
  {
    if s != [] && (s[0] == 43 || s[0] == 45) then 1 else 0
  }

  /** How long an unsigned numeral is: digits, a point and digits, all of which may be
      missing. */
  function UnsignedCount(s: seq<byte>): (n: nat)
    ensures n <= |s|
  {
    var p := DigitCount(s);
    if p < |s| && s[p] == 46 then p + 1 + DigitCount(s[p + 1..]) else p
  }

  function NumeralCount(s: seq<byte>): (n: nat)
    ensures n <= |s|
  {
    SignCount(s) + UnsignedCount(s[SignCount(s)..])
  }

  predicate AllDigits(s: seq<byte>) { forall i :: 0 <= i < |s| ==> IsDigit(s[i]) }

  function Whole(s: seq<byte>): nat
    requires AllDigits(s)
  {
    if s == [] then 0 else
      assert IsDigit(s[|s| - 1]);
      Whole(s[..|s| - 1]) * 10 + (s[|s| - 1] as int - 48)
  }

  /** Digits padded with zeros, or cut off, to three places. */
  function ThreePlaces(s: seq<byte>): seq<byte> {
    if |s| >= 3 then s[..3] else s + seq(3 - |s|, _ => 48)
  }

  /** The value of an unsigned numeral in thousandths, what is beyond them cut off. */
  function Unsigned(s: seq<byte>): nat
    requires UnsignedCount(s) == |s|
  {
    var p := DigitCount(s);
    if p == |s| then
      assert AllDigits(s);
      Whole(s + [48, 48, 48])
    else
      assert AllDigits(s[p + 1..]) && AllDigits(s[..p]);
      Whole(s[..p] + ThreePlaces(s[p + 1..]))
  }

  function Thousandths(s: seq<byte>): int
    requires NumeralCount(s) == |s|
  {
    if s != [] && s[0] == 45 then 0 - (Unsigned(s[1..]) as int) else Unsigned(s[SignCount(s)..])
  }

  lemma {:induction false} DigitsConcat(a: seq<byte>, b: seq<byte>)
    ensures DigitCount(a + b) == if DigitCount(a) < |a| then DigitCount(a) else |a| + DigitCount(b)
  {
    if a == [] {
      assert a + b == b;
    } else {
      assert (a + b)[1..] == a[1..] + b;
      DigitsConcat(a[1..], b);
    }
  }

  /** A numeral ends where something else begins. */
  lemma UnsignedThen(a: seq<byte>, b: seq<byte>)
    requires UnsignedCount(a) == |a| && b != [] && b[0] >= 64
    ensures UnsignedCount(a + b) == |a|
  {
    DigitsConcat(a, b);
    assert DigitCount(b) == 0;
    var p := DigitCount(a);
    if p < |a| {
      assert (a + b)[p + 1..] == a[p + 1..] + b;
      DigitsConcat(a[p + 1..], b);
    }
  }

  lemma NumeralThen(a: seq<byte>, b: seq<byte>)
    requires NumeralCount(a) == |a| && b != [] && b[0] >= 64
    ensures NumeralCount(a + b) == |a| && (a + b)[..|a|] == a && (a + b)[|a|..] == b
  {
    hide UnsignedCount;
    var w := SignCount(a);
    assert SignCount(a + b) == w by { if a != [] { assert (a + b)[0] == a[0]; } }
    assert (a + b)[w..] == a[w..] + b;
    UnsignedThen(a[w..], b);
  }

  lemma DigitsAlone(s: seq<byte>)
    ensures DigitCount(s[..DigitCount(s)]) == DigitCount(s)
  {
    hide DigitCount;
    var k := DigitCount(s);
    DigitsConcat(s[..k], s[k..]);
    assert s[..k] + s[k..] == s;
  }

  lemma PointCount(d: seq<byte>, f: seq<byte>)
    requires DigitCount(d) == |d| && DigitCount(f) == |f|
    ensures var t := d + ([46] + f); DigitCount(t) == |d| && UnsignedCount(t) == |t| && t[..|d|] == d && t[|d| + 1..] == f
  {
    var t := d + ([46] + f);
    DigitsConcat(d, [46] + f);
    assert DigitCount([46] + f) == 0;
    assert t[..|d|] == d && t[|d| + 1..] == f;
  }

  lemma UnsignedAlone(s: seq<byte>)
    ensures UnsignedCount(s[..UnsignedCount(s)]) == UnsignedCount(s)
  {
    hide DigitCount;
    var n, p := UnsignedCount(s), DigitCount(s);
    DigitsAlone(s);
    if p < n {
      var f := s[p + 1..];
      DigitsAlone(f);
      hide UnsignedCount;
      PointCount(s[..p], f[..n - p - 1]);
      assert s[..n] == s[..p] + ([46] + f[..n - p - 1]);
    }
  }

  lemma NumeralAlone(s: seq<byte>)
    ensures NumeralCount(s[..NumeralCount(s)]) == NumeralCount(s)
  {
    hide UnsignedCount;
    var w := SignCount(s);
    UnsignedAlone(s[w..]);
    var t := s[..NumeralCount(s)];
    assert t[w..] == s[w..][..UnsignedCount(s[w..])];
    assert SignCount(t) == w by { if t != [] { assert t[0] == s[0]; } }
  }

  // ------------------------------------------------------------------- commands

  predicate IsRaster(p: byte, g: byte, c: int) { p == 42 && g == 98 && c == 87 }

  predicate Divides(p: byte, g: byte, c: int) { (p == 38 && g == 108 && c == 68) || (p == 40 && g == 115 && c == 72) }

  /** `while(value > 0) { read; value -= 1000; }` */
  function DataCount(thousandths: int): nat {
    if thousandths > 0 then (thousandths + 999) / 1000 else 0
  }

  /** One command, and the bytes it reads. */
  datatype Done = Done(events: seq<Event>, used: nat, end: End)

  function Execute(p: byte, g: byte, v: int, c: int, s: seq<byte>): (r: Done)
    ensures r.used <= |s|
  {
    var command := Command(p, g, v, c);
    if Divides(p, g, c) && v == 0 then Done([command], 0, DividedByZero)
    else if !IsRaster(p, g, c) then Done([command], 0, Complete)
    else if |s| < DataCount(v) then Done([command], |s|, EofInEscape)
    else Done([command, RasterData(s[..DataCount(v)])], DataCount(v), Complete)
  }

  /** The commands of one parameterized escape, from the first numeral on: each
      lower case parameter character is followed by another. */
  function Parameters(p: byte, g: byte, s: seq<byte>): (r: Done)
    ensures r.used <= |s|
    decreases |s|
  {
    var n := NumeralCount(s);
    if n == |s| then Done([], |s|, EofInEscape)
    else if !IsLast(s[n]) && !IsGroup(s[n]) then Done([Misterminated], n + 1, Complete)
    else
      NumeralAlone(s);
      var c := if IsLast(s[n]) then s[n] as int else s[n] as int - 32;
      var first := Execute(p, g, Thousandths(s[..n]), c, s[n + 1..]);
      var k := n + 1 + first.used;
      if first.end != Complete || IsLast(s[n]) then Done(first.events, k, first.end)
      else
        var more := Parameters(p, g, s[k..]);
        Done(first.events + more.events, k + more.used, more.end)
  }

  /** The whole stream. */
  function ParseAll(s: seq<byte>): Parse
    decreases |s|
  {
    if s == [] then Parse([], Complete)
    else if s[0] != ESC then
      var rest := ParseAll(s[1..]);
      Parse([if s[0] <= 32 then Control(s[0]) else Printable(s[0])] + rest.events, rest.end)
    else if |s| == 1 then Parse([], EofInEscape)
    else if !(33 <= s[1] <= 47) then
      var rest := ParseAll(s[2..]);
      Parse([SimpleEsc(s[1])] + rest.events, rest.end)
    else if |s| == 2 then Parse([], EofInEscape)
    else
      var from := if IsGroup(s[2]) then 3 else 2;
      var d := Parameters(s[1], if IsGroup(s[2]) then s[2] else 0, s[from..]);
      if d.end != Complete then Parse(d.events, d.end)
      else
        var rest := ParseAll(s[from + d.used..]);
        Parse(d.events + rest.events, rest.end)
  }

  // ----------------------------------------------------------- combined escapes

  /** A numeral, its parameter character in upper case, and the raster data if any. */
  datatype Parameter = Parameter(numeral: seq<byte>, last: byte, data: seq<byte>)

  /** A parameter as it should be written: a whole numeral, and as many bytes of data
      as the command reads. */
  predicate Proper(p: byte, g: byte, q: Parameter) {
    && NumeralCount(q.numeral) == |q.numeral| && IsLast(q.last)
    && |q.data| == if IsRaster(p, g, q.last as int) then DataCount(Thousandths(q.numeral)) else 0
  }

  predicate AllProper(p: byte, g: byte, qs: seq<Parameter>) {
    forall i :: 0 <= i < |qs| ==> Proper(p, g, qs[i])
  }

  function Written(q: Parameter, more: bool): seq<byte>
    requires IsLast(q.last)
  {
    q.numeral + [if more then q.last + 32 else q.last] + q.data
  }

  function Opening(p: byte, g: byte): seq<byte> { if g == 0 then [ESC, p] else [ESC, p, g] }

  /** The parameters, all but the last with a lower case character. */
  function Combined(qs: seq<Parameter>): seq<byte>
    requires forall i :: 0 <= i < |qs| ==> IsLast(qs[i].last)
  {
    if qs == [] then [] else Written(qs[0], |qs| > 1) + Combined(qs[1..])
  }

  /** Each as an escape sequence of its own. */
  function Separate(p: byte, g: byte, qs: seq<Parameter>): seq<byte>
    requires forall i :: 0 <= i < |qs| ==> IsLast(qs[i].last)
  {
    if qs == [] then [] else Opening(p, g) + Written(qs[0], false) + Separate(p, g, qs[1..])
  }

  /** A parameter of zero that its command divides by ends the program. */
  predicate Fatal(p: byte, g: byte, q: Parameter)
    requires Proper(p, g, q)
  {
    Divides(p, g, q.last as int) && Thousandths(q.numeral) == 0
  }

  /** What the parameters mean: a command each, and its data, up to a fatal one. */
  function Meant(p: byte, g: byte, qs: seq<Parameter>): (m: Parse)
    requires AllProper(p, g, qs)
    ensures m.end != EofInEscape
  {
    if qs == [] then Parse([], Complete)
    else if Fatal(p, g, qs[0]) then Parse(One(p, g, qs[0]), DividedByZero)
    else
      var more := Meant(p, g, qs[1..]);
      Parse(One(p, g, qs[0]) + more.events, more.end)
  }

  /** A parse that goes on with what is left, unless it has ended. */
  function Then(m: Parse, rest: Parse): Parse {
    if m.end == Complete then Parse(m.events + rest.events, rest.end) else m
  }

  function One(p: byte, g: byte, q: Parameter): seq<Event>
    requires Proper(p, g, q)
  {
    [Command(p, g, Thousandths(q.numeral), q.last as int)] +
    (if IsRaster(p, g, q.last as int) then [RasterData(q.data)] else [])
  }

  lemma ExecuteOne(p: byte, g: byte, q: Parameter, rest: seq<byte>)
    requires Proper(p, g, q)
    ensures Execute(p, g, Thousandths(q.numeral), q.last as int, q.data + rest) ==
            Done(One(p, g, q), |q.data|, if Fatal(p, g, q) then DividedByZero else Complete)
  {
    hide Thousandths, NumeralCount;
    assert (q.data + rest)[..|q.data|] == q.data;
  }

  lemma ParametersStep(p: byte, g: byte, a: seq<byte>, c: byte, b: seq<byte>)
    requires NumeralCount(a) == |a| && (IsLast(c) || IsGroup(c))
    ensures var first := Execute(p, g, Thousandths(a), if IsLast(c) then c as int else c as int - 32, b);
      var k := |a| + 1 + first.used;
      Parameters(p, g, a + ([c] + b)) ==
        if first.end != Complete || IsLast(c) then Done(first.events, k, first.end)
        else
          var more := Parameters(p, g, b[first.used..]);
          Done(first.events + more.events, k + more.used, more.end)
  {
    hide Thousandths, NumeralCount, Execute;
    NumeralThen(a, [c] + b);
    var s := a + ([c] + b);
    var n := |a|;
    assert s[n] == c && s[n + 1..] == b;
    var first := Execute(p, g, Thousandths(a), if IsLast(c) then c as int else c as int - 32, b);
    assert s[n + 1 + first.used..] == b[first.used..];
  }

  /** Reading one parameter, and what follows it. */
  lemma ReadOne(p: byte, g: byte, q: Parameter, more: bool, rest: seq<byte>)
    requires Proper(p, g, q)
    ensures var d := Parameters(p, g, Written(q, more) + rest);
      if Fatal(p, g, q) then d == Done(One(p, g, q), |Written(q, more)|, DividedByZero)
      else if more then
        var next := Parameters(p, g, rest);
        d == Done(One(p, g, q) + next.events, |Written(q, more)| + next.used, next.end)
      else d == Done(One(p, g, q), |Written(q, more)|, Complete)
  {
    hide DataCount, Divides, Execute, Fatal, IsRaster, NumeralCount, One, Parameters, Thousandths;
    assert NumeralCount(q.numeral) == |q.numeral| && IsLast(q.last);
    assert q.last <= 94;
    var c: byte := if more then q.last + 32 else q.last;
    assert (IsLast(c) <==> !more) && (IsLast(c) || IsGroup(c));
    assert Written(q, more) == q.numeral + [c] + q.data;
    assert Written(q, more) + rest == q.numeral + ([c] + (q.data + rest));
    ParametersStep(p, g, q.numeral, c, q.data + rest);
    ExecuteOne(p, g, q, rest);
    assert (q.data + rest)[|q.data|..] == rest;
  }

  /** Reading combined parameters to their end. */
  lemma {:induction false} ReadCombined(p: byte, g: byte, qs: seq<Parameter>, rest: seq<byte>)
    requires qs != [] && AllProper(p, g, qs)
    ensures var d, m := Parameters(p, g, Combined(qs) + rest), Meant(p, g, qs);
      d.events == m.events && d.end == m.end && (d.end == Complete ==> d.used == |Combined(qs)|)
  {
    hide Parameters, Written, One, Fatal;
    assert Proper(p, g, qs[0]) && forall i :: 0 <= i < |qs| ==> IsLast(qs[i].last);
    var tail := Combined(qs[1..]);
    assert Combined(qs) + rest == Written(qs[0], |qs| > 1) + (tail + rest);
    ReadOne(p, g, qs[0], |qs| > 1, tail + rest);
    if |qs| > 1 {
      ReadCombined(p, g, qs[1..], rest);
    } else {
      assert qs[1..] == [] && One(p, g, qs[0]) + [] == One(p, g, qs[0]);
    }
  }

  /** Whether an escape sequence opened without a group character goes on with one. */
  predicate Grouped(g: byte, qs: seq<Parameter>) {
    g == 0 && |qs| > 1 && qs[0].numeral == []
  }

  predicate Opens(p: byte, g: byte) { 33 <= p <= 47 && (g == 0 || IsGroup(g)) }

  lemma ReadOpening(p: byte, g: byte, s: seq<byte>)
    requires Opens(p, g) && s != [] && (g == 0 ==> !IsGroup(s[0]))
    ensures var d := Parameters(p, g, s);
      ParseAll(Opening(p, g) + s) ==
        if d.end != Complete then Parse(d.events, d.end)
        else Parse(d.events + ParseAll(s[d.used..]).events, ParseAll(s[d.used..]).end)
  {
    hide Parameters;
    var t := Opening(p, g) + s;
    var from := if g == 0 then 2 else 3;
    assert t[from..] == s && t[0] == ESC && t[1] == p && (g != 0 ==> t[2] == g) && (g == 0 ==> t[2] == s[0]);
    var d := Parameters(p, g, s);
    assert t[from + d.used..] == s[d.used..];
  }

  lemma NumeralStart(s: seq<byte>)
    requires NumeralCount(s) == |s| && s != []
    ensures s[0] < 64
  {
  }

  lemma CombinedStart(p: byte, g: byte, qs: seq<Parameter>, rest: seq<byte>)
    requires qs != [] && AllProper(p, g, qs) && !Grouped(g, qs)
    ensures Combined(qs) + rest != [] && (g == 0 ==> !IsGroup((Combined(qs) + rest)[0]))
  {
    hide NumeralCount, Thousandths;
    var q := qs[0];
    assert Proper(p, g, q);
    assert (Combined(qs) + rest)[0] == Written(q, |qs| > 1)[0];
    if q.numeral != [] {
      NumeralStart(q.numeral);
    }
  }

  /** A combined escape sequence makes the commands that its parameters mean, with
      their data, and leaves the rest to be parsed. */
  lemma ParseCombined(p: byte, g: byte, qs: seq<Parameter>, rest: seq<byte>)
    requires Opens(p, g) && qs != [] && AllProper(p, g, qs) && !Grouped(g, qs)
    ensures ParseAll(Opening(p, g) + Combined(qs) + rest) ==
      Then(Meant(p, g, qs), ParseAll(rest))
  {
    hide Combined, DataCount, Divides, Grouped, IsGroup, IsLast, IsRaster, Meant, NumeralCount, Opening, Opens,
      Parameters, ParseAll, Thousandths;
    assert forall i :: 0 <= i < |qs| ==> IsLast(qs[i].last);
    CombinedStart(p, g, qs, rest);
    ReadCombined(p, g, qs, rest);
    ReadOpening(p, g, Combined(qs) + rest);
    assert (Combined(qs) + rest)[|Combined(qs)|..] == rest;
    assert Opening(p, g) + Combined(qs) + rest == Opening(p, g) + (Combined(qs) + rest);
  }

  lemma MeantFirst(p: byte, g: byte, qs: seq<Parameter>)
    requires qs != [] && AllProper(p, g, qs)
    ensures AllProper(p, g, [qs[0]]) && AllProper(p, g, qs[1..])
    ensures Meant(p, g, qs) == Then(Meant(p, g, [qs[0]]), Meant(p, g, qs[1..]))
  {
    hide One, Fatal, Proper;
    assert [qs[0]][1..] == [];
    assert One(p, g, qs[0]) + [] == One(p, g, qs[0]);
  }

  lemma ThenThen(a: Parse, b: Parse, c: Parse)
    ensures Then(Then(a, b), c) == Then(a, Then(b, c))
  {
    assert a.events + (b.events + c.events) == a.events + b.events + c.events;
  }

  lemma {:induction false} ParseSeparate(p: byte, g: byte, qs: seq<Parameter>, rest: seq<byte>)
    requires Opens(p, g) && AllProper(p, g, qs)
    ensures ParseAll(Separate(p, g, qs) + rest) == Then(Meant(p, g, qs), ParseAll(rest))
  {
    hide DataCount, Divides, Fatal, IsLast, IsRaster, NumeralCount, One, Opening, Opens, ParseAll, Thousandths, Written;
    assert forall i :: 0 <= i < |qs| ==> IsLast(qs[i].last);
    if qs == [] {
      assert Separate(p, g, qs) + rest == rest;
      assert [] + ParseAll(rest).events == ParseAll(rest).events;
    } else {
      var one := [qs[0]];
      var tail := Separate(p, g, qs[1..]) + rest;
      assert AllProper(p, g, one) && AllProper(p, g, qs[1..]);
      assert !Grouped(g, one);
      ParseCombined(p, g, one, tail);
      ParseSeparate(p, g, qs[1..], rest);
      assert Separate(p, g, qs) + rest == Opening(p, g) + Combined(one) + tail;
      MeantFirst(p, g, qs);
      ThenThen(Meant(p, g, one), Meant(p, g, qs[1..]), ParseAll(rest));
    }
  }

  lemma FirstOfParameters(p: byte, g: byte, s: seq<byte>)
    ensures var d := Parameters(p, g, s);
      && (d.end == Complete ==> d.events != [])
      && (d.events != [] ==> d.events[0].Misterminated? || (d.events[0].Command? && d.events[0].group == g))
  {
    hide NumeralCount, Thousandths, IsRaster, Divides, DataCount;
  }

  lemma TakenForGroup(p: byte, qs: seq<Parameter>, rest: seq<byte>)
    requires 33 <= p <= 47 && Grouped(0, qs) && forall i :: 0 <= i < |qs| ==> IsLast(qs[i].last)
    ensures var events := ParseAll(Opening(p, 0) + Combined(qs) + rest).events;
      events != [] ==> !(events[0].Command? && events[0].group == 0)
  {
    hide Parameters;
    var s := Opening(p, 0) + Combined(qs) + rest;
    assert Combined(qs)[0] == qs[0].last + 32;
    assert s[0] == ESC && s[1] == p && s[2] == qs[0].last + 32;
    FirstOfParameters(p, s[2], s[3..]);
  }

  lemma MeantBegins(p: byte, g: byte, qs: seq<Parameter>)
    requires qs != [] && AllProper(p, g, qs)
    ensures var m := Meant(p, g, qs).events;
      m != [] && m[0] == Command(p, g, Thousandths(qs[0].numeral), qs[0].last as int)
  {
    hide Thousandths, NumeralCount;
  }

  /** Combining escape sequences changes nothing, unless there is no group character
      and the first parameter is nothing but its character, which is taken for one. */
  lemma CombinedIffSeparate(p: byte, g: byte, qs: seq<Parameter>, rest: seq<byte>)
    requires Opens(p, g) && qs != [] && AllProper(p, g, qs)
    ensures (forall i :: 0 <= i < |qs| ==> IsLast(qs[i].last))
    ensures ParseAll(Opening(p, g) + Combined(qs) + rest) == ParseAll(Separate(p, g, qs) + rest) <==> !Grouped(g, qs)
  {
    hide Combined, DataCount, Divides, Fatal, IsGroup, IsLast, IsRaster, Meant, NumeralCount, Opening, ParseAll, Separate,
      Thousandths;
    assert forall i :: 0 <= i < |qs| ==> IsLast(qs[i].last);
    ParseSeparate(p, g, qs, rest);
    if Grouped(g, qs) {
      assert g == 0 && 33 <= p <= 47;
      TakenForGroup(p, qs, rest);
      MeantBegins(p, g, qs);
    } else {
      ParseCombined(p, g, qs, rest);
    }
  }
}

// PCL streams written out byte by byte (filter_pcl/PCLparse.java): how much of the stream
// each thing in it takes, and which commands read data or divide by their value.

module PclStreams {
  import opened Bytes
  import opened PclParser
  import opened PclReader

  /** A stream that begins with something that makes `events` and takes no more than it. */
  ghost predicate Makes(stream: seq<byte>, events: seq<Event>, rest: seq<byte>) {
    ParseAll(stream) == Parse(events + ParseAll(rest).events, ParseAll(rest).end)
  }

  // --------------------------------------------------------------------------- numerals

  /** Each digit of a whole number is worth ten times the next. */
  lemma PlaceValue(d: seq<byte>, k: byte)
    requires AllDigits(d) && k < 10
    ensures NumeralCount(d) == |d| && NumeralCount(d + [48 + k]) == |d| + 1
    ensures Thousandths([]) == 0 && Thousandths(d + [48 + k]) == 10 * Thousandths(d) + 1000 * (k as int)
  {
    var c: byte := 48 + k;
    assert IsDigit(c);
    WholeNumber(d);
    WholeNumber(d + [c]);
    WholeSnoc(d, c);
    WholeNumber([]);
    WholeNone();
  }

  lemma WholeNumber(d: seq<byte>)
    requires AllDigits(d)
    ensures NumeralCount(d) == |d| && Thousandths(d) == 1000 * Whole(d)
  {
    hide NumeralCount, Thousandths;
    NumeralValue([], d, false, []);
    assert Numeral([], d, false, []) == d;
    assert IsDigit(48) && AllDigits([]) && AllDigits([48]) && AllDigits([48, 48]);
    WholeNone();
    WholeSnoc([], 48);
    WholeSnoc([48], 48);
    WholeSnoc([48, 48], 48);
    assert ThreePlaces([]) == [48, 48, 48] == [48, 48] + [48] && [48, 48] == [48] + [48] && [48] == [] + [48];
  }

  /** Of a fraction the first three places count, as far as there are any. */
  lemma FractionValue(a: byte, b: byte, c: byte, more: seq<byte>)
    requires a < 10 && b < 10 && c < 10 && AllDigits(more)
    ensures NumeralCount([46, 48 + a]) == 2 && Thousandths([46, 48 + a]) == 100 * (a as int)
    ensures NumeralCount([46, 48 + a, 48 + b]) == 3 && Thousandths([46, 48 + a, 48 + b]) == 100 * (a as int) + 10 * (b as int)
    ensures var s := [46, 48 + a, 48 + b, 48 + c] + more;
      NumeralCount(s) == |s| && Thousandths(s) == 100 * (a as int) + 10 * (b as int) + (c as int)
  {
    hide NumeralCount, Thousandths, Whole;
    OnlyFraction([48 + a], a, 0, 0);
    OnlyFraction([48 + a, 48 + b], a, b, 0);
    OnlyFraction([48 + a, 48 + b, 48 + c] + more, a, b, c);
    assert [46, 48 + a] == [46] + [48 + a];
    assert [46, 48 + a, 48 + b] == [46] + [48 + a, 48 + b];
    assert [46, 48 + a, 48 + b, 48 + c] + more == [46] + ([48 + a, 48 + b, 48 + c] + more);
  }

  lemma OnlyFraction(f: seq<byte>, a: byte, b: byte, c: byte)
    requires a < 10 && b < 10 && c < 10 && AllDigits(f) && ThreePlaces(f) == [48 + a, 48 + b, 48 + c]
    ensures NumeralCount([46] + f) == 1 + |f|
    ensures Thousandths([46] + f) == 100 * (a as int) + 10 * (b as int) + (c as int)
  {
    hide NumeralCount, Thousandths;
    NumeralValue([], [], true, f);
    assert Numeral([], [], true, f) == [46] + f;
    WholeNone();
    assert IsDigit(48 + a) && IsDigit(48 + b) && IsDigit(48 + c);
    WholeSnoc([], 48 + a);
    WholeSnoc([48 + a], 48 + b);
    WholeSnoc([48 + a, 48 + b], 48 + c);
    assert [48 + a] == [] + [48 + a] && [48 + a, 48 + b] == [48 + a] + [48 + b];
    assert [48 + a, 48 + b, 48 + c] == [48 + a, 48 + b] + [48 + c];
  }

  /** What does not belong to a numeral ends it. */
  lemma NumeralStops(a: seq<byte>, t: byte, b: seq<byte>)
    requires NumeralCount(a) == |a| && NumeralCount(a + [t]) == |a|
    ensures NumeralCount(a + ([t] + b)) == |a|
  {
    var w := SignCount(a);
    var u := a[w..];
    assert SignCount(a + [t]) == w && SignCount(a + ([t] + b)) == w by {
      if a == [] {
        assert a + [t] == [t] && (a + ([t] + b))[0] == t;
      } else {
        assert (a + [t])[0] == a[0] && (a + ([t] + b))[0] == a[0];
      }
    }
    assert (a + [t])[w..] == u + [t] && (a + ([t] + b))[w..] == u + ([t] + b);
    UnsignedStops(u, t, b);
  }

  lemma UnsignedStops(u: seq<byte>, t: byte, b: seq<byte>)
    requires UnsignedCount(u) == |u| && UnsignedCount(u + [t]) == |u|
    ensures UnsignedCount(u + ([t] + b)) == |u|
  {
    var p := DigitCount(u);
    if p == |u| {
      DigitsConcat(u, [t]);
      DigitsConcat(u, [t] + b);
    } else {
      FractionStops(u, t, b);
    }
  }

  lemma FractionStops(u: seq<byte>, t: byte, b: seq<byte>)
    requires UnsignedCount(u) == |u| && UnsignedCount(u + [t]) == |u| && DigitCount(u) < |u|
    ensures UnsignedCount(u + ([t] + b)) == |u|
  {
    hide DigitCount, UnsignedCount;
    var p := DigitCount(u);
    var f := u[p + 1..];
    PointAt(u, [t]);
    PointAt(u, [t] + b);
    DigitsConcat(f, [t]);
    DigitsConcat(f, [t] + b);
    OneDigit(t, b);
  }

  lemma PointAt(u: seq<byte>, x: seq<byte>)
    requires UnsignedCount(u) == |u| && DigitCount(u) < |u|
    ensures var p := DigitCount(u);
      DigitCount(u[p + 1..]) == |u| - p - 1 && UnsignedCount(u + x) == p + 1 + DigitCount(u[p + 1..] + x)
  {
    var p := DigitCount(u);
    DigitsConcat(u, x);
    assert (u + x)[p + 1..] == u[p + 1..] + x;
    hide DigitCount;
  }

  lemma OneDigit(t: byte, b: seq<byte>)
    ensures DigitCount([t]) == 0 ==> DigitCount([t] + b) == 0
  {
    assert ([t] + b)[0] == t;
  }

  // ------------------------------------------------------- everything but parameterized

  /** Outside escape sequences every byte stands for itself. */
  lemma Characters(c: byte, rest: seq<byte>)
    requires c != 27
    ensures Makes([c] + rest, [if c <= 32 then Control(c) else Printable(c)], rest)
  {
    assert ([c] + rest)[1..] == rest;
  }

  /** ESC and a character outside 33 to 47 are all there is to an escape sequence. */
  lemma SimpleEscapes(c: byte, rest: seq<byte>)
    requires c < 33 || c > 47
    ensures Makes([27, c] + rest, [SimpleEsc(c)], rest)
  {
    assert ([27, c] + rest)[2..] == rest;
  }

  /** ESC, a character from 33 to 47 and, unless what follows is a group character from
      96 to 126, a numeral; `opening` is these two or three. */
  ghost predicate Opened(opening: seq<byte>, p: byte, g: byte, numeral: seq<byte>) {
    && 33 <= p <= 47 && NumeralCount(numeral) == |numeral|
    && ((opening == [27, p] && g == 0) || (opening == [27, p, g] && 96 <= g <= 126))
  }

  lemma OpenedBefore(opening: seq<byte>, p: byte, g: byte, numeral: seq<byte>, t: byte, s: seq<byte>)
    requires Opened(opening, p, g, numeral) && (g == 0 && numeral == [] ==> t < 96 || t > 126)
    ensures var tail := numeral + ([t] + s);
      var d := Parameters(p, g, tail);
      ParseAll(opening + tail) ==
        if d.end != Complete then Parse(d.events, d.end)
        else Parse(d.events + ParseAll(tail[d.used..]).events, ParseAll(tail[d.used..]).end)
  {
    hide NumeralCount, Parameters;
    var tail := numeral + ([t] + s);
    assert Opening(p, g) == opening;
    if numeral != [] {
      NumeralStart(numeral);
      assert tail[0] == numeral[0];
    } else {
      assert tail[0] == t;
    }
    ReadOpening(p, g, tail);
  }

  /** A numeral has to be followed by 64 to 94 or 96 to 126; anything else ends the escape
      sequence, and is part of it. */
  lemma Misended(opening: seq<byte>, p: byte, g: byte, numeral: seq<byte>, t: byte, rest: seq<byte>)
    requires Opened(opening, p, g, numeral) && NumeralCount(numeral + [t]) == |numeral|
    requires t < 64 || t == 95 || t > 126
    ensures Makes(opening + numeral + [t] + rest, [Misterminated], rest)
  {
    hide NumeralCount, Thousandths, Execute, ParseAll;
    OpenedBefore(opening, p, g, numeral, t, rest);
    var tail := numeral + ([t] + rest);
    NumeralStops(numeral, t, rest);
    assert tail[|numeral|] == t && tail[|numeral| + 1..] == rest;
    assert Parameters(p, g, tail) == Done([Misterminated], |numeral| + 1, Complete);
    assert opening + numeral + [t] + rest == opening + tail;
  }

  /** A stream that ends before an escape sequence does. */
  lemma CutOff(opening: seq<byte>, p: byte, g: byte, numeral: seq<byte>)
    requires Opened(opening, p, g, numeral)
    ensures ParseAll([27]) == Parse([], EofInEscape) && ParseAll(opening + numeral) == Parse([], EofInEscape)
  {
    hide NumeralCount;
    if opening == [27, p] {
      if numeral != [] {
        NumeralStart(numeral);
        ReadOpening(p, 0, numeral);
        assert Opening(p, 0) == opening;
      } else {
        assert opening + numeral == [27, p];
      }
    } else {
      OpenedGroup(p, g, numeral);
    }
  }

  // ------------------------------------------------------------------------- commands

  /** The data of a command is whole: a byte for every thousand of its value begun. */
  ghost predicate DataFor(value: int, data: seq<byte>) {
    if value > 0 then 1000 * (|data| - 1) < value <= 1000 * |data| else data == []
  }

  lemma DataForCount(value: int, data: seq<byte>)
    requires DataFor(value, data)
    ensures |data| == DataCount(value)
  {
  }

  lemma DataShort(value: int, data: seq<byte>)
    requires value > 0 && value > 1000 * |data|
    ensures |data| < DataCount(value)
  {
  }

  /** The end of a command: the parameters from its numeral on, by its last character. */
  lemma LastParameter(p: byte, g: byte, numeral: seq<byte>, c: byte, s: seq<byte>)
    requires NumeralCount(numeral) == |numeral| && 64 <= c <= 94
    ensures var d := Execute(p, g, Thousandths(numeral), c as int, s);
      Parameters(p, g, numeral + ([c] + s)) == Done(d.events, |numeral| + 1 + d.used, d.end)
  {
    hide NumeralCount, Thousandths, Execute, Parameters;
    ParametersStep(p, g, numeral, c, s);
  }

  lemma AfterCommand(opening: seq<byte>, p: byte, g: byte, numeral: seq<byte>, c: byte, data: seq<byte>, rest: seq<byte>)
    requires Opened(opening, p, g, numeral) && 64 <= c <= 94
    requires Execute(p, g, Thousandths(numeral), c as int, data + rest).end == Complete
    requires Execute(p, g, Thousandths(numeral), c as int, data + rest).used == |data|
    ensures Makes(opening + numeral + [c] + data + rest, Execute(p, g, Thousandths(numeral), c as int, data + rest).events, rest)
  {
    hide NumeralCount, Thousandths, Execute, Parameters, ParseAll;
    LastParameter(p, g, numeral, c, data + rest);
    OpenedBefore(opening, p, g, numeral, c, data + rest);
    var tail := numeral + ([c] + (data + rest));
    assert tail[|numeral| + 1 + |data|..] == rest;
    assert opening + numeral + [c] + data + rest == opening + tail;
  }

  /** ESC * b numeral W reads exactly the bytes its value calls for, whatever they are. */
  lemma RasterRow(numeral: seq<byte>, data: seq<byte>, rest: seq<byte>)
    requires NumeralCount(numeral) == |numeral| && DataFor(Thousandths(numeral), data)
    ensures Makes([27, 42, 98] + numeral + [87] + data + rest,
                  [Command(42, 98, Thousandths(numeral), 87), RasterData(data)], rest)
  {
    hide NumeralCount, Thousandths, ParseAll;
    DataForCount(Thousandths(numeral), data);
    assert (data + rest)[..|data|] == data;
    AfterCommand([27, 42, 98], 42, 98, numeral, 87, data, rest);
  }

  /** If the stream ends before them, that is the end of it. */
  lemma RasterShort(numeral: seq<byte>, data: seq<byte>)
    requires NumeralCount(numeral) == |numeral| && Thousandths(numeral) > 0 && Thousandths(numeral) > 1000 * |data|
    ensures ParseAll([27, 42, 98] + numeral + [87] + data) == Parse([Command(42, 98, Thousandths(numeral), 87)], EofInEscape)
  {
    hide NumeralCount, Thousandths, Parameters, ParseAll;
    DataShort(Thousandths(numeral), data);
    LastParameter(42, 98, numeral, 87, data);
    OpenedBefore([27, 42, 98], 42, 98, numeral, 87, data);
    assert [27, 42, 98] + numeral + [87] + data == [27, 42, 98] + (numeral + ([87] + data));
  }

  /** ESC & l 0 D and ESC ( s 0 H, with zero written in any way, end the program. */
  lemma DividesByZero(p: byte, g: byte, numeral: seq<byte>, c: byte, rest: seq<byte>)
    requires NumeralCount(numeral) == |numeral| && Thousandths(numeral) == 0
    requires (p == 38 && g == 108 && c == 68) || (p == 40 && g == 115 && c == 72)
    ensures ParseAll([27, p, g] + numeral + [c] + rest) == Parse([Command(p, g, 0, c as int)], DividedByZero)
  {
    hide NumeralCount, Thousandths, Parameters, ParseAll;
    LastParameter(p, g, numeral, c, rest);
    OpenedBefore([27, p, g], p, g, numeral, c, rest);
    assert [27, p, g] + numeral + [c] + rest == [27, p, g] + (numeral + ([c] + rest));
  }

  /** No other command, with or without a group character, takes anything after its last
      character, or ends the program. */
  lemma OtherCommands(opening: seq<byte>, p: byte, g: byte, numeral: seq<byte>, c: byte, rest: seq<byte>)
    requires Opened(opening, p, g, numeral) && 64 <= c <= 94
    requires !(p == 42 && g == 98 && c == 87)
    requires Thousandths(numeral) == 0 ==> !(p == 38 && g == 108 && c == 68) && !(p == 40 && g == 115 && c == 72)
    ensures Makes(opening + numeral + [c] + rest, [Command(p, g, Thousandths(numeral), c as int)], rest)
  {
    hide NumeralCount, Thousandths, ParseAll;
    assert [] + rest == rest;
    AfterCommand(opening, p, g, numeral, c, [], rest);
    assert opening + numeral + [c] + [] + rest == opening + numeral + [c] + rest;
  }

  /** A last character from 96 on in place of the one 32 below it does the same, and is
      gone on after as if the escape sequence were opened again with the same group. */
  lemma Combining(p: byte, g: byte, numeral: seq<byte>, c: byte, data: seq<byte>, more: seq<byte>)
    requires 33 <= p <= 47 && 96 <= g <= 126 && NumeralCount(numeral) == |numeral| && 64 <= c <= 94
    requires if p == 42 && g == 98 && c == 87 then DataFor(Thousandths(numeral), data) else data == []
    ensures ParseAll([27, p, g] + numeral + [c + 32] + data + more) ==
            ParseAll([27, p, g] + numeral + [c] + data + ([27, p, g] + more))
  {
    hide *;
    var v, again := Thousandths(numeral), [27, p, g] + more;
    var d := Execute(p, g, v, c as int, data + more);
    CommandTaken(p, g, v, c, data, more);
    CommandTaken(p, g, v, c, data, again);
    GoneOn(p, g, numeral, c, data, more);
    IsOpened(p, g, numeral);
    if d.end == Complete {
      AfterCommand([27, p, g], p, g, numeral, c, data, again);
      MakesIs([27, p, g] + numeral + [c] + data + again, d.events, again);
      OpenedGroup(p, g, more);
      var next := Parameters(p, g, more);
      if next.end == Complete {
        Regrouped(d.events, next.events, ParseAll(more[next.used..]).events);
      }
    } else {
      LastParameter(p, g, numeral, c, data + again);
      OpenedGroup(p, g, numeral + ([c] + (data + again)));
      assert [27, p, g] + numeral + [c] + data + again == [27, p, g] + (numeral + ([c] + (data + again)));
    }
  }

  lemma IsOpened(p: byte, g: byte, numeral: seq<byte>)
    requires 33 <= p <= 47 && 96 <= g <= 126 && NumeralCount(numeral) == |numeral|
    ensures Opened([27, p, g], p, g, numeral)
  {
  }

  lemma MakesIs(stream: seq<byte>, events: seq<Event>, rest: seq<byte>)
    requires Makes(stream, events, rest)
    ensures ParseAll(stream) == Parse(events + ParseAll(rest).events, ParseAll(rest).end)
  {
  }

  lemma GoneOn(p: byte, g: byte, numeral: seq<byte>, c: byte, data: seq<byte>, more: seq<byte>)
    requires 33 <= p <= 47 && 96 <= g <= 126 && NumeralCount(numeral) == |numeral| && 64 <= c <= 94
    requires Execute(p, g, Thousandths(numeral), c as int, data + more).used == |data|
    ensures var d := Execute(p, g, Thousandths(numeral), c as int, data + more);
      var next := Parameters(p, g, more);
      ParseAll([27, p, g] + numeral + [c + 32] + data + more) ==
        if d.end != Complete then Parse(d.events, d.end)
        else if next.end != Complete then Parse(d.events + next.events, next.end)
        else Parse(d.events + next.events + ParseAll(more[next.used..]).events, ParseAll(more[next.used..]).end)
  {
    hide *;
    var d, next := Execute(p, g, Thousandths(numeral), c as int, data + more), Parameters(p, g, more);
    var tail := numeral + ([c + 32] + (data + more));
    Continued(p, g, numeral, c, data, more);
    assert d.end == Complete && next.end == Complete ==> tail[|numeral| + 1 + |data| + next.used..] == more[next.used..] by {
      Joined([27, p, g], numeral, c + 32, data, more, next.used);
    }
    assert [27, p, g] + numeral + [c + 32] + data + more == [27, p, g] + tail;
    OpenedGroup(p, g, tail);
  }

  lemma Continued(p: byte, g: byte, numeral: seq<byte>, c: byte, data: seq<byte>, more: seq<byte>)
    requires NumeralCount(numeral) == |numeral| && 64 <= c <= 94
    requires Execute(p, g, Thousandths(numeral), c as int, data + more).used == |data|
    ensures var d := Execute(p, g, Thousandths(numeral), c as int, data + more);
      var next, all := Parameters(p, g, more), Parameters(p, g, numeral + ([c + 32] + (data + more)));
      if d.end != Complete then all == Done(d.events, |numeral| + 1 + |data|, d.end)
      else all == Done(d.events + next.events, |numeral| + 1 + |data| + next.used, next.end)
  {
    assert !IsLast(c + 32) && IsGroup(c + 32);
    hide *;
    ParametersStep(p, g, numeral, c + 32, data + more);
    assert (data + more)[|data|..] == more;
  }

  lemma Joined(opening: seq<byte>, numeral: seq<byte>, c: byte, data: seq<byte>, more: seq<byte>, k: nat)
    requires k <= |more|
    ensures opening + numeral + [c] + data + more == opening + (numeral + ([c] + (data + more)))
    ensures (data + more)[|data|..] == more
    ensures (numeral + ([c] + (data + more)))[|numeral| + 1 + (|data| + k)..] == more[k..]
    ensures (numeral + ([c] + (data + more)))[|numeral| + 1 + |data| + k..] == more[k..]
  {
    var tail := numeral + ([c] + (data + more));
    assert tail == numeral + [c] + data + more;
    assert |numeral| + 1 + |data| == |numeral + [c] + data|;
  }

  lemma Regrouped(a: seq<Event>, b: seq<Event>, c: seq<Event>)
    ensures a + b + c == a + (b + c)
  {
  }

  lemma OpenedGroup(p: byte, g: byte, s: seq<byte>)
    requires 33 <= p <= 47 && 96 <= g <= 126
    ensures var d := Parameters(p, g, s);
      ParseAll([27, p, g] + s) ==
        if d.end != Complete then Parse(d.events, d.end)
        else Parse(d.events + ParseAll(s[d.used..]).events, ParseAll(s[d.used..]).end)
  {
    hide Parameters;
    var t := [27, p, g] + s;
    assert t[3..] == s && t[0] == 27 && t[1] == p && t[2] == g;
    var d := Parameters(p, g, s);
    assert t[3 + d.used..] == s[d.used..];
  }

  /** A command with all its data takes no notice of what comes after. */
  lemma CommandTaken(p: byte, g: byte, v: int, c: byte, data: seq<byte>, rest: seq<byte>)
    requires if p == 42 && g == 98 && c == 87 then DataFor(v, data) else data == []
    ensures var d := Execute(p, g, v, c as int, data + rest);
      && d.end == (if v == 0 && ((p == 38 && g == 108 && c == 68) || (p == 40 && g == 115 && c == 72)) then DividedByZero
                   else Complete)
      && d.used == |data|
      && d.events == [Command(p, g, v, c as int)] + if p == 42 && g == 98 && c == 87 then [RasterData(data)] else []
  {
    assert (data + rest)[..|data|] == data;
    if p == 42 && g == 98 && c == 87 {
      DataForCount(v, data);
    }
  }
}

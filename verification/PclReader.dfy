// parse_stream() of filter_pcl/PCLparse.java, character by character.

module PclReader {
  import opened Bytes
  import opened PclParser

  lemma WholeSnoc(d: seq<byte>, c: byte)
    requires AllDigits(d) && IsDigit(c)
    ensures AllDigits(d + [c]) && Whole(d + [c]) == Whole(d) * 10 + (c as int - 48)
  {
    assert (d + [c])[..|d|] == d;
  }

  /** One more digit of a row, after digits read earlier. */
  lemma OneMore(digits: seq<byte>, a: seq<byte>, k: nat)
    requires k < |a| && IsDigit(a[k]) && AllDigits(digits + a[..k])
    ensures AllDigits(digits + a[..k + 1])
    ensures Whole(digits + a[..k + 1]) == Whole(digits + a[..k]) * 10 + (a[k] as int - 48)
    ensures DigitCount(a[k..]) == 1 + DigitCount(a[k + 1..])
  {
    WholeSnoc(digits + a[..k], a[k]);
    assert digits + a[..k] + [a[k]] == digits + a[..k + 1];
    assert a[k..][1..] == a[k + 1..];
  }

  lemma NoMore(a: seq<byte>, k: nat)
    requires k <= |a| && (k < |a| ==> !IsDigit(a[k]))
    ensures DigitCount(a[k..]) == 0
  {
  }

  lemma NoneYet(digits: seq<byte>, a: seq<byte>)
    requires AllDigits(digits)
    ensures digits + a[..0] == digits && a[0..] == a
  {
  }

  /** An unsigned numeral without a point. */
  lemma WholeOnly(u: seq<byte>, k: nat)
    requires k == DigitCount(u) && (k < |u| ==> u[k] != 46)
    ensures UnsignedCount(u) == k && UnsignedCount(u[..k]) == k && AllDigits(u[..k])
    ensures Unsigned(u[..k]) == Whole(u[..k] + [48, 48, 48])
  {
    hide DigitCount, Whole;
    UnsignedAlone(u);
    DigitsAlone(u);
  }

  lemma PointAfter(d: seq<byte>, f: seq<byte>)
    requires DigitCount(d) == |d| && DigitCount(f) == |f|
    ensures var t := d + ([46] + f);
      && DigitCount(t) == |d| && UnsignedCount(t) == |t| && AllDigits(d + ThreePlaces(f))
      && Unsigned(t) == Whole(d + ThreePlaces(f))
  {
    PointCount(d, f);
    hide Whole, UnsignedCount;
  }

  /** An unsigned numeral with a point after `k` digits, and digits after that. */
  lemma WithFraction(u: seq<byte>, k: nat, f: seq<byte>, m: nat)
    requires k == DigitCount(u) < |u| && u[k] == 46 && f == u[k + 1..] && m == DigitCount(f)
    ensures var n := k + 1 + m;
      UnsignedCount(u) == n && UnsignedCount(u[..n]) == n && AllDigits(u[..k] + ThreePlaces(f[..m])) &&
      Unsigned(u[..n]) == Whole(u[..k] + ThreePlaces(f[..m])) && f[m..] == u[n..]
  {
    hide AllDigits, DigitCount, ThreePlaces, Unsigned, Whole;
    assert UnsignedCount(u) == k + 1 + m;
    DigitsAlone(u);
    DigitsAlone(f);
    PointAfter(u[..k], f[..m]);
    Slices(u, k, f, m);
  }

  lemma Slices(u: seq<byte>, k: nat, f: seq<byte>, m: nat)
    requires k < |u| && u[k] == 46 && f == u[k + 1..] && m <= |f|
    ensures u[..k + 1 + m] == u[..k] + ([46] + f[..m]) && f[m..] == u[k + 1 + m..]
  {
  }

  /** A numeral with its sign, if any. */
  lemma Signed(a: seq<byte>, w: nat, n: nat)
    requires w == SignCount(a) && n == UnsignedCount(a[w..]) && UnsignedCount(a[w..][..n]) == n
    ensures NumeralCount(a) == w + n == NumeralCount(a[..w + n])
    ensures Thousandths(a[..w + n]) == if w == 1 && a[0] == 45 then 0 - Unsigned(a[w..][..n]) else Unsigned(a[w..][..n])
  {
    hide UnsignedCount, Unsigned;
    var t := a[..w + n];
    assert t[w..] == a[w..][..n];
    if t != [] {
      assert t[0] == a[0];
    }
    assert SignCount(t) == w;
  }

  lemma SignIs(a: seq<byte>)
    requires a != []
    ensures SignCount(a) == if a[0] == 43 || a[0] == 45 then 1 else 0
  {
  }

  lemma DropDrop(a: seq<byte>, i: nat, j: nat)
    requires i + j <= |a|
    ensures a[i..][j..] == a[i + j..]
  {
  }

  /** A numeral, and what comes after it, by its sign and what follows that. */
  lemma NumeralFacts(a: seq<byte>)
    requires a != []
    ensures var u, k := a[SignCount(a)..], NumeralCount(a);
            var n := UnsignedCount(u);
            && (k == |a| <==> n == |u|) && a[k..] == u[n..]
            && UnsignedCount(u[..n]) == n && NumeralCount(a[..k]) == k
            && Thousandths(a[..k]) == (if a[0] == 45 then 0 - Unsigned(u[..n]) else Unsigned(u[..n]))
            && (SignCount(a) == |a| ==> k == |a|)
  {
    var w := SignCount(a);
    var n := UnsignedCount(a[w..]);
    SignIs(a);
    hide UnsignedCount, Unsigned, NumeralCount, Thousandths, SignCount;
    UnsignedAlone(a[w..]);
    Signed(a, w, n);
    DropDrop(a, w, n);
  }

  class Reader {
    const bytes: seq<byte>
    var pos: nat
    var events: seq<Event>

    constructor (bytes: seq<byte>)
      ensures this.bytes == bytes && pos == 0 && events == []
    {
      this.bytes, pos, events := bytes, 0, [];
    }

    /** The character in hand and all after it. */
    ghost predicate Ahead(c: byte, a: seq<byte>)
      reads `pos
    {
      1 <= pos <= |bytes| && a == bytes[pos - 1..] && c == a[0]
    }

    lemma InHand(c: byte, at: nat)
      requires 1 <= pos <= |bytes| && at == pos - 1 && c == bytes[at]
      ensures Ahead(c, bytes[at..])
    {
    }

    /** must_getc() */
    method MustGetc(ghost c0: byte, ghost a: seq<byte>) returns (c: byte, eof: bool)
      requires Ahead(c0, a)
      modifies `pos
      ensures pos <= |bytes|
      ensures eof <==> |a| == 1
      ensures if eof then pos == old(pos) else pos == old(pos) + 1 && Ahead(c, a[1..])
    {
      if pos == |bytes| {
        return 0, true;
      }
      c, eof := bytes[pos], false;
      pos := pos + 1;
    }

    /** The loop for the digits of a number, up to `most` of them; `digits` were read
        before, and make `value0`. */
    method ReadDigits(value0: nat, c0: byte, most: nat, ghost digits: seq<byte>, ghost a: seq<byte>)
      returns (value: nat, count: nat, c: byte, eof: bool)
      requires Ahead(c0, a) && AllDigits(digits) && value0 == Whole(digits)
      modifies `pos
      ensures pos <= |bytes|
      ensures count <= most && count <= DigitCount(a) && (count < DigitCount(a) ==> count == most)
      ensures eof <==> count == |a|
      ensures !eof ==> pos == old(pos) + count && Ahead(c, a[count..])
      ensures AllDigits(digits + a[..count]) && value == Whole(digits + a[..count])
      ensures count + DigitCount(a[count..]) == DigitCount(a)
    {
      hide AllDigits, DigitCount, Whole;
      value, count, c, eof := value0, 0, c0, false;
      NoneYet(digits, a);
      while count < most && 48 <= c <= 57
        invariant count <= most && count < |a| && Ahead(c, a[count..]) && pos == old(pos) + count && !eof
        invariant count + DigitCount(a[count..]) == DigitCount(a)
        invariant AllDigits(digits + a[..count]) && value == Whole(digits + a[..count])
        decreases most - count
      {
        assert c == a[count] && IsDigit(c);
        OneMore(digits, a, count);
        assert a[count..][1..] == a[count + 1..];
        value := value * 10;
        value := value + (c as int - 48);
        c, eof := MustGetc(c, a[count..]);
        count := count + 1;
        if eof {
          NoMore(a, count);
          return;
        }
      }
      if count < most {
        assert c == a[count] && !IsDigit(c);
        NoMore(a, count);
      }
    }

    /** Heed the place value of missing fractional digits. */
    method Pad(value0: nat, count0: nat, ghost digits: seq<byte>) returns (value: nat)
      requires count0 <= 3 && AllDigits(digits) && value0 == Whole(digits)
      ensures var zeros := seq(3 - count0, _ => 48 as byte);
        AllDigits(digits + zeros) && value == Whole(digits + zeros)
    {
      hide AllDigits, Whole;
      var count := count0;
      value := value0;
      ghost var zeros: seq<byte> := [];
      assert digits + zeros == digits;
      while count < 3
        invariant count0 <= count <= 3 && zeros == seq(count - count0, _ => 48 as byte)
        invariant AllDigits(digits + zeros) && value == Whole(digits + zeros)
      {
        assert IsDigit(48);
        WholeSnoc(digits + zeros, 48);
        assert digits + zeros + [48] == digits + (zeros + [48]);
        value := value * 10;
        zeros := zeros + [48];
        count := count + 1;
      }
    }

    /** An unsigned number, up to three decimal places. */
    method ReadUnsigned(c0: byte, ghost u: seq<byte>) returns (value: nat, c: byte, eof: bool)
      requires Ahead(c0, u)
      modifies `pos
      ensures pos <= |bytes|
      ensures eof <==> UnsignedCount(u) == |u|
      ensures !eof ==> pos == old(pos) + UnsignedCount(u) && Ahead(c, u[UnsignedCount(u)..])
      ensures !eof ==> UnsignedCount(u[..UnsignedCount(u)]) == UnsignedCount(u) && value == Unsigned(u[..UnsignedCount(u)])
    {
      hide DigitCount, IsDigit, Unsigned, UnsignedCount;
      assert AllDigits([]) && Whole([]) == 0;
      var k;
      assert |bytes| >= |u|;
      value, k, c, eof := ReadDigits(0, c0, |bytes|, [], u);
      assert [] + u[..k] == u[..k];
      if eof || c != 46 {
        assert !eof ==> c == u[k];
        WholeOnly(u, k);
        if !eof {
          value := Pad(value, 0, u[..k]);
          assert seq(3, _ => 48 as byte) == [48, 48, 48];
        }
        return;
      }
      assert k < |u| && u[k] == 46;
      value, c, eof := AfterPoint(value, c, u, k);
    }

    method AfterPoint(value0: nat, c0: byte, ghost u: seq<byte>, ghost k: nat) returns (value: nat, c: byte, eof: bool)
      requires k == DigitCount(u) < |u| && u[k] == 46 && Ahead(c0, u[k..])
      requires AllDigits(u[..k]) && value0 == Whole(u[..k])
      modifies `pos
      ensures pos <= |bytes|
      ensures eof <==> UnsignedCount(u) == |u|
      ensures !eof ==> pos == old(pos) - k + UnsignedCount(u) && Ahead(c, u[UnsignedCount(u)..])
      ensures !eof ==> UnsignedCount(u[..UnsignedCount(u)]) == UnsignedCount(u) && value == Unsigned(u[..UnsignedCount(u)])
    {
      hide Ahead, AllDigits, IsDigit, ThreePlaces, Unsigned, UnsignedCount, Whole;
      ghost var f := u[k + 1..];
      assert u[k..][1..] == f;
      value := value0;
      c, eof := MustGetc(c0, u[k..]);
      if eof {
        assert f == [] && DigitCount(f) == 0;
        WithFraction(u, k, f, 0);
        return;
      }
      value, c, eof := ReadFraction(value, c, u[..k], f);
      WithFraction(u, k, f, DigitCount(f));
    }

    /** The part after the point: three digits that count, the rest, and zeros for those
        that are missing. */
    method ReadFraction(value0: nat, c0: byte, ghost digits: seq<byte>, ghost f: seq<byte>)
      returns (value: nat, c: byte, eof: bool)
      requires Ahead(c0, f) && AllDigits(digits) && value0 == Whole(digits)
      modifies `pos
      ensures pos <= |bytes|
      ensures eof <==> DigitCount(f) == |f|
      ensures !eof ==> pos == old(pos) + DigitCount(f) && Ahead(c, f[DigitCount(f)..])
      ensures !eof ==> AllDigits(digits + ThreePlaces(f[..DigitCount(f)]))
      ensures !eof ==> value == Whole(digits + ThreePlaces(f[..DigitCount(f)]))
    {
      hide DigitCount, IsDigit, ThreePlaces;
      ghost var m := DigitCount(f);
      assert |bytes| >= |f|;
      var count;
      value, count, c, eof := ReadDigits(value0, c0, 3, digits, f);
      if !eof {
        assert AllDigits([]) && Whole([]) == 0;
        var unused, rest;
        unused, rest, c, eof := ReadDigits(0, c, |bytes|, [], f[count..]);
        assert f[count..][rest..] == f[count + rest..];
        if !eof {
          value := Pad(value, count, digits + f[..count]);
          Places(digits, f, count, m);
        }
      }
    }

    /** A sign, if there is one. */
    method ReadSign(c0: byte, ghost a: seq<byte>) returns (valueSign: int, c: byte, eof: bool)
      requires Ahead(c0, a)
      modifies `pos
      ensures pos <= |bytes| && valueSign == (if a[0] == 45 then -1 else 1)
      ensures eof <==> SignCount(a) == |a|
      ensures !eof ==> Ahead(c, a[SignCount(a)..])
    {
      valueSign, c, eof := 1, c0, false;
      assert a[0..] == a;
      if c == 43 || c == 45 {
        if c == 45 {
          valueSign := -1;
        }
        c, eof := MustGetc(c, a);
      }
    }

    /** `value*value_sign` */
    method WithSign(value: nat, valueSign: int) returns (v: int)
      requires valueSign == 1 || valueSign == -1
      ensures v == if valueSign == -1 then 0 - value else value
    {
      v := value * valueSign;
    }

    /** A signed number. */
    method ReadNumeral(c0: byte, ghost a: seq<byte>) returns (v: int, c: byte, eof: bool)
      requires Ahead(c0, a)
      modifies `pos
      ensures pos <= |bytes|
      ensures eof <==> NumeralCount(a) == |a|
      ensures !eof ==> Ahead(c, a[NumeralCount(a)..])
      ensures !eof ==> NumeralCount(a[..NumeralCount(a)]) == NumeralCount(a) && v == Thousandths(a[..NumeralCount(a)])
    {
      assert |a| > 0;
      NumeralFacts(a);
      hide *;
      ghost var u := a[SignCount(a)..];
      var valueSign, value: nat := 1, 0;
      v := 0;
      valueSign, c, eof := ReadSign(c0, a);
      if eof {
        return;
      }
      value, c, eof := ReadUnsigned(c, u);
      v := WithSign(value, valueSign);
    }

    /** parameterized_esc(), with the raster data that it reads. */
    method ParameterizedEsc(p: byte, g: byte, v0: int, parameter: int) returns (end: End)
      requires pos <= |bytes|
      modifies `pos, `events
      ensures pos <= |bytes|
      ensures var d := Execute(p, g, v0, parameter, bytes[old(pos)..]);
        events == old(events) + d.events && end == d.end && pos == old(pos) + d.used
    {
      var v := v0;
      events := events + [Command(p, g, v, parameter)];
      if Divides(p, g, parameter) && v == 0 {
        return DividedByZero;
      }
      if IsRaster(p, g, parameter) {
        var start := pos;
        while v > 0
          invariant start <= pos <= |bytes| && pos - start + DataCount(v) == DataCount(v0)
          invariant events == old(events) + [Command(p, g, v0, parameter)]
          decreases v
        {
          if pos == |bytes| {
            return EofInEscape;
          }
          pos := pos + 1;
          v := v - 1000;
        }
        assert bytes[start..][..pos - start] == bytes[start..pos];
        events := events + [RasterData(bytes[start..pos])];
      }
      end := Complete;
    }

    /** One command of an escape sequence, from the first character of its numeral on. */
    method OneCommand(p: byte, g: byte, c0: byte, ghost a: seq<byte>) returns (end: End, over: bool)
      requires Ahead(c0, a)
      modifies `pos, `events
      ensures pos <= |bytes| && events == old(events) + First(p, g, a).events
      ensures end == First(p, g, a).end && over == IsOver(p, g, a)
      ensures end == Complete ==> pos == old(pos) - 1 + First(p, g, a).used
    {
      hide Execute, NumeralCount, Thousandths;
      assert |bytes| >= pos >= 1 && a == bytes[pos - 1..];
      ghost var n := NumeralCount(a);
      var v, c, eof := ReadNumeral(c0, a);
      if eof {
        return EofInEscape, true;
      }
      assert n < |a| && c == a[n] && bytes[pos..] == a[n + 1..] && pos == old(pos) + n by {
        assert |bytes[pos - 1..]| == |a[n..]|;
      }
      if 64 <= c <= 94 {
        assert IsLast(c);
        end := ParameterizedEsc(p, g, v, c as int);
        over := true;
      } else if 96 <= c <= 126 {
        assert !IsLast(c) && IsGroup(c);
        end := ParameterizedEsc(p, g, v, c as int - 32);
        over := end != Complete;
      } else {
        assert !IsLast(c) && !IsGroup(c);
        events := events + [Misterminated];
        end, over := Complete, true;
      }
    }

    /** The loop over the possibly combined commands of one escape sequence. Without a
        group character, the first character of the first numeral is in hand already. */
    method Combination(p: byte, g: byte, c0: byte) returns (end: End)
      requires 1 <= pos <= |bytes| && c0 == bytes[pos - 1]
      modifies `pos, `events
      ensures pos <= |bytes|
      ensures var start := if g == 0 then old(pos) - 1 else old(pos);
        var d := Parameters(p, g, bytes[start..]);
        events == old(events) + d.events && end == d.end && (end == Complete ==> pos == start + d.used)
    {
      hide Execute, IsGroup, IsLast, Parameters, SignCount, Thousandths, UnsignedCount;
      var iteration, c := 0, c0;
      ghost var start := if g == 0 then pos - 1 else pos;
      ghost var all := Parameters(p, g, bytes[start..]);
      ghost var d, at := Done(events + all.events, all.used, all.end), start;
      assert Going(p, g, d, events, 0, bytes[at..]);
      hide Ahead, First, IsOver, Going;
      while true
        invariant 1 <= pos <= |bytes| && at == (if g == 0 && iteration == 0 then pos - 1 else pos)
        invariant g == 0 && iteration == 0 ==> c == bytes[pos - 1]
        invariant iteration >= 0 && start <= at
        invariant Going(p, g, d, events, at - start, bytes[at..])
        decreases |bytes| - at
      {
        ghost var a := bytes[at..];
        GoOn(p, g, d, events, at - start, a);
        if g != 0 || iteration > 0 {
          if pos == |bytes| {
            NoneFirst(p, g);
            return EofInEscape;
          }
          c := bytes[pos];
          pos := pos + 1;
        }
        iteration := iteration + 1;
        InHand(c, at);
        var over;
        end, over := OneCommand(p, g, c, a);
        if over {
          return;
        }
        DropDrop(bytes, at, First(p, g, a).used);
        at := at + First(p, g, a).used;
      }
    }

    /** The body of the loop of parse_stream(). */
    method OneThing(c0: byte) returns (end: End)
      requires 1 <= pos <= |bytes| && c0 == bytes[pos - 1]
      modifies `pos, `events
      ensures pos <= |bytes|
      ensures var d := Step(bytes[old(pos) - 1..]);
        events == old(events) + d.events && end == d.end && (end == Complete ==> pos == old(pos) - 1 + d.used)
    {
      hide Parameters;
      ghost var from := pos - 1;
      ghost var s := bytes[from..];
      assert s[0] == c0 && (|s| > 1 ==> s[1] == bytes[from + 1]) && (|s| > 2 ==> s[2] == bytes[from + 2]);
      end := Complete;
      if c0 == 27 {
        if pos == |bytes| {
          return EofInEscape;
        }
        var c := bytes[pos];
        pos := pos + 1;
        if c >= 33 && c <= 47 {
          var parameterized, group: byte := c, 0;
          if pos == |bytes| {
            return EofInEscape;
          }
          c := bytes[pos];
          pos := pos + 1;
          assert IsGroup(c) <==> 96 <= c <= 126;
          if c >= 96 && c <= 126 {
            group := c;
          }
          assert s[2..] == bytes[from + 2..] && s[3..] == bytes[from + 3..];
          end := Combination(parameterized, group, c);
        } else {
          events := events + [SimpleEsc(c)];
        }
      } else if c0 <= 32 {
        events := events + [Control(c0)];
      } else {
        events := events + [Printable(c0)];
      }
    }

    /** parse_stream(): it does what the stream means, up to where that ends. */
    method ParseStream() returns (end: End)
      requires pos == 0 && events == []
      modifies `pos, `events
      ensures Parse(events, end) == ParseAll(bytes)
    {
      hide IsGroup, Parameters;
      ghost var rest := ParseAll(bytes);
      assert bytes[0..] == bytes && [] + rest.events == rest.events;
      while pos < |bytes|
        invariant pos <= |bytes| && rest == ParseAll(bytes[pos..])
        invariant ParseAll(bytes) == Parse(events + rest.events, rest.end)
        decreases |bytes| - pos
      {
        ghost var s, done := bytes[pos..], events;
        ParseStep(s);
        ghost var d := Step(s);
        assert d.end == Complete ==> d.used > 0;
        pos := pos + 1;
        end := OneThing(bytes[pos - 1]);
        if end != Complete {
          return;
        }
        assert s[d.used..] == bytes[pos..];
        rest := ParseAll(bytes[pos..]);
        Assoc(done, d.events, rest.events);
      }
      end := Complete;
      assert rest == Parse([], Complete) && events + [] == events;
    }
  }

  /** After `done` and `k` bytes, the whole is what the rest makes it. */
  ghost predicate Going(p: byte, g: byte, d: Done, done: seq<Event>, k: int, rest: seq<byte>) {
    var e := Parameters(p, g, rest);
    k >= 0 && d == Done(done + e.events, k + e.used, e.end)
  }

  lemma GoOn(p: byte, g: byte, d: Done, done: seq<Event>, k: int, rest: seq<byte>)
    requires Going(p, g, d, done, k, rest)
    ensures var f := First(p, g, rest);
      if IsOver(p, g, rest) then d == Done(done + f.events, k + f.used, f.end)
      else f.end == Complete && f.used > 0 && Going(p, g, d, done + f.events, k + f.used, rest[f.used..])
  {
    hide Execute, IsGroup, IsLast, NumeralCount, Parameters, Thousandths;
    ParametersFirst(p, g, rest);
    if !IsOver(p, g, rest) {
      assert First(p, g, rest).end == Complete && First(p, g, rest).used > 0;
      Assoc(done, First(p, g, rest).events, Parameters(p, g, rest[First(p, g, rest).used..]).events);
    }
  }

  lemma Assoc(a: seq<Event>, b: seq<Event>, c: seq<Event>)
    ensures a + b + c == a + (b + c)
  {
  }

  /** The first command of a combination. */
  function First(p: byte, g: byte, a: seq<byte>): (d: Done)
    ensures d.used <= |a|
  {
    var n := NumeralCount(a);
    if n == |a| then Done([], |a|, EofInEscape)
    else if !IsLast(a[n]) && !IsGroup(a[n]) then Done([Misterminated], n + 1, Complete)
    else
      NumeralAlone(a);
      var f := Execute(p, g, Thousandths(a[..n]), if IsLast(a[n]) then a[n] as int else a[n] as int - 32, a[n + 1..]);
      Done(f.events, n + 1 + f.used, f.end)
  }

  /** Whether it is the last. */
  predicate IsOver(p: byte, g: byte, a: seq<byte>) {
    var n := NumeralCount(a);
    n == |a| || !IsGroup(a[n]) || First(p, g, a).end != Complete
  }

  lemma NoneFirst(p: byte, g: byte)
    ensures First(p, g, []) == Done([], 0, EofInEscape) && IsOver(p, g, [])
  {
  }

  lemma ParametersFirst(p: byte, g: byte, a: seq<byte>)
    ensures var f := First(p, g, a);
      Parameters(p, g, a) ==
        if IsOver(p, g, a) then f
        else
          var more := Parameters(p, g, a[f.used..]);
          Done(f.events + more.events, f.used + more.used, more.end)
  {
    hide NumeralCount, Thousandths, Execute;
  }

  lemma Places(digits: seq<byte>, f: seq<byte>, count: nat, m: nat)
    requires count <= m <= |f| && (if m < 3 then count == m else count == 3)
    ensures digits + f[..count] + seq(3 - count, _ => 48 as byte) == digits + ThreePlaces(f[..m])
  {
    if m >= 3 {
      assert f[..m][..3] == f[..3];
    }
  }

  /** How much of the stream the first thing in it takes, and what it is. */
  function Step(s: seq<byte>): (d: Done)
    requires s != []
    ensures d.used <= |s|
  {
    if s[0] != ESC then Done([if s[0] <= 32 then Control(s[0]) else Printable(s[0])], 1, Complete)
    else if |s| == 1 then Done([], 1, EofInEscape)
    else if !(33 <= s[1] <= 47) then Done([SimpleEsc(s[1])], 2, Complete)
    else if |s| == 2 then Done([], 2, EofInEscape)
    else
      var from := if IsGroup(s[2]) then 3 else 2;
      var d := Parameters(s[1], if IsGroup(s[2]) then s[2] else 0, s[from..]);
      Done(d.events, from + d.used, d.end)
  }

  lemma ParseStep(s: seq<byte>)
    requires s != []
    ensures ParseAll(s) ==
      if Step(s).end != Complete then Parse(Step(s).events, Step(s).end)
      else Parse(Step(s).events + ParseAll(s[Step(s).used..]).events, ParseAll(s[Step(s).used..]).end)
  {
    hide Parameters;
  }

  lemma WholeNone()
    ensures AllDigits([]) && Whole([]) == 0
  {
  }

  lemma FourInRow(d: seq<byte>, t: seq<byte>)
    requires |t| == 3
    ensures d + t == d + [t[0]] + [t[1]] + [t[2]]
  {
  }

  lemma WholeThree(d: seq<byte>, t: seq<byte>)
    requires AllDigits(d) && AllDigits(t) && |t| == 3
    ensures AllDigits(d + t) && Whole(d + t) == 1000 * Whole(d) + Whole(t)
  {
    var a, b, c := t[0], t[1], t[2];
    assert IsDigit(a) && IsDigit(b) && IsDigit(c);
    hide IsDigit, Whole, AllDigits;
    WholeNone();
    WholeSnoc(d, a);
    WholeSnoc(d + [a], b);
    WholeSnoc(d + [a] + [b], c);
    FourInRow(d, t);
    WholeSnoc([], a);
    WholeSnoc([] + [a], b);
    WholeSnoc([] + [a] + [b], c);
    FourInRow([], t);
    assert [] + t == t;
  }

  /** A sign, digits, and perhaps a point and more digits. */
  function Numeral(sign: seq<byte>, d: seq<byte>, point: bool, f: seq<byte>): seq<byte> {
    sign + (d + Tail(point, f))
  }

  predicate IsSign(sign: seq<byte>) { sign == [] || sign == [43] || sign == [45] }

  function Tail(point: bool, f: seq<byte>): seq<byte> { if point then [46] + f else [] }

  lemma NoSign(d: seq<byte>, point: bool, f: seq<byte>)
    requires AllDigits(d)
    ensures SignCount(d + Tail(point, f)) == 0
  {
    var u := d + Tail(point, f);
    if d != [] {
      assert u[0] == d[0] && IsDigit(d[0]);
    }
  }

  lemma UnsignedValue(d: seq<byte>, point: bool, f: seq<byte>)
    requires AllDigits(d) && AllDigits(f) && (!point ==> f == [])
    ensures var u := d + Tail(point, f);
      && UnsignedCount(u) == |u| && AllDigits(ThreePlaces(f))
      && Unsigned(u) == Whole(d + ThreePlaces(f))
  {
    CountAll(d);
    CountAll(f);
    hide DigitCount, Whole, UnsignedCount, Unsigned;
    if point {
      PointAfter(d, f);
    } else {
      assert d + [] == d && d[..|d|] == d && ThreePlaces([]) == [48, 48, 48];
      WholeOnly(d, |d|);
    }
  }

  lemma SignedThousandths(sign: seq<byte>, u: seq<byte>)
    requires IsSign(sign) && UnsignedCount(u) == |u| && SignCount(u) == 0
    ensures NumeralCount(sign + u) == |sign + u|
    ensures Thousandths(sign + u) == (if sign == [45] then 0 - Unsigned(u) else Unsigned(u))
  {
    hide UnsignedCount, Unsigned;
    assert (sign + u)[|sign|..] == u;
    if sign == [] {
      assert sign + u == u;
    }
  }

  /** A numeral is worth a thousand times its whole part and the first three places of
      its fraction, if it has one; a minus sign turns it round. */
  lemma NumeralValue(sign: seq<byte>, d: seq<byte>, point: bool, f: seq<byte>)
    requires IsSign(sign) && AllDigits(d) && AllDigits(f) && (!point ==> f == [])
    ensures var s := Numeral(sign, d, point, f);
      && NumeralCount(s) == |s| && AllDigits(ThreePlaces(f))
      && Thousandths(s) == (if sign == [45] then -1 else 1) * (1000 * Whole(d) + Whole(ThreePlaces(f)))
  {
    UnsignedValue(d, point, f);
    NoSign(d, point, f);
    hide AllDigits, DigitCount, UnsignedCount, Unsigned, Whole, NumeralCount, Thousandths;
    SignedThousandths(sign, d + Tail(point, f));
    WholeThree(d, ThreePlaces(f));
  }

  /** And these are all the numerals there are. */
  lemma NumeralForm(s: seq<byte>) returns (sign: seq<byte>, d: seq<byte>, point: bool, f: seq<byte>)
    requires NumeralCount(s) == |s|
    ensures IsSign(sign) && AllDigits(d) && AllDigits(f) && (!point ==> f == []) && s == Numeral(sign, d, point, f)
  {
    var w := SignCount(s);
    sign := s[..w];
    d, point, f := UnsignedForm(s[w..]);
    hide UnsignedCount, AllDigits, Tail;
    assert s == sign + s[w..];
  }

  lemma UnsignedForm(u: seq<byte>) returns (d: seq<byte>, point: bool, f: seq<byte>)
    requires UnsignedCount(u) == |u|
    ensures AllDigits(d) && AllDigits(f) && (!point ==> f == []) && u == d + Tail(point, f)
  {
    hide DigitCount;
    var p := DigitCount(u);
    d, point := u[..p], p < |u|;
    f := if point then u[p + 1..] else [];
    if point {
      assert u == u[..p] + ([u[p]] + u[p + 1..]);
    }
  }

  lemma {:induction false} CountAll(d: seq<byte>)
    requires AllDigits(d)
    ensures DigitCount(d) == |d|
  {
    if d != [] {
      CountAll(d[1..]);
    }
  }
}

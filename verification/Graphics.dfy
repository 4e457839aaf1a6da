// graphic() of filter_dotmatrix/graphics.c: read a graphic, and if it makes any
// mark emit it as a data block, compressed for level 2 and in hexadecimal
// otherwise.

/** What both the drawing of a graphic and its skipping need to know of it. */
module GraphicsBlocks {
  import opened Options

  const MAX_GBYTES := 8640

  /** Dots to the inch, for the modes there are. */
  function Density(mode: nat): Option<nat> {
    match mode
    case 0 | 32 => Some(60)
    case 1 | 2 | 33 => Some(120)
    case 3 => Some(240)
    case 4 => Some(80)
    case 5 => Some(72)
    case 6 | 38 => Some(90)
    case 39 => Some(180)
    case 40 => Some(360)
    case _ => None
  }

  datatype Pins = Pins8or24 | Pins9

  lemma DensityTable(mode: nat)
    ensures Density(mode).None? <==> mode !in {0, 1, 2, 3, 4, 5, 6, 32, 33, 38, 39, 40}
    ensures var d := Density(mode);
            && (d == Some(60) <==> mode in {0, 32}) && (d == Some(120) <==> mode in {1, 2, 33})
            && (d == Some(240) <==> mode == 3) && (d == Some(80) <==> mode == 4)
            && (d == Some(72) <==> mode == 5) && (d == Some(90) <==> mode in {6, 38})
            && (d == Some(180) <==> mode == 39) && (d == Some(360) <==> mode == 40)
  {
  }

  /** Bytes of data a command announces. */
  function DataBytes(mode: nat, pins: Pins, length: nat): nat {
    match pins
    case Pins8or24 => if mode < 32 then length else length * 3
    case Pins9 => length * 2
  }

  /** Pins to a column. */
  function TruePins(mode: nat, pins: Pins): nat {
    match pins
    case Pins8or24 => if mode < 32 then 8 else 24
    case Pins9 => 9
  }

  /** A column has a bit for each of its pins, in as few bytes as hold them; and it
      takes 24 pins exactly in the 24-pin modes, 9 exactly when nine are asked for. */
  lemma ColumnsFitPins(mode: nat, pins: Pins, length: nat)
    ensures DataBytes(mode, pins, length) == length * ((TruePins(mode, pins) + 7) / 8)
    ensures TruePins(mode, pins) == 9 <==> pins.Pins9?
    ensures TruePins(mode, pins) == 24 <==> pins.Pins8or24? && mode >= 32
    ensures TruePins(mode, pins) == 8 <==> pins.Pins8or24? && mode < 32
  {
  }
}

module Graphics {
  import opened Bytes
  import opened GraphicsBlocks
  import opened Options
  import RunLength
  import Ascii85

  const HEX_BPL := 39

  /** What the call writes: the fatal exit for a mode that does not exist or a graphic
      too big for the buffer, nothing, or a block. `lines` is the count in the %%BeginData comment and
      `body` the text after the command line. */
  datatype Result =
    | BadMode
    | NoMarks
    | TooBig
    | Block(lines: nat, density: nat, length: nat, truePins: nat, body: string)

  /** The next `n` bytes of the input, zeros standing in for what is missing. */
  function Taken(input: seq<byte>, n: nat): (data: seq<byte>)
    ensures |data| == n
  {
    if n <= |input| then input[..n] else input + seq(n - |input|, _ => 0)
  }

  // -------------------------------------------------------------- hexadecimal

  function HexDigit(n: nat): char
    requires n < 16
  {
    "0123456789ABCDEF"[n]
  }

  function HexValue(c: char): (v: int)
    ensures v < 16
  {
    if '0' <= c <= '9' then c as int - 48
    else if 'A' <= c <= 'F' then c as int - 55
    else -1
  }

  /** readhexstring: take the hexadecimal digits in pairs and ignore the rest. */
  datatype HexReader = HexReader(high: int, bytes: seq<byte>)

  function FeedHex(r: HexReader, c: char): HexReader
    requires r.high < 16
  {
    var v := HexValue(c);
    if v < 0 then r
    else if r.high < 0 then r.(high := v)
    else HexReader(-1, r.bytes + [r.high * 16 + v])
  }

  function ReadHex(text: string): (r: HexReader)
    ensures r.high < 16
  {
    if text == "" then HexReader(-1, []) else FeedHex(ReadHex(text[..|text| - 1]), text[|text| - 1])
  }

  lemma ReadHexChar(text: string, c: char)
    ensures ReadHex(text + [c]) == FeedHex(ReadHex(text), c)
    ensures Ascii85.Newlines(text + [c]) == Ascii85.Newlines(text) + if c == '\n' then 1 else 0
  {
    assert (text + [c])[..|text|] == text;
    Ascii85.NewlinesChar(text, c);
  }

  lemma ReadHexByte(text: string, b: byte)
    requires ReadHex(text).high == -1
    ensures ReadHex(text + [HexDigit(b / 16), HexDigit(b % 16)]) == HexReader(-1, ReadHex(text).bytes + [b])
    ensures Ascii85.Newlines(text + [HexDigit(b / 16), HexDigit(b % 16)]) == Ascii85.Newlines(text)
  {
    hide ReadHex, Ascii85.Newlines;
    var h, l := HexDigit(b / 16), HexDigit(b % 16);
    assert HexValue(h) == b / 16 && HexValue(l) == b % 16;
    assert text + [h, l] == (text + [h]) + [l];
    ReadHexChar(text, h);
    ReadHexChar(text + [h], l);
  }

  method PrintHex(gbuffer: array<byte>, count: nat) returns (text: string)
    requires 0 < count <= gbuffer.Length
    ensures ReadHex(text) == HexReader(-1, gbuffer[..count])
    ensures Ascii85.Newlines(text) == (count + 38) / 39
  {
    hide ReadHex, Ascii85.Newlines, HexDigit;
    text := "";
    var linelen, x := 0, 0;
    ghost var lines := 0;
    assert ReadHex("") == HexReader(-1, []) && Ascii85.Newlines("") == 0 by { StartHex(); }
    while x < count
      invariant 0 <= x <= count && x == HEX_BPL * lines + linelen && 0 <= lines
      invariant 0 <= linelen <= HEX_BPL && (x > 0 ==> linelen > 0)
      invariant ReadHex(text) == HexReader(-1, gbuffer[..x]) && Ascii85.Newlines(text) == lines
    {
      linelen := linelen + 1;
      if linelen > HEX_BPL {
        ReadHexChar(text, '\n');
        text := text + "\n";
        linelen := 1;
        lines := lines + 1;
      }
      ReadHexByte(text, gbuffer[x]);
      text := text + [HexDigit(gbuffer[x] / 16), HexDigit(gbuffer[x] % 16)];
      assert gbuffer[..x + 1] == gbuffer[..x] + [gbuffer[x]];
      x := x + 1;
    }
    ReadHexChar(text, '\n');
    text := text + "\n";
  }

  lemma StartHex()
    ensures ReadHex("") == HexReader(-1, []) && Ascii85.Newlines("") == 0
  {
  }

  // ------------------------------------------------------------------ graphic

  /** A PostScript interpreter's reading of a level 2 body. */
  function ReadLevel2(body: string): seq<byte> {
    RunLength.Decode(Ascii85.Decode(body).bytes)
  }

  /** The block's text and the lines it is announced with. */
  method Emit(gbuffer: array<byte>, countdown: nat, level2: bool) returns (lines: nat, body: string)
    requires 0 < countdown <= MAX_GBYTES && gbuffer.Length == MAX_GBYTES + 1
    ensures lines == Ascii85.Newlines(body) + 1
    ensures if level2 then
              Ascii85.Decode(body).phase.Ended? && ReadLevel2(body) == gbuffer[..countdown + 1]
            else
              ReadHex(body) == HexReader(-1, gbuffer[..countdown]) && lines == (countdown + 38) / 39 + 1
  {
    hide ReadHex, Ascii85.Newlines, Ascii85.Decode;
    if level2 {
      var gbuffer2 := new byte[20000];
      var di := RunLength.PackBits(gbuffer, countdown, gbuffer2);
      body := Ascii85.Print(gbuffer2, di);
      lines := (di + Ascii85.A85_BPL - 1) / Ascii85.A85_BPL + 1;
    } else {
      body := PrintHex(gbuffer, countdown);
      lines := (countdown + HEX_BPL - 1) / HEX_BPL + 1;
    }
  }

  /** `after` is the byte that follows the graphic in memory. The buffer is
      MAX_GBYTES long, so for a graphic that fills it this byte lies outside.
      Of a block, `truePins` names the operator that draws it, and the data is what
      that operator needs for `length` columns of as many pins. */
  method Graphic(mode: nat, pins: Pins, length: nat, level2: bool, input: seq<byte>, after: byte)
    returns (r: Result, rest: seq<byte>)
    ensures r.BadMode? <==> mode !in {0, 1, 2, 3, 4, 5, 6, 32, 33, 38, 39, 40}
    ensures r.TooBig? <==> !r.BadMode? && DataBytes(mode, pins, length) > 8640
    ensures r.BadMode? || r.TooBig? ==> rest == input
    ensures !r.BadMode? && !r.TooBig? ==>
              var data := Taken(input, DataBytes(mode, pins, length));
              && rest == (if |data| <= |input| then input[|data|..] else [])
              && (r.NoMarks? <==> forall i :: 0 <= i < |data| ==> data[i] == 0)
    ensures r.Block? ==>
              var data := Taken(input, DataBytes(mode, pins, length));
              && r.length == length && |data| == length * ((r.truePins + 7) / 8)
              && (r.truePins == 8 || r.truePins == 9 || r.truePins == 24)
              && (r.truePins == 9 <==> pins.Pins9?) && (r.truePins == 24 <==> pins.Pins8or24? && mode >= 32)
              && (r.density == 60 <==> mode in {0, 32}) && (r.density == 120 <==> mode in {1, 2, 33})
              && (r.density == 240 <==> mode == 3) && (r.density == 80 <==> mode == 4)
              && (r.density == 72 <==> mode == 5) && (r.density == 90 <==> mode in {6, 38})
              && (r.density == 180 <==> mode == 39) && (r.density == 360 <==> mode == 40)
              && r.lines == Ascii85.Newlines(r.body) + 1
              && if level2 then
                   Ascii85.Decode(r.body).phase.Ended? && ReadLevel2(r.body) == data + [after]
                 else
                   ReadHex(r.body) == HexReader(-1, data) && r.lines == (|data| + 38) / 39 + 1
  {
    DensityTable(mode);
    hide Density, DataBytes, TruePins, Taken, ReadLevel2, ReadHex, Ascii85.Newlines, Ascii85.Decode;
    var density := Density(mode);
    if density.None? {
      return BadMode, input;
    }
    var truePins := TruePins(mode, pins);
    var countdown := DataBytes(mode, pins, length);
    ColumnsFitPins(mode, pins, length);
    if countdown > MAX_GBYTES {
      return TooBig, input;
    }
    var gbuffer := new byte[MAX_GBYTES + 1](_ => after);
    var someblack := Read(gbuffer, countdown, input);
    ghost var data := Taken(input, countdown);
    assert gbuffer[..countdown] == data;
    rest := if countdown <= |input| then input[countdown..] else [];
    if !someblack {
      assert forall i :: 0 <= i < |data| ==> data[i] == gbuffer[i];
      return NoMarks, rest;
    }
    assert exists i :: 0 <= i < |data| && data[i] != 0;
    assert gbuffer[..countdown + 1] == data + [after];
    var lines, body := Emit(gbuffer, countdown, level2);
    r := Block(lines, density.value, length, truePins, body);
  }

  method Read(gbuffer: array<byte>, countdown: nat, input: seq<byte>) returns (someblack: bool)
    requires countdown < gbuffer.Length
    modifies gbuffer
    ensures gbuffer[..countdown] == Taken(input, countdown)
    ensures gbuffer[countdown] == old(gbuffer[countdown])
    ensures someblack <==> exists i :: 0 <= i < countdown && gbuffer[i] != 0
  {
    someblack := false;
    var x := 0;
    while x < countdown
      invariant 0 <= x <= countdown
      invariant forall i :: 0 <= i < x ==> gbuffer[i] == Taken(input, countdown)[i]
      invariant gbuffer[countdown] == old(gbuffer[countdown])
      invariant someblack <==> exists i :: 0 <= i < x && gbuffer[i] != 0
    {
      var c := if x < |input| then input[x] else 0;
      gbuffer[x] := c;
      if c != 0 {
        someblack := true;
      }
      x := x + 1;
    }
  }
}

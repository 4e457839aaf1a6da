// The ASCII85 half of the level 2 graphics compressor (filter_dotmatrix/graphics.c),
// proved against the ASCII85Decode filter of section 3.13.3 of the PostScript
// Language Reference, third edition.

module Ascii85 {
  import opened Bytes

  const A85_BPL := 60                 // data bytes per line of output
  const P2 := 7225                    // 85 squared
  const P3 := 614125                  // 85 cubed
  const P4 := 52200625                // 85 to the fourth

  // ---------------------------------------------------------------- the filter

  /** What the decoder holds: the digits of the group being read, the bytes
      decoded, and whether it is still reading, met `~`, met `~>` or failed. */
  type digit = x: int | 0 <= x < 85

  datatype Phase = Reading | Tilde | Ended | Failed
  datatype Decoder = Decoder(group: seq<digit>, bytes: seq<byte>, phase: Phase)

  const Start := Decoder([], [], Reading)

  function Value(d: seq<digit>): nat
    requires |d| == 5
  {
    P4 * d[0] + P3 * d[1] + P2 * d[2] + 85 * (d[3] as int) + d[4]
  }

  function Word(b: seq<byte>): (w: nat)
    requires |b| == 4
    ensures w < 0x1_0000_0000
  {
    (b[0] as int) * 0x1000000 + (b[1] as int) * 0x10000 + (b[2] as int) * 0x100 + b[3]
  }

  /** The four bytes of a 32-bit word, most significant first. */
  function WordBytes(w: nat): seq<byte> {
    [w / 0x1000000 % 256, w / 0x10000 % 256, w / 0x100 % 256, w % 256]
  }

  /** Finish a group of two to five digits: pad it with the digit 84 and keep
      one byte fewer than it had digits. */
  function Flush(d: Decoder): Decoder
    requires |d.group| <= 5
  {
    var n := |d.group|;
    if n == 0 then d
    else if n == 1 then d.(phase := Failed)
    else
      var w := Value(d.group + seq(5 - n, _ => 84));
      if w >= 0x1_0000_0000 then d.(phase := Failed)
      else Decoder([], d.bytes + WordBytes(w)[..n - 1], d.phase)
  }

  function Feed(d: Decoder, c: char): Decoder {
    if d.phase.Ended? || d.phase.Failed? || |d.group| > 4 then d
    else if d.phase.Tilde? then
      if c == '>' then Flush(d.(phase := Ended)) else d.(phase := Failed)
    else if c == '\n' || c == ' ' || c == '\r' || c == '\t' then d
    else if c == '~' then d.(phase := Tilde)
    else if c == 'z' && d.group == [] then d.(bytes := d.bytes + [0, 0, 0, 0])
    else if '!' <= c <= 'u' then
      var d' := d.(group := d.group + [c as int - 33]);
      if |d'.group| == 5 then Flush(d') else d'
    else d.(phase := Failed)
  }

  function Decode(text: string): Decoder {
    if text == "" then Start else Feed(Decode(text[..|text| - 1]), text[|text| - 1])
  }

  lemma DecodeChar(text: string, c: char)
    ensures Decode(text + [c]) == Feed(Decode(text), c)
  {
    assert (text + [c])[..|text|] == text;
  }

  /** Five digits are the four bytes of their value, most significant first, and an error
      if that is no 32-bit number. */
  lemma GroupRead(d: Decoder)
    requires |d.group| == 5
    ensures Value(d.group) >= 0x1_0000_0000 ==> Flush(d) == d.(phase := Failed)
    ensures Value(d.group) < 0x1_0000_0000 ==>
      var f := Flush(d);
      && f.group == [] && f.phase == d.phase && |f.bytes| == |d.bytes| + 4 && d.bytes <= f.bytes
      && Word(f.bytes[|d.bytes|..]) == Value(d.group)
  {
    assert d.group + seq(0, _ => 84) == d.group;
    var w := Value(d.group);
    if w < 0x1_0000_0000 {
      var b := WordBytes(w);
      assert b[..4] == b && (d.bytes + b)[|d.bytes|..] == b;
      BytesValue(w);
    }
  }

  lemma BytesValue(w: nat)
    requires w < 0x1_0000_0000
    ensures Word(WordBytes(w)) == w
  {
    var a, b, c := w / 0x100, w / 0x10000, w / 0x1000000;
    assert w == 0x100 * a + w % 0x100 && a == 0x100 * b + a % 0x100 && b == 0x100 * c + b % 0x100;
    assert b == a / 0x100 && c == b / 0x100;
  }

  /** `z` stands for five exclamation marks. */
  lemma ZeroGroup(d: Decoder)
    requires d.phase.Reading? && d.group == []
    ensures Feed(d, 'z') == Feed(Feed(Feed(Feed(Feed(d, '!'), '!'), '!'), '!'), '!')
  {
    ZeroFlush(d.(group := [0, 0, 0, 0, 0]));
    hide Flush;
    assert Feed(d, '!') == d.(group := [0]);
    assert Feed(d.(group := [0]), '!') == d.(group := [0, 0]);
    assert Feed(d.(group := [0, 0]), '!') == d.(group := [0, 0, 0]);
    assert Feed(d.(group := [0, 0, 0]), '!') == d.(group := [0, 0, 0, 0]);
    assert [0, 0, 0, 0] + [0] == [0, 0, 0, 0, 0];
  }

  lemma ZeroFlush(d: Decoder)
    requires d.group == [0, 0, 0, 0, 0]
    ensures Flush(d) == Decoder([], d.bytes + [0, 0, 0, 0], d.phase)
  {
    assert d.group + seq(0, _ => 84) == d.group;
    assert Value(d.group) == 0 && WordBytes(0) == [0, 0, 0, 0];
    assert WordBytes(0)[..4] == [0, 0, 0, 0];
  }

  function Newlines(text: string): nat {
    if text == "" then 0
    else Newlines(text[..|text| - 1]) + if text[|text| - 1] == '\n' then 1 else 0
  }

  lemma NewlinesChar(text: string, c: char)
    ensures Newlines(text + [c]) == Newlines(text) + if c == '\n' then 1 else 0
  {
    assert (text + [c])[..|text|] == text;
  }

  // ------------------------------------------------------------- the arithmetic

  /** The base-85 digits of a word, as the source peels them off. */
  function Digits(w: nat): (d: seq<digit>)
    requires w < 0x1_0000_0000
    ensures |d| == 5
  {
    [w / P4, w % P4 / P3, w % P4 % P3 / P2, w % P4 % P3 % P2 / 85, w % P4 % P3 % P2 % 85]
  }

  lemma DigitsValue(w: nat)
    requires w < 0x1_0000_0000
    ensures Value(Digits(w)) == w
  {
  }

  lemma BytesOfWord(b: seq<byte>)
    requires |b| == 4
    ensures WordBytes(Word(b)) == b
  {
    var w := Word(b);
    assert w / 0x100 == (b[0] as int) * 0x10000 + (b[1] as int) * 0x100 + b[2];
    assert w / 0x10000 == (b[0] as int) * 0x100 + b[1];
    assert w / 0x1000000 == b[0];
  }

  /** Replacing the digits of `w` after the first `k + 1` by 84 adds less than 85^(4-k). */
  lemma PadDigits(w: nat, k: nat)
    requires w < 0x1_0000_0000 && 1 <= k <= 4
    ensures var w' := Value(Digits(w)[..k + 1] + seq(4 - k, _ => 84));
            w <= w' < w + [P3, P2, 85, 1][k - 1]
  {
    var d := Digits(w)[..k + 1] + seq(4 - k, _ => 84);
    DigitsValue(w);
    assert forall i :: 0 <= i <= k ==> d[i] == Digits(w)[i];
    assert forall i :: k < i < 5 ==> d[i] == 84;
  }

  /** Dropping the last digits of a zero-padded word and padding with 84 instead
      moves the word up, but not far enough to change a byte that counts. */
  lemma PartialGroup(b: seq<byte>, k: nat)
    requires |b| == 4 && 1 <= k <= 4
    requires forall i :: k <= i < 4 ==> b[i] == 0
    ensures var w' := Value(Digits(Word(b))[..k + 1] + seq(4 - k, _ => 84));
            w' < 0x1_0000_0000 && WordBytes(w')[..k] == b[..k]
  {
    var w' := Value(Digits(Word(b))[..k + 1] + seq(4 - k, _ => 84));
    PadDigits(Word(b), k);
    hide Value, Digits;
    Raise(b, w' - Word(b), k);
  }

  lemma Raise(b: seq<byte>, e: nat, k: nat)
    requires |b| == 4 && 1 <= k <= 4 && e < [0x1000000, 0x10000, 0x100, 1][k - 1]
    requires forall i :: k <= i < 4 ==> b[i] == 0
    ensures Word(b) + e < 0x1_0000_0000 && WordBytes(Word(b) + e)[..k] == b[..k]
  {
    hide WordBytes;
    var b': seq<byte> := if k == 1 then [b[0], e / 0x10000, e / 0x100 % 0x100, e % 0x100]
                         else if k == 2 then [b[0], b[1], e / 0x100, e % 0x100]
                         else if k == 3 then [b[0], b[1], b[2], e]
                         else b;
    assert Word(b') == Word(b) + e;
    BytesOfWord(b');
    assert b'[..k] == b[..k];
  }

  // --------------------------------------------------------------- the encoder

  /** Output so far: decoded up to here it gives `bytes`, between groups, and
      `lines` lines have been finished. */
  ghost predicate Emitted(text: string, bytes: seq<byte>, lines: nat)
  {
    Decode(text) == Decoder([], bytes, Reading) && Newlines(text) == lines
  }

  lemma EmitNewline(text: string, bytes: seq<byte>, lines: nat)
    requires Emitted(text, bytes, lines)
    ensures Emitted(text + "\n", bytes, lines + 1)
  {
    DecodeChar(text, '\n');
    NewlinesChar(text, '\n');
  }

  function Symbol(d: digit): char { (33 + d) as char }

  function Symbols(ds: seq<digit>): string {
    seq(|ds|, i requires 0 <= i < |ds| => Symbol(ds[i]))
  }

  lemma FeedDigit(d: Decoder, x: digit)
    requires d.phase.Reading? && |d.group| <= 4
    ensures var d' := d.(group := d.group + [x]);
            Feed(d, Symbol(x)) == if |d.group| == 4 then Flush(d') else d'
  {
  }

  lemma SymbolsSnoc(text: string, ds: seq<digit>)
    requires ds != []
    ensures var k := |ds| - 1;
            text + Symbols(ds) == text + Symbols(ds[..k]) + [Symbol(ds[k])] && ds == ds[..k] + [ds[k]]
  {
    var k := |ds| - 1;
    assert Symbols(ds) == Symbols(ds[..k]) + [Symbol(ds[k])];
  }

  lemma NoSymbols(text: string)
    ensures text + Symbols([]) == text
  {
  }

  /** Emit digits one at a time, as fputc does: they pile up in the group. */
  lemma {:induction false} EmitDigits(text: string, bytes: seq<byte>, lines: nat, ds: seq<digit>)
    requires Emitted(text, bytes, lines) && |ds| < 5
    ensures Decode(text + Symbols(ds)) == Decoder(ds, bytes, Reading)
    ensures Newlines(text + Symbols(ds)) == lines
    decreases |ds|
  {
    if ds == [] {
      NoSymbols(text);
    } else {
      hide Decode, Newlines, Emitted, Feed, Symbols;
      var k := |ds| - 1;
      EmitDigits(text, bytes, lines, ds[..k]);
      var t := text + Symbols(ds[..k]);
      var c := Symbol(ds[k]);
      SymbolsSnoc(text, ds);
      FeedDigit(Decoder(ds[..k], bytes, Reading), ds[k]);
      DecodeChar(t, c);
      NewlinesChar(t, c);
    }
  }

  /** A full group of five symbols gives back its four bytes. */
  lemma EmitFull(text: string, bytes: seq<byte>, lines: nat, b: seq<byte>)
    requires Emitted(text, bytes, lines) && |b| == 4
    ensures Emitted(text + Symbols(Digits(Word(b))), bytes + b, lines)
  {
    BytesOfWord(b);
    DigitsValue(Word(b));
    hide Decode, Newlines, Feed, Symbols;
    var d := Digits(Word(b));
    EmitDigits(text, bytes, lines, d[..4]);
    var t := text + Symbols(d[..4]);
    var c := Symbol(d[4]);
    SymbolsSnoc(text, d);
    FeedDigit(Decoder(d[..4], bytes, Reading), d[4]);
    DecodeChar(t, c);
    NewlinesChar(t, c);
    assert d[..4] + [d[4]] == d == d + seq(0, _ => 84);
    assert WordBytes(Value(d))[..4] == b;
  }

  /** A last group of k bytes is k+1 symbols; closed by `~>` it gives back k bytes. */
  lemma EmitPartial(text: string, bytes: seq<byte>, lines: nat, b: seq<byte>, k: nat)
    requires Emitted(text, bytes, lines) && |b| == 4 && 1 <= k <= 3
    requires forall i :: k <= i < 4 ==> b[i] == 0
    ensures var t := text + Symbols(Digits(Word(b))[..k + 1]) + "~>\n";
            Decode(t) == Decoder([], bytes + b[..k], Ended) && Newlines(t) == lines + 1
  {
    hide Decode, Newlines;
    PartialGroup(b, k);
    var d := Digits(Word(b))[..k + 1];
    EmitDigits(text, bytes, lines, d);
    EmitEnd(text + Symbols(d), lines);
  }

  lemma EmitEnd(t: string, lines: nat)
    requires Decode(t).phase.Reading? && |Decode(t).group| <= 4 && Newlines(t) == lines
    requires Flush(Decode(t).(phase := Ended)).phase == Ended
    ensures Decode(t + "~>\n") == Flush(Decode(t).(phase := Ended)) && Newlines(t + "~>\n") == lines + 1
  {
    hide Decode, Newlines;
    DecodeChar(t, '~');
    DecodeChar(t + "~", '>');
    DecodeChar(t + "~>", '\n');
    NewlinesChar(t, '~');
    NewlinesChar(t + "~", '>');
    NewlinesChar(t + "~>", '\n');
    assert t + "~>" == t + "~" + ">" && t + "~>\n" == t + "~>" + "\n";
  }

  /** Closed by `~>`, the text decodes to all the data. */
  ghost predicate Closes(text: string, data: seq<byte>, lines: nat)
  {
    Decode(text + "~>\n") == Decoder([], data, Ended) && Newlines(text + "~>\n") == lines
  }

  lemma EmitStart()
    ensures Emitted("", [], 0)
  {
  }

  /** One turn of the output loop. */
  lemma EmitGroup(text: string, data: seq<byte>, x: nat, lines: nat, b: seq<byte>, k: nat)
    requires x < |data| && Emitted(text, data[..x], lines)
    requires k == if |data| - x < 4 then |data| - x else 4
    requires |b| == 4 && b[..k] == data[x..x + k] && forall i :: k <= i < 4 ==> b[i] == 0
    ensures var t := text + Symbols(Digits(Word(b))[..k + 1]);
            if x + 4 < |data| then Emitted(t, data[..x + 4], lines) else Closes(t, data, lines + 1)
  {
    hide Decode, Newlines, Symbols, Digits, Word;
    if k < 4 {
      EmitPartial(text, data[..x], lines, b, k);
      assert data[..x] + b[..k] == data;
    } else {
      assert Digits(Word(b))[..5] == Digits(Word(b));
      EmitFull(text, data[..x], lines, b);
      assert b[..4] == b && data[..x] + b == data[..x + 4];
      if x + 4 == |data| {
        assert data[..x + 4] == data;
        EmitEnd(text + Symbols(Digits(Word(b))), lines);
      }
    }
  }

  /** Print one tuple: always two symbols, and one more for each further byte. */
  method PrintTuple(text0: string, tuple0: nat, countdown0: nat) returns (text: string, countdown: nat)
    requires tuple0 < 0x1_0000_0000 && countdown0 > 0
    ensures var k := if countdown0 < 4 then countdown0 else 4;
            text == text0 + Symbols(Digits(tuple0)[..k + 1]) && countdown == countdown0 - k
  {
    var tuple := tuple0;
    countdown := countdown0;
    text := text0 + [Symbol(tuple / P4)];
    tuple := tuple % P4;
    text := text + [Symbol(tuple / P3)];
    tuple := tuple % P3;
    countdown := countdown - 1;
    if countdown > 0 {
      text := text + [Symbol(tuple / P2)];
      tuple := tuple % P2;
      countdown := countdown - 1;
      if countdown > 0 {
        text := text + [Symbol(tuple / 85)];
        tuple := tuple % 85;
        countdown := countdown - 1;
        if countdown > 0 {
          text := text + [Symbol(tuple)];
          countdown := countdown - 1;
        }
      }
    }
  }

  /** Number of ASCII85 lines for `n` bytes of data. */
  function LineCount(n: nat): nat { (n + A85_BPL - 1) / A85_BPL }

  /** Fill the last 4-tuple up with zeros. */
  method Pad(gbuffer2: array<byte>, count: nat) returns (di: nat)
    requires 0 < count && count + 3 <= gbuffer2.Length
    modifies gbuffer2
    ensures di % 4 == 0 && count <= di < count + 4 && di <= gbuffer2.Length
    ensures gbuffer2[..count] == old(gbuffer2[..count])
    ensures forall i :: count <= i < di ==> gbuffer2[i] == 0
  {
    di := count;
    while di % 4 != 0
      invariant count <= di <= gbuffer2.Length && (di - 1) / 4 == (count - 1) / 4
      invariant gbuffer2[..count] == old(gbuffer2[..count])
      invariant forall i :: count <= i < di ==> gbuffer2[i] == 0
      decreases count + 4 - di
    {
      gbuffer2[di] := 0;
      di := di + 1;
    }
  }

  lemma GroupOf(padded: seq<byte>, data: seq<byte>, x: nat)
    requires data <= padded && x + 4 <= |padded| && x < |data|
    requires forall i :: |data| <= i < |padded| ==> padded[i] == 0
    ensures var b := padded[x..x + 4];
            var k := if |data| - x < 4 then |data| - x else 4;
            b[..k] == data[x..x + k] && forall i :: k <= i < 4 ==> b[i] == 0
  {
  }

  lemma LastLine(count: nat, x: nat, lines: nat, linelen: nat)
    requires 0 < linelen <= A85_BPL && x == 60 * lines + linelen && x % 4 == 0 && 0 < count <= x < count + 4
    ensures LineCount(count) == lines + 1
  {
    assert 60 * lines < count <= 60 * (lines + 1);
  }

  /** Count four more bytes on the current line, starting a new one if it is full. */
  method BreakLine(text0: string, linelen0: nat, ghost bytes: seq<byte>, ghost lines0: nat)
    returns (text: string, linelen: nat, ghost lines: nat)
    requires Emitted(text0, bytes, lines0) && linelen0 <= A85_BPL && linelen0 % 4 == 0
    ensures Emitted(text, bytes, lines)
    ensures 60 * lines + linelen == 60 * lines0 + linelen0 + 4 && 0 < linelen <= A85_BPL && linelen % 4 == 0
  {
    text, linelen, lines := text0, linelen0 + 4, lines0;
    if linelen > A85_BPL {
      EmitNewline(text, bytes, lines);
      text := text + "\n";
      linelen := 4;
      lines := lines + 1;
    }
  }

  /** The output loop at offset `x`, `linelen` bytes on the current line. */
  ghost predicate Printing(text: string, data: seq<byte>, x: nat, countdown: nat, linelen: nat, lines: nat) {
    && x % 4 == 0 && x == 60 * lines + linelen && linelen <= A85_BPL && linelen % 4 == 0
    && (if countdown > 0 then x + countdown == |data| && Emitted(text, data[..x], lines)
        else |data| <= x < |data| + 4 && linelen > 0 && Closes(text, data, lines + 1))
  }

  /** The body of the output loop, on the next four bytes. */
  method PrintGroup(text0: string, b: seq<byte>, countdown0: nat, linelen0: nat, ghost data: seq<byte>, ghost x: nat, ghost lines0: nat)
    returns (text: string, countdown: nat, linelen: nat, ghost lines: nat)
    requires countdown0 > 0 && Printing(text0, data, x, countdown0, linelen0, lines0) && |b| == 4
    requires var k := if countdown0 < 4 then countdown0 else 4;
             b[..k] == data[x..x + k] && forall i :: k <= i < 4 ==> b[i] == 0
    ensures Printing(text, data, x + 4, countdown, linelen, lines) && countdown < countdown0
  {
    hide Emitted, Closes, Symbols, Digits, Word;
    text, linelen, lines := BreakLine(text0, linelen0, data[..x], lines0);
    var tuple := Word(b);
    EmitGroup(text, data, x, lines, b, if countdown0 < 4 then countdown0 else 4);
    text, countdown := PrintTuple(text, tuple, countdown0);
  }

  /** The bytes that make up a tuple. */
  method FourBytes(buffer: array<byte>, x: nat) returns (b: seq<byte>)
    requires x + 4 <= buffer.Length
    ensures |b| == 4 && b == buffer[x..x + 4]
  {
    b := [buffer[x], buffer[x + 1], buffer[x + 2], buffer[x + 3]];
  }

  /** The output loop: pad the packets to a multiple of four and print them. The
      text decodes to exactly the `count` packet bytes, on LineCount(count) lines. */
  method Print(gbuffer2: array<byte>, count: nat) returns (text: string)
    requires 0 < count && count + 3 <= gbuffer2.Length
    modifies gbuffer2
    ensures Decode(text) == Decoder([], old(gbuffer2[..count]), Ended)
    ensures Newlines(text) == LineCount(count) == (count + 59) / 60
  {
    ghost var data := gbuffer2[..count];
    var di := Pad(gbuffer2, count);
    ghost var padded := gbuffer2[..di];
    assert padded[..count] == data;
    var countdown := count;
    var linelen, x := 0, 0;
    ghost var lines := 0;
    text := "";
    EmitStart();
    assert Printing(text, data, x, countdown, linelen, lines) by { assert data[..0] == []; }
    hide Decode, Newlines, Emitted, LineCount, Printing;
    while countdown > 0
      modifies {}
      invariant gbuffer2[..di] == padded && Printing(text, data, x, countdown, linelen, lines)
    {
      InBuffer(text, data, x, countdown, linelen, lines, di);
      GroupOf(padded, data, x);
      var b := FourBytes(gbuffer2, x);
      assert b == padded[x..x + 4];
      text, countdown, linelen, lines := PrintGroup(text, b, countdown, linelen, data, x, lines);
      x := x + 4;
    }
    Printed(text, data, x, linelen, lines);
    text := text + "~>\n";
  }

  lemma InBuffer(text: string, data: seq<byte>, x: nat, countdown: nat, linelen: nat, lines: nat, di: nat)
    requires countdown > 0 && Printing(text, data, x, countdown, linelen, lines)
    requires |data| <= di && di % 4 == 0
    ensures x + 4 <= di && x < |data| && countdown == |data| - x
  {
    hide Emitted, Closes;
    assert x < di && x % 4 == 0;
  }

  lemma Printed(text: string, data: seq<byte>, x: nat, linelen: nat, lines: nat)
    requires Printing(text, data, x, 0, linelen, lines) && data != []
    ensures Decode(text + "~>\n") == Decoder([], data, Ended) && Newlines(text + "~>\n") == LineCount(|data|)
  {
    hide Decode, Newlines, LineCount;
    LastLine(|data|, x, lines, linelen);
  }
}

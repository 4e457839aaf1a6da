// The scanner of a PostScript interpreter, for the part of the syntax that the
// filters print: comments, numbers, names and strings with escapes
// (section 3.2 of the PostScript Language Reference, third edition).

module PostScript {
  datatype Token =
    | Number(value: int)
    | Name(name: string)
    | Literal(name: string)
    | Text(text: string)

  /** What the scanner is in the middle of. An octal escape takes up to three digits. */
  datatype Mode =
    | Idle
    | Word(word: string)
    | InText(text: string, escape: Escape)
    | Comment
    | Bad

  datatype Escape = Plain | Backslash | Octal(value: nat, digits: nat)

  datatype Scanner = Scanner(mode: Mode, tokens: seq<Token>)

  const Start := Scanner(Idle, [])

  predicate IsSpace(c: char) { c == ' ' || c == '\n' || c == '\t' || c == '\r' }

  predicate IsDelimiter(c: char) {
    c == '(' || c == ')' || c == '<' || c == '>' || c == '[' || c == ']' || c == '{' || c == '}' || c == '/' || c == '%'
  }

  predicate IsRegular(c: char) { !IsSpace(c) && !IsDelimiter(c) }

  predicate IsDigit(c: char) { '0' <= c <= '9' }

  predicate IsOctal(c: char) { '0' <= c <= '7' }

  // -------------------------------------------------------------------- numbers

  function Digits(n: nat): (s: string)
    ensures |s| > 0 && forall i :: 0 <= i < |s| ==> IsDigit(s[i])
  {
    (if n < 10 then "" else Digits(n / 10)) + [(n % 10 + 48) as char]
  }

  function Decimal(n: int): string {
    if n < 0 then "-" + Digits(-n) else Digits(n)
  }

  predicate AllDigits(s: string) { forall i :: 0 <= i < |s| ==> IsDigit(s[i]) }

  function ParseDigits(s: string): nat
    requires AllDigits(s)
  {
    if s == "" then 0 else ParseDigits(s[..|s| - 1]) * 10 + (s[|s| - 1] as int - 48)
  }

  lemma {:induction false} ParseDigitsOfDigits(n: nat)
    ensures ParseDigits(Digits(n)) == n
  {
    var s := Digits(n);
    assert s[..|s| - 1] == if n < 10 then "" else Digits(n / 10);
    if n >= 10 {
      ParseDigitsOfDigits(n / 10);
    }
  }

  // --------------------------------------------------------------------- words

  function Classify(w: string): Token
    requires w != ""
  {
    if w[0] == '/' then Literal(w[1..])
    else if AllDigits(w) then Number(ParseDigits(w))
    else if w[0] == '-' && |w| > 1 && AllDigits(w[1..]) then Number(0 - ParseDigits(w[1..]))
    else Name(w)
  }

  lemma DigitsAreRegular(s: string)
    requires AllDigits(s)
    ensures forall i :: 0 <= i < |s| ==> IsRegular(s[i])
  {
  }

  lemma ClassifyDecimal(n: int)
    ensures Decimal(n) != "" && Classify(Decimal(n)) == Number(n)
    ensures forall i :: 0 <= i < |Decimal(n)| ==> IsRegular(Decimal(n)[i])
  {
    hide IsRegular, ParseDigits, Digits;
    var m: nat := if n < 0 then -n else n;
    ParseDigitsOfDigits(m);
    DigitsAreRegular(Digits(m));
    if n < 0 {
      assert Decimal(n)[0] == '-' && Decimal(n)[1..] == Digits(m);
      assert IsRegular('-') by { MinusIsRegular(); }
      assert forall i :: 1 <= i < |Decimal(n)| ==> Decimal(n)[i] == Digits(m)[i - 1];
    }
  }

  lemma MinusIsRegular()
    ensures IsRegular('-')
  {
  }

  // ------------------------------------------------------------------- the scan

  /** End the word being read, if any. */
  function EndWord(s: Scanner): Scanner {
    if s.mode.Word? && s.mode.word != "" then Scanner(Idle, s.tokens + [Classify(s.mode.word)]) else s
  }

  function ScanOutside(s: Scanner, c: char): Scanner {
    if IsSpace(c) then EndWord(s)
    else if c == '(' then EndWord(s).(mode := InText("", Plain))
    else if c == '%' then EndWord(s).(mode := Comment)
    else if c == '/' then EndWord(s).(mode := Word("/"))
    else if IsRegular(c) then s.(mode := Word(if s.mode.Word? then s.mode.word + [c] else [c]))
    else s.(mode := Bad)
  }

  function Unescape(c: char): char {
    if c == 'n' then '\n' else if c == 't' then '\t' else if c == 'r' then '\r'
    else if c == 'b' then 8 as char else if c == 'f' then 12 as char else c
  }

  function OctalChar(v: nat): char { (v % 256) as char }

  function ScanPlain(s: Scanner, text: string, c: char): Scanner {
    if c == '\\' then s.(mode := InText(text, Backslash))
    else if c == ')' then Scanner(Idle, s.tokens + [Text(text)])
    else if c == '(' then s.(mode := Bad)
    else s.(mode := InText(text + [c], Plain))
  }

  function ScanText(s: Scanner, text: string, e: Escape, c: char): Scanner {
    match e
    case Plain => ScanPlain(s, text, c)
    case Backslash =>
      if IsOctal(c) then s.(mode := InText(text, Octal(c as int - 48, 1)))
      else s.(mode := InText(text + [Unescape(c)], Plain))
    case Octal(v, n) =>
      if IsOctal(c) && n < 3 then s.(mode := InText(text, Octal(v * 8 + (c as int - 48), n + 1)))
      else ScanPlain(s, text + [OctalChar(v)], c)
  }

  function Step(s: Scanner, c: char): Scanner {
    match s.mode
    case Bad => s
    case Comment => if c == '\n' then s.(mode := Idle) else s
    case InText(text, e) => ScanText(s, text, e, c)
    case _ => ScanOutside(s, c)
  }

  function Scan(s: Scanner, t: string): Scanner {
    if t == "" then s else Step(Scan(s, t[..|t| - 1]), t[|t| - 1])
  }

  // ----------------------------------------------------- what scanning adds up to

  lemma {:induction false} ScanConcat(s: Scanner, a: string, b: string)
    ensures Scan(s, a + b) == Scan(Scan(s, a), b)
    decreases |b|
  {
    if b == "" {
      assert a + b == a;
    } else {
      var k := |b| - 1;
      assert (a + b)[..|a| + k] == a + b[..k];
      ScanConcat(s, a, b[..k]);
    }
  }

  lemma ScanChar(s: Scanner, c: char)
    ensures Scan(s, [c]) == Step(s, c)
  {
    assert [c][..0] == "";
    assert Scan(s, "") == s;
  }

  lemma Scan2(s: Scanner, a: char, b: char)
    ensures Scan(s, [a, b]) == Step(Step(s, a), b)
  {
    assert [a, b] == [a] + [b];
    ScanConcat(s, [a], [b]);
    ScanChar(s, a);
    ScanChar(Step(s, a), b);
  }

  lemma Scan3(s: Scanner, a: char, b: char, c: char)
    ensures Scan(s, [a, b, c]) == Step(Step(Step(s, a), b), c)
  {
    assert [a, b, c] == [a, b] + [c];
    ScanConcat(s, [a, b], [c]);
    Scan2(s, a, b);
    ScanChar(Step(Step(s, a), b), c);
  }

  /** Reading the characters of a word, from outside any word. */
  lemma {:induction false} ScanWord(s: Scanner, w: string)
    requires s.mode.Idle? && w != ""
    requires forall i :: 0 <= i < |w| ==> IsRegular(w[i]) || (i == 0 && w[0] == '/')
    ensures Scan(s, w) == s.(mode := Word(w))
    decreases |w|
  {
    var k := |w| - 1;
    if k == 0 {
      assert w == [w[0]];
      ScanChar(s, w[0]);
    } else {
      ScanWord(s, w[..k]);
      assert w == w[..k] + [w[k]];
    }
  }

  /** A word with a space or newline after it is one token. */
  lemma ScanSpaced(s: Scanner, w: string, space: string)
    requires s.mode.Idle? && w != "" && (space == " " || space == "\n")
    requires forall i :: 0 <= i < |w| ==> IsRegular(w[i]) || (i == 0 && w[0] == '/')
    ensures Scan(s, w + space) == Scanner(Idle, s.tokens + [Classify(w)])
  {
    ScanWord(s, w);
    ScanConcat(s, w, space);
    ScanChar(s.(mode := Word(w)), space[0]);
    assert space == [space[0]];
  }

  lemma ScanNumber(s: Scanner, n: int)
    requires s.mode.Idle?
    ensures Scan(s, Decimal(n) + " ") == Scanner(Idle, s.tokens + [Number(n)])
  {
    ClassifyDecimal(n);
    ScanSpaced(s, Decimal(n), " ");
  }

  /** A comment up to its newline is nothing. */
  lemma {:induction false} ScanComment(s: Scanner, t: string)
    requires s.mode.Comment? && forall i :: 0 <= i < |t| ==> t[i] != '\n'
    ensures Scan(s, t) == s
    decreases |t|
  {
    if t != "" {
      ScanComment(s, t[..|t| - 1]);
    }
  }

  lemma ScanCommentLine(s: Scanner, t: string)
    requires s.mode.Idle? && forall i :: 0 <= i < |t| ==> t[i] != '\n'
    ensures Scan(s, "%" + t + "\n") == s
  {
    ScanChar(s, '%');
    ScanConcat(s, "%", t);
    ScanComment(s.(mode := Comment), t);
    ScanConcat(s, "%" + t, "\n");
    ScanChar(s.(mode := Comment), '\n');
  }

  lemma NoNewlineInDecimal(n: int)
    ensures forall i :: 0 <= i < |Decimal(n)| ==> Decimal(n)[i] != '\n'
  {
    hide Decimal;
    ClassifyDecimal(n);
    forall i | 0 <= i < |Decimal(n)| ensures Decimal(n)[i] != '\n' { assert IsRegular(Decimal(n)[i]); }
  }
}

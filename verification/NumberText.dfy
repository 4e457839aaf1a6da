// Printing and reading numbers (libgu/gu_dtostr.c, libgu/gu_getdouble.c), over the
// reals: what is printed reads back as the number, rounded to four places.

module NumberText {
  import opened PostScript

  // ------------------------------------------------------------------- reading

  function Place(k: nat): (r: real)
    ensures r > 0.0
  {
    if k == 0 then 1.0 else Place(k - 1) / 10.0
  }

  function Digit(c: char): int
    requires IsDigit(c)
  {
    c as int - 48
  }

  /** The value of digits after a decimal point. */
  function Fraction(s: string): real
    requires AllDigits(s)
  {
    if s == "" then 0.0 else Fraction(s[..|s| - 1]) + Place(|s|) * Digit(s[|s| - 1]) as real
  }

  /** How many digits there are from `i` on. */
  function DigitsFrom(s: string, i: nat): (n: nat)
    requires i <= |s|
    ensures i + n <= |s| && AllDigits(s[i..i + n])
    ensures i + n < |s| ==> !IsDigit(s[i + n])
    decreases |s| - i
  {
    if i < |s| && IsDigit(s[i]) then
      var n := 1 + DigitsFrom(s, i + 1);
      assert forall j :: i + 1 <= j < i + n ==> s[j] == s[i + 1..i + n][j - i - 1];
      n
    else 0
  }

  function Blanks(s: string, i: nat): (n: nat)
    requires i <= |s|
    ensures i + n <= |s|
    decreases |s| - i
  {
    if i < |s| && (s[i] == ' ' || s[i] == '\t') then 1 + Blanks(s, i + 1) else 0
  }

  /** The number at the beginning of a text: blanks, a sign, digits, and digits after
      a point, all of which may be missing. */
  function Reading(s: string): real {
    var i := Blanks(s, 0);
    var sign := if i < |s| && s[i] == '-' then -1.0 else 1.0;
    var w := if i < |s| && (s[i] == '+' || s[i] == '-') then i + 1 else i;
    var p := w + DigitsFrom(s, w);
    var whole := ParseDigits(s[w..p]) as real;
    sign * (if p < |s| && s[p] == '.' then whole + Fraction(s[p + 1..p + 1 + DigitsFrom(s, p + 1)]) else whole)
  }

  lemma NextDigit(s: string, i: nat)
    requires i <= |s|
    ensures DigitsFrom(s, i) == if i < |s| && IsDigit(s[i]) then 1 + DigitsFrom(s, i + 1) else 0
  {
  }

  lemma NextPlace(k: nat)
    ensures Place(k + 1) == Place(k) / 10.0
  {
  }

  lemma NextBlank(s: string, i: nat)
    requires i <= |s|
    ensures Blanks(s, i) == if i < |s| && (s[i] == ' ' || s[i] == '\t') then 1 + Blanks(s, i + 1) else 0
  {
  }

  /** The loop for the whole part. */
  method ReadWhole(s: string, w: nat) returns (t: real, i: nat)
    requires w <= |s|
    ensures i == w + DigitsFrom(s, w) && t == ParseDigits(s[w..i]) as real
  {
    hide *;
    t, i := 0.0, w;
    NoDigits(s, w);
    while i < |s| && IsDigit(s[i])
      invariant w <= i <= |s| && i + DigitsFrom(s, i) == w + DigitsFrom(s, w)
      invariant AllDigits(s[w..i]) && t == ParseDigits(s[w..i]) as real
    {
      NextDigit(s, i);
      MoreDigits(s, w, i);
      t := t * 10.0 + Digit(s[i]) as real;
      i := i + 1;
    }
    NextDigit(s, i);
  }

  /** The loop for the fractional part. */
  method ReadFraction(s: string, f: nat, whole: real) returns (t: real)
    requires f <= |s|
    ensures t == whole + Fraction(s[f..f + DigitsFrom(s, f)])
  {
    hide AllDigits, Digit, DigitsFrom, Fraction, IsDigit, ParseDigits;
    var place, i := 0.1, f;
    t := whole;
    NoDigits(s, f);
    assert Place(0) == 1.0;
    NextPlace(0);
    while i < |s| && IsDigit(s[i])
      invariant f <= i <= |s| && i + DigitsFrom(s, i) == f + DigitsFrom(s, f)
      invariant AllDigits(s[f..i]) && place == Place(i - f + 1) && t == whole + Fraction(s[f..i])
    {
      NextDigit(s, i);
      MoreDigits(s, f, i);
      NextPlace(i - f + 1);
      t := t + place * Digit(s[i]) as real;
      place := place / 10.0;
      i := i + 1;
    }
    NextDigit(s, i);
  }

  /** gu_getdouble(). The end of the text is its terminating zero. */
  method GetDouble(s: string) returns (value: real)
    ensures value == Reading(s)
  {
    hide Blanks, DigitsFrom, Fraction, ParseDigits;
    var sign, t, i := 1.0, 0.0, 0;
    while i < |s| && (s[i] == ' ' || s[i] == '\t')
      invariant i <= |s| && i + Blanks(s, i) == Blanks(s, 0)
    {
      NextBlank(s, i);
      i := i + 1;
    }
    NextBlank(s, i);
    if i < |s| && s[i] == '+' {
      i := i + 1;
    } else if i < |s| && s[i] == '-' {
      sign := -1.0;
      i := i + 1;
    }
    t, i := ReadWhole(s, i);
    if i < |s| && s[i] == '.' {
      t := ReadFraction(s, i + 1, t);
    }
    value := t * sign;
  }

  lemma NoDigits(s: string, a: nat)
    requires a <= |s|
    ensures AllDigits(s[a..a]) && ParseDigits(s[a..a]) == 0 && Fraction(s[a..a]) == 0.0
  {
  }

  lemma MoreDigits(s: string, a: nat, i: nat)
    requires a <= i < |s| && AllDigits(s[a..i]) && IsDigit(s[i])
    ensures AllDigits(s[a..i + 1])
    ensures ParseDigits(s[a..i + 1]) == ParseDigits(s[a..i]) * 10 + Digit(s[i])
    ensures Fraction(s[a..i + 1]) == Fraction(s[a..i]) + Place(i + 1 - a) * Digit(s[i]) as real
  {
    assert s[a..i + 1][..i - a] == s[a..i];
  }

  // ------------------------------------------------------------------ printing

  /** The last k digits of a number. */
  function LastDigits(f: nat, k: nat): (s: string)
    ensures |s| == k && AllDigits(s)
  {
    if k == 0 then "" else LastDigits(f / 10, k - 1) + [(f % 10 + 48) as char]
  }

  /** The same, without the zeros at the end. */
  function Stripped(f: nat, k: nat): (s: string)
    ensures |s| <= k && AllDigits(s)
    ensures s != "" ==> s[|s| - 1] != '0'
  {
    if k == 0 then "" else if f % 10 == 0 then Stripped(f / 10, k - 1) else LastDigits(f, k)
  }

  function Absolute(n: real): real { if n < 0.0 then -n else n }

  /** The fractional part in ten thousandths, rounded. It is 10000 when it rounds up
      to a whole. */
  function TenThousandths(m: real): (f: nat)
    requires m >= 0.0
    ensures f <= 10000
  {
    ((m - m.Floor as real + 0.00005) * 10000.0).Floor
  }

  function Point(fraction: string): string { if fraction == "" then "" else "." + fraction }

  /** What gu_dtostr() prints. */
  function Text(n: real): string {
    var m := Absolute(n);
    if m.Floor > 999999999 then "<overflow>"
    else (if n < 0.0 then "-" else "") + Digits(m.Floor) + Point(Stripped(TenThousandths(m), 4))
  }

  /** `*s-- = c`, with what is written so far ending before `e`. */
  method Store(buffer: array<char>, s: nat, c: char, ghost e: nat) returns (s': int)
    requires s < e <= buffer.Length
    modifies buffer
    ensures s' == s - 1 && buffer[s..e] == [c] + old(buffer[s + 1..e]) && buffer[e..] == old(buffer[e..])
  {
    buffer[s] := c;
    s' := s - 1;
  }

  /** The loop for the fractional part, which leaves out the zeros at its end. */
  method PrintFraction(buffer: array<char>, frac0: nat) returns (s: nat, z: bool)
    requires buffer.Length == 16
    modifies buffer
    ensures 10 <= s <= 14 && (z <==> s < 14) && buffer[s + 1..15] == Stripped(frac0, 4) && buffer[15..] == old(buffer[15..])
  {
    hide AllDigits;
    var frac, x := frac0, 0;
    s, z := 14, false;
    ghost var want, t := Stripped(frac0, 4), "";
    while x < 4
      invariant x <= 4 && 14 - x <= s <= 14 && (z <==> s < 14) && buffer[15..] == old(buffer[15..])
      invariant t == buffer[s + 1..15] && Pending(want, frac, 4 - x, z, t)
    {
      NextPending(want, frac, 4 - x, z, t);
      var y := frac % 10;
      if y != 0 || z {
        s := Store(buffer, s, (y + 48) as char, 15);
        z := true;
      }
      t := buffer[s + 1..15];
      frac := frac / 10;
      x := x + 1;
    }
    assert t == want;
  }

  /** With `t` printed, and `k` digits of `frac` to go, `want` is what there will be. */
  ghost predicate Pending(want: string, frac: nat, k: nat, z: bool, t: string) {
    want == (if z then LastDigits(frac, k) else Stripped(frac, k)) + t && (!z ==> t == "")
  }

  lemma NextPending(want: string, frac: nat, k: nat, z: bool, t: string)
    requires k > 0 && Pending(want, frac, k, z, t)
    ensures if frac % 10 != 0 || z then Pending(want, frac / 10, k - 1, true, [(frac % 10 + 48) as char] + t)
            else Pending(want, frac / 10, k - 1, z, t)
  {
    hide LastDigits, Stripped;
    OneDigit(frac, k);
    var head, c := LastDigits(frac / 10, k - 1), (frac % 10 + 48) as char;
    assert head + [c] + t == head + ([c] + t);
  }

  lemma OneDigit(f: nat, k: nat)
    requires k > 0
    ensures LastDigits(f, k) == LastDigits(f / 10, k - 1) + [(f % 10 + 48) as char]
    ensures Stripped(f, k) == if f % 10 == 0 then Stripped(f / 10, k - 1) else LastDigits(f, k)
  {
  }

  lemma {:induction false} NineDigits(n: nat)
    requires n <= 999999999
    ensures |Digits(n)| <= 9
  {
    assert |Digits(n)| <= 1 + if n < 10 then 0 else |Digits(n / 10)|;
    DigitsLength(n, 9);
  }

  function Tens(k: nat): (r: nat)
    ensures r > 0
  {
    if k == 0 then 1 else 10 * Tens(k - 1)
  }

  lemma {:induction false} DigitsLength(n: nat, k: nat)
    requires k >= 1 && n < Tens(k)
    ensures |Digits(n)| <= k
  {
    if n >= 10 {
      assert k > 1 by { assert Tens(1) == 10 * Tens(0); }
      DigitsLength(n / 10, k - 1);
    }
  }

  /** The loop for the whole part. */
  method PrintWhole(buffer: array<char>, s0: nat, whole0: nat) returns (s: nat)
    requires buffer.Length == 16 && whole0 <= 999999999 && 9 <= s0 <= 14
    modifies buffer
    ensures s + |Digits(whole0)| == s0 && |Digits(whole0)| <= 9
    ensures buffer[s + 1..15] == Digits(whole0) + old(buffer[s0 + 1..15])
  {
    hide *;
    NineDigits(whole0);
    var whole := whole0;
    s := s0;
    ghost var tail := buffer[s0 + 1..15];
    ghost var head, t := Digits(whole0), tail;
    while true
      invariant s <= s0 && head == Digits(whole) && t == buffer[s + 1..15]
      invariant head + t == Digits(whole0) + tail && |t| == 14 - s
      decreases whole
    {
      LastDigit(whole);
      var c := (whole % 10 + 48) as char;
      head := if whole < 10 then "" else Digits(whole / 10);
      assert head + [c] + t == head + ([c] + t);
      s := Store(buffer, s, c, 15);
      t := buffer[s + 1..15];
      if whole < 10 {
        break;
      }
      whole := whole / 10;
    }
  }

  lemma LastDigit(n: nat)
    ensures Digits(n) == if n < 10 then [(n % 10 + 48) as char] else Digits(n / 10) + [(n % 10 + 48) as char]
  {
  }

  /** gu_dtostr() from the two integers on. The text is built backwards in 16 bytes,
      the last of which is the terminating zero. */
  method Print(neg: bool, whole: nat, frac: nat) returns (text: string)
    requires whole <= 999999999
    ensures text == (if neg then "-" else "") + Digits(whole) + Point(Stripped(frac, 4))
  {
    hide Digits, Stripped;
    var buffer := new char[16];
    buffer[15] := 0 as char;
    var s, z := PrintFraction(buffer, frac);
    ghost var t := buffer[s + 1..15];
    if z {
      s := Store(buffer, s, '.', 15);
    }
    assert buffer[s + 1..15] == Point(t);
    s := PrintWhole(buffer, s, whole);
    if neg {
      s := Store(buffer, s, '-', 15);
    }
    text := buffer[s + 1..15];
    Signed(neg, text, Digits(whole) + Point(t));
    SignedAssoc(neg, Digits(whole), Point(t));
  }

  /** gu_dtostr(), for numbers whose whole part is an `int`. */
  method Dtostr(n0: real) returns (text: string)
    requires -2147483648.0 < n0 < 2147483648.0
    ensures text == Text(n0)
  {
    hide Digits, Point, Stripped;
    var n, neg := n0, false;
    if n < 0.0 {
      neg := true;
      n := n * -1.0;
    }
    assert n == Absolute(n0);
    var whole := n.Floor;
    var frac := ((n - whole as real + 0.00005) * 10000.0).Floor;
    assert frac == TenThousandths(n);
    if whole > 999999999 {
      return "<overflow>";
    }
    text := Print(neg, whole, frac);
  }

  lemma Signed(neg: bool, text: string, rest: string)
    requires text == if neg then ['-'] + rest else rest
    ensures text == (if neg then "-" else "") + rest
  {
  }

  lemma SignedAssoc(neg: bool, a: string, b: string)
    ensures (if neg then "-" else "") + (a + b) == (if neg then "-" else "") + a + b
  {
  }

  // ---------------------------------------------------------------- round trip

  lemma ModIs(f: int, m: int, a: int, r: int)
    requires f == m * a + r && 0 <= r < m
    ensures f % m == r
  {
    var x := a - f / m;
    assert m * x == f % m - r;
    if x != 0 {
      AtLeast(m, x);
      assert false;
    }
  }

  lemma AtLeast(m: int, x: int)
    requires m > 0 && x != 0
    ensures m * x >= m || m * x <= -m
  {
    if x >= 1 {
      NotNegative(m, x - 1);
      assert m * x == m * (x - 1) + m;
    } else {
      NotNegative(m, -x - 1);
      assert m * x == -(m * (-x - 1)) - m;
    }
  }

  lemma NotNegative(a: int, b: int)
    requires a >= 0 && b >= 0
    ensures a * b >= 0
  {
  }

  lemma ModStep(f: nat, m: nat)
    requires m > 0
    ensures f % (10 * m) == 10 * ((f / 10) % m) + f % 10
  {
    var q := f / 10;
    var a := q / m;
    assert q == m * a + q % m;
    assert 10 * q == (10 * m) * a + 10 * (q % m);
    ModIs(f, 10 * m, a, 10 * (q % m) + f % 10);
  }

  lemma Shifted(a: int, b: int, p: real)
    ensures (10 * a + b) as real * p == a as real * (10.0 * p) + p * b as real
  {
  }

  lemma FractionSnoc(s: string, c: char)
    requires AllDigits(s) && IsDigit(c)
    ensures AllDigits(s + [c]) && Fraction(s + [c]) == Fraction(s) + Place(|s| + 1) * Digit(c) as real
  {
    hide Digit, Fraction, IsDigit, Place;
    assert AllDigits(s + [c]);
    assert (s + [c])[..|s|] == s;
    FractionLast(s + [c]);
  }

  lemma FractionLast(s: string)
    requires AllDigits(s) && s != ""
    ensures IsDigit(s[|s| - 1]) && AllDigits(s[..|s| - 1])
    ensures Fraction(s) == Fraction(s[..|s| - 1]) + Place(|s|) * Digit(s[|s| - 1]) as real
  {
    hide Place, IsDigit;
  }

  lemma {:induction false} LastDigitsValue(f: nat, k: nat)
    ensures Fraction(LastDigits(f, k)) == (f % Tens(k)) as real * Place(k)
  {
    hide AllDigits, IsDigit, LastDigits, Place, Tens;
    OneStep(f, k);
    if k == 0 {
      assert Fraction("") == 0.0;
    } else {
      LastDigitsValue(f / 10, k - 1);
      ModStep(f, Tens(k - 1));
      FractionSnoc(LastDigits(f / 10, k - 1), (f % 10 + 48) as char);
      Shifted((f / 10) % Tens(k - 1), f % 10, Place(k));
    }
  }

  lemma OneStep(f: nat, k: nat)
    ensures k == 0 ==> LastDigits(f, k) == "" && f % Tens(k) == 0
    ensures k > 0 ==> Tens(k) == 10 * Tens(k - 1) && Place(k - 1) == 10.0 * Place(k) && IsDigit((f % 10 + 48) as char)
    ensures k > 0 ==> LastDigits(f, k) == LastDigits(f / 10, k - 1) + [(f % 10 + 48) as char]
  {
  }

  lemma TensTo4()
    ensures Tens(0) == 1 && Tens(1) == 10 && Tens(2) == 100 && Tens(3) == 1000 && Tens(4) == 10000
  {
    assert Tens(1) == 10 * Tens(0) && Tens(2) == 10 * Tens(1) && Tens(3) == 10 * Tens(2) && Tens(4) == 10 * Tens(3);
  }

  lemma {:induction false} StrippedValue(f: nat, k: nat)
    ensures Fraction(Stripped(f, k)) == (f % Tens(k)) as real * Place(k)
  {
    hide AllDigits, Fraction, IsDigit, LastDigits, Place, Tens;
    LastDigitsValue(f, k);
    OneStep(f, k);
    if k == 0 {
      assert Stripped(f, k) == "";
    } else {
      OneDigit(f, k);
      if f % 10 == 0 {
        StrippedValue(f / 10, k - 1);
        ModStep(f, Tens(k - 1));
        Shifted((f / 10) % Tens(k - 1), 0, Place(k));
      }
    }
  }

  lemma {:induction false} DigitsUpTo(s: string, i: nat, j: nat)
    requires i <= j <= |s| && AllDigits(s[i..j]) && (j < |s| ==> !IsDigit(s[j]))
    ensures DigitsFrom(s, i) == j - i
    decreases j - i
  {
    if i < j {
      assert s[i] == s[i..j][0];
      assert s[i + 1..j] == s[i..j][1..];
      DigitsUpTo(s, i + 1, j);
    }
  }

  /** Reading a whole part and a fraction, after `w` characters of sign. */
  lemma ReadingParts(s: string, w: nat, p: nat)
    requires w < p <= |s| && AllDigits(s[w..p]) && (p < |s| ==> s[p] == '.' && AllDigits(s[p + 1..]))
    requires w == 0 || (w == 1 && s[0] == '-')
    ensures Reading(s) == (if w == 1 then -1.0 else 1.0) *
      (ParseDigits(s[w..p]) as real + if p < |s| then Fraction(s[p + 1..]) else 0.0)
  {
    SignThere(s, w, p);
    DigitsThere(s, w, p);
    hide *;
    ReadingIs(s, 0, w, p, |s|);
    if p < |s| {
      assert s[p + 1..|s|] == s[p + 1..];
    }
  }

  /** The parts of a number, where the blanks, the digits and the fraction are. */
  lemma ReadingIs(s: string, i: nat, w: nat, p: nat, q: nat)
    requires i <= w <= p <= |s| && Blanks(s, 0) == i && p == w + DigitsFrom(s, w)
    requires w == if i < |s| && (s[i] == '+' || s[i] == '-') then i + 1 else i
    requires p < |s| && s[p] == '.' ==> q == p + 1 + DigitsFrom(s, p + 1)
    ensures AllDigits(s[w..p]) && (p < |s| && s[p] == '.' ==> p < q <= |s| && AllDigits(s[p + 1..q]))
    ensures Reading(s) == (if i < |s| && s[i] == '-' then -1.0 else 1.0) *
      (ParseDigits(s[w..p]) as real + if p < |s| && s[p] == '.' then Fraction(s[p + 1..q]) else 0.0)
  {
    hide Blanks, Fraction, IsDigit, ParseDigits, AllDigits, DigitsFrom;
    if p < |s| && s[p] == '.' {
    } else {
    }
  }

  lemma SignThere(s: string, w: nat, p: nat)
    requires w < p <= |s| && AllDigits(s[w..p]) && (w == 0 || (w == 1 && s[0] == '-'))
    ensures Blanks(s, 0) == 0 && s[w] != '-' && s[w] != '+' && (w == 0 ==> s[0] != '-' && s[0] != '+')
  {
    assert IsDigit(s[w]) by { assert s[w..p][0] == s[w]; }
  }

  lemma DigitsThere(s: string, w: nat, p: nat)
    requires w < p <= |s| && AllDigits(s[w..p]) && (p < |s| ==> s[p] == '.' && AllDigits(s[p + 1..]))
    ensures DigitsFrom(s, w) == p - w
    ensures p < |s| ==> DigitsFrom(s, p + 1) == |s| - p - 1 && s[p + 1..|s|] == s[p + 1..]
  {
    NoDigit();
    hide DigitsFrom, IsDigit, AllDigits;
    DigitsUpTo(s, w, p);
    if p < |s| {
      assert s[p + 1..|s|] == s[p + 1..];
      DigitsUpTo(s, p + 1, |s|);
    }
  }

  lemma NoDigit()
    ensures !IsDigit('.')
  {
  }

  /** Reading a sign, a whole part and a fraction. */
  lemma ReadingOf(neg: bool, whole: string, fraction: string)
    requires AllDigits(whole) && whole != "" && AllDigits(fraction)
    ensures Reading((if neg then "-" else "") + whole + Point(fraction)) ==
      (if neg then -1.0 else 1.0) * (ParseDigits(whole) as real + Fraction(fraction))
  {
    hide AllDigits, Digit, ParseDigits, Place, Reading;
    var s := (if neg then "-" else "") + whole + Point(fraction);
    var w := if neg then 1 else 0;
    var p := w + |whole|;
    assert s[w..p] == whole;
    if fraction != "" {
      assert Point(fraction) == "." + fraction;
      assert s[p] == '.' && s[p + 1..] == fraction;
    } else {
      assert Point(fraction) == "" && Fraction("") == 0.0;
    }
    ReadingParts(s, w, p);
  }

  /** A number may have blanks before it, a sign of either kind, no digits at all, and
      anything after it. */
  lemma ReadingWithin(blanks: string, sign: string, whole: string, point: bool, fraction: string, rest: string)
    requires (forall i :: 0 <= i < |blanks| ==> blanks[i] == ' ' || blanks[i] == '\t') && sign in {"", "+", "-"}
    requires AllDigits(whole) && AllDigits(fraction) && (!point ==> fraction == "")
    requires rest != "" ==> !IsDigit(rest[0]) && (!point ==> rest[0] != '.')
    requires sign == whole == "" && !point && rest != "" ==> rest[0] !in {' ', '\t', '+', '-'}
    ensures Reading(blanks + sign + whole + (if point then "." + fraction else "") + rest) ==
      (if sign == "-" then -1.0 else 1.0) * (ParseDigits(whole) as real + Fraction(fraction))
  {
    hide *;
    var end := (if point then "." + fraction else "") + rest;
    var s := blanks + sign + whole + (if point then "." + fraction else "") + rest;
    var i := |blanks|;
    var w := i + |sign|;
    var p := w + |whole|;
    var q := p + 1 + |fraction|;
    PartsOf(blanks, sign, whole, if point then "." + fraction else "", rest);
    BeginsRight(sign, whole, point, fraction, rest);
    BlanksThere(blanks, sign + (whole + end));
    SignPlace(s, blanks, sign, whole + end);
    EndsRight(point, fraction, rest);
    if point {
      FractionOf(blanks + sign + whole, fraction, rest);
    }
    ReadingFrom(s, i, w, p, q, sign == "-", whole, point, fraction);
  }

  lemma ReadingFrom(s: string, i: nat, w: nat, p: nat, q: nat, neg: bool, whole: string, point: bool, fraction: string)
    requires Blanks(s, 0) == i <= w <= p <= |s| && w == if i < |s| && (s[i] == '+' || s[i] == '-') then i + 1 else i
    requires (neg <==> i < |s| && s[i] == '-') && (point <==> p < |s| && s[p] == '.')
    requires s[w..p] == whole && AllDigits(whole) && (p < |s| ==> !IsDigit(s[p]))
    requires if point then p < q <= |s| && s[p + 1..q] == fraction && AllDigits(fraction) && (q < |s| ==> !IsDigit(s[q]))
             else fraction == ""
    ensures AllDigits(fraction)
    ensures Reading(s) == (if neg then -1.0 else 1.0) * (ParseDigits(whole) as real + Fraction(fraction))
  {
    hide *;
    DigitsUpTo(s, w, p);
    if point {
      DigitsUpTo(s, p + 1, q);
    } else {
      NoDigits("", 0);
      assert ""[0..0] == "";
    }
    ReadingIs(s, i, w, p, q);
  }

  lemma Cut(a: string, b: string, c: string)
    ensures (a + (b + c))[|a|..|a| + |b|] == b && (a + (b + c))[|a| + |b|..] == c
    ensures c != "" ==> (a + (b + c))[|a| + |b|] == c[0]
  {
  }

  lemma PartsOf(blanks: string, sign: string, whole: string, fraction: string, rest: string)
    ensures var s, end := blanks + sign + whole + fraction + rest, fraction + rest;
      var w := |blanks| + |sign|;
      var p := w + |whole|;
      && s == blanks + (sign + (whole + end)) && whole + end == whole + fraction + rest && p + |end| == |s|
      && s[w..p] == whole && (end != "" ==> s[p] == end[0])
  {
    var end := fraction + rest;
    Cut(blanks + sign, whole, end);
    assert blanks + sign + whole + fraction + rest == blanks + sign + (whole + end);
  }

  lemma FractionOf(head: string, fraction: string, rest: string)
    ensures var s, f := head + ("." + fraction) + rest, |head| + 1;
      && |s| == f + |fraction| + |rest| && s[f..f + |fraction|] == fraction
      && (rest != "" ==> s[f + |fraction|] == rest[0])
  {
    Cut(head + ".", fraction, rest);
    assert head + ("." + fraction) + rest == head + "." + (fraction + rest);
  }

  lemma SignPlace(s: string, blanks: string, sign: string, tail: string)
    requires s == blanks + (sign + tail) && sign in {"", "+", "-"}
    requires sign == "" && tail != "" ==> tail[0] != '+' && tail[0] != '-'
    ensures var i := |blanks|;
      && i + |sign| <= |s| && i + |sign| == (if i < |s| && (s[i] == '+' || s[i] == '-') then i + 1 else i)
      && (i < |s| && s[i] == '-' <==> sign == "-")
  {
    var i := |blanks|;
    if sign != "" {
      assert s[i] == sign[0];
    } else if tail != "" {
      assert s[i] == tail[0];
    }
  }

  lemma EndsRight(point: bool, fraction: string, rest: string)
    requires rest != "" ==> !IsDigit(rest[0]) && (!point ==> rest[0] != '.')
    ensures var end := (if point then "." + fraction else "") + rest;
      && (end != "" ==> !IsDigit(end[0])) && (end != "" && end[0] == '.' <==> point)
      && (rest != "" ==> !IsDigit(rest[0]))
  {
    NoDigit();
  }

  predicate NotBlank(s: string) { s != "" ==> s[0] != ' ' && s[0] != '\t' }

  lemma BeginsRight(sign: string, whole: string, point: bool, fraction: string, rest: string)
    requires sign in {"", "+", "-"} && AllDigits(whole)
    requires sign == whole == "" && !point && rest != "" ==> rest[0] !in {' ', '\t', '+', '-'}
    ensures var t := sign + (whole + (if point then "." + fraction else "") + rest);
      NotBlank(t) && (sign == "" && t != "" ==> t[0] != '+' && t[0] != '-') && (sign != "" ==> t[0] == sign[0])
  {
    if sign == "" && whole != "" {
      assert IsDigit(whole[0]);
    }
  }

  lemma {:induction false} BlanksThere(blanks: string, t: string)
    requires (forall i :: 0 <= i < |blanks| ==> blanks[i] == ' ' || blanks[i] == '\t') && NotBlank(t)
    ensures Blanks(blanks + t, 0) == |blanks|
  {
    BlanksFrom(blanks, t, 0);
  }

  lemma {:induction false} BlanksFrom(blanks: string, t: string, i: nat)
    requires (forall i :: 0 <= i < |blanks| ==> blanks[i] == ' ' || blanks[i] == '\t') && NotBlank(t) && i <= |blanks|
    ensures Blanks(blanks + t, i) == |blanks| - i
    decreases |blanks| - i
  {
    if i < |blanks| {
      BlanksFrom(blanks, t, i + 1);
    }
  }

  /** Only numbers from a milliard on overflow; of the others the negative ones, and they
      only, get a sign. */
  lemma OverflowIff(n: real)
    ensures Text(n) == "<overflow>" <==> n >= 1000000000.0 || n <= -1000000000.0
    ensures Text(n) != "<overflow>" ==> Text(n) != "" && (Text(n)[0] == '-' <==> n < 0.0)
  {
    hide Digits, Stripped, TenThousandths;
    var m := Absolute(n);
    if m.Floor <= 999999999 {
      var d := Digits(m.Floor);
      assert d != "" && IsDigit(d[0]) by { assert AllDigits(d); }
      assert Text(n)[0] == if n < 0.0 then '-' else d[0];
    }
  }

  /** If the fractional part does round up to a whole, the whole part alone is printed. */
  lemma NotCarried(n: real)
    requires Absolute(n).Floor <= 999999999 && Absolute(n) - Absolute(n).Floor as real >= 0.99995
    ensures Text(n) == (if n < 0.0 then "-" else "") + Digits(Absolute(n).Floor)
  {
    hide Digits;
    var m := Absolute(n);
    assert TenThousandths(m) == 10000;
    OneDigit(10000, 4);
    OneDigit(1000, 3);
    OneDigit(100, 2);
    OneDigit(10, 1);
    assert Stripped(10000, 4) == "";
  }

  /** What is printed reads back to within half a ten thousandth if and only if the
      fractional part does not round up to a whole, which is not carried. */
  lemma ReadsBackIff(n: real)
    requires Absolute(n).Floor <= 999999999
    ensures Absolute(Reading(Text(n)) - n) <= 0.00005 <==> Absolute(n) - Absolute(n).Floor as real < 0.99995
  {
    hide Stripped, Digits, ParseDigits, Fraction, Reading, Tens, Place;
    var m := Absolute(n);
    var f := TenThousandths(m);
    var t := Stripped(f, 4);
    assert AllDigits(Digits(m.Floor));
    ReadingOf(n < 0.0, Digits(m.Floor), t);
    ParseDigitsOfDigits(m.Floor);
    StrippedValue(f, 4);
    TensTo4();
    FourPlaces();
    var r := m - m.Floor as real;
    var v := (f % 10000) as real * 0.0001;
    assert Absolute(Reading(Text(n)) - n) == Absolute(v - r);
    var q := (r + 0.00005) * 10000.0;
    assert f as real <= q < f as real + 1.0;
  }

  lemma FourPlaces()
    ensures Place(4) == 0.0001
  {
    assert Place(1) == Place(0) / 10.0 && Place(2) == Place(1) / 10.0 && Place(3) == Place(2) / 10.0 && Place(4) == Place(3) / 10.0;
  }

  /** The text fits its buffer with the terminating zero, and a fraction in it ends in
      a digit other than zero. */
  lemma TextShape(n: real)
    ensures |Text(n)| <= 15
    ensures '.' in Text(n) ==> '1' <= Text(n)[|Text(n)| - 1] <= '9'
  {
    hide Digits, Stripped, TenThousandths;
    var m := Absolute(n);
    if m.Floor > 999999999 {
      assert Text(n) == "<overflow>";
    } else {
      assert m >= 0.0;
      NineDigits(m.Floor);
      var t := Stripped(TenThousandths(m), 4);
      var head := (if n < 0.0 then "-" else "") + Digits(m.Floor);
      assert Text(n) == head + Point(t);
      if t == "" {
        assert Text(n) == head;
        assert '.' !in head;
      } else {
        assert Text(n)[|Text(n)| - 1] == t[|t| - 1];
        assert IsDigit(t[|t| - 1]);
      }
    }
  }
}

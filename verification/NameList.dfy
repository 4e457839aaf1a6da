// The live list of AppleTalk names (gui_backend() of browsers/nbp_lookup_ali.c): a
// list of the names seen lately, sent to a front end as an edit script.

module NameOrder {
  /** A formatted name: at most 99 characters of one byte each, none of them zero. */
  predicate IsName(s: string) {
    |s| < 100 && forall i :: 0 <= i < |s| ==> 0 < s[i] as int < 256
  }

  /** toupper() of a `char`, which is signed. */
  function Rank(c: char): int {
    if 'a' <= c <= 'z' then c as int - 32 else if c as int < 128 then c as int else c as int - 256
  }

  function Folded(s: string): seq<int> {
    seq(|s|, i requires 0 <= i < |s| => Rank(s[i]))
  }

  function First(s: string): int {
    if s == "" then 0 else Rank(s[0])
  }

  /** gu_strcasecmp(): the terminating zero compares like a character. */
  function Compare(a: string, b: string): int {
    if First(a) != First(b) || a == "" || b == "" then First(a) - First(b) else Compare(a[1..], b[1..])
  }

  lemma FirstOfName(s: string)
    requires IsName(s)
    ensures First(s) == 0 <==> s == ""
    ensures s != "" ==> IsName(s[1..])
  {
  }

  lemma {:induction false} CompareTurned(a: string, b: string)
    ensures Compare(a, b) == -Compare(b, a)
  {
    if First(a) == First(b) && a != "" && b != "" {
      CompareTurned(a[1..], b[1..]);
    }
  }

  lemma {:induction false} CompareChain(a: string, b: string, c: string)
    requires IsName(a) && IsName(b) && IsName(c) && Compare(a, b) <= 0 && Compare(b, c) <= 0
    ensures Compare(a, c) <= 0
    ensures Compare(a, b) < 0 || Compare(b, c) < 0 ==> Compare(a, c) < 0
  {
    FirstOfName(a);
    FirstOfName(b);
    FirstOfName(c);
    if First(a) == First(b) == First(c) && a != "" {
      CompareChain(a[1..], b[1..], c[1..]);
    }
  }

  /** Names compare equal exactly if they differ in nothing but case. */
  lemma {:induction false} CompareEqual(a: string, b: string)
    requires IsName(a) && IsName(b)
    ensures Compare(a, b) == 0 <==> Folded(a) == Folded(b)
  {
    FirstOfName(a);
    FirstOfName(b);
    if a == "" || b == "" {
      assert |Folded(a)| == |a| && |Folded(b)| == |b|;
    } else {
      CompareEqual(a[1..], b[1..]);
      assert Folded(a)[0] == First(a) && Folded(b)[0] == First(b);
      assert Folded(a)[1..] == Folded(a[1..]) && Folded(b)[1..] == Folded(b[1..]);
      assert Folded(a) == [First(a)] + Folded(a)[1..] && Folded(b) == [First(b)] + Folded(b)[1..];
    }
  }

  /** The other case of a letter, and every other character itself. */
  function OtherCase(c: char): char {
    if 'a' <= c <= 'z' then c - 32 as char else if 'A' <= c <= 'Z' then c + 32 as char else c
  }

  /** Names that differ in case alone: letter for letter the same, or one small and the
      other capital. */
  lemma FoldedIff(a: string, b: string)
    requires IsName(a) && IsName(b)
    ensures Folded(a) == Folded(b) <==>
      |a| == |b| && forall i :: 0 <= i < |a| ==> a[i] == b[i] || a[i] == OtherCase(b[i])
  {
    if |a| == |b| {
      forall i | 0 <= i < |a|
        ensures Folded(a)[i] == Folded(b)[i] <==> a[i] == b[i] || a[i] == OtherCase(b[i])
      {
        RankOrder(a[i], b[i]);
      }
    }
  }

  /** Characters come in the order of their codes, small letters among the capitals, but
      all those with the eighth bit come first. */
  lemma RankOrder(c: char, d: char)
    requires 0 < c as int < 256 && 0 < d as int < 256
    ensures Rank(c) == Rank(d) <==> c == d || c == OtherCase(d)
    ensures c as int >= 128 > d as int ==> Rank(c) < Rank(d)
    ensures 'a' <= c <= 'z' ==> Rank(c) == Rank(OtherCase(c))
    ensures !('a' <= c <= 'z') && !('a' <= d <= 'z') && (c as int < 128 <==> d as int < 128) ==>
            (Rank(c) < Rank(d) <==> c < d)
  {
  }

  /** Names compare by the first characters in which they are different; the end of the
      shorter one counts as 0. */
  lemma {:induction false} CompareAt(p: string, q: string, a: string, b: string)
    requires IsName(p) && IsName(q) && Folded(p) == Folded(q)
    ensures Compare(p + a, q + b) == Compare(a, b)
    ensures a != "" && b != "" && Rank(a[0]) != Rank(b[0]) ==> Compare(p + a, q + b) == Rank(a[0]) - Rank(b[0])
    ensures a == "" && b != "" ==> Compare(p + a, q + b) == -Rank(b[0])
    decreases |p|
  {
    assert |Folded(p)| == |p| && |Folded(q)| == |q|;
    if p == "" {
      assert p + a == a && q + b == b;
    } else {
      assert Folded(p)[0] == Rank(p[0]) && Folded(q)[0] == Rank(q[0]);
      assert Folded(p)[1..] == Folded(p[1..]) && Folded(q)[1..] == Folded(q[1..]);
      assert (p + a)[1..] == p[1..] + a && (q + b)[1..] == q[1..] + b;
      CompareAt(p[1..], q[1..], a, b);
    }
  }

  lemma FoldedNewline(a: string, b: string)
    requires IsName(a) && IsName(b) && Folded(a) == Folded(b)
    ensures '\n' in a <==> '\n' in b
  {
    assert |Folded(a)| == |a| && |Folded(b)| == |b|;
    forall i | 0 <= i < |a|
      ensures a[i] == '\n' <==> b[i] == '\n'
    {
      assert Folded(a)[i] == Rank(a[i]) && Folded(b)[i] == Rank(b[i]);
    }
  }
}

/** What the front end makes of the lines it is sent. */
module NameFrontEnd {
  import opened PostScript

  datatype FrontEnd = FrontEnd(list: seq<string>, line: string, rounds: nat, lost: bool)

  const Empty := FrontEnd([], "", 0, false)

  /** The digits a line starts with. */
  function Number(s: string): (n: string)
    ensures n <= s && AllDigits(n) && (|n| < |s| ==> !IsDigit(s[|n|]))
  {
    if s != "" && IsDigit(s[0]) then [s[0]] + Number(s[1..]) else ""
  }

  /** A position alone deletes what is there, a position and a name insert it there,
      and an empty line ends a round. */
  function Obey(f: FrontEnd): FrontEnd {
    var n := Number(f.line);
    var at, rest := ParseDigits(n), f.line[|n|..];
    if f.line == "" then f.(rounds := f.rounds + 1)
    else if n == "" then FrontEnd(f.list, "", f.rounds, true)
    else if rest == "" && at < |f.list| then FrontEnd(f.list[..at] + f.list[at + 1..], "", f.rounds, f.lost)
    else if rest != "" && rest[0] == ' ' && at <= |f.list| then
      FrontEnd(f.list[..at] + [rest[1..]] + f.list[at..], "", f.rounds, f.lost)
    else FrontEnd(f.list, "", f.rounds, true)
  }

  function Feed(f: FrontEnd, c: char): FrontEnd {
    if c == '\n' then Obey(f) else f.(line := f.line + [c])
  }

  function FeedAll(f: FrontEnd, s: string): FrontEnd {
    if s == "" then f else Feed(FeedAll(f, s[..|s| - 1]), s[|s| - 1])
  }

  lemma {:induction false} FeedConcat(f: FrontEnd, a: string, b: string)
    ensures FeedAll(f, a + b) == FeedAll(FeedAll(f, a), b)
    decreases |b|
  {
    hide Feed;
    if b == "" {
      assert a + b == a;
    } else {
      var k := |b| - 1;
      FeedConcat(f, a, b[..k]);
      assert (a + b)[..|a| + k] == a + b[..k];
    }
  }

  lemma {:induction false} FeedLine(f: FrontEnd, s: string)
    requires '\n' !in s
    ensures FeedAll(f, s) == f.(line := f.line + s)
  {
    if s == "" {
      assert f.line + s == f.line;
    } else {
      var k := |s| - 1;
      FeedLine(f, s[..k]);
      assert s[..k] + [s[k]] == s;
      assert f.line + s[..k] + [s[k]] == f.line + s;
    }
  }

  lemma {:induction false} NumberOf(d: string, rest: string)
    requires AllDigits(d) && (rest != "" ==> !IsDigit(rest[0]))
    ensures Number(d + rest) == d
  {
    if d == "" {
      assert d + rest == rest;
    } else {
      NumberOf(d[1..], rest);
      assert (d + rest)[1..] == d[1..] + rest;
    }
  }

  lemma NoNewline(d: string)
    requires AllDigits(d)
    ensures '\n' !in d
  {
  }

  /** printf("%d %s\n", at, name) */
  function InsertLine(at: nat, name: string): string { Digits(at) + " " + name + "\n" }

  /** printf("%d\n", at) */
  function DeleteLine(at: nat): string { Digits(at) + "\n" }

  /** A line is obeyed when its newline has been read. */
  lemma FeedWhole(f: FrontEnd, text: string)
    requires f.line == "" && '\n' !in text
    ensures FeedAll(f, text + "\n") == Obey(f.(line := text))
  {
    hide Obey;
    FeedLine(f, text);
    assert (text + "\n")[..|text|] == text && f.line + text == text;
    assert FeedAll(f, text + "\n") == Feed(FeedAll(f, text), '\n');
  }

  /** A line of digits and a rest is read as that. */
  lemma ReadLine(at: nat, rest: string)
    requires '\n' !in rest && (rest != "" ==> !IsDigit(rest[0]))
    ensures var line := Digits(at) + rest;
            && '\n' !in line && line != "" && Digits(at) != ""
            && Number(line) == Digits(at) && ParseDigits(Number(line)) == at && line[|Digits(at)|..] == rest
  {
    hide Digits, IsDigit, Number, ParseDigits;
    var d := Digits(at);
    assert d != "" && AllDigits(d);
    NoNewline(d);
    ParseDigitsOfDigits(at);
    NumberOf(d, rest);
  }

  lemma ObeyInsert(f: FrontEnd, at: nat, name: string)
    requires f.line == "" && at <= |f.list| && '\n' !in name
    ensures FeedAll(f, InsertLine(at, name)) == f.(list := f.list[..at] + [name] + f.list[at..])
  {
    hide Digits, FeedAll, Number, ParseDigits;
    var rest := " " + name;
    assert !IsDigit(' ');
    ReadLine(at, rest);
    FeedWhole(f, Digits(at) + rest);
    assert InsertLine(at, name) == Digits(at) + rest + "\n";
    assert rest[1..] == name;
  }

  lemma ObeyDelete(f: FrontEnd, at: nat)
    requires f.line == "" && at < |f.list|
    ensures FeedAll(f, DeleteLine(at)) == f.(list := f.list[..at] + f.list[at + 1..])
  {
    hide Digits, FeedAll, IsDigit, Number, ParseDigits;
    ReadLine(at, "");
    FeedWhole(f, Digits(at) + "");
    assert DeleteLine(at) == Digits(at) + "" + "\n";
  }

  predicate Plain(f: FrontEnd) {
    '\n' !in f.line && forall i :: 0 <= i < |f.list| ==> '\n' !in f.list[i]
  }

  lemma ObeyPlain(f: FrontEnd)
    requires Plain(f)
    ensures Plain(Obey(f))
  {
    hide AllDigits, ParseDigits, IsDigit, Number;
    var n := Number(f.line);
    var at, rest := ParseDigits(n), f.line[|n|..];
    if rest != "" {
      assert '\n' !in rest[1..];
    }
    if f.line == "" {
    } else if n == "" {
    } else if rest == "" && at < |f.list| {
    } else if rest != "" && rest[0] == ' ' && at <= |f.list| {
    } else {
    }
  }

  /** Nothing the front end ever lists contains a newline. */
  lemma {:induction false} ListsNoNewline(f: FrontEnd, s: string)
    requires Plain(f)
    ensures Plain(FeedAll(f, s))
  {
    if s != "" {
      ListsNoNewline(f, s[..|s| - 1]);
      ObeyPlain(FeedAll(f, s[..|s| - 1]));
      hide Obey;
    }
  }
}

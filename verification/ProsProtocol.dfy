// The messages of the PROS protocol (interfaces/pros.c:71-115): a code byte, and
// if its high bit is set a two byte length, most significant first, and data.

module ProsMessages {
  import opened Bytes

  const PROSMSG_EOF := 32
  const PROSMSG_UID := 33
  const PROSMSG_HST := 34
  const PROSMSG_PRN := 35
  const PROSMSG_PAS := 36
  const PROSMSG_DTP := 37
  const PROSMSG_NOP := 38
  const PROSMSG_JOK := 48
  const PROSMSG_JST := 49

  /** The code is that of the message with the data bit taken off. */
  datatype Message = Message(code: byte, withData: bool, data: seq<byte>)

  /** Length in bytes of the message `s` starts with, as far as `s` tells. */
  function Length(s: seq<byte>): (n: nat)
    requires s != []
    ensures n >= 1
  {
    if s[0] < 128 then 1
    else if |s| < 3 then 3
    else 3 + (s[1] as int) * 256 + s[2]
  }

  function First(s: seq<byte>): Message
    requires s != [] && Length(s) <= |s|
  {
    if s[0] < 128 then Message(s[0], false, []) else Message(s[0] - 128, true, s[3..Length(s)])
  }

  /** The whole messages in a stream, and the beginning of one that is left over. */
  function Parse(s: seq<byte>): seq<Message>
    decreases |s|
  {
    if s == [] || Length(s) > |s| then [] else [First(s)] + Parse(s[Length(s)..])
  }

  function Rest(s: seq<byte>): (r: seq<byte>)
    ensures |r| <= |s|
    ensures r != [] ==> Length(r) > |r|
    decreases |s|
  {
    if s == [] || Length(s) > |s| then s else Rest(s[Length(s)..])
  }

  function Encode(m: Message): seq<byte>
    requires m.code < 128 && |m.data| < 65536
  {
    if m.withData then [m.code + 128, |m.data| / 256, |m.data| % 256] + m.data else [m.code]
  }

  lemma LengthOfPrefix(a: seq<byte>, b: seq<byte>)
    requires a != [] && Length(a) <= |a|
    ensures Length(a + b) == Length(a) && First(a + b) == First(a)
    ensures (a + b)[Length(a)..] == a[Length(a)..] + b
  {
    if a[0] >= 128 {
      assert (a + b)[3..Length(a)] == a[3..Length(a)];
    }
  }

  /** Parsing can stop anywhere and go on with what is left over. */
  lemma {:induction false} ParseConcat(a: seq<byte>, b: seq<byte>)
    ensures Parse(a + b) == Parse(a) + Parse(Rest(a) + b)
    ensures Rest(a + b) == Rest(Rest(a) + b)
    decreases |a|
  {
    if a == [] || Length(a) > |a| {
    } else {
      var k := Length(a);
      LengthOfPrefix(a, b);
      ParseConcat(a[k..], b);
      var p, q := Parse(a[k..]), Parse(Rest(a) + b);
      assert [First(a)] + (p + q) == ([First(a)] + p) + q;
    }
  }

  /** The bytes of a message: its code with the high bit for data, the length of the
      data with the more significant byte first, and the data; or the code alone. */
  lemma OnTheWire(m: Message, s: seq<byte>)
    requires m.code < 128 && |m.data| < 65536
    ensures s == Encode(m) <==>
      if m.withData then
        && |s| == 3 + |m.data| && s[0] == 128 + m.code && (s[1] as int) * 256 + (s[2] as int) == |m.data|
        && s[3..] == m.data
      else s == [m.code]
  {
    if m.withData && |s| == 3 + |m.data| {
      assert s == [s[0], s[1], s[2]] + s[3..];
    }
  }

  lemma ParseEncode(m: Message)
    requires m.code < 128 && |m.data| < 65536 && (!m.withData ==> m.data == [])
    ensures Parse(Encode(m)) == [m] && Rest(Encode(m)) == []
  {
    var e := Encode(m);
    if m.withData {
      assert e[1] as int * 256 + e[2] as int == |m.data|;
      assert Length(e) == |e| && e[3..|e|] == m.data;
    }
    assert e[Length(e)..] == [];
    assert First(e) == m;
    assert Parse(e) == [m] + Parse(e[Length(e)..]);
  }

  /** A message sent after whole messages is one more message. */
  lemma ParseSnoc(out: seq<byte>, m: Message)
    requires Rest(out) == [] && m.code < 128 && |m.data| < 65536 && (!m.withData ==> m.data == [])
    ensures Parse(out + Encode(m)) == Parse(out) + [m] && Rest(out + Encode(m)) == []
  {
    ParseConcat(out, Encode(m));
    ParseEncode(m);
    assert [] + Encode(m) == Encode(m);
  }
}

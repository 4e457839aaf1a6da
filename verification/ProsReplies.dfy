// pros_reply_handler() of interfaces/pros.c and the read loop around it: messages
// from the print server, cut up by read() in any way.

module ProsReplies {
  import opened Bytes
  import opened ProsMessages

  // ------------------------------------------------------------ moving leftovers

  datatype Move = Done(left: seq<byte>) | NegativeSize

  /** What the memmove() written leaves there: with `len` bytes of data it copies
      `left - len - 3` bytes from `len + 3` on, and the rest of the `left` bytes
      then counted keep what they held before. */
  function Written(s: seq<byte>): Move
    requires s != [] && Length(s) <= |s|
  {
    var len := if s[0] < 128 then 0 else Length(s) - 3;
    var left := |s| - Length(s);
    if left == 0 then Done([])
    else if left < len + 3 then NegativeSize
    else Done(s[len + 3..left] + s[left - len - 3..left])
  }

  /** After a message, whatever it is, the move is right for every leftover of a
      given size if and only if there is no leftover. */
  lemma MoveRightIffNothingLeft(m: Message, r: nat)
    requires m.code < 128 && |m.data| < 65536 && (!m.withData ==> m.data == [])
    ensures (forall t: seq<byte> :: |t| == r ==> MovesRight(Encode(m), t)) <==> r == 0
  {
    OneMessage(m);
    var a := Encode(m);
    hide Encode;
    if r == 0 {
      forall t: seq<byte> | |t| == r ensures MovesRight(a, t) {
        assert a + t == a && t == [];
      }
    } else {
      var t := WrongMove(a, r);
    }
  }

  /** A leftover of r bytes that the move spoils: its last byte is not the one that
      was at its place before. */
  lemma WrongMove(a: seq<byte>, r: nat) returns (t: seq<byte>)
    requires a != [] && Length(a) == |a| && r > 0
    ensures |t| == r && !MovesRight(a, t)
  {
    var x: byte := if r - 1 < |a| then a[r - 1] else 0;
    t := Spoiled(r, x);
    LengthOfPrefix(a, t);
    WasThere(a, t, r);
    LastByteStays(a + t);
  }

  /** r - 1 zeros and a byte that is not x. */
  function Spoiled(r: nat, x: byte): (t: seq<byte>)
    requires r > 0
    ensures |t| == r && t[r - 1] != x && forall i :: 0 <= i < r - 1 ==> t[i] == 0
  {
    seq(r - 1, _ => 0) + [if x == 0 then 1 else 0]
  }

  lemma WasThere(a: seq<byte>, t: seq<byte>, r: nat)
    requires a != [] && r > 0 && |t| == r && forall i :: 0 <= i < r - 1 ==> t[i] == 0
    ensures (a + t)[r - 1] == if r - 1 < |a| then a[r - 1] else 0
  {
  }

  lemma LastByteStays(s: seq<byte>)
    requires s != [] && Length(s) < |s|
    ensures Written(s).Done? ==>
              var r := |s| - Length(s); |Written(s).left| == r && Written(s).left[r - 1] == s[r - 1]
  {
  }

  lemma OneMessage(m: Message)
    requires m.code < 128 && |m.data| < 65536 && (!m.withData ==> m.data == [])
    ensures Length(Encode(m)) == |Encode(m)|
  {
  }

  /** What it does leave: after a message with data, everything but as many bytes as the
      message was long, and for those what was in their places; after one without, two
      bytes less from the front and three less at the end. */
  lemma WrittenBytes(m: Message, t: seq<byte>)
    requires m.code < 128 && |m.data| < 65536 && (!m.withData ==> m.data == [])
    ensures var s, d, r := Encode(m) + t, |m.data| + 3, |t|;
      && s != [] && Length(s) <= |s|
      && (r == 0 ==> Written(s) == Done([])) && (0 < r < d ==> Written(s) == NegativeSize)
      && (r >= d ==> Written(s) == Done((if m.withData then t[..r - d] else t[2..r - 1]) + s[r - d..r]))
  {
    OneMessage(m);
    LengthOfPrefix(Encode(m), t);
    var s, d, r := Encode(m) + t, |m.data| + 3, |t|;
    SizeOf(m);
    if r >= d {
      assert s[d..r] == if m.withData then t[..r - d] else t[2..r - 1];
    }
  }

  predicate MovesRight(a: seq<byte>, t: seq<byte>) {
    a != [] && Length(a) == |a| && Length(a + t) == |a| && Written(a + t) == Done(t)
  }

  // -------------------------------------------------------------------- handling

  /** What the handler does on receiving messages: exit on a fatal one or when the
      printer is occupied, and otherwise note the acknowledgements. */
  datatype State = State(handled: seq<Message>, acked: bool, recvEoj: bool, exited: bool)

  const PROSERR_POC := 3

  /** code & ~(PROSBIT_FATAL | PROSBIT_DATA), the data bit being off already. */
  function Masked(m: Message): int { m.code % 64 }

  function Handle(st: State, m: Message): State {
    if st.exited then st
    else
      var st' := st.(handled := st.handled + [m]);
      if m.code % 128 >= 64 || Masked(m) == PROSERR_POC then st'.(exited := true)
      else if Masked(m) == PROSMSG_JST then st'.(acked := true)
      else if Masked(m) == PROSMSG_JOK then st'.(recvEoj := true)
      else st'
  }

  function HandleAll(st: State, ms: seq<Message>): State {
    if ms == [] then st else Handle(HandleAll(st, ms[..|ms| - 1]), ms[|ms| - 1])
  }

  lemma {:induction false} HandleConcat(st: State, a: seq<Message>, b: seq<Message>)
    ensures HandleAll(st, a + b) == HandleAll(HandleAll(st, a), b)
    decreases |b|
  {
    if b == [] {
      assert a + b == a;
    } else {
      var k := |b| - 1;
      HandleConcat(st, a, b[..k]);
      assert (a + b)[..|a| + k] == a + b[..k];
    }
  }

  lemma {:induction false} HandleNone(st: State, ms: seq<Message>)
    requires st.exited
    ensures HandleAll(st, ms) == st
  {
    if ms != [] {
      HandleNone(st, ms[..|ms| - 1]);
    }
  }

  /** What one message does, by its code. */
  lemma HandleEffect(st: State, m: Message)
    requires m.code < 128 && !st.exited
    ensures var n := Handle(st, m);
      && n.handled == st.handled + [m] && (n.exited <==> m.code >= 64 || m.code == 3)
      && (n.acked <==> st.acked || m.code == 49) && (n.recvEoj <==> st.recvEoj || m.code == 48)
  {
  }

  /** One of the first `n` messages has this code. */
  ghost predicate Among(ms: seq<Message>, n: nat, code: byte)
    requires n <= |ms|
  {
    exists i :: 0 <= i < n && ms[i].code == code
  }

  lemma AmongFirst(ms: seq<Message>, n: nat, code: byte)
    requires n <= |ms|
    ensures Among(ms[..n], n, code) <==> Among(ms, n, code)
    ensures n > 0 ==> (Among(ms, n, code) <==> Among(ms, n - 1, code) || ms[n - 1].code == code)
  {
    var f := ms[..n];
    assert forall i :: 0 <= i < n ==> f[i].code == ms[i].code;
  }

  lemma {:induction false} FlagsWithout(ms: seq<Message>, n: nat)
    requires n <= |ms| && forall i :: 0 <= i < n ==> ms[i].code < 64 && ms[i].code != 3
    ensures HandleAll(State([], false, false, false), ms[..n]) == State(ms[..n], Among(ms, n, 49), Among(ms, n, 48), false)
    decreases n
  {
    if n > 0 {
      FlagsWithout(ms, n - 1);
      HandleEffect(HandleAll(State([], false, false, false), ms[..n - 1]), ms[n - 1]);
      AmongFirst(ms, n, 49);
      AmongFirst(ms, n, 48);
      hide Handle, Among;
      assert ms[..n][..n - 1] == ms[..n - 1] && ms[..n - 1] + [ms[n - 1]] == ms[..n];
    }
  }

  /** Messages are handled up to the first that is fatal, with the 0x40 bit in its code,
      or says that the printer is occupied, with the code 3; and the start and the end of
      the job count as acknowledged if 49 and 48 are among those before it. */
  lemma FlagsIff(ms: seq<Message>, n: nat)
    requires n <= |ms| && forall i :: 0 <= i < |ms| ==> ms[i].code < 128
    requires forall i :: 0 <= i < n ==> ms[i].code < 64 && ms[i].code != 3
    requires n < |ms| ==> ms[n].code >= 64 || ms[n].code == 3
    ensures HandleAll(State([], false, false, false), ms) ==
            State(if n < |ms| then ms[..n + 1] else ms, Among(ms, n, 49), Among(ms, n, 48), n < |ms|)
  {
    hide *;
    FlagsWithout(ms, n);
    if n < |ms| {
      StopsThere(State([], false, false, false), ms[..n], ms[n], ms[n + 1..]);
      assert ms == ms[..n] + [ms[n]] + ms[n + 1..] && ms[..n + 1] == ms[..n] + [ms[n]];
    } else {
      assert ms[..n] == ms;
    }
  }

  lemma StopsThere(st0: State, a: seq<Message>, m: Message, b: seq<Message>)
    requires !HandleAll(st0, a).exited && m.code < 128 && (m.code >= 64 || m.code == 3)
    ensures var st := HandleAll(st0, a);
      HandleAll(st0, a + [m] + b) == State(st.handled + [m], st.acked, st.recvEoj, true)
  {
    hide *;
    var st := HandleAll(st0, a);
    HandleConcat(st0, a, [m]);
    HandleOne(st, m);
    StopEffect(st, m);
    HandleConcat(st0, a + [m], b);
    HandleNone(Handle(st, m), b);
  }

  lemma StopEffect(st: State, m: Message)
    requires !st.exited && m.code < 128 && (m.code >= 64 || m.code == 3)
    ensures Handle(st, m) == State(st.handled + [m], st.acked, st.recvEoj, true)
  {
  }

  const RECVBUF := 4096 + 3

  /** The handler with the leftover moved as it is meant to be: it handles the whole
      messages in the first n bytes and moves what is left to the front. */
  method ReplyHandler(buffer: array<byte>, n: nat, st0: State) returns (left: nat, st: State)
    requires n <= buffer.Length && !st0.exited
    modifies buffer
    ensures st == HandleAll(st0, Parse(old(buffer[..n])))
    ensures !st.exited ==> left <= buffer.Length && buffer[..left] == Rest(old(buffer[..n]))
  {
    st, left := st0, n;
    ghost var s := buffer[..n];
    ghost var done: seq<Message> := [];
    Untouched(s, st0);
    while left > 0
      invariant left <= buffer.Length && !st.exited
      invariant Reached(s, st0, done, buffer[..left], st)
      decreases left
    {
      hide Reached, Parse, Rest, HandleAll, Handle, First;
      ghost var cur := buffer[..left];
      var consumed := 1;
      if buffer[0] >= 128 {
        consumed := consumed + 2;
        if left < consumed {
          Broken(s, st0, done, cur, st);
          return;
        }
        consumed := consumed + (buffer[1] as int) * 256 + buffer[2];
        if consumed > left {
          Broken(s, st0, done, cur, st);
          return;
        }
      }
      var m := First(buffer[..left]);
      HandleNext(s, st0, done, cur, st);
      st := Handle(st, m);
      if st.exited {
        return;
      }
      Slide(buffer, left, consumed);
      left := left - consumed;
      done := done + [m];
    }
    assert buffer[..0] == [];
    AllHandled(s, st0, done, st);
  }

  /** The messages `done` of `s` are handled, and `cur` is left. */
  ghost predicate Reached(s: seq<byte>, st0: State, done: seq<Message>, cur: seq<byte>, st: State) {
    Parse(s) == done + Parse(cur) && Rest(s) == Rest(cur) && st == HandleAll(st0, done)
  }

  lemma Untouched(s: seq<byte>, st0: State)
    ensures Reached(s, st0, [], s, st0)
  {
  }

  lemma AllHandled(s: seq<byte>, st0: State, done: seq<Message>, st: State)
    requires Reached(s, st0, done, [], st)
    ensures st == HandleAll(st0, Parse(s)) && Rest(s) == []
  {
    assert done + [] == done;
  }

  /** A message that has not all come in. */
  lemma Broken(s: seq<byte>, st0: State, done: seq<Message>, cur: seq<byte>, st: State)
    requires Reached(s, st0, done, cur, st) && cur != [] && Length(cur) > |cur|
    ensures st == HandleAll(st0, Parse(s)) && Rest(s) == cur
  {
    assert Parse(cur) == [] && done + [] == done;
  }

  lemma HandleNext(s: seq<byte>, st0: State, done: seq<Message>, cur: seq<byte>, st: State)
    requires Reached(s, st0, done, cur, st) && cur != [] && Length(cur) <= |cur|
    ensures var st' := Handle(st, First(cur));
            && Reached(s, st0, done + [First(cur)], cur[Length(cur)..], st')
            && (st'.exited ==> st' == HandleAll(st0, Parse(s)))
  {
    var m, rest := First(cur), cur[Length(cur)..];
    assert Parse(cur) == [m] + Parse(rest);
    hide Parse, Rest, First;
    assert done + ([m] + Parse(rest)) == (done + [m]) + Parse(rest);
    HandleConcat(st0, done, [m]);
    HandleOne(st, m);
    HandleConcat(st0, done + [m], Parse(rest));
    if Handle(st, m).exited {
      HandleNone(Handle(st, m), Parse(rest));
    }
  }

  lemma HandleOne(st: State, m: Message)
    ensures HandleAll(st, [m]) == Handle(st, m)
  {
    assert [m][..0] == [];
  }

  method Slide(buffer: array<byte>, n: nat, k: nat)
    requires k <= n <= buffer.Length
    modifies buffer
    ensures buffer[..n - k] == old(buffer[k..n])
  {
    forall i | 0 <= i < n - k {
      buffer[i] := buffer[i + k];
    }
  }

  // ------------------------------------------------------------------ the read loop

  /** Every message of the stream, also the one it breaks off in, fits in recvbuf:
      no body is longer than 4096 bytes. */
  predicate AllFit(s: seq<byte>)
    decreases |s|
  {
    s == [] || (Length(s) <= RECVBUF && (Length(s) <= |s| ==> AllFit(s[Length(s)..])))
  }

  lemma {:induction false} LeftoverFits(a: seq<byte>, b: seq<byte>)
    requires AllFit(a + b)
    ensures |Rest(a)| < RECVBUF
    decreases |a|
  {
    if a != [] {
      if Length(a) <= |a| {
        LengthOfPrefix(a, b);
        LeftoverFits(a[Length(a)..], b);
      } else {
        assert (a + b)[0] == a[0];
        if |a| >= 3 {
          assert (a + b)[1] == a[1] && (a + b)[2] == a[2];
        }
      }
    }
  }

  /** A message fits exactly if it has at most 4096 bytes of data. */
  lemma FitsIff(m: Message, rest: seq<byte>)
    requires m.code < 128 && |m.data| < 65536 && (!m.withData ==> m.data == [])
    ensures AllFit(Encode(m) + rest) <==> |m.data| <= 4096 && AllFit(rest)
  {
    OneMessage(m);
    LengthOfPrefix(Encode(m), rest);
    hide Encode;
    assert (Encode(m) + rest)[|Encode(m)|..] == rest;
    SizeOf(m);
  }

  lemma SizeOf(m: Message)
    requires m.code < 128 && |m.data| < 65536 && (!m.withData ==> m.data == [])
    ensures |Encode(m)| == if m.withData then |m.data| + 3 else 1
  {
  }

  /** read() into the buffer behind what is left over. */
  method Append(buffer: array<byte>, n: nat, piece: seq<byte>)
    requires n + |piece| <= buffer.Length
    modifies buffer
    ensures buffer[..n + |piece|] == old(buffer[..n]) + piece
  {
    forall j | 0 <= j < |piece| {
      buffer[n + j] := piece[j];
    }
  }

  lemma NextPiece(stream: seq<byte>, taken: nat, ret: nat, st0: State)
    requires taken + ret <= |stream| && AllFit(stream)
    ensures var a, b, piece := stream[..taken], stream[..taken + ret], stream[taken..taken + ret];
            && HandleAll(st0, Parse(b)) == HandleAll(HandleAll(st0, Parse(a)), Parse(Rest(a) + piece))
            && Rest(b) == Rest(Rest(a) + piece) && |Rest(b)| < RECVBUF
  {
    hide HandleAll, Parse, Rest, AllFit;
    var a, b, piece := stream[..taken], stream[..taken + ret], stream[taken..taken + ret];
    assert b == a + piece && stream == b + stream[taken + ret..];
    ParseConcat(a, piece);
    HandleConcat(st0, Parse(a), Parse(Rest(a) + piece));
    LeftoverFits(b, stream[taken + ret..]);
  }

  /** The buffer holds what is left over of the stream so far, all else is handled. */
  ghost predicate Following(stream: seq<byte>, taken: nat, st0: State, st: State, left: seq<byte>) {
    && taken <= |stream| && st == HandleAll(st0, Parse(stream[..taken]))
    && (!st.exited ==> left == Rest(stream[..taken]) && |left| < RECVBUF)
  }

  /** One read() and what the handler makes of it. */
  method TakePiece(recvbuf: array<byte>, n: nat, stream: seq<byte>, taken0: nat, size: nat, ghost st0: State, st1: State)
    returns (taken: nat, left: nat, st: State)
    requires recvbuf.Length == RECVBUF && n < RECVBUF && !st1.exited && AllFit(stream) && taken0 < |stream|
    requires Following(stream, taken0, st0, st1, recvbuf[..n])
    modifies recvbuf
    ensures taken0 < taken <= |stream|
    ensures st.exited || left < RECVBUF
    ensures Following(stream, taken, st0, st, if st.exited then [] else recvbuf[..left])
  {
    var room := RECVBUF - n;
    var ret := if size == 0 then 1 else if size < room then size else room;
    ret := if ret < |stream| - taken0 then ret else |stream| - taken0;
    hide HandleAll, Handle, Parse, Rest, AllFit, First, Length;
    NextPiece(stream, taken0, ret, st0);
    Append(recvbuf, n, stream[taken0..taken0 + ret]);
    taken := taken0 + ret;
    left, st := ReplyHandler(recvbuf, n + ret, st1);
  }

  /** Read a stream in pieces, each as long as `sizes` says or as there is room for,
      handing what has come in to the handler after each. However the stream is
      cut, the messages handled are those of the stream. */
  method ReceiveStream(stream: seq<byte>, sizes: seq<nat>) returns (st: State, taken: nat)
    requires AllFit(stream)
    ensures taken <= |stream|
    ensures st == HandleAll(State([], false, false, false), Parse(stream[..taken]))
    ensures !st.exited && |sizes| >= |stream| ==> taken == |stream|
  {
    var recvbuf := new byte[RECVBUF];
    var recvbufLen: nat := 0;
    st, taken := State([], false, false, false), 0;
    ghost var st0 := st;
    assert stream[..0] == [] && recvbuf[..0] == [];
    var i := 0;
    while i < |sizes| && taken < |stream| && !st.exited
      invariant 0 <= i <= |sizes| && i <= taken <= |stream|
      invariant st.exited || recvbufLen < RECVBUF
      invariant Following(stream, taken, st0, st, if st.exited then [] else recvbuf[..recvbufLen])
    {
      hide Following, AllFit;
      taken, recvbufLen, st := TakePiece(recvbuf, recvbufLen, stream, taken, sizes[i], st0, st);
      i := i + 1;
    }
  }
}

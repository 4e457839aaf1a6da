// pros_copy_job() and pros_pack() of interfaces/pros.c: send a job to a print
// server over the PROS protocol.
//
// What select(), read() and the server do in one turn of the loop is a Turn. Step
// says what one turn makes of the loop's state, the class at the end is the loop
// itself, and the theorems in between hold of every sequence of turns.

module ProsSender {
  import opened Bytes
  import opened ProsMessages

  // -------------------------------------------------------------- the server's view

  /** What a server has understood: the header, the print data, whether the job has
      ended, the tickles since, and whether every message came in its place. */
  datatype Heard = Heard(header: seq<Message>, data: seq<byte>, ended: bool, tickles: nat, proper: bool)

  const Silence := Heard([], [], false, 0, true)

  function Hear(h: Heard, m: Message): Heard {
    if |h.header| < 4 && PROSMSG_UID <= m.code <= PROSMSG_PAS && m.withData then h.(header := h.header + [m])
    else if |h.header| == 4 && m.code == PROSMSG_DTP && m.withData && m.data != [] && !h.ended then
      h.(data := h.data + m.data)
    else if |h.header| == 4 && m == Message(PROSMSG_EOF, false, []) && !h.ended then h.(ended := true)
    else if m == Message(PROSMSG_NOP, false, []) && h.ended then h.(tickles := h.tickles + 1)
    else h.(proper := false)
  }

  function Listen(ms: seq<Message>): Heard {
    if ms == [] then Silence else Hear(Listen(ms[..|ms| - 1]), ms[|ms| - 1])
  }

  lemma ListenSnoc(ms: seq<Message>, m: Message)
    ensures Listen(ms + [m]) == Hear(Listen(ms), m)
  {
    assert (ms + [m])[..|ms|] == ms;
  }

  /** The end of the job is among the first `n` messages. */
  ghost predicate Told(ms: seq<Message>, n: nat)
    requires n <= |ms|
  {
    exists i :: 4 <= i < n && ms[i] == Message(32, false, [])
  }

  /** The header is four messages with data; after it come data messages, none of them
      empty, the end of the job, once, and then nothing but tickles. */
  ghost predicate InPlace(ms: seq<Message>, n: nat)
    requires n < |ms|
  {
    var m := ms[n];
    if n < 4 then 33 <= m.code <= 36 && m.withData
    else if Told(ms, n) then m == Message(38, false, [])
    else m == Message(32, false, []) || (m.code == 37 && m.withData && m.data != [])
  }

  /** So are the first `n`. */
  ghost predicate AllInPlace(ms: seq<Message>, n: nat)
    requires n <= |ms|
  {
    forall i :: 0 <= i < n ==> InPlace(ms, i)
  }

  lemma OneMoreInPlace(ms: seq<Message>, n: nat)
    requires n < |ms|
    ensures AllInPlace(ms, n + 1) <==> AllInPlace(ms, n) && InPlace(ms, n)
  {
    hide InPlace;
  }

  /** What the server hears is proper just if every message is in its place. */
  lemma {:induction false} ProperIff(ms: seq<Message>, n: nat)
    requires n <= |ms|
    ensures Listen(ms[..n]).proper <==> AllInPlace(ms, n)
    ensures Listen(ms[..n]).proper ==>
      var h := Listen(ms[..n]); h.header == ms[..if n < 4 then n else 4] && (h.ended <==> Told(ms, n))
    decreases n
  {
    if n > 0 {
      hide *;
      ProperIff(ms, n - 1);
      var h, m := Listen(ms[..n - 1]), ms[n - 1];
      assert ms[..n - 1] + [m] == ms[..n];
      ListenSnoc(ms[..n - 1], m);
      ToldNext(ms, n);
      OneMoreInPlace(ms, n - 1);
      if h.proper {
        OneHeard(ms, n - 1, h);
      } else {
        NeverProper(h, m);
      }
    }
  }

  lemma NeverProper(h: Heard, m: Message)
    requires !h.proper
    ensures !Hear(h, m).proper
  {
  }

  lemma OneHeard(ms: seq<Message>, n: nat, h: Heard)
    requires n < |ms| && h.proper && h.header == ms[..if n < 4 then n else 4] && (h.ended <==> Told(ms, n))
    ensures Hear(h, ms[n]).proper <==> InPlace(ms, n)
    ensures InPlace(ms, n) ==>
      && Hear(h, ms[n]).header == ms[..if n + 1 < 4 then n + 1 else 4]
      && (Hear(h, ms[n]).ended <==> Told(ms, n) || (n >= 4 && ms[n] == Message(32, false, [])))
  {
    assert n < 4 ==> !Told(ms, n);
    hide Told;
    assert ms[..n] + [ms[n]] == ms[..n + 1];
  }

  lemma ToldNext(ms: seq<Message>, n: nat)
    requires 0 < n <= |ms|
    ensures Told(ms, n) <==> Told(ms, n - 1) || (n > 4 && ms[n - 1] == Message(32, false, []))
  {
  }

  /** What the server makes of the bytes sent so far. */
  function HeardFrom(out: seq<byte>): Heard { Listen(Parse(out)) }

  lemma HeardSnoc(out: seq<byte>, m: Message)
    requires Rest(out) == [] && m.code < 128 && |m.data| < 65536 && (!m.withData ==> m.data == [])
    ensures HeardFrom(out + Encode(m)) == Hear(HeardFrom(out), m) && Rest(out + Encode(m)) == []
  {
    ParseSnoc(out, m);
    ListenSnoc(Parse(out), m);
  }

  // ------------------------------------------------------------------- the header

  /** The header messages, in the order they are packed. */
  function Header(host: seq<byte>, user: seq<byte>, printer: seq<byte>, password: seq<byte>): seq<Message> {
    [Message(PROSMSG_HST, true, host), Message(PROSMSG_UID, true, user),
     Message(PROSMSG_PRN, true, printer), Message(PROSMSG_PAS, true, password)]
  }

  function HeaderBytes(host: seq<byte>, user: seq<byte>, printer: seq<byte>, password: seq<byte>): seq<byte>
    requires |host| < 65536 && |user| < 65536 && |printer| < 65536 && |password| < 65536
  {
    Encode(Message(PROSMSG_HST, true, host)) + Encode(Message(PROSMSG_UID, true, user)) +
    Encode(Message(PROSMSG_PRN, true, printer)) + Encode(Message(PROSMSG_PAS, true, password))
  }

  lemma Nothing()
    ensures HeardFrom([]) == Silence && Rest([]) == []
  {
  }

  lemma HeardHeader(host: seq<byte>, user: seq<byte>, printer: seq<byte>, password: seq<byte>)
    requires |host| < 65536 && |user| < 65536 && |printer| < 65536 && |password| < 65536
    ensures var b := HeaderBytes(host, user, printer, password);
            Rest(b) == [] && HeardFrom(b) == Heard(Header(host, user, printer, password), [], false, 0, true)
  {
    hide Encode, Rest;
    var h := Header(host, user, printer, password);
    assert HeardFrom([]) == Silence && Rest([]) == [] by { Nothing(); }
    HeardSnoc([], h[0]);
    assert [] + Encode(h[0]) == Encode(h[0]);
    HeardSnoc(Encode(h[0]), h[1]);
    HeardSnoc(Encode(h[0]) + Encode(h[1]), h[2]);
    HeardSnoc(Encode(h[0]) + Encode(h[1]) + Encode(h[2]), h[3]);
  }

  // ---------------------------------------------------------------------- one turn

  /** One turn: whether the server has sent something, and whether among it is the
      job-start or the end-of-job acknowledgement; whether the socket takes data;
      whether stdin is ready, and with how many bytes; whether a tickle is due. */
  datatype Turn = Turn(fromServer: bool, jst: bool, jok: bool, writable: bool, stdinReady: bool, avail: nat, tickle: bool)

  const BUFFER := 4096 + 3

  predicate AcksStart(t: Turn) { t.fromServer && t.jst }

  predicate AcksEnd(t: Turn) { t.fromServer && t.jok }

  /** A turn in which stdin and the socket are both ready and the server is silent. */
  predicate Helpful(t: Turn) { !t.fromServer && t.writable && t.stdinReady }

  /** The loop's variables, `pend` being what is in the send buffer, with what stdin
      has still to give and what has been written to the socket. */
  datatype State = State(pend: seq<byte>, lastRead: nat, acked: bool, sentEoj: bool, recvEoj: bool,
                         input: seq<byte>, out: seq<byte>)

  function Start(hb: seq<byte>, stdin: seq<byte>): State {
    State(hb, |hb|, false, false, false, stdin, [])
  }

  predicate WantsStdin(s: State) {
    s.pend == [] && s.acked && s.lastRead != 0
  }

  /** If the buffer is empty, see what there is to send. */
  function Prepared(s: State, t: Turn): State {
    if s.pend != [] || !s.acked || s.lastRead != 0 then s
    else if !s.sentEoj then s.(pend := [PROSMSG_EOF], sentEoj := true)
    else if t.tickle then s.(pend := [PROSMSG_NOP])
    else s
  }

  /** Write the whole buffer; the source gives up if write() takes less. */
  function Dispatched(s: State, t: Turn): State {
    if s.pend != [] && t.writable then s.(out := s.out + s.pend, pend := []) else s
  }

  /** How much read() gives: something, unless stdin is at its end. */
  function ReadCount(s: State, t: Turn): (n: nat)
    ensures n <= |s.input| && n <= BUFFER - 3 && (n == 0 <==> s.input == [])
  {
    var n := if t.avail < BUFFER - 3 then t.avail else BUFFER - 3;
    var m := if n == 0 then 1 else n;
    if m < |s.input| then m else |s.input|
  }

  /** Read print data, to be sent as one data message. */
  function Filled(s: State, t: Turn): State {
    var n := ReadCount(s, t);
    s.(lastRead := n, input := s.input[n..],
       pend := if n == 0 then [] else Encode(Message(PROSMSG_DTP, true, s.input[..n])))
  }

  function Step(s: State, t: Turn): State {
    var p := Prepared(s, t);
    if t.fromServer then p.(acked := p.acked || t.jst, recvEoj := p.recvEoj || t.jok)
    else if WantsStdin(s) && t.stdinReady then Filled(Dispatched(p, t), t)
    else Dispatched(p, t)
  }

  /** Nothing more to transmit, and the end-of-job acknowledgement received. */
  predicate Over(s: State) {
    s.lastRead == 0 && s.recvEoj
  }

  function Run(s: State, turns: seq<Turn>): State
    decreases |turns|
  {
    if turns == [] || Over(s) then s else Run(Step(s, turns[0]), turns[1..])
  }

  lemma {:induction false} RunConcat(s: State, a: seq<Turn>, b: seq<Turn>)
    ensures Run(s, a + b) == Run(Run(s, a), b)
    decreases |a|
  {
    hide Step;
    if a == [] {
      assert a + b == b;
    } else if !Over(s) {
      assert (a + b)[0] == a[0] && (a + b)[1..] == a[1..] + b;
      RunConcat(Step(s, a[0]), a[1..], b);
    }
  }

  /** Running one turn more. */
  lemma RunNext(s: State, turns: seq<Turn>, k: nat)
    requires k < |turns|
    ensures var r := Run(s, turns[..k]);
            Run(s, turns[..k + 1]) == if Over(r) then r else Step(r, turns[k])
  {
    hide Step;
    assert turns[..k + 1] == turns[..k] + [turns[k]];
    RunConcat(s, turns[..k], [turns[k]]);
  }

  lemma StaysOver(s: State, turns: seq<Turn>, k: nat)
    requires k <= |turns| && Over(Run(s, turns[..k]))
    ensures Run(s, turns) == Run(s, turns[..k])
  {
    hide Step;
    assert turns == turns[..k] + turns[k..];
    RunConcat(s, turns[..k], turns[k..]);
  }

  /** The first block on the wire: host, user, printer and password, in this order. */
  lemma HeaderOnWire(host: seq<byte>, user: seq<byte>, printer: seq<byte>, password: seq<byte>)
    requires |host| < 256 && |user| < 256 && |printer| < 256 && |password| < 256
    ensures HeaderBytes(host, user, printer, password) ==
            ([162, 0, |host|] + host) + ([161, 0, |user|] + user) +
            ([163, 0, |printer|] + printer) + ([164, 0, |password|] + password)
  {
    ShortBlock(34, host);
    ShortBlock(33, user);
    ShortBlock(35, printer);
    ShortBlock(36, password);
    hide Encode;
  }

  lemma ShortBlock(code: byte, text: seq<byte>)
    requires code < 128 && |text| < 256
    ensures Encode(Message(code, true, text)) == [code + 128, 0, |text|] + text
  {
  }

  /** What the server sends is noted first, and then nothing else is done in the turn,
      but to make up the end of the job or a tickle if nothing is in the buffer. */
  lemma ReplyTurn(s: State, t: Turn)
    requires t.fromServer
    ensures var n := Step(s, t);
      && n.out == s.out && n.input == s.input && n.lastRead == s.lastRead
      && (n.acked <==> s.acked || t.jst) && (n.recvEoj <==> s.recvEoj || t.jok)
      && n.pend == (if s.pend == [] && s.acked && s.lastRead == 0 then
                      if !s.sentEoj then [32] else if t.tickle then [38] else []
                    else s.pend)
      && (n.sentEoj <==> s.sentEoj || (s.pend == [] && s.acked && s.lastRead == 0))
  {
    hide Filled, Encode;
  }

  /** A turn with a full buffer writes all of it if the socket takes it, and no more. */
  lemma WritingTurn(s: State, t: Turn)
    requires !t.fromServer && s.pend != []
    ensures Step(s, t) == if t.writable then s.(out := s.out + s.pend, pend := []) else s
  {
    hide Filled, Encode;
  }

  /** With an empty buffer nothing happens before the start is acknowledged. At the end of
      stdin the end of the job is told once, and after that a tickle when it is due. */
  lemma IdleTurn(s: State, t: Turn)
    requires !t.fromServer && s.pend == []
    ensures !s.acked ==> Step(s, t) == s
    ensures s.acked && s.lastRead == 0 && !s.sentEoj ==>
      Step(s, t) == s.(sentEoj := true, pend := if t.writable then [] else [32], out := if t.writable then s.out + [32] else s.out)
    ensures s.acked && s.lastRead == 0 && s.sentEoj && t.tickle ==>
      Step(s, t) == s.(pend := if t.writable then [] else [38], out := if t.writable then s.out + [38] else s.out)
    ensures s.acked && s.lastRead == 0 && s.sentEoj && !t.tickle ==> Step(s, t) == s
    ensures s.acked && s.lastRead != 0 && !t.stdinReady ==> Step(s, t) == s
  {
    hide Filled, Encode;
  }

  /** A turn in which stdin is read: all that is there, up to 4096 bytes of it, goes into
      one data block; at the end of stdin there is nothing to be sent. */
  lemma ReadingTurn(s: State, t: Turn) returns (chunk: seq<byte>)
    requires !t.fromServer && s.pend == [] && s.acked && s.lastRead != 0 && t.stdinReady
    ensures var n := Step(s, t);
      && n.out == s.out && n.sentEoj == s.sentEoj && n.acked && n.recvEoj == s.recvEoj
      && chunk + n.input == s.input && n.lastRead == |chunk| <= 4096
      && (chunk == [] <==> s.input == [])
      && (0 < t.avail <= 4096 ==> |chunk| == t.avail || (|chunk| < t.avail && n.input == []))
      && (t.avail > 4096 ==> |chunk| == 4096 || n.input == [])
      && (t.avail == 0 ==> |chunk| <= 1)
      && n.pend == if chunk == [] then [] else [165, |chunk| / 256, |chunk| % 256] + chunk
  {
    chunk := s.input[..ReadCount(s, t)];
  }

  // -------------------------------------------------------------- what every turn keeps

  /** Where the copying of `job`, under the header `hdr`, has got to. */
  ghost predicate Sending(s: State, hdr: seq<Message>, hb: seq<byte>, job: seq<byte>) {
    var h := HeardFrom(s.out);
    && Rest(s.out) == [] && h.proper
    && Rest(hb) == [] && HeardFrom(hb) == Heard(hdr, [], false, 0, true) && |hdr| == 4 && hb != []
    && (if s.out == [] then s.pend == hb && !s.sentEoj && s.lastRead != 0 && s.input == job
        else
          && h.header == hdr
          && (if s.sentEoj then
                && s.lastRead == 0 && s.input == [] && h.data == job && s.acked
                && (if h.ended then s.pend == [] || s.pend == [PROSMSG_NOP] else s.pend == [PROSMSG_EOF])
              else
                && !h.ended
                && (if s.pend == [] then h.data + s.input == job
                    else
                      && 3 < |s.pend| < 65536 && s.pend == Encode(Message(PROSMSG_DTP, true, s.pend[3..]))
                      && h.data + s.pend[3..] + s.input == job && s.acked && s.lastRead != 0)
                && (s.lastRead == 0 ==> s.input == [] && s.acked)
                && (h.data != [] ==> s.acked)))
  }

  lemma PreparedSending(s: State, t: Turn, hdr: seq<Message>, hb: seq<byte>, job: seq<byte>)
    requires Sending(s, hdr, hb, job)
    ensures var p := Prepared(s, t); Sending(p, hdr, hb, job) && p.out == s.out && p.lastRead == s.lastRead
    ensures WantsStdin(s) ==> Prepared(s, t) == s
  {
    hide HeardFrom, Rest, Encode;
  }

  lemma DispatchedSending(s: State, t: Turn, hdr: seq<Message>, hb: seq<byte>, job: seq<byte>)
    requires Sending(s, hdr, hb, job)
    ensures Sending(Dispatched(s, t), hdr, hb, job)
  {
    hide HeardFrom, Rest, Encode;
    var h := HeardFrom(s.out);
    if s.pend != [] && t.writable {
      if s.out == [] {
        assert s.out + s.pend == hb;
      } else if s.sentEoj {
        var m := Message(if h.ended then PROSMSG_NOP else PROSMSG_EOF, false, []);
        EncodeBare(m);
        HeardSnoc(s.out, m);
      } else {
        HeardSnoc(s.out, Message(PROSMSG_DTP, true, s.pend[3..]));
      }
    }
  }

  lemma EncodeBare(m: Message)
    requires m.code < 128 && !m.withData && m.data == []
    ensures Encode(m) == [m.code]
  {
  }

  lemma EncodeData(chunk: seq<byte>)
    requires 0 < |chunk| < 65536
    ensures var e := Encode(Message(PROSMSG_DTP, true, chunk)); |e| == |chunk| + 3 && e[3..] == chunk
  {
  }

  lemma FilledSending(s: State, t: Turn, hdr: seq<Message>, hb: seq<byte>, job: seq<byte>)
    requires Sending(s, hdr, hb, job) && WantsStdin(s)
    ensures Sending(Filled(s, t), hdr, hb, job)
  {
    hide HeardFrom, Rest, Encode, ReadCount;
    var n := ReadCount(s, t);
    if n > 0 {
      EncodeData(s.input[..n]);
      assert HeardFrom(s.out).data + s.input[..n] + s.input[n..] == HeardFrom(s.out).data + s.input;
    }
  }

  lemma FlagsSending(s: State, a: bool, e: bool, hdr: seq<Message>, hb: seq<byte>, job: seq<byte>)
    requires Sending(s, hdr, hb, job) && (s.acked ==> a)
    ensures Sending(s.(acked := a, recvEoj := e), hdr, hb, job)
  {
    hide HeardFrom, Rest, Encode;
  }

  /** Every turn keeps what the server hears in order, and its data, the buffer and
      stdin together the job. */
  lemma StepSending(s: State, t: Turn, hdr: seq<Message>, hb: seq<byte>, job: seq<byte>)
    requires Sending(s, hdr, hb, job)
    ensures Sending(Step(s, t), hdr, hb, job)
  {
    hide Sending, HeardFrom, Rest, Encode, ReadCount, Prepared;
    PreparedSending(s, t, hdr, hb, job);
    var p := Prepared(s, t);
    if t.fromServer {
      FlagsSending(p, p.acked || t.jst, p.recvEoj || t.jok, hdr, hb, job);
    } else {
      DispatchedSending(p, t, hdr, hb, job);
      if WantsStdin(s) && t.stdinReady {
        FilledSending(Dispatched(p, t), t, hdr, hb, job);
      }
    }
  }

  lemma {:induction false} RunSending(s: State, turns: seq<Turn>, hdr: seq<Message>, hb: seq<byte>, job: seq<byte>)
    requires Sending(s, hdr, hb, job)
    ensures Sending(Run(s, turns), hdr, hb, job)
    decreases |turns|
  {
    hide Sending, Step;
    if turns != [] && !Over(s) {
      StepSending(s, turns[0], hdr, hb, job);
      RunSending(Step(s, turns[0]), turns[1..], hdr, hb, job);
    }
  }

  lemma StartSending(host: seq<byte>, user: seq<byte>, printer: seq<byte>, password: seq<byte>, stdin: seq<byte>)
    requires 12 + |host| + |user| + |printer| + |password| <= BUFFER
    ensures Sending(Start(HeaderBytes(host, user, printer, password), stdin), Header(host, user, printer, password),
                    HeaderBytes(host, user, printer, password), stdin)
  {
    hide HeardFrom, Rest;
    HeardHeader(host, user, printer, password);
    Nothing();
  }

  /** What the server makes of it, whatever happens: proper messages only, no print
      data before it acknowledged the start, and the end told only after all data. */
  lemma Outcome(s: State, hdr: seq<Message>, hb: seq<byte>, job: seq<byte>)
    requires Sending(s, hdr, hb, job)
    ensures var h := HeardFrom(s.out);
            && h.proper && h.data <= job && (s.out != [] ==> h.header == hdr)
            && (h.data != [] || h.ended ==> s.acked) && (h.ended ==> h.data == job && s.sentEoj && s.lastRead == 0)
            && (s.lastRead == 0 ==> s.out != [] && h.data == job)
            && (s.sentEoj ==> s.lastRead == 0) && (!h.ended && s.sentEoj ==> s.pend == [PROSMSG_EOF])
  {
    hide Encode;
    Nothing();
    hide HeardFrom, Rest;
  }

  // -------------------------------------------------------------- the acknowledged end

  /** The server acknowledges the end only after it: in no turn taken does the
      acknowledgement come while the server has not heard the job end. */
  predicate OnlyInReply(s: State, turns: seq<Turn>) {
    forall k {:trigger turns[k]} :: 0 <= k < |turns| && AcksEnd(turns[k]) ==>
      var r := Run(s, turns[..k]);
      Over(r) || HeardFrom(r.out).ended
  }

  /** An acknowledgement that comes before the end is told keeps it from being told. */
  lemma {:induction false} NeverTold(s: State, turns: seq<Turn>, hdr: seq<Message>, hb: seq<byte>, job: seq<byte>)
    requires Sending(s, hdr, hb, job) && s.recvEoj && !HeardFrom(s.out).ended
    ensures !HeardFrom(Run(s, turns).out).ended
    decreases |turns|
  {
    hide Sending, HeardFrom;
    if turns != [] && !Over(s) {
      Outcome(s, hdr, hb, job);
      StepSending(s, turns[0], hdr, hb, job);
      var n := Step(s, turns[0]);
      Outcome(n, hdr, hb, job);
      assert !n.sentEoj && n.recvEoj by { hide Encode, ReadCount; }
      hide Step;
      NeverTold(n, turns[1..], hdr, hb, job);
    }
  }

  /** A run in which the acknowledgement was received received it in some turn, and
      in the first one the end had been told if it has been at last. */
  lemma {:induction false} ToldBefore(s: State, turns: seq<Turn>, hdr: seq<Message>, hb: seq<byte>, job: seq<byte>)
    requires Sending(s, hdr, hb, job) && !s.recvEoj && Run(s, turns).recvEoj
    ensures HeardFrom(Run(s, turns).out).ended <==> OnlyInReply(s, turns)
    decreases |turns|
  {
    hide Sending, HeardFrom;
    var n := Step(s, turns[0]);
    StepSending(s, turns[0], hdr, hb, job);
    assert turns[..0] == [];
    assert n.recvEoj <==> AcksEnd(turns[0]) by { hide Encode, ReadCount; }
    if n.recvEoj {
      assert n.out == s.out by { hide Encode, ReadCount; }
      Outcome(s, hdr, hb, job);
      if HeardFrom(s.out).ended {
        assert n.lastRead == 0;
        hide Step;
        forall k | 0 <= k < |turns| && AcksEnd(turns[k])
          ensures Over(Run(s, turns[..k])) || HeardFrom(Run(s, turns[..k]).out).ended
        {
          if k > 0 {
            assert turns[..k][0] == turns[0] && turns[..k][1..] == turns[1..k];
          }
        }
      } else {
        hide Step;
        NeverTold(n, turns[1..], hdr, hb, job);
        assert AcksEnd(turns[0]) && !(Over(Run(s, turns[..0])) || HeardFrom(Run(s, turns[..0]).out).ended);
      }
    } else {
      hide Step;
      ToldBefore(n, turns[1..], hdr, hb, job);
      forall k | 0 < k < |turns|
        ensures Run(s, turns[..k]) == Run(n, turns[1..][..k - 1])
      {
        assert turns[..k][0] == turns[0] && turns[..k][1..] == turns[1..][..k - 1];
      }
      RepliesShift(s, turns);
    }
  }

  lemma RepliesShift(s: State, turns: seq<Turn>)
    requires turns != [] && !AcksEnd(turns[0])
    requires forall k :: 0 < k < |turns| ==> Run(s, turns[..k]) == Run(Step(s, turns[0]), turns[1..][..k - 1])
    ensures OnlyInReply(s, turns) <==> OnlyInReply(Step(s, turns[0]), turns[1..])
  {
    hide Step, Run, HeardFrom;
    if OnlyInReply(s, turns) {
      forall k | 0 <= k < |turns[1..]| && AcksEnd(turns[1..][k])
        ensures var r := Run(Step(s, turns[0]), turns[1..][..k]); Over(r) || HeardFrom(r.out).ended
      {
        assert turns[k + 1] == turns[1..][k];
        assert turns[1..][..k + 1 - 1] == turns[1..][..k];
      }
    }
    if OnlyInReply(Step(s, turns[0]), turns[1..]) {
      forall k | 0 <= k < |turns| && AcksEnd(turns[k])
        ensures var r := Run(s, turns[..k]); Over(r) || HeardFrom(r.out).ended
      {
        assert k > 0 && turns[1..][k - 1] == turns[k];
      }
    }
  }

  /** When the loop has ended the server has the header and all of stdin. It has
      been told that the job is over, once, if and only if it acknowledged the end
      only in reply. */
  lemma ToldIffInReply(host: seq<byte>, user: seq<byte>, printer: seq<byte>, password: seq<byte>, stdin: seq<byte>,
                       turns: seq<Turn>)
    requires 12 + |host| + |user| + |printer| + |password| <= BUFFER
    requires Over(Run(Start(HeaderBytes(host, user, printer, password), stdin), turns))
    ensures var s := Start(HeaderBytes(host, user, printer, password), stdin);
            var h := HeardFrom(Run(s, turns).out);
            && h.proper && h.header == Header(host, user, printer, password) && h.data == stdin
            && (h.ended <==> OnlyInReply(s, turns))
  {
    hide HeardFrom, Step, Sending, Header, HeaderBytes, OnlyInReply;
    var hb := HeaderBytes(host, user, printer, password);
    var hdr := Header(host, user, printer, password);
    var s := Start(hb, stdin);
    StartSending(host, user, printer, password, stdin);
    RunSending(s, turns, hdr, hb, stdin);
    Outcome(Run(s, turns), hdr, hb, stdin);
    ToldBefore(s, turns, hdr, hb, stdin);
  }

  // ------------------------------------------------------------------ a job gets through

  /** What is still to be done: buffers to write and reads to make. */
  function Left(s: State): nat {
    if HeardFrom(s.out).ended then 0
    else 2 * |s.input| + (if s.lastRead != 0 then 1 else 0) + (if s.pend != [] then 1 else 0) + 1
  }

  lemma HelpfulStep(s: State, t: Turn, hdr: seq<Message>, hb: seq<byte>, job: seq<byte>)
    requires Sending(s, hdr, hb, job) && s.acked && Helpful(t)
    ensures var n := Step(s, t);
            && n.acked && n.recvEoj == s.recvEoj
            && (if HeardFrom(s.out).ended then HeardFrom(n.out).ended else Left(n) < Left(s))
  {
    hide Encode, HeardFrom, ReadCount, Rest;
    StepSending(s, t, hdr, hb, job);
    var n := Step(s, t);
    Outcome(s, hdr, hb, job);
    Outcome(n, hdr, hb, job);
    hide Sending;
    if s.pend == [] && s.lastRead != 0 {
      var k := ReadCount(s, t);
      assert n.input == s.input[k..] && n.lastRead == k && n.out == s.out;
      assert n.pend == [] || k > 0;
    } else if s.pend != [] {
      assert n.pend == [] && n.input == s.input && n.lastRead == s.lastRead;
    } else if !s.sentEoj {
      assert n.sentEoj && n.pend == [];
    } else {
      assert n.sentEoj && n.pend == [];
    }
  }

  lemma {:induction false} HelpfulRun(s: State, turns: seq<Turn>, hdr: seq<Message>, hb: seq<byte>, job: seq<byte>)
    requires Sending(s, hdr, hb, job) && s.acked && !s.recvEoj
    requires |turns| >= Left(s) && forall i :: 0 <= i < |turns| ==> Helpful(turns[i])
    ensures var e := Run(s, turns); HeardFrom(e.out).ended && !e.recvEoj
    decreases |turns|
  {
    hide Sending, HeardFrom, Step;
    if turns != [] {
      HelpfulStep(s, turns[0], hdr, hb, job);
      StepSending(s, turns[0], hdr, hb, job);
      HelpfulRun(Step(s, turns[0]), turns[1..], hdr, hb, job);
    }
  }

  /** The start counts as acknowledged from the first turn that acknowledges it, the
      end likewise. */
  lemma {:induction false} Acknowledged(s: State, turns: seq<Turn>)
    requires !s.recvEoj && forall i :: 0 <= i < |turns| ==> !AcksEnd(turns[i])
    ensures !Run(s, turns).recvEoj
    ensures Run(s, turns).acked <==> s.acked || exists i :: 0 <= i < |turns| && AcksStart(turns[i])
    decreases |turns|
  {
    if turns != [] {
      var n := Step(s, turns[0]);
      assert (n.acked <==> s.acked || AcksStart(turns[0])) && !n.recvEoj by { hide Encode, ReadCount; }
      hide Step;
      Acknowledged(n, turns[1..]);
      forall i | 0 < i < |turns|
        ensures turns[i] == turns[1..][i - 1]
      {
      }
      if i :| 0 <= i < |turns| && AcksStart(turns[i]) && i > 0 {
        assert AcksStart(turns[1..][i - 1]);
      }
    }
  }

  lemma LeftAtMost(s: State, hdr: seq<Message>, hb: seq<byte>, job: seq<byte>)
    requires Sending(s, hdr, hb, job)
    ensures Left(s) <= 2 * |job| + 3
  {
    hide HeardFrom, Rest, Encode;
  }

  /** Every job gets through: once the start has been acknowledged, two helpful
      turns for each byte and three more get the server to hear the job and its end,
      and its acknowledgement ends the loop. */
  lemma JobEnds(host: seq<byte>, user: seq<byte>, printer: seq<byte>, password: seq<byte>, stdin: seq<byte>,
                a: seq<Turn>, b: seq<Turn>, answer: Turn)
    requires 12 + |host| + |user| + |printer| + |password| <= BUFFER
    requires (forall i :: 0 <= i < |a| ==> !AcksEnd(a[i])) && exists i :: 0 <= i < |a| && AcksStart(a[i])
    requires |b| >= 2 * |stdin| + 3 && (forall i :: 0 <= i < |b| ==> Helpful(b[i])) && AcksEnd(answer)
    ensures var e := Run(Start(HeaderBytes(host, user, printer, password), stdin), a + b + [answer]);
            && Over(e) && HeardFrom(e.out).ended && HeardFrom(e.out).data == stdin
  {
    hide HeardFrom, Sending, Header, HeaderBytes, Left;
    var hb := HeaderBytes(host, user, printer, password);
    var hdr := Header(host, user, printer, password);
    var s := Start(hb, stdin);
    StartSending(host, user, printer, password, stdin);
    Acknowledged(s, a);
    var r := Run(s, a);
    RunSending(s, a, hdr, hb, stdin);
    LeftAtMost(r, hdr, hb, stdin);
    HelpfulRun(r, b, hdr, hb, stdin);
    var m := Run(r, b);
    RunSending(r, b, hdr, hb, stdin);
    Outcome(m, hdr, hb, stdin);
    Answered(m, answer);
    hide Step;
    RunConcat(s, a, b);
    RunConcat(s, a + b, [answer]);
    assert Run(m, [answer]) == Step(m, answer);
  }

  lemma Answered(s: State, t: Turn)
    requires AcksEnd(t) && s.lastRead == 0
    ensures Over(Step(s, t)) && Step(s, t).out == s.out
  {
    hide Encode, ReadCount;
  }

  // ---------------------------------------------------------------------- the loop itself

  /** memcpy() into a buffer with room for it. */
  method Memcpy(buf: array<byte>, off: nat, text: seq<byte>)
    requires off + |text| <= buf.Length
    modifies buf
    ensures buf[..off + |text|] == old(buf[..off]) + text
  {
    forall i | 0 <= i < |text| {
      buf[off + i] := text[i];
    }
    assert buf[..off] == old(buf[..off]) && buf[off..off + |text|] == text;
  }

  /** pros_pack(): append a message with data, unless the buffer is too small. */
  method Pack(buf: array<byte>, bufOff: nat, code: byte, text: seq<byte>) returns (off: int)
    requires bufOff <= buf.Length && code < 128 && |text| < 65536
    modifies buf
    ensures off == if buf.Length - bufOff < 3 + |text| then -1 else bufOff + 3 + |text|
    ensures off >= 0 ==> buf[..off] == old(buf[..bufOff]) + Encode(Message(code, true, text))
    ensures off < 0 ==> buf[..] == old(buf[..])
  {
    if buf.Length - bufOff < 3 + |text| {
      return -1;
    }
    off := bufOff;
    ghost var before := buf[..off];
    buf[off], buf[off + 1], buf[off + 2] := code + 128, |text| / 256, |text| % 256;
    off := off + 3;
    assert buf[..off] == before + [code + 128, |text| / 256, |text| % 256];
    Memcpy(buf, off, text);
    off := off + |text|;
    assert before + ([code + 128, |text| / 256, |text| % 256] + text)
        == before + [code + 128, |text| / 256, |text| % 256] + text;
  }

  class Client {
    const sendbuf: array<byte>
    var sendbufOff: int
    var lastStdinRead: int
    var jobStartAcked: bool
    var sentEoj: bool
    var recvEoj: bool

    var input: seq<byte>
    var out: seq<byte>

    ghost predicate Valid()
      reads `sendbufOff, `lastStdinRead
    {
      sendbuf.Length == BUFFER && 0 <= sendbufOff <= BUFFER && 0 <= lastStdinRead
    }

    ghost function Now(): State
      requires Valid()
      reads this, sendbuf
    {
      State(sendbuf[..sendbufOff], lastStdinRead, jobStartAcked, sentEoj, recvEoj, input, out)
    }

    constructor ()
      ensures Valid() && out == [] && fresh(sendbuf)
    {
      sendbuf := new byte[BUFFER];
      sendbufOff, lastStdinRead, jobStartAcked, sentEoj, recvEoj := 0, 0, false, false, false;
      input, out := [], [];
    }

    /** If the buffer is empty, see what there is to send; ask for stdin if wanted. */
    method Prepare(t: Turn) returns (wantStdin: bool)
      requires Valid()
      modifies this`sendbufOff, this`sentEoj, sendbuf
      ensures Valid() && Now() == Prepared(old(Now()), t) && (wantStdin <==> WantsStdin(old(Now())))
    {
      wantStdin := false;
      if sendbufOff == 0 {
        if !jobStartAcked {
        } else if lastStdinRead != 0 {
          wantStdin := true;
        } else if !sentEoj {
          sendbuf[0] := PROSMSG_EOF;
          sendbufOff := 1;
          sentEoj := true;
          assert sendbuf[..sendbufOff] == [PROSMSG_EOF];
        } else if t.tickle {
          sendbuf[0] := PROSMSG_NOP;
          sendbufOff := 1;
          assert sendbuf[..sendbufOff] == [PROSMSG_NOP];
        }
      }
    }

    method Dispatch(t: Turn)
      requires Valid()
      modifies this`sendbufOff, this`out
      ensures Valid() && Now() == Dispatched(old(Now()), t)
    {
      if sendbufOff > 0 && t.writable {
        out := out + sendbuf[..sendbufOff];
        sendbufOff := 0;
        assert sendbuf[..sendbufOff] == [];
      }
    }

    /** Read print data into the buffer behind room for a message header. */
    method ReadStdin(t: Turn)
      requires Valid() && sendbufOff == 0
      modifies this`sendbufOff, this`lastStdinRead, this`input, sendbuf
      ensures Valid() && Now() == Filled(old(Now()), t)
    {
      ghost var was := Now();
      var n := if t.avail < BUFFER - 3 then t.avail else BUFFER - 3;
      n := if n == 0 then 1 else n;
      n := if n < |input| then n else |input|;
      assert n == ReadCount(was, t);
      lastStdinRead := n;
      if lastStdinRead == 0 {
        sendbufOff := 0;
        assert sendbuf[..sendbufOff] == [];
      } else {
        FillBuffer(input[..n]);
      }
      hide Encode, ReadCount;
      input := input[n..];
    }

    /** A data message: the code, the length, and the data already read in behind. */
    method FillBuffer(chunk: seq<byte>)
      requires sendbuf.Length == BUFFER && 0 < |chunk| <= BUFFER - 3
      modifies this`sendbufOff, sendbuf
      ensures sendbufOff == |chunk| + 3 && sendbuf[..sendbufOff] == Encode(Message(PROSMSG_DTP, true, chunk))
    {
      forall i | 0 <= i < |chunk| {
        sendbuf[3 + i] := chunk[i];
      }
      sendbuf[0] := PROSMSG_DTP + 128;
      sendbuf[1] := |chunk| / 256;
      sendbuf[2] := |chunk| % 256;
      sendbufOff := |chunk| + 3;
      assert sendbuf[..sendbufOff][3..] == chunk;
    }

    /** The body of the loop. */
    method OneTurn(t: Turn)
      requires Valid()
      modifies this, sendbuf
      ensures Valid() && Now() == Step(old(Now()), t)
    {
      ghost var was := Now();
      hide Encode, ReadCount, Filled, Prepared, Dispatched;
      var wantStdin := Prepare(t);
      ghost var ready := Now();
      assert ready == Prepared(was, t);
      if t.fromServer {
        if t.jst {
          jobStartAcked := true;
        }
        if t.jok {
          recvEoj := true;
        }
      } else {
        Dispatch(t);
        assert Now() == Dispatched(ready, t);
        if wantStdin && t.stdinReady {
          WantingKeepsEmpty(was, t);
          ReadStdin(t);
        }
      }
    }

    lemma WantingKeepsEmpty(s: State, t: Turn)
      requires WantsStdin(s)
      ensures Dispatched(Prepared(s, t), t) == s
    {
    }

    /** Pack the job header into the buffer, to be the first block sent. */
    method PackHeader(host: seq<byte>, user: seq<byte>, printer: seq<byte>, password: seq<byte>)
      requires sendbuf.Length == BUFFER && 12 + |host| + |user| + |printer| + |password| <= BUFFER
      modifies this`sendbufOff, sendbuf
      ensures 0 < sendbufOff <= BUFFER && sendbuf[..sendbufOff] == HeaderBytes(host, user, printer, password)
    {
      hide Encode;
      sendbufOff := 0;
      sendbufOff := Pack(sendbuf, sendbufOff, PROSMSG_HST, host);
      sendbufOff := Pack(sendbuf, sendbufOff, PROSMSG_UID, user);
      sendbufOff := Pack(sendbuf, sendbufOff, PROSMSG_PRN, printer);
      sendbufOff := Pack(sendbuf, sendbufOff, PROSMSG_PAS, password);
    }

    /** Copy a job. Whatever happens, the server hears proper messages only, and no
        print data before it has acknowledged the start. When the loop ends the
        server has the header and all of stdin; it has been told that the job is
        over if and only if it acknowledged the end only in reply. */
    method CopyJob(host: seq<byte>, user: seq<byte>, printer: seq<byte>, password: seq<byte>,
                   stdin: seq<byte>, turns: seq<Turn>)
      returns (finished: bool)
      requires sendbuf.Length == BUFFER && out == []
      requires 12 + |host| + |user| + |printer| + |password| <= BUFFER
      modifies this, sendbuf
      ensures Valid() && Now() == Run(Start(HeaderBytes(host, user, printer, password), stdin), turns)
      ensures var h := HeardFrom(out);
              && h.proper && h.data <= stdin && (out != [] ==> h.header == Header(host, user, printer, password))
              && (h.data != [] || h.ended ==> jobStartAcked) && (h.ended ==> h.data == stdin)
              && (finished <==> Over(Now()))
              && (finished ==>
                    && out != [] && h.data == stdin
                    && (h.ended <==> OnlyInReply(Start(HeaderBytes(host, user, printer, password), stdin), turns)))
    {
      ghost var hdr := Header(host, user, printer, password);
      ghost var hb := HeaderBytes(host, user, printer, password);
      ghost var s := Start(hb, stdin);
      PackHeader(host, user, printer, password);
      hide Sending, HeardFrom, Rest, Header, HeaderBytes, Step, OnlyInReply, Run;
      input := stdin;
      lastStdinRead := sendbufOff;
      jobStartAcked, sentEoj, recvEoj := false, false, false;
      assert Now() == s;
      Copy(turns);
      finished := lastStdinRead == 0 && recvEoj;
      StartSending(host, user, printer, password, stdin);
      RunSending(s, turns, hdr, hb, stdin);
      Outcome(Now(), hdr, hb, stdin);
      if finished {
        ToldIffInReply(host, user, printer, password, stdin, turns);
      }
    }

    method Copy(turns: seq<Turn>)
      requires Valid()
      modifies this, sendbuf
      ensures Valid() && Now() == Run(old(Now()), turns)
    {
      ghost var s := Now();
      hide Step;
      var i := 0;
      assert turns[..0] == [];
      while (lastStdinRead != 0 || !recvEoj) && i < |turns|
        invariant 0 <= i <= |turns| && Valid() && Now() == Run(s, turns[..i])
      {
        RunNext(s, turns, i);
        OneTurn(turns[i]);
        i := i + 1;
      }
      assert turns[..|turns|] == turns;
      if i < |turns| {
        StaysOver(s, turns, i);
      }
    }
  }
}

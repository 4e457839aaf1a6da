// The AppleTalk interface's job loop (interfaces/atalk_ali.c: copy_job(),
// receive(), sigusr1_handler() and the end of int_main()), sending jobs over the
// Printer Access Protocol (Inside AppleTalk, second edition, chapter 10).
//
// What the outside world does in one turn of the loop is a Turn. A sequence of
// turns is one interleaving of reads, blocked writes, printer data and SIGUSR1.
// Step says what one turn makes of the loop's state, the class at the end is the
// loop itself, and the theorems in between hold of every sequence of turns.

module PapCopy {
  import opened Bytes

  /** A block accepted by pap_write(). */
  datatype Block = Block(data: seq<byte>, eoj: bool)

  // ------------------------------------------------------------- the printer's view

  /** What a printer has got: the jobs that ended, and the data since. */
  datatype Seen = Seen(jobs: seq<seq<byte>>, partial: seq<byte>)

  function Received(blocks: seq<Block>): Seen {
    if blocks == [] then Seen([], [])
    else
      var s := Received(blocks[..|blocks| - 1]);
      var b := blocks[|blocks| - 1];
      if b.eoj then Seen(s.jobs + [s.partial + b.data], []) else Seen(s.jobs, s.partial + b.data)
  }

  lemma ReceivedBlock(blocks: seq<Block>, b: Block)
    ensures var s := Received(blocks);
            Received(blocks + [b]) ==
            if b.eoj then Seen(s.jobs + [s.partial + b.data], []) else Seen(s.jobs, s.partial + b.data)
  {
    assert (blocks + [b])[..|blocks|] == blocks;
  }

  // ----------------------------------------------------------------- the outside world

  /** pap_look(): nothing, a blocked write may be tried again, data to read, or failure. */
  datatype Look = Nothing | WriteEnabled | DataReceived | Trouble

  /** What ends the wait at the bottom of the loop. */
  datatype Wake = OnStdin | OnPrinter | OnSignal

  /** One turn: how many bytes read() finds, whether it finds the pipe closed, what
      pap_look() says, whether pap_write() blocks or fails, whether the data read
      from the printer carries EOJ, and what ends the wait. */
  datatype Turn = Turn(avail: nat, closed: bool, look: Look, accepted: bool, failed: bool, eoj: bool, wake: Wake)

  /** A turn in which everything goes well, if no refused write is outstanding. */
  predicate Helpful(t: Turn) {
    (t.look.WriteEnabled? || t.look.Nothing?) && t.accepted && !t.failed && t.avail > 0 && t.closed
  }

  /** A turn in which the printer sends EOJ. */
  predicate SendsEoj(t: Turn) {
    t.look.DataReceived? && t.eoj
  }

  // ------------------------------------------------------------------------ one turn

  /** The loop's variables, the pipe it reads and the blocks it has sent. `tosend`
      is -1 with the buffer empty, -2 with EOJ sent, else the bytes in `writebuf`.
      `lastJob` says that the pipe gets closed after this job, and then no SIGUSR1
      comes; `allIn` that the job is known to be all in the pipe, since pprdrv
      sends SIGUSR1 only then. */
  datatype State = State(pipe: seq<byte>, lastJob: bool, allIn: bool, caught: bool, tosend: int, writebuf: seq<byte>,
                         serverEoj: bool, blocked: bool, closed: bool, fatal: bool, sent: seq<Block>)

  function Start(job: seq<byte>, lastJob: bool, sent: seq<Block>): State {
    State(job, lastJob, false, false, -1, [], false, false, false, false, sent)
  }

  function Min(a: nat, b: nat): nat {
    if a < b then a else b
  }

  /** What read(0, writebuf, q) returns. A pipe known to hold the whole job has it to give. */
  function ReadCount(q: nat, s: State, t: Turn): int {
    if s.pipe == [] then if s.lastJob && t.closed then 0 else -1
    else
      var k := Min(Min(t.avail, q), |s.pipe|);
      if k > 0 then k else if s.allIn then 1 else -1
  }

  /** If the send buffer is empty, see if there is data on stdin. */
  function Loaded(q: nat, s: State, t: Turn): State
    requires q > 0
  {
    var n := ReadCount(q, s, t);
    if s.tosend != -1 then s
    else if n > 0 then s.(pipe := s.pipe[n..], writebuf := s.pipe[..n], tosend := n)
    else if n == 0 then s.(writebuf := [], tosend := 0, closed := true)
    else s.(writebuf := [], tosend := if s.caught then 0 else -1)
  }

  /** Try to send what is in the buffer, if pap_look() lets it. */
  function Written(s: State, t: Turn): State {
    if s.tosend < 0 || !(t.look.WriteEnabled? || (!s.blocked && t.look.Nothing?)) then s
    else if t.failed then s.(fatal := true)
    else if !t.accepted then s.(blocked := true)
    else s.(sent := s.sent + [Block(s.writebuf, s.tosend == 0)], writebuf := [], blocked := false,
            tosend := if s.tosend != 0 then -1 else -2)
  }

  /** The state in which a turn comes to its wait, if it comes so far. */
  function AtWait(q: nat, s: State, t: Turn): State
    requires q > 0
  {
    Written(Loaded(q, s, t), t)
  }

  predicate Waits(q: nat, s: State, t: Turn)
    requires q > 0
  {
    !t.look.DataReceived? && !t.look.Trouble? && !AtWait(q, s, t).fatal
  }

  /** A turn in whose wait SIGUSR1 is caught. */
  predicate Signalled(q: nat, s: State, t: Turn)
    requires q > 0
  {
    Waits(q, s, t) && t.wake.OnSignal? && !s.lastJob
  }

  function Step(q: nat, s: State, t: Turn): State
    requires q > 0
  {
    if t.look.DataReceived? then Loaded(q, s, t).(serverEoj := t.eoj)
    else if t.look.Trouble? then Loaded(q, s, t).(fatal := true)
    else if Signalled(q, s, t) then AtWait(q, s, t).(caught := true, allIn := true)
    else AtWait(q, s, t)
  }

  /** The loop has ended, or the program has. */
  predicate Over(laser: bool, s: State) {
    s.fatal || s.serverEoj || (!laser && s.tosend == -2)
  }

  /** The loop has ended by itself. */
  predicate Finished(laser: bool, s: State) {
    !s.fatal && Over(laser, s)
  }

  function Run(q: nat, laser: bool, s: State, turns: seq<Turn>): State
    requires q > 0
    decreases |turns|
  {
    if turns == [] || Over(laser, s) then s else Run(q, laser, Step(q, s, turns[0]), turns[1..])
  }

  lemma {:induction false} RunConcat(q: nat, laser: bool, s: State, a: seq<Turn>, b: seq<Turn>)
    requires q > 0
    ensures Run(q, laser, s, a + b) == Run(q, laser, Run(q, laser, s, a), b)
    decreases |a|
  {
    if a == [] {
      assert a + b == b;
    } else if !Over(laser, s) {
      assert (a + b)[0] == a[0] && (a + b)[1..] == a[1..] + b;
      RunConcat(q, laser, Step(q, s, a[0]), a[1..], b);
    }
  }

  /** Running one turn more. */
  lemma RunNext(q: nat, laser: bool, s: State, turns: seq<Turn>, k: nat)
    requires q > 0 && k < |turns|
    ensures var r := Run(q, laser, s, turns[..k]);
            Run(q, laser, s, turns[..k + 1]) == if Over(laser, r) then r else Step(q, r, turns[k])
  {
    assert turns[..k + 1] == turns[..k] + [turns[k]];
    RunConcat(q, laser, s, turns[..k], [turns[k]]);
  }

  // ------------------------------------------------------------------- what a turn does

  /** There is something in the buffer, and pap_look() lets it be sent: it says that a
      blocked write may be tried again, or nothing while no refused write is outstanding. */
  predicate Tries(q: nat, s: State, t: Turn)
    requires q > 0
  {
    Loaded(q, s, t).tosend >= 0 && (t.look.WriteEnabled? || (t.look.Nothing? && !s.blocked))
  }

  /** The turn ends the program. */
  predicate Breaks(q: nat, s: State, t: Turn)
    requires q > 0
  {
    t.look.Trouble? || (Tries(q, s, t) && t.failed)
  }

  /** A write that is tried sends the buffer, with EOJ if it is empty, and leaves none
      outstanding, or is refused, and then is; one that is not tried changes nothing. */
  lemma WrittenEffect(q: nat, s: State, t: Turn)
    requires q > 0 && !s.fatal
    ensures var l, w := Loaded(q, s, t), AtWait(q, s, t);
            && l.blocked == s.blocked && l.sent == s.sent && !l.fatal
            && (w.fatal <==> Tries(q, s, t) && t.failed)
            && w.sent == (if Tries(q, s, t) && !t.failed && t.accepted then s.sent + [Block(l.writebuf, l.tosend == 0)] else s.sent)
            && (w.blocked <==> if Tries(q, s, t) && !t.failed then !t.accepted else s.blocked)
  {
    LoadedKeeps(q, s, t);
    hide Loaded;
    var l := Loaded(q, s, t);
    if l.tosend < 0 || !(t.look.WriteEnabled? || (!l.blocked && t.look.Nothing?)) {
    } else if t.failed {
    } else if !t.accepted {
    } else {
    }
  }

  /** A turn's effect on what is sent, on whether a refused write is outstanding, and
      on whether the program goes on. */
  lemma StepEffect(q: nat, s: State, t: Turn)
    requires q > 0 && !s.fatal && !s.serverEoj
    ensures var l, n := Loaded(q, s, t), Step(q, s, t);
            && (n.fatal <==> Breaks(q, s, t)) && (n.serverEoj <==> SendsEoj(t))
            && n.sent == (if Tries(q, s, t) && !t.failed && t.accepted then s.sent + [Block(l.writebuf, l.tosend == 0)] else s.sent)
            && (n.blocked <==> if Tries(q, s, t) && !t.failed then !t.accepted else s.blocked)
  {
    TurnKeeps(q, s, t);
    WrittenEffect(q, s, t);
    hide Loaded, Written;
    if t.look.DataReceived? {
    } else if t.look.Trouble? {
    } else if Signalled(q, s, t) {
    } else {
    }
  }

  /** A read into the empty buffer takes all there is, or as much as a block holds. */
  lemma ReadsAll(q: nat, s: State, t: Turn)
    requires q > 0 && s.tosend == -1 && s.pipe != [] && t.avail > 0
    ensures var l := Loaded(q, s, t);
            && l.tosend == |l.writebuf| && l.writebuf + l.pipe == s.pipe
            && |l.writebuf| <= q && |l.writebuf| <= t.avail
            && (|l.writebuf| == q || |l.writebuf| == t.avail || l.pipe == [])
  {
    var n := ReadCount(q, s, t);
    assert s.pipe[..n] + s.pipe[n..] == s.pipe;
  }

  /** Turn `k` is taken. */
  predicate IsTaken(q: nat, laser: bool, s: State, turns: seq<Turn>, k: nat)
    requires q > 0 && k < |turns|
  {
    !Over(laser, Run(q, laser, s, turns[..k]))
  }

  predicate BreaksAt(q: nat, laser: bool, s: State, turns: seq<Turn>, k: nat)
    requires q > 0 && k < |turns|
  {
    IsTaken(q, laser, s, turns, k) && Breaks(q, Run(q, laser, s, turns[..k]), turns[k])
  }

  predicate TriesAt(q: nat, laser: bool, s: State, turns: seq<Turn>, k: nat)
    requires q > 0 && k < |turns|
  {
    IsTaken(q, laser, s, turns, k) && Tries(q, Run(q, laser, s, turns[..k]), turns[k]) && !turns[k].failed
  }

  /** The program has ended exactly if pap_look() reported trouble or a write failed in
      some turn taken, and the printer's EOJ has been read exactly if it came in one. */
  lemma {:induction false} EndedIff(q: nat, laser: bool, s: State, turns: seq<Turn>)
    requires q > 0 && !s.fatal && !s.serverEoj
    ensures Run(q, laser, s, turns).fatal <==>
            exists k :: 0 <= k < |turns| && BreaksAt(q, laser, s, turns, k)
    ensures Run(q, laser, s, turns).serverEoj <==>
            exists k :: 0 <= k < |turns| && IsTaken(q, laser, s, turns, k) && SendsEoj(turns[k])
    decreases |turns|
  {
    if turns != [] {
      var n := |turns| - 1;
      EndedIff(q, laser, s, turns[..n]);
      assert turns[..n + 1] == turns;
      RunNext(q, laser, s, turns, n);
      var r := Run(q, laser, s, turns[..n]);
      if !Over(laser, r) {
        StepEffect(q, r, turns[n]);
      }
      hide Step, Breaks, Loaded;
      forall k | 0 <= k < n
        ensures BreaksAt(q, laser, s, turns, k) <==> BreaksAt(q, laser, s, turns[..n], k)
        ensures IsTaken(q, laser, s, turns, k) <==> IsTaken(q, laser, s, turns[..n], k)
        ensures turns[k] == turns[..n][k]
      {
        assert turns[..n][..k] == turns[..k];
      }
      hide Run;
      EndedAtLast(q, laser, s, turns, n, r);
    }
  }

  lemma EndedAtLast(q: nat, laser: bool, s: State, turns: seq<Turn>, n: nat, r: State)
    requires q > 0 && |turns| == n + 1 && r == Run(q, laser, s, turns[..n])
    requires forall k :: 0 <= k < n ==> (BreaksAt(q, laser, s, turns, k) <==> BreaksAt(q, laser, s, turns[..n], k))
    requires forall k :: 0 <= k < n ==> (IsTaken(q, laser, s, turns, k) <==> IsTaken(q, laser, s, turns[..n], k))
    ensures (exists k :: 0 <= k < n + 1 && BreaksAt(q, laser, s, turns, k)) <==>
            (exists k :: 0 <= k < n && BreaksAt(q, laser, s, turns[..n], k)) ||
            (!Over(laser, r) && Breaks(q, r, turns[n]))
    ensures (exists k :: 0 <= k < n + 1 && IsTaken(q, laser, s, turns, k) && SendsEoj(turns[k])) <==>
            (exists k :: 0 <= k < n && IsTaken(q, laser, s, turns[..n], k) && SendsEoj(turns[..n][k])) ||
            (!Over(laser, r) && SendsEoj(turns[n]))
  {
    hide Run, Breaks;
    if k :| 0 <= k < n && BreaksAt(q, laser, s, turns[..n], k) {
      assert BreaksAt(q, laser, s, turns, k);
    }
    if !Over(laser, r) && Breaks(q, r, turns[n]) {
      assert BreaksAt(q, laser, s, turns, n);
    }
    if k :| 0 <= k < n && IsTaken(q, laser, s, turns[..n], k) && SendsEoj(turns[..n][k]) {
      assert IsTaken(q, laser, s, turns, k) && SendsEoj(turns[k]);
    }
    if !Over(laser, r) && SendsEoj(turns[n]) {
      assert IsTaken(q, laser, s, turns, n);
    }
  }

  /** The loop ends by itself exactly when a LaserWriter has sent its EOJ, in some turn
      taken, and for another printer also when ours is sent. */
  lemma LoopEndsIff(q: nat, laser: bool, job: seq<byte>, lastJob: bool, sent: seq<Block>, turns: seq<Turn>,
                    before: seq<seq<byte>>)
    requires q > 0 && Received(sent) == Seen(before, [])
    ensures var s := Start(job, lastJob, sent);
            var e := Run(q, laser, s, turns);
            Finished(laser, e) <==>
              && (forall k :: 0 <= k < |turns| ==> !BreaksAt(q, laser, s, turns, k))
              && ((exists k :: 0 <= k < |turns| && IsTaken(q, laser, s, turns, k) && SendsEoj(turns[k]))
                  || (!laser && Received(e.sent) == Seen(before + [job], [])))
  {
    var s := Start(job, lastJob, sent);
    EndedIff(q, laser, s, turns);
    StartCopying(q, job, lastJob, sent, before);
    RunCopying(q, laser, s, turns, before, job);
    JobsSent(q, Run(q, laser, s, turns), before, job);
    hide Copying, Received, Run, BlocksFollow;
  }

  /** Turn `k` tried a write that was refused, and no turn after it has tried one. */
  predicate LastRefused(q: nat, laser: bool, s: State, turns: seq<Turn>, k: nat)
    requires q > 0 && k < |turns|
  {
    && TriesAt(q, laser, s, turns, k) && !turns[k].accepted
    && forall j :: k < j < |turns| ==> !TriesAt(q, laser, s, turns, j)
  }

  /** A refused write is outstanding exactly if the last write tried was refused. */
  lemma {:induction false} BlockedIff(q: nat, laser: bool, s: State, turns: seq<Turn>)
    requires q > 0 && !s.fatal && !s.serverEoj && !s.blocked
    ensures Run(q, laser, s, turns).blocked <==> exists k :: 0 <= k < |turns| && LastRefused(q, laser, s, turns, k)
    decreases |turns|
  {
    if turns != [] {
      var n := |turns| - 1;
      BlockedIff(q, laser, s, turns[..n]);
      assert turns[..n + 1] == turns;
      RunNext(q, laser, s, turns, n);
      EndedIff(q, laser, s, turns[..n]);
      var r := Run(q, laser, s, turns[..n]);
      if !Over(laser, r) {
        StepEffect(q, r, turns[n]);
      }
      hide Step, Breaks, Loaded, Tries;
      forall k | 0 <= k < n
        ensures TriesAt(q, laser, s, turns, k) <==> TriesAt(q, laser, s, turns[..n], k)
        ensures turns[k] == turns[..n][k]
      {
        assert turns[..n][..k] == turns[..k];
      }
      hide Run;
      RefusedAtLast(q, laser, s, turns, n);
    }
  }

  lemma RefusedAtLast(q: nat, laser: bool, s: State, turns: seq<Turn>, n: nat)
    requires q > 0 && |turns| == n + 1
    requires forall k :: 0 <= k < n ==> (TriesAt(q, laser, s, turns, k) <==> TriesAt(q, laser, s, turns[..n], k))
    ensures (exists k :: 0 <= k < n + 1 && LastRefused(q, laser, s, turns, k)) <==>
            if TriesAt(q, laser, s, turns, n) then !turns[n].accepted
            else exists k :: 0 <= k < n && LastRefused(q, laser, s, turns[..n], k)
  {
    hide TriesAt;
    if TriesAt(q, laser, s, turns, n) {
      if !turns[n].accepted {
        assert LastRefused(q, laser, s, turns, n);
      }
    } else {
      if k :| 0 <= k < n && LastRefused(q, laser, s, turns[..n], k) {
        assert LastRefused(q, laser, s, turns, k);
      }
      if k :| 0 <= k < n + 1 && LastRefused(q, laser, s, turns, k) {
        assert LastRefused(q, laser, s, turns[..n], k);
      }
    }
  }

  // -------------------------------------------------------------- what every turn keeps

  /** In the middle of `job`, `before` being the jobs already sent. */
  ghost predicate Copying(q: nat, s: State, before: seq<seq<byte>>, job: seq<byte>) {
    && q > 0 && -2 <= s.tosend <= q && |s.writebuf| == (if s.tosend > 0 then s.tosend else 0)
    && (if s.tosend == -2 then Received(s.sent) == Seen(before + [job], []) && s.pipe == []
        else Received(s.sent).jobs == before && Received(s.sent).partial + s.writebuf + s.pipe == job)
    && (s.tosend == 0 || s.tosend == -2 ==> s.pipe == [] && (s.closed <==> s.lastJob))
    && (s.closed ==> s.lastJob && (s.tosend == 0 || s.tosend == -2))
    && (s.caught ==> s.allIn && !s.lastJob)
  }

  /** Blocks follow the ones there were, no longer than the quantum, EOJ exactly on
      those without data. */
  predicate BlocksFollow(q: nat, earlier: seq<Block>, later: seq<Block>) {
    earlier <= later && forall i :: |earlier| <= i < |later| ==> later[i].eoj == (later[i].data == []) && |later[i].data| <= q
  }

  /** Which variables the two halves of a turn leave alone. */
  lemma LoadedKeeps(q: nat, s: State, t: Turn)
    requires q > 0
    ensures var l := Loaded(q, s, t);
            && l.lastJob == s.lastJob && l.caught == s.caught && l.serverEoj == s.serverEoj && l.sent == s.sent
            && l.blocked == s.blocked && l.fatal == s.fatal
  {
    hide ReadCount;
    var n := ReadCount(q, s, t);
    if s.tosend != -1 {
    } else if n > 0 {
    } else if n == 0 {
    } else {
    }
  }

  lemma WrittenKeeps(s: State, t: Turn)
    ensures var w := Written(s, t); w.lastJob == s.lastJob && w.caught == s.caught && w.serverEoj == s.serverEoj
  {
    if s.tosend < 0 || !(t.look.WriteEnabled? || (!s.blocked && t.look.Nothing?)) {
    } else if t.failed {
    } else if !t.accepted {
    } else {
    }
  }

  lemma TurnKeeps(q: nat, s: State, t: Turn)
    requires q > 0
    ensures Loaded(q, s, t).lastJob == s.lastJob && Loaded(q, s, t).caught == s.caught && Loaded(q, s, t).sent == s.sent
    ensures Loaded(q, s, t).blocked == s.blocked && Loaded(q, s, t).fatal == s.fatal
    ensures Loaded(q, s, t).serverEoj == s.serverEoj
    ensures AtWait(q, s, t).lastJob == s.lastJob && AtWait(q, s, t).caught == s.caught
    ensures AtWait(q, s, t).serverEoj == s.serverEoj
  {
    hide Loaded, Written;
    LoadedKeeps(q, s, t);
    WrittenKeeps(Loaded(q, s, t), t);
  }

  lemma LoadedCopying(q: nat, s: State, t: Turn, before: seq<seq<byte>>, job: seq<byte>)
    requires Copying(q, s, before, job)
    ensures Copying(q, Loaded(q, s, t), before, job) 
    ensures s.caught ==> Loaded(q, s, t).tosend != -1
    ensures s.tosend == -2 ==> Loaded(q, s, t) == s
  {
    hide Received;
    var n := ReadCount(q, s, t);
    if s.tosend == -1 && n > 0 {
      assert Received(s.sent).partial + s.pipe[..n] + s.pipe[n..] == Received(s.sent).partial + [] + s.pipe;
    }
  }

  lemma WrittenCopying(q: nat, s: State, t: Turn, before: seq<seq<byte>>, job: seq<byte>)
    requires Copying(q, s, before, job)
    ensures Copying(q, Written(s, t), before, job) && BlocksFollow(q, s.sent, Written(s, t).sent)
    ensures s.tosend == -2 ==> Written(s, t) == s
    ensures |Written(s, t).sent| > |s.sent| <==> s.tosend >= 0 && Written(s, t).tosend < 0
  {
    if Written(s, t).tosend != s.tosend {
      var part := Received(s.sent).partial;
      assert (part + s.writebuf) + [] + s.pipe == part + s.writebuf + s.pipe;
      assert s.tosend == 0 ==> part + s.writebuf + s.pipe == part + s.writebuf;
      ReceivedBlock(s.sent, Block(s.writebuf, s.tosend == 0));
    }
    hide Received;
  }

  lemma FlagsCopying(q: nat, s: State, e: bool, before: seq<seq<byte>>, job: seq<byte>)
    requires Copying(q, s, before, job)
    ensures Copying(q, s.(serverEoj := e), before, job) && Copying(q, s.(fatal := true), before, job)
    ensures !s.lastJob ==> Copying(q, s.(caught := true, allIn := true), before, job)
  {
    hide Received;
  }

  lemma StepCopying(q: nat, s: State, t: Turn, before: seq<seq<byte>>, job: seq<byte>)
    requires q > 0 && Copying(q, s, before, job)
    ensures Copying(q, Step(q, s, t), before, job) && BlocksFollow(q, s.sent, Step(q, s, t).sent)
    ensures Step(q, s, t).lastJob == s.lastJob
    ensures s.tosend == -2 ==> Step(q, s, t).sent == s.sent && Step(q, s, t).tosend == -2
  {
    hide Received, Loaded, Written, Copying, BlocksFollow;
    TurnKeeps(q, s, t);
    LoadedCopying(q, s, t, before, job);
    WrittenCopying(q, Loaded(q, s, t), t, before, job);
    FlagsCopying(q, Loaded(q, s, t), t.eoj, before, job);
    FlagsCopying(q, AtWait(q, s, t), t.eoj, before, job);
    assert s.tosend == -2 ==> AtWait(q, s, t).sent == s.sent && AtWait(q, s, t).tosend == -2;
    NoBlocks(q, s.sent);
  }

  lemma NoBlocks(q: nat, a: seq<Block>)
    ensures BlocksFollow(q, a, a)
  {
  }

  lemma MoreBlocks(q: nat, a: seq<Block>, b: seq<Block>, c: seq<Block>)
    requires BlocksFollow(q, a, b) && BlocksFollow(q, b, c)
    ensures BlocksFollow(q, a, c)
  {
    forall i | |a| <= i < |c|
      ensures c[i].eoj == (c[i].data == []) && |c[i].data| <= q
    {
      if i < |b| {
        assert c[i] == b[i];
      }
    }
  }

  /** The loop keeps sent data, buffer and pipe together the job, and sends nothing
      after EOJ. */
  lemma {:induction false} RunCopying(q: nat, laser: bool, s: State, turns: seq<Turn>, before: seq<seq<byte>>, job: seq<byte>)
    requires q > 0 && Copying(q, s, before, job)
    ensures var e := Run(q, laser, s, turns);
            && Copying(q, e, before, job) && BlocksFollow(q, s.sent, e.sent) && e.lastJob == s.lastJob
            && (s.tosend == -2 ==> e.sent == s.sent && e.tosend == -2)
    decreases |turns|
  {
    hide Copying, Received, Step, BlocksFollow;
    if turns != [] && !Over(laser, s) {
      StepCopying(q, s, turns[0], before, job);
      RunCopying(q, laser, Step(q, s, turns[0]), turns[1..], before, job);
      MoreBlocks(q, s.sent, Step(q, s, turns[0]).sent, Run(q, laser, s, turns).sent);
    } else {
      NoBlocks(q, s.sent);
    }
  }

  lemma StartCopying(q: nat, job: seq<byte>, lastJob: bool, sent: seq<Block>, before: seq<seq<byte>>)
    requires q > 0 && Received(sent) == Seen(before, [])
    ensures Copying(q, Start(job, lastJob, sent), before, job)
  {
    assert [] + [] + job == job;
  }

  // ------------------------------------------------------------------ a job arrives whole

  /** The printer sends EOJ only in reply: in no turn taken does it come while the
      printer has got no more than the jobs before. */
  ghost predicate OnlyInReply(q: nat, laser: bool, s: State, turns: seq<Turn>, before: seq<seq<byte>>)
    requires q > 0
  {
    forall k {:trigger turns[k]} :: 0 <= k < |turns| && SendsEoj(turns[k]) ==>
      var r := Run(q, laser, s, turns[..k]);
      Over(laser, r) || Received(r.sent).jobs != before
  }

  lemma JobsSent(q: nat, s: State, before: seq<seq<byte>>, job: seq<byte>)
    requires Copying(q, s, before, job)
    ensures if s.tosend == -2 then Received(s.sent) == Seen(before + [job], []) && Received(s.sent).jobs != before
            else Received(s.sent).jobs == before
  {
    assert before + [job] != before by { assert |before + [job]| == |before| + 1; }
  }

  /** A loop that ended otherwise than by sending EOJ was ended by the printer's. */
  lemma {:induction false} EndedEarlyBy(q: nat, laser: bool, s: State, turns: seq<Turn>, before: seq<seq<byte>>, job: seq<byte>)
    returns (k: nat)
    requires q > 0 && Copying(q, s, before, job) && !Over(laser, s)
    requires Finished(laser, Run(q, laser, s, turns)) && Run(q, laser, s, turns).tosend != -2
    ensures k < |turns| && SendsEoj(turns[k])
    ensures var r := Run(q, laser, s, turns[..k]); !Over(laser, r) && Received(r.sent).jobs == before
    decreases |turns|
  {
    hide Copying, Received, BlocksFollow, Loaded, AtWait, Waits;
    StepCopying(q, s, turns[0], before, job);
    TurnKeeps(q, s, turns[0]);
    JobsSent(q, s, before, job);
    var n := Step(q, s, turns[0]);
    if Over(laser, n) {
      k := 0;
      assert turns[..0] == [];
    } else {
      var j := EndedEarlyBy(q, laser, n, turns[1..], before, job);
      k := j + 1;
      assert turns[..k][0] == turns[0] && turns[..k][1..] == turns[1..][..j];
    }
  }

  /** A job whose loop has ended is with the printer, whole and ended by one EOJ
      with nothing after it, if and only if the printer sent EOJ only in reply. */
  lemma WholeIffInReply(q: nat, laser: bool, job: seq<byte>, lastJob: bool, sent: seq<Block>, turns: seq<Turn>,
                        before: seq<seq<byte>>)
    requires q > 0 && Received(sent) == Seen(before, [])
    requires Finished(laser, Run(q, laser, Start(job, lastJob, sent), turns))
    ensures Received(Run(q, laser, Start(job, lastJob, sent), turns).sent) == Seen(before + [job], []) <==>
            OnlyInReply(q, laser, Start(job, lastJob, sent), turns, before)
  {
    var s := Start(job, lastJob, sent);
    var e := Run(q, laser, s, turns);
    StartCopying(q, job, lastJob, sent, before);
    RunCopying(q, laser, s, turns, before, job);
    assert before + [job] != before by { assert |before + [job]| == |before| + 1; }
    if e.tosend != -2 {
      var k := EndedEarlyBy(q, laser, s, turns, before, job);
    } else {
      forall k | 0 <= k < |turns| && SendsEoj(turns[k])
        ensures var r := Run(q, laser, s, turns[..k]); Over(laser, r) || Received(r.sent).jobs != before
      {
        var r := Run(q, laser, s, turns[..k]);
        if !Over(laser, r) && Received(r.sent).jobs == before {
          RunCopying(q, laser, s, turns[..k], before, job);
          RunNext(q, laser, s, turns, k);
          StaysOver(q, laser, s, turns, k + 1);
        }
      }
    }
  }

  lemma StaysOver(q: nat, laser: bool, s: State, turns: seq<Turn>, k: nat)
    requires q > 0 && k <= |turns| && Over(laser, Run(q, laser, s, turns[..k]))
    ensures Run(q, laser, s, turns) == Run(q, laser, s, turns[..k])
  {
    assert turns == turns[..k] + turns[k..];
    RunConcat(q, laser, s, turns[..k], turns[k..]);
  }

  // -------------------------------------------------------------------- a job gets through

  lemma StepCaught(q: nat, s: State, t: Turn)
    requires q > 0
    requires !s.fatal
    ensures Step(q, s, t).caught <==> s.caught || Signalled(q, s, t)
    ensures Signalled(q, s, t) <==>
            !Breaks(q, s, t) && !t.look.DataReceived? && t.wake.OnSignal? && !s.lastJob
  {
    TurnKeeps(q, s, t);
    WrittenEffect(q, s, t);
    hide Loaded, AtWait, Waits;
    if t.look.DataReceived? {
    } else if t.look.Trouble? {
    } else if Signalled(q, s, t) {
    } else {
    }
  }

  /** SIGUSR1 counts as caught exactly from the first wait in which it came. */
  lemma {:induction false} CaughtIff(q: nat, laser: bool, s: State, turns: seq<Turn>)
    requires q > 0 && !s.caught
    ensures Run(q, laser, s, turns).caught <==>
            exists i :: 0 <= i < |turns| && Caught(q, laser, s, turns, i)
    decreases |turns|
  {
    hide Step, Signalled;
    if turns != [] {
      var n := |turns| - 1;
      CaughtIff(q, laser, s, turns[..n]);
      assert turns[..n + 1] == turns;
      RunNext(q, laser, s, turns, n);
      forall i | 0 <= i < n
        ensures Caught(q, laser, s, turns, i) <==> Caught(q, laser, s, turns[..n], i)
      {
        assert turns[..n][..i] == turns[..i];
      }
      var r := Run(q, laser, s, turns[..n]);
      if !Over(laser, r) {
        StepCaught(q, r, turns[n]);
      }
      if Run(q, laser, s, turns).caught && !r.caught {
        assert Caught(q, laser, s, turns, n);
      }
      if i :| 0 <= i < |turns| && Caught(q, laser, s, turns, i) {
        if i < n {
          assert Caught(q, laser, s, turns[..n], i);
        }
      }
    }
  }

  /** Turn `i` is taken, and SIGUSR1 caught in its wait. */
  predicate Caught(q: nat, laser: bool, s: State, turns: seq<Turn>, i: nat)
    requires q > 0 && i < |turns|
  {
    var r := Run(q, laser, s, turns[..i]);
    && !Over(laser, r) && !Breaks(q, r, turns[i]) && !turns[i].look.DataReceived?
    && turns[i].wake.OnSignal? && !r.lastJob
  }

  /** What is still to be sent: the bytes and the EOJ. */
  function Left(s: State): nat {
    if s.tosend == -2 then 0 else |s.pipe| + |s.writebuf| + 1
  }

  lemma LeftAtMost(q: nat, s: State, before: seq<seq<byte>>, job: seq<byte>)
    requires Copying(q, s, before, job)
    ensures Left(s) <= |job| + 1
  {
  }

  /** A helpful turn brings a job that is all in nearer its end. */
  lemma HelpfulStep(q: nat, s: State, t: Turn, before: seq<seq<byte>>, job: seq<byte>)
    requires Copying(q, s, before, job) && !s.fatal && !s.serverEoj && (s.caught || s.lastJob) && Helpful(t)
    requires t.look.WriteEnabled? || !s.blocked || s.tosend == -2
    ensures var n := Step(q, s, t);
            && !n.fatal && !n.serverEoj && (n.caught || n.lastJob) && (!n.blocked || n.tosend == -2)
            && (if s.tosend == -2 then n.tosend == -2 else Left(n) < Left(s))
  {
    hide Received;
  }

  lemma {:induction false} HelpfulRun(q: nat, laser: bool, s: State, turns: seq<Turn>, before: seq<seq<byte>>, job: seq<byte>)
    requires q > 0 && Copying(q, s, before, job) && !s.fatal && !s.serverEoj && (s.caught || s.lastJob)
    requires |turns| >= Left(s) && forall i :: 0 <= i < |turns| ==> Helpful(turns[i])
    requires turns != [] ==> turns[0].look.WriteEnabled? || !s.blocked || s.tosend == -2
    ensures var e := Run(q, laser, s, turns); e.tosend == -2 && !e.fatal && !e.serverEoj
    decreases |turns|
  {
    if turns != [] && !Over(laser, s) {
      HelpfulStep(q, s, turns[0], before, job);
      StepCopying(q, s, turns[0], before, job);
      hide Copying;
      HelpfulRun(q, laser, Step(q, s, turns[0]), turns[1..], before, job);
    }
  }

  /** Every job gets through: once SIGUSR1 is caught, or at once for the last job,
      as many helpful turns as it has bytes, and one more, get it sent with its EOJ,
      and the printer's answer ends the loop. If a refused write is outstanding, the
      first of these turns has to be one that lets it be tried again. */
  lemma JobEnds(q: nat, laser: bool, job: seq<byte>, lastJob: bool, sent: seq<Block>, before: seq<seq<byte>>,
                a: seq<Turn>, b: seq<Turn>, answer: Turn)
    requires q > 0 && Received(sent) == Seen(before, [])
    requires !Over(laser, Run(q, laser, Start(job, lastJob, sent), a))
    requires lastJob || exists i :: 0 <= i < |a| && Caught(q, laser, Start(job, lastJob, sent), a, i)
    requires |b| > |job| && (forall i :: 0 <= i < |b| ==> Helpful(b[i])) && SendsEoj(answer)
    requires b[0].look.WriteEnabled? ||
             forall k :: 0 <= k < |a| ==> !LastRefused(q, laser, Start(job, lastJob, sent), a, k)
    ensures var e := Run(q, laser, Start(job, lastJob, sent), a + b + [answer]);
            Finished(laser, e) && Received(e.sent) == Seen(before + [job], [])
  {
    var s := Start(job, lastJob, sent);
    var r := Run(q, laser, s, a);
    StartCopying(q, job, lastJob, sent, before);
    RunCopying(q, laser, s, a, before, job);
    CaughtIff(q, laser, s, a);
    BlockedIff(q, laser, s, a);
    LeftAtMost(q, r, before, job);
    HelpfulRun(q, laser, r, b, before, job);
    RunCopying(q, laser, r, b, before, job);
    RunConcat(q, laser, s, a, b);
    RunConcat(q, laser, s, a + b, [answer]);
    var m := Run(q, laser, s, a + b);
    StepCopying(q, m, answer, before, job);
    assert Run(q, laser, m, [answer]) == if Over(laser, m) then m else Step(q, m, answer);
  }

  // ------------------------------------------------------------------ the hold-up

  /** What can end the wait without the printer's doing. */
  predicate CanWake(s: State, w: Wake) {
    match w
    case OnStdin => s.tosend == -1 && (s.pipe != [] || s.lastJob)
    case OnSignal => !s.caught && !s.lastJob
    case OnPrinter => false
  }

  /** A turn comes to its wait with the whole job sent, no EOJ sent or ready to be,
      and nothing but the printer to end the wait. */
  ghost predicate HeldUp(q: nat, s: State, t: Turn, before: seq<seq<byte>>, job: seq<byte>)
    requires q > 0
  {
    var w := AtWait(q, s, t);
    Waits(q, s, t) && Received(w.sent) == Seen(before, job) && w.tosend < 0 && forall e :: !CanWake(w, e)
  }

  /** The printer takes a block of data, and then has the whole job. */
  ghost predicate SendsLastData(q: nat, s: State, t: Turn, before: seq<seq<byte>>, job: seq<byte>)
    requires q > 0
  {
    Received(AtWait(q, s, t).sent) == Seen(before, job) && |AtWait(q, s, t).sent| > |s.sent|
  }

  lemma AllSent(q: nat, s: State, before: seq<seq<byte>>, job: seq<byte>)
    requires Copying(q, s, before, job)
    ensures Received(s.sent) == Seen(before, job) <==> s.tosend != -2 && s.pipe == [] && s.writebuf == []
    ensures s.tosend >= -2 && (s.tosend < 0 ==> s.writebuf == [])
  {
    assert before + [job] != before by { assert |before + [job]| == |before| + 1; }
    var part := Received(s.sent).partial;
    assert |part + s.writebuf + s.pipe| == |part| + |s.writebuf| + |s.pipe|;
    assert part + [] + [] == part;
  }

  lemma AllAsleep(s: State)
    requires s.tosend == -1 && s.pipe == []
    ensures (forall e :: !CanWake(s, e)) <==> s.caught && !s.lastJob
  {
    assert CanWake(s, OnStdin) <==> s.lastJob;
    assert CanWake(s, OnSignal) <==> !s.caught && !s.lastJob;
  }

  lemma HeldUpStep(q: nat, s: State, t: Turn, before: seq<seq<byte>>, job: seq<byte>)
    requires q > 0 && Copying(q, s, before, job) && Waits(q, s, t)
    ensures HeldUp(q, s, t, before, job) <==> s.caught && SendsLastData(q, s, t, before, job)
  {
    assert s.caught ==> !s.lastJob;
    hide Received, Loaded, Written, Copying, Waits, CanWake;
    TurnKeeps(q, s, t);
    LoadedCopying(q, s, t, before, job);
    WrittenCopying(q, Loaded(q, s, t), t, before, job);
    var w := AtWait(q, s, t);
    AllSent(q, w, before, job);
    if w.tosend == -1 && w.pipe == [] {
      AllAsleep(w);
    }
  }

  /** The loop is held up in the wait of turn `k` if and only if it is this turn
      that sends the last of the data and SIGUSR1 was caught in an earlier wait. */
  lemma HeldUpIff(q: nat, laser: bool, job: seq<byte>, lastJob: bool, sent: seq<Block>, turns: seq<Turn>,
                  before: seq<seq<byte>>, k: nat)
    requires q > 0 && Received(sent) == Seen(before, []) && k < |turns|
    requires !Over(laser, Run(q, laser, Start(job, lastJob, sent), turns[..k]))
    requires Waits(q, Run(q, laser, Start(job, lastJob, sent), turns[..k]), turns[k])
    ensures var s := Start(job, lastJob, sent);
            var r := Run(q, laser, s, turns[..k]);
            HeldUp(q, r, turns[k], before, job) <==>
              SendsLastData(q, r, turns[k], before, job) && exists i :: 0 <= i < k && Caught(q, laser, s, turns, i)
  {
    var s := Start(job, lastJob, sent);
    var r := Run(q, laser, s, turns[..k]);
    StartCopying(q, job, lastJob, sent, before);
    RunCopying(q, laser, s, turns[..k], before, job);
    HeldUpStep(q, r, turns[k], before, job);
    CaughtIff(q, laser, s, turns[..k]);
    forall i | 0 <= i < k
      ensures Caught(q, laser, s, turns, i) <==> Caught(q, laser, s, turns[..k], i)
    {
      assert turns[..k][..i] == turns[..i];
    }
  }

  /** It does happen: SIGUSR1 comes while the only block of a job waits to be sent. */
  lemma HoldUpHappens(q: nat, laser: bool, job: seq<byte>)
    requires 0 < |job| <= q
    ensures var s := Start(job, false, []);
            var turns := [Turn(|job|, false, Nothing, false, false, false, OnSignal),
                          Turn(0, false, WriteEnabled, true, false, false, OnPrinter)];
            !Over(laser, Run(q, laser, s, turns[..1])) && HeldUp(q, Run(q, laser, s, turns[..1]), turns[1], [], job)
  {
    var s := Start(job, false, []);
    var t := Turn(|job|, false, Nothing, false, false, false, OnSignal);
    var u := Turn(0, false, WriteEnabled, true, false, false, OnPrinter);
    var r := Step(q, s, t);
    assert [t, u][..1] == [t];
    assert Run(q, laser, s, [t]) == r by { assert [t][1..] == []; }
    assert r == s.(pipe := [], writebuf := job, tosend := |job|, blocked := true, caught := true, allIn := true);
    assert Received([]) == Seen([], []);
    ReceivedBlock([], Block(job, false));
    assert [] + [Block(job, false)] == [Block(job, false)] && [] + job == job;
  }

  // ---------------------------------------------------------------------- many jobs

  /** Every job's loop ends, with the printer sending EOJ only in reply. */
  ghost predicate AllInReply(q: nat, laser: bool, jobs: seq<seq<byte>>, turns: seq<seq<Turn>>, k: nat, sent: seq<Block>,
                             before: seq<seq<byte>>)
    requires q > 0 && |jobs| == |turns| && k <= |jobs|
    decreases |jobs| - k
  {
    k == |jobs| ||
    (var s := Start(jobs[k], k == |jobs| - 1, sent);
     var e := Run(q, laser, s, turns[k]);
     && Finished(laser, e) && OnlyInReply(q, laser, s, turns[k], before)
     && AllInReply(q, laser, jobs, turns, k + 1, e.sent, before + [jobs[k]]))
  }

  // ---------------------------------------------------------------------- the loop itself

  class Interface {
    const laserwriter: bool
    const wlen: nat               // bytes to a block

    var pipe: seq<byte>
    var lastJob: bool
    var allIn: bool

    var sigusr1Caught: bool
    var tosend: int
    var writebuf: seq<byte>
    var serverEoj: bool
    var writesBlocked: bool
    var stdinClosed: bool

    var sent: seq<Block>
    var answers: nat              // SIGUSR1s sent back to pprdrv

    constructor (laser: bool, quantum: nat)
      requires quantum > 0
      ensures laserwriter == laser && wlen == quantum && sent == [] && answers == 0
    {
      laserwriter, wlen := laser, quantum;
      pipe, lastJob, allIn := [], false, false;
      sigusr1Caught, tosend, writebuf, serverEoj, writesBlocked, stdinClosed := false, -1, [], false, false, false;
      sent, answers := [], 0;
    }

    ghost function Now(fatal: bool): State
      reads `pipe, `lastJob, `allIn, `sigusr1Caught, `tosend, `writebuf, `serverEoj, `writesBlocked, `stdinClosed, `sent
    {
      State(pipe, lastJob, allIn, sigusr1Caught, tosend, writebuf, serverEoj, writesBlocked, stdinClosed, fatal, sent)
    }

    /** read(0, writebuf, wlen). */
    method Read(t: Turn) returns (n: int)
      requires wlen > 0
      modifies `pipe, `writebuf
      ensures n == ReadCount(wlen, old(Now(false)), t) && -1 <= n <= wlen
      ensures if n > 0 then |writebuf| == n && old(pipe) == writebuf + pipe else writebuf == [] && pipe == old(pipe)
    {
      writebuf := [];
      if pipe != [] {
        var k := if t.avail < wlen then t.avail else wlen;
        k := if k < |pipe| then k else |pipe|;
        k := if k == 0 && allIn then 1 else k;
        if k == 0 {
          return -1;
        }
        writebuf, pipe := pipe[..k], pipe[k..];
        return k;
      }
      return if lastJob && t.closed then 0 else -1;
    }

    method Load(t: Turn)
      requires wlen > 0
      modifies `pipe, `writebuf, `tosend, `stdinClosed
      ensures Now(false) == Loaded(wlen, old(Now(false)), t)
    {
      if tosend == -1 {
        ghost var all := pipe;
        tosend := Read(t);
        assert tosend > 0 ==> writebuf == all[..tosend] && pipe == all[tosend..];
        if tosend == -1 {
          if sigusr1Caught {
            tosend := 0;
          }
        } else if tosend == 0 {
          stdinClosed := true;
        }
      }
    }

    method Write(t: Turn)
      requires tosend >= 0 && !t.failed
      modifies `writebuf, `tosend, `writesBlocked, `sent
      ensures t.look.WriteEnabled? || (t.look.Nothing? && !old(writesBlocked)) ==> Now(false) == Written(old(Now(false)), t)
    {
      if !t.accepted {
        writesBlocked := true;
      } else {
        sent := sent + [Block(writebuf, tosend == 0)];
        writebuf, writesBlocked := [], false;
        tosend := if tosend != 0 then -1 else -2;
      }
    }

    /** The body of the loop in copy_job(). */
    method OneTurn(t: Turn) returns (fatal: bool)
      requires wlen > 0
      modifies this
      ensures Now(fatal) == Step(wlen, old(Now(false)), t) && answers == old(answers)
    {
      fatal := false;
      Load(t);
      if t.look.DataReceived? {
        serverEoj := t.eoj;
        return;
      }
      if t.look.WriteEnabled? || (!writesBlocked && t.look.Nothing?) {
        if tosend >= 0 {
          if t.failed {
            fatal := true;
            return;
          }
          Write(t);
        }
      }
      if t.look.Trouble? {
        fatal := true;
        return;
      }
      // The wait in select(), during which SIGUSR1 is let in.
      if t.wake.OnSignal? && !lastJob {
        sigusr1Caught, allIn := true, true;
      }
    }

    /** Copy one job, with what happens given by `turns`. `finished` says that the
        loop has ended by itself. Then the printer has this job, whole and ended by
        one EOJ, if and only if it sent EOJ only in reply; at any time it has the
        job, or its beginning without an EOJ. */
    method CopyJob(turns: seq<Turn>, ghost before: seq<seq<byte>>) returns (closed: bool, finished: bool)
      requires wlen > 0 && !allIn && Received(sent) == Seen(before, [])
      modifies this
      ensures var s := Start(old(pipe), lastJob, old(sent));
              && lastJob == old(lastJob) && answers == old(answers)
              && Now(Run(wlen, laserwriter, s, turns).fatal) == Run(wlen, laserwriter, s, turns)
              && (finished <==> Finished(laserwriter, Run(wlen, laserwriter, s, turns)))
              && (finished ==>
                    (Received(sent) == Seen(before + [old(pipe)], []) <==> OnlyInReply(wlen, laserwriter, s, turns, before))
                    && (Received(sent) == Seen(before + [old(pipe)], []) <==> tosend == -2))
      ensures tosend == -2 ==> Received(sent) == Seen(before + [old(pipe)], []) && (closed <==> lastJob)
      ensures tosend != -2 ==> Received(sent).jobs == before && Received(sent).partial <= old(pipe)
      ensures BlocksFollow(wlen, old(sent), sent)
    {
      ghost var job, s := pipe, Start(pipe, lastJob, sent);
      stdinClosed, tosend, serverEoj, writesBlocked, writebuf := false, -1, false, false, [];
      sigusr1Caught := false;
      StartCopying(wlen, job, lastJob, sent, before);
      hide Step, Copying, Received, BlocksFollow, OnlyInReply;
      var i, fatal := 0, false;
      while !fatal && !serverEoj && (laserwriter || tosend != -2) && i < |turns|
        invariant 0 <= i <= |turns| && answers == old(answers)
        invariant Now(fatal) == Run(wlen, laserwriter, s, turns[..i])
      {
        RunNext(wlen, laserwriter, s, turns, i);
        fatal := OneTurn(turns[i]);
        i := i + 1;
      }
      StaysOverAll(s, turns, i, fatal);
      closed := stdinClosed;
      finished := !fatal && (serverEoj || (!laserwriter && tosend == -2));
      RunCopying(wlen, laserwriter, s, turns, before, job);
      CopyingEnds(before, job, fatal);
      if finished {
        WholeIffInReply(wlen, laserwriter, job, lastJob, old(sent), turns, before);
      }
    }

    lemma StaysOverAll(s: State, turns: seq<Turn>, i: nat, fatal: bool)
      requires wlen > 0 && i <= |turns| && Now(fatal) == Run(wlen, laserwriter, s, turns[..i])
      requires i == |turns| || Over(laserwriter, Now(fatal))
      ensures Now(fatal) == Run(wlen, laserwriter, s, turns)
    {
      assert turns[..|turns|] == turns;
      if i < |turns| {
        StaysOver(wlen, laserwriter, s, turns, i);
      }
    }

    lemma CopyingEnds(before: seq<seq<byte>>, job: seq<byte>, fatal: bool)
      requires Copying(wlen, Now(fatal), before, job)
      ensures if tosend == -2 then Received(sent) == Seen(before + [job], []) && (stdinClosed <==> lastJob)
              else Received(sent).jobs == before && Received(sent).partial <= job && Received(sent) != Seen(before + [job], [])
    {
      assert before + [job] != before by { assert |before + [job]| == |before| + 1; }
    }

    /** The main loop: one job after another until the pipe is closed, each but the
        last answered with SIGUSR1. The printer gets exactly the jobs, if and only if
        every job's loop ends and the printer sends EOJ only in reply; whatever
        happens, the jobs it has are the first ones. */
    method Session(jobs: seq<seq<byte>>, turns: seq<seq<Turn>>) returns (done: bool)
      requires wlen > 0 && 0 < |jobs| == |turns| && sent == [] && answers == 0
      modifies this
      ensures done <==> AllInReply(wlen, laserwriter, jobs, turns, 0, [], [])
      ensures done ==> Received(sent) == Seen(jobs, []) && answers == |jobs| - 1
      ensures exists k {:trigger jobs[..k]} :: 0 <= k <= |jobs| && Received(sent).jobs == jobs[..k]
    {
      hide Start, Run, OnlyInReply, BlocksFollow;
      var k, closed := 0, false;
      while !closed
        invariant 0 <= k <= |jobs| && (closed <==> k == |jobs|)
        invariant Received(sent) == Seen(jobs[..k], []) && answers == if closed then k - 1 else k
        invariant AllInReply(wlen, laserwriter, jobs, turns, 0, [], []) <==>
                  AllInReply(wlen, laserwriter, jobs, turns, k, sent, jobs[..k])
        decreases |jobs| - k
      {
        pipe, lastJob, allIn := jobs[k], k == |jobs| - 1, false;
        var finished;
        assert jobs[..k + 1] == jobs[..k] + [jobs[k]];
        closed, finished := CopyJob(turns[k], jobs[..k]);
        if !finished || tosend != -2 {
          assert Received(sent).jobs == jobs[..k] || Received(sent).jobs == jobs[..k + 1];
          return false;
        }
        if !closed {
          sigusr1Caught := false;
          answers := answers + 1;
        }
        k := k + 1;
      }
      assert jobs[..k] == jobs;
      return true;
    }
  }
}

// The exception macros gu_Try, gu_Final and gu_Catch (include/gu.h) and the
// functions behind them (libgu/gu_exceptions.c), proved to implement structured
// exceptions.

module Exceptions {
  import opened Options

  const GU_EXCEPTION_MAX_TRY_DEPTH := 25

  /** Code using the macros. A body never leaves its block by break, goto or return. */
  datatype Stmt =
    | Skip
    | Say(tag: int)                         // something observable
    | SayException                          // observe gu_exception_code and gu_exception
    | Throw(message: string)
    | CodeThrow(code: int, message: string)
    | ReThrow
    | Seq(first: Stmt, second: Stmt)
    | Try(body: Stmt, final: Option<Stmt>, handler: Stmt)

  datatype Exception = Exception(code: int, message: string)

  datatype Observation = Said(tag: int) | Reported(e: Exception)

  /** The log of what was observed, and gu_exception_code and gu_exception. */
  datatype World = World(log: seq<Observation>, last: Exception)

  datatype Outcome = Normal | Raised

  /** gu_vsnprintf() and gu_strlcpy() into a buffer of `size` bytes. */
  function Clip(s: string, size: nat): string
    requires size > 0
  {
    if |s| < size then s else s[..size - 1]
  }

  function Thrown(message: string): Exception { Exception(-1, Clip(message, 256)) }

  function CodeThrown(code: int, message: string): Exception { Exception(code, Clip(message, 100)) }

  // ------------------------------------------------------ structured exceptions

  /** What code means, inside `depth` active Try blocks. A raised exception goes to
      the innermost one; its Final block runs in any case, then the handler if
      something was raised. Try itself raises when the blocks are too deep. */
  function Meaning(s: Stmt, depth: nat, w: World): (Outcome, World)
    decreases s
  {
    match s
    case Skip => (Normal, w)
    case Say(tag) => (Normal, w.(log := w.log + [Said(tag)]))
    case SayException => (Normal, w.(log := w.log + [Reported(w.last)]))
    case Throw(message) => (Raised, w.(last := Thrown(message)))
    case CodeThrow(code, message) => (Raised, w.(last := CodeThrown(code, message)))
    case ReThrow => (Raised, w)
    case Seq(a, b) =>
      var (o, w1) := Meaning(a, depth, w);
      if o.Raised? then (o, w1) else Meaning(b, depth, w1)
    case Try(body, final, handler) =>
      if depth >= GU_EXCEPTION_MAX_TRY_DEPTH then (Raised, w.(last := Thrown("gu_Try nested too deep")))
      else
        var (o1, w1) := Meaning(body, depth + 1, w);
        var (o2, w2) := if final.Some? then Meaning(final.value, depth, w1) else (Normal, w1);
        if o2.Raised? then (o2, w2)
        else if o1.Raised? then Meaning(handler, depth, w2)
        else (Normal, w2)
  }

  // ------------------------------------------------------ what structure gives the caller

  /** The exception that running `s` leaves in gu_exception, if it sets one. */
  function LastSet(s: Stmt, depth: nat): Option<Exception>
    decreases s
  {
    match s
    case Skip | Say(_) | SayException | ReThrow => None
    case Throw(message) => Some(Thrown(message))
    case CodeThrow(code, message) => Some(CodeThrown(code, message))
    case Seq(a, b) => if Raises(a, depth) then LastSet(a, depth) else Later(LastSet(a, depth), LastSet(b, depth))
    case Try(body, final, handler) =>
      if depth >= GU_EXCEPTION_MAX_TRY_DEPTH then Some(Thrown("gu_Try nested too deep"))
      else
        var inner := LastSet(body, depth + 1);
        var cleaned := if final.Some? then Later(inner, LastSet(final.value, depth)) else inner;
        if final.Some? && Raises(final.value, depth) then cleaned
        else if Raises(body, depth + 1) then Later(cleaned, LastSet(handler, depth))
        else cleaned
  }

  /** Whether running `s` ends by raising. */
  predicate Raises(s: Stmt, depth: nat)
    decreases s
  {
    match s
    case Skip | Say(_) | SayException => false
    case Throw(_) | CodeThrow(_, _) | ReThrow => true
    case Seq(a, b) => Raises(a, depth) || Raises(b, depth)
    case Try(body, final, handler) =>
      || depth >= GU_EXCEPTION_MAX_TRY_DEPTH
      || (final.Some? && Raises(final.value, depth))
      || (Raises(body, depth + 1) && Raises(handler, depth))
  }

  function Later(earlier: Option<Exception>, later: Option<Exception>): Option<Exception> {
    if later.Some? then later else earlier
  }

  function Else(e: Option<Exception>, otherwise: Exception): Exception {
    if e.Some? then e.value else otherwise
  }

  /** What running `s` has to say, begun with `last` in gu_exception. */
  function Says(s: Stmt, depth: nat, last: Exception): seq<Observation> {
    Meaning(s, depth, World([], last)).1.log
  }

  /** Code can only add to the log, and what it does depends on nothing but the last
      exception. */
  lemma {:induction false} MeaningAdds(s: Stmt, depth: nat, w: World)
    ensures Meaning(s, depth, w).0 == Meaning(s, depth, World([], w.last)).0
    ensures Meaning(s, depth, w).1.last == Meaning(s, depth, World([], w.last)).1.last
    ensures Meaning(s, depth, w).1.log == w.log + Says(s, depth, w.last)
    decreases s, 0
  {
    var e := World([], w.last);
    match s
    case Seq(a, b) =>
      AddsTo(a, depth, w.log, w, e);
      AddsTo(b, depth, w.log, Meaning(a, depth, w).1, Meaning(a, depth, e).1);
    case Try(body, final, handler) =>
      if depth < GU_EXCEPTION_MAX_TRY_DEPTH {
        TryIs(s, depth, w);
        TryIs(s, depth, e);
        hide Meaning;
        AddsTo(body, depth + 1, w.log, w, e);
        var w1, e1 := Meaning(body, depth + 1, w).1, Meaning(body, depth + 1, e).1;
        if final.Some? {
          AddsTo(final.value, depth, w.log, w1, e1);
          w1, e1 := Meaning(final.value, depth, w1).1, Meaning(final.value, depth, e1).1;
        }
        AddsTo(handler, depth, w.log, w1, e1);
      }
    case _ =>
  }

  lemma {:induction false} AddsTo(s: Stmt, depth: nat, log: seq<Observation>, w: World, e: World)
    requires w == World(log + e.log, e.last)
    ensures Meaning(s, depth, w).0 == Meaning(s, depth, e).0
    ensures Meaning(s, depth, w).1 == World(log + Meaning(s, depth, e).1.log, Meaning(s, depth, e).1.last)
    decreases s, 1
  {
    hide Meaning;
    MeaningAdds(s, depth, w);
    MeaningAdds(s, depth, e);
    assert log + e.log + Says(s, depth, e.last) == log + (e.log + Says(s, depth, e.last));
  }

  lemma TryIs(s: Stmt, depth: nat, w: World)
    requires s.Try? && depth < GU_EXCEPTION_MAX_TRY_DEPTH
    ensures Meaning(s, depth, w) == (
      var (o1, w1) := Meaning(s.body, depth + 1, w);
      var (o2, w2) := if s.final.Some? then Meaning(s.final.value, depth, w1) else (Normal, w1);
      if o2.Raised? then (o2, w2) else if o1.Raised? then Meaning(s.handler, depth, w2) else (Normal, w2))
  {
  }

  /** Whether code raises depends on nothing but the code, and so does the exception
      it leaves, unless it leaves the one it found. */
  lemma {:induction false} MeaningLeaves(s: Stmt, depth: nat, w: World)
    ensures Meaning(s, depth, w).0 == if Raises(s, depth) then Raised else Normal
    ensures Meaning(s, depth, w).1.last == Else(LastSet(s, depth), w.last)
    decreases s
  {
    match s
    case Seq(a, b) =>
      MeaningLeaves(a, depth, w);
      MeaningLeaves(b, depth, Meaning(a, depth, w).1);
    case Try(body, final, handler) =>
      if depth < GU_EXCEPTION_MAX_TRY_DEPTH {
        MeaningLeaves(body, depth + 1, w);
        var w2 := Meaning(body, depth + 1, w).1;
        if final.Some? {
          MeaningLeaves(final.value, depth, w2);
          w2 := Meaning(final.value, depth, w2).1;
        }
        MeaningLeaves(handler, depth, w2);
      }
    case _ =>
  }

  /** A Try block within the limit says what its body says, then what its Final
      block says, once, and only then, if the body raised and the Final block did
      not, what its handler says. */
  lemma FinalRunsOnceInBetween(body: Stmt, final: Stmt, handler: Stmt, depth: nat, last: Exception)
    requires depth < GU_EXCEPTION_MAX_TRY_DEPTH
    ensures
      var thrown := Else(LastSet(body, depth + 1), last);
      var seen := Else(LastSet(final, depth), thrown);
      Says(Try(body, Some(final), handler), depth, last) ==
        Says(body, depth + 1, last) + Says(final, depth, thrown) +
        (if Raises(body, depth + 1) && !Raises(final, depth) then Says(handler, depth, seen) else [])
  {
    var e := World([], last);
    MeaningLeaves(body, depth + 1, e);
    var e1 := Meaning(body, depth + 1, e).1;
    MeaningAdds(final, depth, e1);
    MeaningLeaves(final, depth, e1);
    MeaningAdds(handler, depth, Meaning(final, depth, e1).1);
  }

  /** The exception a handler finds in gu_exception when the body raised `thrown`. */
  function FoundByHandler(final: Stmt, depth: nat, thrown: Exception): Exception {
    Meaning(final, depth, World([], thrown)).1.last
  }

  /** Handlers find what was raised to them exactly if the Final block sets no
      exception of its own: one it raises and catches itself is enough. */
  lemma HandlerFindsWhatWasRaised(final: Stmt, depth: nat)
    ensures (forall thrown :: FoundByHandler(final, depth, thrown) == thrown) <==> LastSet(final, depth).None?
  {
    forall thrown
      ensures FoundByHandler(final, depth, thrown) == Else(LastSet(final, depth), thrown)
    {
      MeaningLeaves(final, depth, World([], thrown));
    }
    if LastSet(final, depth).Some? {
      var e := LastSet(final, depth).value;
      var other := Exception(e.code + 1, e.message);
      assert FoundByHandler(final, depth, other) != other;
    }
  }

  /** A handler finds the message thrown, up to 255 characters of it, with the code -1;
      or the code given and up to 99 characters. A rethrow hands on the same exception
      through any number of blocks. */
  lemma HandlerReports(n: nat, code: int, message: string, depth: nat, last: Exception)
    requires depth + n < 25
    ensures Says(Try(Rethrown(n, Throw(message)), None, SayException), depth, last) ==
            [Reported(Exception(-1, if |message| <= 255 then message else message[..255]))]
    ensures Says(Try(Rethrown(n, CodeThrow(code, message)), None, SayException), depth, last) ==
            [Reported(Exception(code, if |message| <= 99 then message else message[..99]))]
  {
    ReportedAs(n, Throw(message), depth, last, Exception(-1, if |message| <= 255 then message else message[..255]));
    ReportedAs(n, CodeThrow(code, message), depth, last, Exception(code, if |message| <= 99 then message else message[..99]));
  }

  lemma ReportedAs(n: nat, s: Stmt, depth: nat, last: Exception, e: Exception)
    requires depth + n < GU_EXCEPTION_MAX_TRY_DEPTH
    requires forall d: nat, w :: Meaning(s, d, w) == (Raised, World(w.log, e))
    ensures Says(Try(Rethrown(n, s), None, SayException), depth, last) == [Reported(e)]
  {
    RethrowHandsOn(n, s, depth + 1, World([], last), e);
    assert Meaning(Rethrown(n, s), depth + 1, World([], last)) == (Raised, World([], e));
    assert Meaning(SayException, depth, World([], e)).1.log == [Reported(e)];
  }

  /** `s` inside `n` blocks whose handlers throw again what they catch. */
  function Rethrown(n: nat, s: Stmt): Stmt {
    if n == 0 then s else Try(Rethrown(n - 1, s), None, ReThrow)
  }

  lemma {:induction false} RethrowHandsOn(n: nat, s: Stmt, depth: nat, w: World, e: Exception)
    requires depth + n <= GU_EXCEPTION_MAX_TRY_DEPTH
    requires forall d: nat, w :: Meaning(s, d, w) == (Raised, World(w.log, e))
    ensures Meaning(Rethrown(n, s), depth, w) == (Raised, World(w.log, e))
    decreases n
  {
    if n > 0 {
      RethrowHandsOn(n - 1, s, depth + 1, w, e);
    }
  }

  /** A cleanup that guards its own step: the handler reports the wrong exception. */
  lemma CleanupHidesException(depth: nat, last: Exception)
    requires depth < GU_EXCEPTION_MAX_TRY_DEPTH
    ensures
      var cleanup := Try(Throw("no spool file"), None, Skip);
      Says(Try(Throw("out of paper"), Some(cleanup), SayException), depth, last) ==
        [Reported(Thrown("no spool file"))]
  {
    FinalRunsOnceInBetween(Throw("out of paper"), Try(Throw("no spool file"), None, Skip), SayException, depth, last);
  }

  function Tags(s: Stmt): set<int> {
    match s
    case Skip | SayException | Throw(_) | CodeThrow(_, _) | ReThrow => {}
    case Say(tag) => {tag}
    case Seq(a, b) => Tags(a) + Tags(b)
    case Try(body, final, handler) =>
      Tags(body) + (if final.Some? then Tags(final.value) else {}) + Tags(handler)
  }

  lemma {:induction false} SaysOnlyItsTags(s: Stmt, depth: nat, w: World, tag: int)
    requires tag !in Tags(s) && Said(tag) !in w.log
    ensures Said(tag) !in Meaning(s, depth, w).1.log
    decreases s
  {
    match s
    case Seq(a, b) =>
      SaysOnlyItsTags(a, depth, w, tag);
      SaysOnlyItsTags(b, depth, Meaning(a, depth, w).1, tag);
    case Try(body, final, handler) =>
      if depth < GU_EXCEPTION_MAX_TRY_DEPTH {
        SaysOnlyItsTags(body, depth + 1, w, tag);
        var w1 := Meaning(body, depth + 1, w).1;
        if final.Some? {
          SaysOnlyItsTags(final.value, depth, w1, tag);
        }
        SaysOnlyItsTags(handler, depth, if final.Some? then Meaning(final.value, depth, w1).1 else w1, tag);
      }
    case _ =>
  }

  /** A cleanup step mentioned only in a Final block happens exactly once, after all
      of the body and before all of the handler, whatever is raised where. */
  lemma CleanupExactlyOnce(body: Stmt, handler: Stmt, tag: int, depth: nat, last: Exception)
    requires depth < GU_EXCEPTION_MAX_TRY_DEPTH && tag !in Tags(body) + Tags(handler)
    ensures
      var said := Says(Try(body, Some(Say(tag)), handler), depth, last);
      var k := |Says(body, depth + 1, last)|;
      forall i :: 0 <= i < |said| ==> (said[i] == Said(tag) <==> i == k)
    ensures |Says(Try(body, Some(Say(tag)), handler), depth, last)| > |Says(body, depth + 1, last)|
  {
    FinalRunsOnceInBetween(body, Say(tag), handler, depth, last);
    SaysOnlyItsTags(body, depth + 1, World([], last), tag);
    SaysOnlyItsTags(handler, depth, World([], Else(LastSet(body, depth + 1), last)), tag);
  }

  /** `n` Try blocks around `s`, none of which does anything with what it catches. */
  function Nest(n: nat, s: Stmt): Stmt {
    if n == 0 then s else Try(Nest(n - 1, s), None, Skip)
  }

  /** Code inside `n` Try blocks is run exactly if that many fit; one too many is an
      exception inside the blocks that do fit. */
  lemma {:induction false} NestRunsIffItFits(n: nat, tag: int, depth: nat, w: World)
    requires depth <= 25
    ensures Meaning(Nest(n, Say(tag)), depth, w).1 ==
      if depth + n <= 25 then w.(log := w.log + [Said(tag)])
      else w.(last := Thrown("gu_Try nested too deep"))
    decreases n
  {
    if n > 0 && depth < GU_EXCEPTION_MAX_TRY_DEPTH {
      NestRunsIffItFits(n - 1, tag, depth + 1, w);
    }
  }

  // ------------------------------------------------------ the machine underneath

  /** Where control goes: on, to the setjmp() that filled a buffer, or out of the program. */
  datatype Control = FallThrough | LongJump(buffer: nat) | Exit

  class Machine {
    var depth: int                          // gu_exception_try_depth
    const buffers: array<nat>               // gu_exception_jmp_bufs: which block's buffer
    var temp: int                           // gu_exception_temp
    var last: Exception
    var log: seq<Observation>
    var blocks: nat                         // blocks entered so far; each has its own buffer

    constructor ()
      ensures Valid() && depth == 0 && log == []
    {
      depth, temp, blocks, log := 0, 0, 0, [];
      last := Exception(0, "");
      buffers := new nat[GU_EXCEPTION_MAX_TRY_DEPTH];
    }

    ghost predicate Valid()
      reads this, buffers
    {
      && buffers.Length == GU_EXCEPTION_MAX_TRY_DEPTH && 0 <= depth <= GU_EXCEPTION_MAX_TRY_DEPTH
      && forall i :: 0 <= i < depth ==> buffers[i] < blocks
    }

    ghost function Now(): World
      reads this
    {
      World(log, last)
    }

    /** Where a throw goes from here. */
    ghost function Target(): Control
      requires Valid()
      reads this, buffers
    {
      if depth < 1 then Exit else LongJump(buffers[depth - 1])
    }

    /** gu_ReThrow() */
    method DoReThrow() returns (r: Control)
      requires Valid()
      ensures r == Target() && r != FallThrough
    {
      if depth < 1 {
        return Exit;
      } else {
        return LongJump(buffers[depth - 1]);
      }
    }

    /** gu_Throw() */
    method DoThrow(message: string) returns (r: Control)
      requires Valid()
      modifies `last
      ensures Valid() && r == Target() && r != FallThrough && last == Thrown(message)
      ensures last == Exception(-1, if |message| <= 255 then message else message[..255])
    {
      last := Exception(-1, Clip(Clip(message, 256), 256));
      r := DoReThrow();
    }

    /** gu_CodeThrow() */
    method DoCodeThrow(code: int, message: string) returns (r: Control)
      requires Valid()
      modifies `last
      ensures Valid() && r == Target() && r != FallThrough && last == CodeThrown(code, message)
      ensures last == Exception(code, if |message| <= 99 then message else message[..99])
    {
      last := Exception(code, Clip(Clip(message, 100), 256));
      r := DoReThrow();
    }

    /** gu_Try_funct() */
    method TryFunct(buffer: nat) returns (r: Control)
      requires Valid() && buffer < blocks
      modifies `last, `depth, buffers
      ensures Valid()
      ensures if old(depth) >= 25 then
                r == Target() && depth == old(depth) && last == Thrown("gu_Try nested too deep")
              else r == FallThrough && depth == old(depth) + 1 && buffers[old(depth)] == buffer && last == old(last)
      ensures buffers[..old(depth)] == old(buffers[..depth])
    {
      if depth >= GU_EXCEPTION_MAX_TRY_DEPTH {
        r := DoThrow("gu_Try nested too deep");
        return;
      }
      buffers[depth] := buffer;
      depth := depth + 1;
      r := FallThrough;
    }

    /** Run code as the macros expand. It does what it means, an exception that
        leaves it is a jump to the innermost active block's buffer (or the end of
        the program if there is none), and in every case the blocks active
        afterwards are those active before. */
    method Run(s: Stmt) returns (r: Control)
      requires Valid()
      modifies this, buffers
      ensures Valid() && depth == old(depth) && buffers[..depth] == old(buffers[..depth]) && blocks >= old(blocks)
      ensures (Meaning(s, old(depth), old(Now()))).1 == Now()
      ensures r == if Meaning(s, old(depth), old(Now())).0.Normal? then FallThrough else Target()
      decreases s, 2
    {
      match s
      case Skip => r := FallThrough;
      case Say(tag) =>
        log := log + [Said(tag)];
        r := FallThrough;
      case SayException =>
        log := log + [Reported(last)];
        r := FallThrough;
      case Throw(message) => r := DoThrow(message);
      case CodeThrow(code, message) => r := DoCodeThrow(code, message);
      case ReThrow => r := DoReThrow();
      case Seq(a, b) =>
        r := Run(a);
        if r == FallThrough {
          r := Run(b);
        }
      case Try(_, _, _) => r := RunTry(s);
    }

    /** The expansion of gu_Try, gu_Final and gu_Catch. */
    method RunTry(s: Stmt) returns (r: Control)
      requires Valid() && s.Try?
      modifies this, buffers
      ensures Valid() && depth == old(depth) && buffers[..depth] == old(buffers[..depth]) && blocks >= old(blocks)
      ensures (Meaning(s, old(depth), old(Now()))).1 == Now()
      ensures r == if Meaning(s, old(depth), old(Now())).0.Normal? then FallThrough else Target()
      decreases s, 1
    {
      // gu_Try
      var buffer, retcode, pop := blocks, 0, 1;
      blocks := blocks + 1;
      r := TryFunct(buffer);
      if r != FallThrough {
        return;
      }
      r := Run(s.body);
      if r == LongJump(buffer) {
        // setjmp() returns a second time
        retcode := 1;
      } else if r != FallThrough {
        return;
      }
      r := FinalAndCatch(s, retcode, pop);
    }

    /** What gu_Final and gu_Catch make of a body that has ended, by raising or not. */
    ghost function Ended(s: Stmt, raised: bool, depth: nat, w: World): (Outcome, World)
      requires s.Try?
    {
      var (o, w') := if s.final.Some? then Meaning(s.final.value, depth, w) else (Normal, w);
      if o.Raised? then (o, w') else if raised then Meaning(s.handler, depth, w') else (Normal, w')
    }

    method FinalAndCatch(s: Stmt, retcode: int, pop0: int) returns (r: Control)
      requires Valid() && s.Try? && depth >= 1 && pop0 == 1
      modifies this, buffers
      ensures Valid() && depth == old(depth) - 1 && buffers[..depth] == old(buffers[..depth - 1]) && blocks >= old(blocks)
      ensures (Ended(s, retcode != 0, old(depth) - 1, old(Now()))).1 == Now()
      ensures r == if Ended(s, retcode != 0, old(depth) - 1, old(Now())).0.Normal? then FallThrough else Target()
      decreases s, 0
    {
      var pop := pop0;
      // gu_Final
      if s.final.Some? {
        depth := depth - 1;
        pop := 0;
        r := Run(s.final.value);
        if r != FallThrough {
          return;
        }
      }
      // gu_Catch
      depth := depth - pop;
      temp := retcode;
      r := FallThrough;
      if temp != 0 {
        r := Run(s.handler);
      }
    }
  }
}

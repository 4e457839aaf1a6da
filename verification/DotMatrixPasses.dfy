// The two parsers themselves (filter_dotmatrix/inbuf.c, escape.c, tabbing.c,
// graphics.c, pass1.c, main.c), reading byte by byte.

module DotMatrixPasses {
  import opened Bytes
  import opened GraphicsBlocks
  import opened DotMatrix

  const INPUT_BUFFER_SIZE := 8192
  const EOF := -1

  class Parser {
    const file: seq<byte>
    const ibm: bool                       // EMULATION_CONFLICTING_IBM
    var mask: Mask                        // clear8th and set8th
    var modes: Modes                      // graphic_mode_K, _L, _Y and _Z

    const inbuf: array<byte>
    var filePos: nat                      // where the next read() starts
    var bytesLeft: nat
    var ptr: nat
    var eof: bool
    ghost var starts: seq<nat>            // where each command began

    ghost predicate Valid()
      reads `filePos, `bytesLeft, `ptr, `eof, inbuf
    {
      && inbuf.Length == INPUT_BUFFER_SIZE && bytesLeft <= filePos <= |file| && ptr + bytesLeft <= inbuf.Length
      && (forall j :: ptr <= j < ptr + bytesLeft ==> inbuf[j] == file[filePos - bytesLeft - ptr + j])
      && (eof ==> filePos == |file|)
    }

    /** How much of the file has been consumed. */
    ghost function Offset(): nat
      requires Valid()
      reads `filePos, `bytesLeft, `ptr, `eof, inbuf
    {
      filePos - bytesLeft
    }

    ghost function Now(): State
      reads `mask, `modes
    {
      State(mask, modes)
    }

    constructor (file: seq<byte>, ibm: bool)
      ensures this.file == file && this.ibm == ibm && Valid() && Offset() == 0 && starts == []
      ensures Now() == State(Kept, DEFAULT_MODES) && fresh(inbuf)
    {
      this.file, this.ibm, mask, modes := file, ibm, Kept, DEFAULT_MODES;
      filePos, bytesLeft, ptr, eof, starts := 0, 0, 0, false, [];
      inbuf := new byte[INPUT_BUFFER_SIZE];
    }

    /** `bytes_left = read(...)`, on a file: a full buffer until the end. */
    method Fill()
      requires Valid() && bytesLeft == 0 && !eof
      modifies `filePos, `bytesLeft, `ptr, `eof, inbuf
      ensures Valid() && Offset() == old(Offset()) && ptr == 0 && (bytesLeft == 0 ==> eof)
    {
      var n := if |file| - filePos < INPUT_BUFFER_SIZE then |file| - filePos else INPUT_BUFFER_SIZE;
      forall i | 0 <= i < n {
        inbuf[i] := file[filePos + i];
      }
      bytesLeft, filePos := n, filePos + n;
      if bytesLeft < INPUT_BUFFER_SIZE {
        eof := true;
      }
      ptr := 0;
    }

    /** input() */
    method Input() returns (c: int)
      requires Valid()
      modifies `filePos, `bytesLeft, `ptr, `eof, inbuf
      ensures Valid()
      ensures if old(Offset()) == |file| then c == EOF && Offset() == |file|
              else c == Masked(mask, file[old(Offset())]) as int && Offset() == old(Offset()) + 1
    {
      ghost var at := Offset();
      while bytesLeft == 0
        invariant Valid() && Offset() == at
        decreases if bytesLeft == 0 && !eof then 1 else 0
      {
        if eof {
          return EOF;
        }
        Fill();
      }
      bytesLeft := bytesLeft - 1;
      var b := inbuf[ptr];
      assert b == file[at];
      c := Masked(mask, b) as int;
      ptr := ptr + 1;
    }

    /** rewind_input() */
    method Rewind()
      requires inbuf.Length == INPUT_BUFFER_SIZE
      modifies `filePos, `bytesLeft, `ptr, `eof
      ensures Valid() && Offset() == 0
    {
      bytesLeft, filePos, ptr, eof := 0, 0, 0, false;
    }

    /** `k` of the bytes `s` of a command have been read. */
    ghost predicate At(s: seq<byte>, k: nat)
      reads `filePos, `bytesLeft, `ptr, `eof, inbuf
    {
      Valid() && k <= |s| <= |file| && s == file[|file| - |s|..] && Offset() == |file| - |s| + k
    }

    /** NEWC */
    method NewC(ghost s: seq<byte>, ghost k: nat) returns (c: int)
      requires At(s, k)
      modifies `filePos, `bytesLeft, `ptr, `eof, inbuf
      ensures if k == |s| then c == EOF && At(s, k) else c == Masked(mask, s[k]) as int && At(s, k + 1)
    {
      c := Input();
    }

    /** horizontal_tabs_set() and vertical_tabs_set(). */
    method TabsSet(stops: nat, ghost s: seq<byte>, ghost k: nat)
      requires At(s, k)
      modifies `filePos, `bytesLeft, `ptr, `eof, inbuf
      ensures At(s, k + TabList(stops, 0, mask, s[k..]))
    {
      hide Masked, Offset, Valid;
      assert k <= |s|;
      var lastc: byte, x: nat := 0, 0;
      ghost var n: nat, rest := k, TabList(stops, 0, mask, s[k..]);
      ghost var end := k + rest;
      while x < stops
        invariant x <= stops && n <= |s| && At(s, n)
        invariant rest == TabList(stops - x, lastc, mask, s[n..]) && n + rest == end
        decreases stops - x
      {
        NextStop(stops - x, lastc, mask, s, n);
        var c := NewC(s, n);
        if c == EOF {
          return;
        }
        n := n + 1;
        if c < lastc as int || c == 0 {
          return;
        }
        lastc := c as byte;
        x := x + 1;
        rest := TabList(stops - x, lastc, mask, s[n..]);
      }
      assert TabList(0, lastc, mask, s[n..]) == 0;
    }

    /** eat_graphic() */
    method EatGraphic(mode: byte, pins: Pins, length: nat, ghost s: seq<byte>, ghost k: nat)
      requires At(s, k)
      modifies `filePos, `bytesLeft, `ptr, `eof, inbuf
      ensures At(s, k + Least(DataBytes(mode, pins, length), |s| - k))
    {
      hide Valid, Masked;
      var countdown: int := 0;
      if pins == Pins8or24 && mode < 32 {
        countdown := length;
      } else if pins == Pins8or24 {
        countdown := length * 3;
      } else if pins == Pins9 {
        countdown := length * 2;
      }
      ghost var n: nat := k;
      while countdown > 0
        invariant countdown >= 0 && n <= |s| && At(s, n)
        invariant n + Least(countdown, |s| - n) == k + Least(DataBytes(mode, pins, length), |s| - k)
      {
        countdown := countdown - 1;
        var c := NewC(s, n);
        if c == EOF {
          return;
        }
        n := n + 1;
      }
    }

    /** The part of graphic() that reads. */
    method Graphic(mode: byte, pins: Pins, length: nat, ghost s: seq<byte>, ghost k: nat) returns (fatal: bool)
      requires At(s, k)
      modifies `filePos, `bytesLeft, `ptr, `eof, inbuf
      ensures fatal == Refused(mode, pins, length)
      ensures At(s, k + if fatal then 0 else Least(DataBytes(mode, pins, length), |s| - k))
    {
      hide Valid, Masked;
      if !KnownMode(mode) {
        return true;
      }
      var countdown;
      if pins == Pins8or24 && mode < 32 {
        countdown := length;
      } else if pins == Pins8or24 {
        countdown := length * 3;
      } else {
        countdown := length * 2;
      }
      if countdown > MAX_GBYTES {
        return true;
      }
      ghost var n: nat := k;
      var x: nat := 0;
      while x < countdown
        invariant x <= countdown && n <= |s| && At(s, n)
        invariant n == k + Least(x, |s| - k)
      {
        var c := NewC(s, n);
        if c != EOF {
          n := n + 1;
        }
        x := x + 1;
      }
      fatal := false;
    }

    /** The end of a graphics command, eaten or drawn. */
    method DoBlock(eat: bool, mode: byte, pins: Pins, length: nat, ghost s: seq<byte>, ghost k: nat) returns (fatal: bool)
      requires At(s, k)
      modifies `filePos, `bytesLeft, `ptr, `eof, inbuf
      ensures var t := Block(eat, mode, pins, length, k, s, Now()); At(s, t.used) && t.st == Now() && fatal == t.fatal
    {
      hide Valid, Masked;
      fatal := false;
      if eat {
        EatGraphic(mode, pins, length, s, k);
      } else {
        fatal := Graphic(mode, pins, length, s, k);
      }
    }

    /** NEWC, `n` times. */
    method Skip(n: nat, ghost s: seq<byte>, ghost k: nat) returns (eof: bool)
      requires At(s, k)
      modifies `filePos, `bytesLeft, `ptr, `eof, inbuf
      ensures At(s, Least(k + n, |s|)) && (eof <==> k + n > |s|)
    {
      hide Valid, Masked;
      var x: nat := 0;
      while x < n
        invariant x <= n && k + x <= |s| && At(s, k + x)
      {
        var c := NewC(s, k + x);
        if c == EOF {
          return true;
        }
        x := x + 1;
      }
      eof := false;
    }

    /** The graphics commands of escape(). */
    method GraphicEscape(pass: Pass, c: byte, ghost s: seq<byte>) returns (fatal: bool)
      requires At(s, 1) && c == Masked(mask, s[0]) && c in {42, 94, 75, 76, 89, 90}
      modifies `filePos, `bytesLeft, `ptr, `eof, inbuf
      ensures var t := Escape(pass, ibm, s, Now()); At(s, t.used) && t.st == Now() && fatal == t.fatal
    {
      hide Block, Escape, Masked, ModeOf, Offset, Valid;
      assert |s| >= 1;
      GraphicEscapeIs(pass, ibm, s, Now(), c);
      ghost var k: nat := 1;
      var mode: byte;
      if c == 42 || c == 94 {
        var m := NewC(s, 1);
        if m == EOF {
          return false;
        }
        mode, k := m as byte, 2;
      } else {
        mode := ModeOf(c, modes);
      }
      var low := NewC(s, k);
      if low == EOF {
        return false;
      }
      var high := NewC(s, k + 1);
      if high == EOF {
        return false;
      }
      var length := low + high * 256;
      assert length == Word(mask, s, k);
      fatal := DoBlock(pass.First?, mode, if c == 94 then Pins9 else Pins8or24, length, s, k + 2);
    }

    /** ESC B, D and b. */
    method TabEscape(pass: Pass, c: byte, ghost s: seq<byte>)
      requires At(s, 1) && c == Masked(mask, s[0]) && c in {66, 68, 98}
      modifies `filePos, `bytesLeft, `ptr, `eof, inbuf
      ensures Escape(pass, ibm, s, Now()).st == Now() && !Escape(pass, ibm, s, Now()).fatal
      ensures At(s, Escape(pass, ibm, s, Now()).used)
    {
      hide Escape, Masked, Offset, TabList, Valid;
      assert |s| >= 1;
      TabEscapeIs(pass, ibm, s, Now(), c);
      if c == 66 {
        TabsSet(16, s, 1);
      } else if c == 68 {
        TabsSet(32, s, 1);
      } else {
        var channel := NewC(s, 1);
        if channel != EOF && channel <= 7 {
          TabsSet(16, s, 2);
        }
      }
    }

    /** ESC C and e: a second operand after some first ones. */
    method MoreEscape(pass: Pass, c: byte, ghost s: seq<byte>)
      requires At(s, 1) && c == Masked(mask, s[0]) && c in {67, 101}
      modifies `filePos, `bytesLeft, `ptr, `eof, inbuf
      ensures Escape(pass, ibm, s, Now()).st == Now() && !Escape(pass, ibm, s, Now()).fatal
      ensures At(s, Escape(pass, ibm, s, Now()).used)
    {
      hide Escape, Masked, Offset, Valid;
      assert |s| >= 1;
      MoreEscapeIs(pass, ibm, s, Now(), c);
      var n := NewC(s, 1);
      if n == EOF {
        return;
      }
      if (c == 67 && n == 0) || (c == 101 && n in {0, 48, 1, 49}) {
        var _ := NewC(s, 2);
      }
    }

    /** ESC ?: pass 1 reads one of its operands, pass 2 both, to set a graphics mode. */
    method ModeEscape(pass: Pass, c: byte, ghost s: seq<byte>)
      requires At(s, 1) && c == Masked(mask, s[0]) == 63
      modifies `filePos, `bytesLeft, `ptr, `eof, inbuf, `modes
      ensures var t := Escape(pass, ibm, s, old(Now())); At(s, t.used) && t.st == Now() && !t.fatal
    {
      hide Escape, Masked, Offset, SetMode, Valid;
      assert |s| >= 1;
      ModeEscapeIs(pass, ibm, s, Now(), c);
      var which := NewC(s, 1);
      if which == EOF || pass == First {
        return;
      }
      var mode := NewC(s, 2);
      if mode == EOF {
        return;
      }
      modes := SetMode(which as byte, modes, mode as byte);
      assert At(s, 3);
    }

    /** The other commands: a number of operands, and for some a new mask or a reset. */
    method OtherEscape(pass: Pass, c: byte, ghost s: seq<byte>)
      requires At(s, 1) && c == Masked(mask, s[0])
      requires c !in {42, 94, 75, 76, 89, 90, 66, 68, 98, 67, 101, 63}
      modifies `filePos, `bytesLeft, `ptr, `eof, inbuf, `mask, `modes
      ensures var t := Escape(pass, ibm, s, old(Now())); At(s, t.used) && t.st == Now() && !t.fatal
    {
      hide Escape, Least, Masked, Offset, OneOperand, Valid;
      assert |s| >= 1;
      OtherEscapeIs(pass, ibm, s, Now(), c);
      var eof;
      if OneOperand(c) {
        eof := Skip(1, s, 1);
      } else if c == 36 || c == 37 {
        eof := Skip(2, s, 1);
      } else if c == 58 {
        eof := Skip(3, s, 1);
      } else if c == 92 {
        if !ibm {
          eof := Skip(2, s, 1);
        }
      } else if c == 35 {
        mask := Kept;
      } else if c == 61 {
        mask := Cleared;
      } else if c == 62 {
        mask := AllSet;
      } else if c == 64 {
        if pass == Second {
          modes := DEFAULT_MODES;
        }
      }
    }

    /** escape_pass1() or escape(), after the ESC. */
    method DoEscape(pass: Pass, ghost s: seq<byte>) returns (fatal: bool)
      requires At(s, 0)
      modifies `filePos, `bytesLeft, `ptr, `eof, inbuf, `mask, `modes
      ensures var t := Escape(pass, ibm, s, old(Now())); At(s, t.used) && t.st == Now() && fatal == t.fatal
    {
      hide At, Block, Masked, ModeOf, Now, OneOperand, Plain, SetMode, TabList, Word;
      fatal := false;
      var n := NewC(s, 0);
      if n == EOF {
        assert s == [] && Escape(pass, ibm, s, Now()) == Taken(0, Now(), false);
        return;
      }
      var c := n as byte;
      if c in {42, 94, 75, 76, 89, 90} {
        fatal := GraphicEscape(pass, c, s);
      } else if c in {66, 68, 98} {
        TabEscape(pass, c, s);
      } else if c in {67, 101} {
        MoreEscape(pass, c, s);
      } else if c == 63 {
        ModeEscape(pass, c, s);
      } else {
        OtherEscape(pass, c, s);
      }
    }

    /** fs_pass1() or fs(), after the FS. */
    method DoFs(pass: Pass, ghost s: seq<byte>) returns (fatal: bool)
      requires At(s, 0)
      modifies `filePos, `bytesLeft, `ptr, `eof, inbuf, `modes
      ensures var t := Fs(pass, s, old(Now())); At(s, t.used) && t.st == Now() && fatal == t.fatal
    {
      hide At, Block, Fs, Least, Masked;
      fatal := false;
      FsIs(pass, s, Now());
      var c := NewC(s, 0);
      if c == EOF {
        return;
      }
      if c in {51, 67, 69, 73, 83, 86} {
        var _ := Skip(1, s, 1);
      } else if c == 64 {
        modes := DEFAULT_MODES;
      } else if c == 90 {
        var low := NewC(s, 1);
        if low == EOF {
          return;
        }
        var high := NewC(s, 2);
        if high == EOF {
          return;
        }
        assert low + high * 256 == Word(mask, s, 1);
        fatal := DoBlock(pass.Second?, 40, Pins8or24, low + high * 256, s, 3);
      }
    }

    /** The body of the loop of pass1() or process_input(). */
    method DoCommand(pass: Pass, c: int, ghost s: seq<byte>) returns (fatal: bool)
      requires At(s, 1) && s != [] && c == Masked(mask, s[0]) as int
      modifies `filePos, `bytesLeft, `ptr, `eof, inbuf, `mask, `modes
      ensures var t := Command(pass, ibm, s, old(Now())); At(s, t.used) && t.st == Now() && fatal == t.fatal
    {
      hide Escape, Fs, Masked, Offset, Valid;
      fatal := false;
      assert |s| <= |file| && s == file[|file| - |s|..];
      Onward(s);
      if c == 27 {
        fatal := DoEscape(pass, s[1..]);
        Backward(s, Escape(pass, ibm, s[1..], old(Now())).used);
      } else if c == 28 {
        fatal := DoFs(pass, s[1..]);
        Backward(s, Fs(pass, s[1..], old(Now())).used);
      }
    }

    lemma Onward(s: seq<byte>)
      requires At(s, 1)
      ensures At(s[1..], 0)
    {
    }

    lemma Backward(s: seq<byte>, k: nat)
      requires s != [] && |s| <= |file| && s == file[|file| - |s|..] && At(s[1..], k)
      ensures At(s, k + 1)
    {
    }

    /** pass1() or process_input(): the whole file. */
    method RunPass(pass: Pass) returns (fatal: bool)
      requires Valid() && Offset() == 0
      modifies `filePos, `bytesLeft, `ptr, `eof, inbuf, `mask, `modes, `starts
      ensures Valid()
      ensures Run(starts, fatal) == RunFrom(pass, ibm, file, 0, old(Now()))
      ensures Now() == EndState(pass, ibm, file, 0, old(Now()))
    {
      hide At, Command, EndState, Masked, Offset, RunFrom, Valid;
      starts := [];
      ghost var at: nat := 0;
      ghost var all, end := RunFrom(pass, ibm, file, 0, Now()), EndState(pass, ibm, file, 0, Now());
      ghost var rest := all;
      assert [] + all.starts == all.starts && file[0..] == file;
      Whole();
      while true
        invariant at <= |file| && At(file[at..], 0)
        invariant rest == RunFrom(pass, ibm, file, at, Now()) && end == EndState(pass, ibm, file, at, Now())
        invariant all == Run(starts + rest.starts, rest.fatal)
        decreases |file| - at
      {
        ghost var s, st := file[at..], Now();
        OneTurn(pass, ibm, file, at, st);
        var c := NewC(s, 0);
        if c == EOF {
          assert starts + [] == starts;
          Emptied(s);
          return false;
        }
        starts := starts + [at];
        assert Now() == st;
        assert c == Masked(mask, s[0]) as int && mask == st.mask;
        ghost var t := Command(pass, ibm, s, st);
        fatal := DoCommand(pass, c, s);
        Emptied(s);
        if fatal {
          return;
        }
        Further(at, t.used);
        rest := RunFrom(pass, ibm, file, at + t.used, Now());
        at := at + t.used;
      }
    }

    /** Pass 2, after rewinding the file and resetting the printer. */
    method SecondPass() returns (fatal: bool)
      requires Valid()
      modifies `filePos, `bytesLeft, `ptr, `eof, inbuf, `mask, `modes, `starts
      ensures Run(starts, fatal) == RunFrom(Second, ibm, file, 0, Reset(old(Now())))
    {
      hide EndState, RunFrom;
      Rewind();
      modes := DEFAULT_MODES;
      assert Now() == Reset(old(Now()));
      fatal := RunPass(Second);
    }

    lemma Whole()
      requires Valid() && Offset() == 0
      ensures At(file, 0)
    {
    }

    lemma Emptied(s: seq<byte>)
      ensures forall k :: At(s, k) ==> Valid()
    {
    }

    lemma Further(at: nat, used: nat)
      requires at <= |file| && At(file[at..], used)
      ensures at + used <= |file| && At(file[at + used..], 0)
    {
    }
  }

  lemma NextStop(stops: nat, last: byte, m: Mask, s: seq<byte>, n: nat)
    requires stops > 0 && n <= |s|
    ensures TabList(stops, last, m, s[n..]) ==
      if n == |s| then 0
      else if Masked(m, s[n]) < last || Masked(m, s[n]) == 0 then 1
      else 1 + TabList(stops - 1, Masked(m, s[n]), m, s[n + 1..])
  {
    if n < |s| {
      assert s[n..][1..] == s[n + 1..];
    }
  }

  /** The graphics commands of escape() among the others. */
  lemma GraphicEscapeIs(pass: Pass, ibm: bool, s: seq<byte>, st: State, c: byte)
    requires s != [] && c == Masked(st.mask, s[0]) && c in {42, 94, 75, 76, 89, 90}
    ensures var k := if c == 42 || c == 94 then 2 else 1;
      Escape(pass, ibm, s, st) ==
        if |s| < k + 2 then Taken(|s|, st, false)
        else Block(pass.First?, if k == 2 then Masked(st.mask, s[1]) else ModeOf(c, st.modes),
                   if c == 94 then Pins9 else Pins8or24, Word(st.mask, s, k), k + 2, s, st)
  {
  }

  lemma TabEscapeIs(pass: Pass, ibm: bool, s: seq<byte>, st: State, c: byte)
    requires s != [] && c == Masked(st.mask, s[0]) && c in {66, 68, 98}
    ensures Escape(pass, ibm, s, st) ==
      if c == 66 then Taken(1 + TabList(16, 0, st.mask, s[1..]), st, false)
      else if c == 68 then Taken(1 + TabList(32, 0, st.mask, s[1..]), st, false)
      else if |s| > 1 && Masked(st.mask, s[1]) <= 7 then Taken(2 + TabList(16, 0, st.mask, s[2..]), st, false)
      else Taken(Least(2, |s|), st, false)
  {
  }

  lemma MoreEscapeIs(pass: Pass, ibm: bool, s: seq<byte>, st: State, c: byte)
    requires s != [] && c == Masked(st.mask, s[0]) && c in {67, 101}
    ensures Escape(pass, ibm, s, st) ==
      var more := |s| > 1 && if c == 67 then Masked(st.mask, s[1]) == 0 else Masked(st.mask, s[1]) in {0, 48, 1, 49};
      Taken(if |s| == 1 then 1 else if !more || |s| == 2 then 2 else 3, st, false)
  {
  }

  lemma ModeEscapeIs(pass: Pass, ibm: bool, s: seq<byte>, st: State, c: byte)
    requires s != [] && c == Masked(st.mask, s[0]) == 63
    ensures Escape(pass, ibm, s, st) ==
      if |s| == 1 then Taken(1, st, false)
      else if pass.First? || |s| == 2 then Taken(2, st, false)
      else Taken(3, st.(modes := SetMode(Masked(st.mask, s[1]), st.modes, Masked(st.mask, s[2]))), false)
  {
  }

  lemma OtherEscapeIs(pass: Pass, ibm: bool, s: seq<byte>, st: State, c: byte)
    requires s != [] && c == Masked(st.mask, s[0]) && c !in {42, 94, 75, 76, 89, 90, 66, 68, 98, 67, 101, 63}
    ensures Escape(pass, ibm, s, st) ==
      if OneOperand(c) then Taken(Least(2, |s|), st, false)
      else if c == 36 || c == 37 || (c == 92 && !ibm) then Taken(Least(3, |s|), st, false)
      else if c == 58 then Taken(Least(4, |s|), st, false)
      else if c == 35 then Taken(1, st.(mask := Kept), false)
      else if c == 61 then Taken(1, st.(mask := Cleared), false)
      else if c == 62 then Taken(1, st.(mask := AllSet), false)
      else if c == 64 && pass.Second? then Taken(1, st.(modes := DEFAULT_MODES), false)
      else Taken(1, st, false)
  {
  }

  lemma FsIs(pass: Pass, s: seq<byte>, st: State)
    ensures s == [] ==> Fs(pass, s, st) == Taken(0, st, false)
    ensures s != [] ==> (
      var c := Masked(st.mask, s[0]);
      Fs(pass, s, st) ==
        if c in {51, 67, 69, 73, 83, 86} then Taken(Least(2, |s|), st, false)
        else if c == 64 then Taken(1, st.(modes := DEFAULT_MODES), false)
        else if c == 90 && |s| < 3 then Taken(|s|, st, false)
        else if c == 90 then Block(pass.Second?, 40, Pins8or24, Word(st.mask, s, 1), 3, s, st)
        else Taken(1, st, false))
  {
  }

  lemma OneTurn(pass: Pass, ibm: bool, file: seq<byte>, at: nat, st: State)
    requires at <= |file|
    ensures at == |file| ==> RunFrom(pass, ibm, file, at, st) == Run([], false) && EndState(pass, ibm, file, at, st) == st
    ensures at < |file| ==> (
      var t := Command(pass, ibm, file[at..], st);
      if t.fatal then RunFrom(pass, ibm, file, at, st) == Run([at], true) && EndState(pass, ibm, file, at, st) == t.st
      else
        var rest := RunFrom(pass, ibm, file, at + t.used, t.st);
        RunFrom(pass, ibm, file, at, st) == Run([at] + rest.starts, rest.fatal) &&
        EndState(pass, ibm, file, at, st) == EndState(pass, ibm, file, at + t.used, t.st))
  {
    hide Command;
  }

  /** What main() makes of a file: pass 1, then, from the start and with the graphics
      modes but not the 8th bit reset, pass 2. */
  method TwoPasses(file: seq<byte>, ibm: bool) returns (ghost first: Run, ghost second: Run)
    ensures first == RunFrom(First, ibm, file, 0, State(Kept, DEFAULT_MODES))
    ensures second == if first.fatal then Run([], true)
      else RunFrom(Second, ibm, file, 0, Reset(EndState(First, ibm, file, 0, State(Kept, DEFAULT_MODES))))
    ensures var st := State(Kept, DEFAULT_MODES);
      var end := EndState(First, ibm, file, 0, st);
      !first.fatal ==>
        && (Agree(first, second) <==> !Parts(ibm, file, 0, st, Reset(end)))
        && (end.mask == Kept || (end.mask == Cleared && SevenBit(file)) ==>
              (Agree(first, second) <==> !Redefines(ibm, file, 0, st)))
        && (end.mask == AllSet ==> !Agree(first, second))
  {
    hide *;
    ghost var st := State(Kept, DEFAULT_MODES);
    var p := new Parser(file, ibm);
    var fatal := p.RunPass(First);
    first, second := Run(p.starts, fatal), Run([], true);
    if !fatal {
      fatal := p.SecondPass();
      second := Run(p.starts, fatal);
      WhenTheyAgree(file, ibm);
    }
  }

  lemma WhenTheyAgree(file: seq<byte>, ibm: bool)
    requires !RunFrom(First, ibm, file, 0, State(Kept, DEFAULT_MODES)).fatal
    ensures var st := State(Kept, DEFAULT_MODES);
      var end := EndState(First, ibm, file, 0, st);
      var a, b := RunFrom(First, ibm, file, 0, st), RunFrom(Second, ibm, file, 0, Reset(end));
        && (Agree(a, b) <==> !Parts(ibm, file, 0, st, Reset(end)))
        && (end.mask == Kept || (end.mask == Cleared && SevenBit(file)) ==> (Agree(a, b) <==> !Redefines(ibm, file, 0, st)))
        && (end.mask == AllSet ==> !Agree(a, b))
  {
    hide *;
    var st := State(Kept, DEFAULT_MODES);
    var end := EndState(First, ibm, file, 0, st);
    AgreeIffTogether(ibm, file, 0, st, Reset(end));
    ResetIs(end);
    if end.mask == AllSet {
      ForcedNeverAgrees(ibm, file, st);
    } else if end.mask == Kept {
      PassesAgreeIff(ibm, file, st);
    } else if SevenBit(file) {
      ClearedAgreesIff(ibm, file);
    }
  }

  lemma ResetIs(st: State)
    ensures Reset(st) == State(st.mask, DEFAULT_MODES)
  {
  }
}

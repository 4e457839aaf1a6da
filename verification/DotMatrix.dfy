// The dot matrix filter reads its input twice, with two parsers compiled from the
// same text (filter_dotmatrix/escape.c, pass1.c, main.c): how much each of them takes
// for a command, and when they take the same.

module DotMatrix {
  import opened Bytes
  import opened GraphicsBlocks

  /** What input() does to the 8th bit: leaves it, clears it, or, as written, puts
      0x80 in place of every byte. */
  datatype Mask = Kept | Cleared | AllSet

  function Masked(m: Mask, b: byte): byte {
    match m
    case Kept => b
    case Cleared => b % 128
    case AllSet => 128
  }

  /** The graphics modes of ESC K, L, Y and Z. */
  datatype Modes = Modes(k: byte, l: byte, y: byte, z: byte)

  const DEFAULT_MODES := Modes(0, 1, 2, 3)

  datatype State = State(mask: Mask, modes: Modes)

  /** Which parser: the one of pass 1 or the one of pass 2. */
  datatype Pass = First | Second

  /** What a command takes: bytes, and the program with it if it is fatal. */
  datatype Taken = Taken(used: nat, st: State, fatal: bool)

  function Least(a: nat, b: nat): nat { if a < b then a else b }

  // -------------------------------------------------------------------- graphics

  predicate KnownMode(mode: byte) { Density(mode).Some? }

  /** graphic() gives up on an unknown mode and on a block larger than its buffer. */
  predicate Refused(mode: byte, pins: Pins, length: nat) {
    !KnownMode(mode) || DataBytes(mode, pins, length) > MAX_GBYTES
  }

  /** A block of graphics, after `read` bytes of the command: eaten or drawn. */
  function Block(eat: bool, mode: byte, pins: Pins, length: nat, read: nat, s: seq<byte>, st: State): (t: Taken)
    requires read <= |s|
    ensures t.used <= |s|
  {
    if !eat && Refused(mode, pins, length) then Taken(read, st, true)
    else Taken(read + Least(DataBytes(mode, pins, length), |s| - read), st, false)
  }

  // ----------------------------------------------------------------------- tabs

  /** How much a list of up to `n` tab stops takes: it ends after a zero, or a stop
      before the last. */
  function TabList(n: nat, last: byte, m: Mask, s: seq<byte>): (used: nat)
    ensures used <= |s|
  {
    if n == 0 || s == [] then 0
    else
      var c := Masked(m, s[0]);
      if c < last || c == 0 then 1 else 1 + TabList(n - 1, c, m, s[1..])
  }

  // ------------------------------------------------------------------- commands

  /** Escape codes with no operand are those not named here or below. */
  predicate OneOperand(c: byte) {
    c in {25, 32, 33, 38, 43, 45, 47, 51, 65, 74, 78, 81, 82, 83, 85, 87, 97, 102, 106, 107, 108, 109, 112, 114, 115, 116, 119, 120}
  }

  function Plain(n: nat, s: seq<byte>, st: State): (t: Taken)
    ensures t.used <= |s|
  {
    Taken(Least(n, |s|), st, false)
  }

  /** ESC K, L, Y, Z: two bytes of length, and the block. */
  function ModeOf(c: byte, modes: Modes): byte {
    if c == 75 then modes.k else if c == 76 then modes.l else if c == 89 then modes.y else modes.z
  }

  function SetMode(c: byte, modes: Modes, mode: byte): Modes {
    if c == 75 then modes.(k := mode) else if c == 76 then modes.(l := mode)
    else if c == 89 then modes.(y := mode) else if c == 90 then modes.(z := mode) else modes
  }

  function Word(m: Mask, s: seq<byte>, i: nat): nat
    requires i + 1 < |s|
  {
    (Masked(m, s[i]) as int) + (Masked(m, s[i + 1]) as int) * 256
  }

  /** escape_pass1() and escape(), on the bytes after the ESC. */
  function Escape(pass: Pass, ibm: bool, s: seq<byte>, st: State): (t: Taken)
    ensures t.used <= |s|
  {
    var m := st.mask;
    if s == [] then Taken(0, st, false)
    else
      var c := Masked(m, s[0]);
      if OneOperand(c) then Plain(2, s, st)
      else if c == 36 || c == 37 then Plain(3, s, st)                              // ESC $, ESC %
      else if c == 58 then Plain(4, s, st)                                         // ESC :
      else if c == 92 then Plain(if ibm then 1 else 3, s, st)                      // ESC \\
      else if c == 35 then Plain(1, s, st.(mask := Kept))                          // ESC #
      else if c == 61 then Plain(1, s, st.(mask := Cleared))                       // ESC =
      else if c == 62 then Plain(1, s, st.(mask := AllSet))                        // ESC >
      else if c == 64 then Plain(1, s, if pass.First? then st else st.(modes := DEFAULT_MODES))   // ESC @
      else if c == 66 then Taken(1 + TabList(16, 0, m, s[1..]), st, false)         // ESC B
      else if c == 68 then Taken(1 + TabList(32, 0, m, s[1..]), st, false)         // ESC D
      else if c == 67 then Plain(if |s| > 1 && Masked(m, s[1]) == 0 then 3 else 2, s, st)         // ESC C
      else if c == 101 then                                                        // ESC e
        Plain(if |s| > 1 && Masked(m, s[1]) in {0, 48, 1, 49} then 3 else 2, s, st)
      else if c == 98 then                                                         // ESC b
        if |s| > 1 && Masked(m, s[1]) <= 7 then Taken(2 + TabList(16, 0, m, s[2..]), st, false) else Plain(2, s, st)
      else if c == 63 then                                                         // ESC ?
        if pass.First? then Plain(2, s, st)
        else if |s| < 3 then Plain(3, s, st)
        else Plain(3, s, st.(modes := SetMode(Masked(m, s[1]), st.modes, Masked(m, s[2]))))
      else if c == 42 || c == 94 then                                              // ESC *, ESC ^
        if |s| < 4 then Plain(4, s, st)
        else Block(pass.First?, Masked(m, s[1]), if c == 94 then Pins9 else Pins8or24, Word(m, s, 2), 4, s, st)
      else if c == 75 || c == 76 || c == 89 || c == 90 then                        // ESC K, L, Y, Z
        if |s| < 3 then Plain(3, s, st)
        else Block(pass.First?, ModeOf(c, st.modes), Pins8or24, Word(m, s, 1), 3, s, st)
      else Plain(1, s, st)
  }

  /** fs_pass1() and fs(). The branches of FS Z are the wrong way round: pass 1 draws
      and pass 2 eats. */
  function Fs(pass: Pass, s: seq<byte>, st: State): (t: Taken)
    ensures t.used <= |s|
  {
    var m := st.mask;
    if s == [] then Taken(0, st, false)
    else
      var c := Masked(m, s[0]);
      if c in {51, 67, 69, 73, 83, 86} then Plain(2, s, st)
      else if c == 64 then Plain(1, s, st.(modes := DEFAULT_MODES))                // FS @
      else if c == 90 then                                                         // FS Z
        if |s| < 3 then Plain(3, s, st) else Block(pass.Second?, 40, Pins8or24, Word(m, s, 1), 3, s, st)
      else Plain(1, s, st)
  }

  /** One turn of the loop of pass1() or process_input(). */
  function Command(pass: Pass, ibm: bool, s: seq<byte>, st: State): (t: Taken)
    requires s != []
    ensures 1 <= t.used <= |s|
  {
    var c := Masked(st.mask, s[0]);
    if c == 27 then var t := Escape(pass, ibm, s[1..], st); t.(used := 1 + t.used)
    else if c == 28 then var t := Fs(pass, s[1..], st); t.(used := 1 + t.used)
    else Taken(1, st, false)
  }

  // ----------------------------------------------------------------------- runs

  /** Where the commands begin, and whether the program gave up on the last. */
  datatype Run = Run(starts: seq<nat>, fatal: bool)

  function RunFrom(pass: Pass, ibm: bool, file: seq<byte>, at: nat, st: State): Run
    requires at <= |file|
    decreases |file| - at
  {
    if at == |file| then Run([], false)
    else
      var t := Command(pass, ibm, file[at..], st);
      if t.fatal then Run([at], true)
      else
        var rest := RunFrom(pass, ibm, file, at + t.used, t.st);
        Run([at] + rest.starts, rest.fatal)
  }

  /** Two runs split the file the same as far as both of them go, and one stops short
      of the other only by giving up. */
  predicate Agree(a: Run, b: Run) {
    && (forall i :: 0 <= i < |a.starts| && i < |b.starts| ==> a.starts[i] == b.starts[i])
    && (|a.starts| < |b.starts| ==> a.fatal)
    && (|b.starts| < |a.starts| ==> b.fatal)
  }

  /** Whether `s` begins with an ESC ? that has both its operands. */
  predicate RedefinesMode(m: Mask, s: seq<byte>) {
    |s| >= 4 && Masked(m, s[0]) == 27 && Masked(m, s[1]) == 63
  }

  /** Whether pass 2 comes to one, going by the commands from `at` on. */
  predicate Redefines(ibm: bool, file: seq<byte>, at: nat, st: State)
    requires at <= |file|
    decreases |file| - at
  {
    at < |file| && (
      RedefinesMode(st.mask, file[at..]) ||
      (!Command(First, ibm, file[at..], st).fatal && !Command(Second, ibm, file[at..], st).fatal &&
       Redefines(ibm, file, at + Command(First, ibm, file[at..], st).used, Command(First, ibm, file[at..], st).st)))
  }

  lemma EscapesAgree(ibm: bool, s: seq<byte>, st: State)
    requires st.modes == DEFAULT_MODES && !(|s| >= 3 && Masked(st.mask, s[0]) == 63)
    ensures var a, b := Escape(First, ibm, s, st), Escape(Second, ibm, s, st);
      a.st == b.st && a.st.modes == DEFAULT_MODES && !a.fatal && (!b.fatal ==> a.used == b.used)
  {
  }

  lemma FssAgree(s: seq<byte>, st: State)
    requires st.modes == DEFAULT_MODES
    ensures var a, b := Fs(First, s, st), Fs(Second, s, st);
      a.st == b.st && a.st.modes == DEFAULT_MODES && !b.fatal && (!a.fatal ==> a.used == b.used)
  {
  }

  lemma CommandsAgree(ibm: bool, s: seq<byte>, st: State)
    requires s != [] && st.modes == DEFAULT_MODES && !RedefinesMode(st.mask, s)
    ensures var a, b := Command(First, ibm, s, st), Command(Second, ibm, s, st);
      a.st == b.st && a.st.modes == DEFAULT_MODES && (!a.fatal && !b.fatal ==> a.used == b.used)
  {
    hide Escape, Fs;
    if Masked(st.mask, s[0]) == 27 {
      EscapesAgree(ibm, s[1..], st);
    } else {
      FssAgree(s[1..], st);
    }
  }

  lemma AgreeOn(at: nat, a: Run, b: Run)
    ensures Agree(Run([at] + a.starts, a.fatal), Run([at] + b.starts, b.fatal)) <==> Agree(a, b)
  {
    var a', b' := Run([at] + a.starts, a.fatal), Run([at] + b.starts, b.fatal);
    if Agree(a', b') {
      forall i | 0 <= i < |a.starts| && i < |b.starts|
        ensures a.starts[i] == b.starts[i]
      {
        assert a'.starts[i + 1] == b'.starts[i + 1];
      }
    }
  }

  lemma Turn(pass: Pass, ibm: bool, file: seq<byte>, at: nat, st: State)
    requires at < |file|
    ensures var t := Command(pass, ibm, file[at..], st);
      RunFrom(pass, ibm, file, at, st) ==
        if t.fatal then Run([at], true)
        else
          var rest := RunFrom(pass, ibm, file, at + t.used, t.st);
          Run([at] + rest.starts, rest.fatal)
  {
    hide Command;
  }

  lemma RedefinesTurn(ibm: bool, file: seq<byte>, at: nat, st: State)
    requires at < |file|
    ensures var a, b := Command(First, ibm, file[at..], st), Command(Second, ibm, file[at..], st);
      Redefines(ibm, file, at, st) <==>
        RedefinesMode(st.mask, file[at..]) || (!a.fatal && !b.fatal && Redefines(ibm, file, at + a.used, a.st))
  {
    hide Command, RedefinesMode;
  }

  lemma StopsAlike(at: nat, a: Run, b: Run)
    requires a.starts != [] && b.starts != [] && a.starts[0] == b.starts[0]
    requires a == Run([at], true) || b == Run([at], true)
    ensures Agree(a, b)
  {
  }

  /** Where a run begins. */
  lemma StartsAt(pass: Pass, ibm: bool, file: seq<byte>, at: nat, st: State)
    requires at <= |file|
    ensures var r := RunFrom(pass, ibm, file, at, st);
      if at == |file| then r == Run([], false) else r.starts != [] && r.starts[0] == at
  {
    hide Command;
  }

  /** Whether, going by the commands both take, pass 1 from `st1` and pass 2 from `st2`
      come to one of which they take different lengths, neither giving up. */
  predicate Parts(ibm: bool, file: seq<byte>, at: nat, st1: State, st2: State)
    requires at <= |file|
    decreases |file| - at
  {
    at < |file| && (
      var a, b := Command(First, ibm, file[at..], st1), Command(Second, ibm, file[at..], st2);
      !a.fatal && !b.fatal && (a.used != b.used || Parts(ibm, file, at + a.used, a.st, b.st)))
  }

  lemma PartsTurn(ibm: bool, file: seq<byte>, at: nat, st1: State, st2: State)
    requires at < |file|
    ensures var a, b := Command(First, ibm, file[at..], st1), Command(Second, ibm, file[at..], st2);
      Parts(ibm, file, at, st1, st2) <==>
        !a.fatal && !b.fatal && (a.used != b.used || Parts(ibm, file, at + a.used, a.st, b.st))
  {
    hide Command;
  }

  /** Having taken different lengths once, the passes never come together again. */
  lemma {:induction false} AgreeIffTogether(ibm: bool, file: seq<byte>, at: nat, st1: State, st2: State)
    requires at <= |file|
    ensures Agree(RunFrom(First, ibm, file, at, st1), RunFrom(Second, ibm, file, at, st2)) <==>
            !Parts(ibm, file, at, st1, st2)
    decreases |file| - at
  {
    hide Command, RunFrom;
    StartsAt(First, ibm, file, at, st1);
    StartsAt(Second, ibm, file, at, st2);
    if at < |file| {
      Turn(First, ibm, file, at, st1);
      Turn(Second, ibm, file, at, st2);
      PartsTurn(ibm, file, at, st1, st2);
      var t1, t2 := Command(First, ibm, file[at..], st1), Command(Second, ibm, file[at..], st2);
      if t1.fatal || t2.fatal {
        StopsAlike(at, RunFrom(First, ibm, file, at, st1), RunFrom(Second, ibm, file, at, st2));
      } else {
        var a, b := RunFrom(First, ibm, file, at + t1.used, t1.st), RunFrom(Second, ibm, file, at + t2.used, t2.st);
        AgreeOn(at, a, b);
        if t1.used == t2.used {
          AgreeIffTogether(ibm, file, at + t1.used, t1.st, t2.st);
        } else {
          StartsAt(First, ibm, file, at + t1.used, t1.st);
          StartsAt(Second, ibm, file, at + t2.used, t2.st);
          assert a.starts != [] && b.starts != [] ==> a.starts[0] != b.starts[0];
        }
      }
    }
  }

  lemma RedefiningParts(ibm: bool, s: seq<byte>, st1: State, st2: State)
    requires RedefinesMode(st1.mask, s) && RedefinesMode(st2.mask, s)
    ensures var a, b := Command(First, ibm, s, st1), Command(Second, ibm, s, st2);
      a.used == 3 && b.used == 4 && !a.fatal && !b.fatal
  {
    assert s[1..][0] == s[1];
  }

  /** From the same masks the passes part at an ESC ? with both its operands, and
      nowhere else. */
  lemma {:induction false} PartsIffRedefines(ibm: bool, file: seq<byte>, at: nat, st: State)
    requires at <= |file| && st.modes == DEFAULT_MODES
    ensures Parts(ibm, file, at, st, st) <==> Redefines(ibm, file, at, st)
    decreases |file| - at
  {
    hide Command, RedefinesMode;
    if at < |file| {
      var s := file[at..];
      PartsTurn(ibm, file, at, st, st);
      RedefinesTurn(ibm, file, at, st);
      if RedefinesMode(st.mask, s) {
        RedefiningParts(ibm, s, st, st);
      } else {
        CommandsAgree(ibm, s, st);
        var a, b := Command(First, ibm, s, st), Command(Second, ibm, s, st);
        if !a.fatal && !b.fatal {
          PartsIffRedefines(ibm, file, at + a.used, a.st);
        }
      }
    }
  }

  /** From the same masks and the default graphics modes, the two passes split the file
      the same, up to where one of them gives up, if and only if pass 2 comes to no
      ESC ? with both its operands there. */
  lemma PassesAgreeIff(ibm: bool, file: seq<byte>, st: State)
    requires st.modes == DEFAULT_MODES
    ensures Agree(RunFrom(First, ibm, file, 0, st), RunFrom(Second, ibm, file, 0, st)) <==> !Redefines(ibm, file, 0, st)
  {
    hide *;
    AgreeIffTogether(ibm, file, 0, st, st);
    PartsIffRedefines(ibm, file, 0, st);
  }

  /** The state a pass leaves behind. */
  function EndState(pass: Pass, ibm: bool, file: seq<byte>, at: nat, st: State): State
    requires at <= |file|
    decreases |file| - at
  {
    if at == |file| then st
    else
      var t := Command(pass, ibm, file[at..], st);
      if t.fatal then t.st else EndState(pass, ibm, file, at + t.used, t.st)
  }

  /** Between the passes the graphics modes are reset, and the 8th bit is not. */
  function Reset(st: State): State { st.(modes := DEFAULT_MODES) }

  /** So a file that ends with the 8th bit forced on is all printable the second time:
      what was one command is two. */
  lemma EighthBitCarriesOver(ibm: bool)
    ensures var file: seq<byte> := [27, 62];
      var st := State(Kept, DEFAULT_MODES);
      !Redefines(ibm, file, 0, st) &&
      RunFrom(First, ibm, file, 0, st) == Run([0], false) &&
      RunFrom(Second, ibm, file, 0, Reset(EndState(First, ibm, file, 0, st))) == Run([0, 1], false)
  {
    hide Command;
    var file: seq<byte> := [27, 62];
    var st, after := State(Kept, DEFAULT_MODES), State(AllSet, DEFAULT_MODES);
    assert file[0..] == file && file[1..] == [62];
    ForcesBit(First, ibm);
    ForcesBit(Second, ibm);
    AllPrintable(Second, ibm, file);
    AllPrintable(Second, ibm, [62]);
    assert RunFrom(First, ibm, file, 2, after) == RunFrom(Second, ibm, file, 2, after) == Run([], false);
    assert RunFrom(Second, ibm, file, 1, after) == Run([1], false);
    assert !RedefinesMode(Kept, file);
    assert !Redefines(ibm, file, 2, after);
    assert EndState(First, ibm, file, 2, after) == after;
  }

  lemma ForcesBit(pass: Pass, ibm: bool)
    ensures Command(pass, ibm, [27, 62], State(Kept, DEFAULT_MODES)) == Taken(2, State(AllSet, DEFAULT_MODES), false)
  {
    var s: seq<byte> := [27, 62];
    assert s[1..] == [62];
  }

  lemma AllPrintable(pass: Pass, ibm: bool, s: seq<byte>)
    requires s != []
    ensures var st := State(AllSet, DEFAULT_MODES); Command(pass, ibm, s, st) == Taken(1, st, false)
  {
  }

  // ------------------------------------------------- when pass 1 leaves the 8th bit forced on

  /** Once the 8th bit is forced on, every byte is printable. */
  lemma {:induction false} OneByteEach(pass: Pass, ibm: bool, file: seq<byte>, at: nat)
    requires at <= |file|
    ensures var st := State(AllSet, DEFAULT_MODES);
      var r := RunFrom(pass, ibm, file, at, st); |r.starts| == |file| - at && !r.fatal && EndState(pass, ibm, file, at, st) == st
    decreases |file| - at
  {
    hide Command;
    if at < |file| {
      AllPrintable(pass, ibm, file[at..]);
      Turn(pass, ibm, file, at, State(AllSet, DEFAULT_MODES));
      OneByteEach(pass, ibm, file, at + 1);
    }
  }

  /** Only a command of two bytes forces the 8th bit on. */
  lemma ForcingTakesTwo(pass: Pass, ibm: bool, s: seq<byte>, st: State)
    requires s != [] && st.mask != AllSet && Command(pass, ibm, s, st).st.mask == AllSet
    ensures Command(pass, ibm, s, st).used == 2
  {
    hide Masked, TabList, OneOperand;
  }

  /** So a pass that ends with it forced on has taken fewer commands than bytes. */
  lemma {:induction false} FewerThanBytes(pass: Pass, ibm: bool, file: seq<byte>, at: nat, st: State)
    requires at <= |file| && !RunFrom(pass, ibm, file, at, st).fatal
    ensures |RunFrom(pass, ibm, file, at, st).starts| <= |file| - at
    ensures st.mask != AllSet && EndState(pass, ibm, file, at, st).mask == AllSet ==>
            |RunFrom(pass, ibm, file, at, st).starts| < |file| - at
    decreases |file| - at
  {
    hide Command;
    if at < |file| {
      var t := Command(pass, ibm, file[at..], st);
      Turn(pass, ibm, file, at, st);
      FewerThanBytes(pass, ibm, file, at + t.used, t.st);
      if st.mask != AllSet && t.st.mask == AllSet {
        ForcingTakesTwo(pass, ibm, file[at..], st);
      }
    }
  }

  /** A file that pass 1 ends with the 8th bit forced on is always split differently. */
  lemma ForcedNeverAgrees(ibm: bool, file: seq<byte>, st: State)
    requires st.mask != AllSet && !RunFrom(First, ibm, file, 0, st).fatal && EndState(First, ibm, file, 0, st).mask == AllSet
    ensures !Agree(RunFrom(First, ibm, file, 0, st), RunFrom(Second, ibm, file, 0, Reset(EndState(First, ibm, file, 0, st))))
  {
    hide Command, RunFrom, EndState;
    FewerThanBytes(First, ibm, file, 0, st);
    OneByteEach(Second, ibm, file, 0);
    assert Reset(EndState(First, ibm, file, 0, st)) == State(AllSet, DEFAULT_MODES);
  }

  // ------------------------------------------------- when pass 1 leaves the 8th bit cleared

  predicate SevenBit(s: seq<byte>) {
    forall i :: 0 <= i < |s| ==> s[i] < 128
  }

  lemma {:induction false} SameTabs(n: nat, last: byte, s: seq<byte>)
    requires SevenBit(s)
    ensures TabList(n, last, Kept, s) == TabList(n, last, Cleared, s)
    decreases n
  {
    if n > 0 && s != [] && !(s[0] < last || s[0] == 0) {
      SameTabs(n - 1, s[0], s[1..]);
    }
  }

  /** What a command makes of the bytes with the 8th bit kept and with it cleared:
      the same, the mask apart. */
  predicate SameTaken(a: Taken, b: Taken) {
    a.used == b.used && a.fatal == b.fatal && a.st.modes == b.st.modes &&
    (a.st.mask == b.st.mask || (a.st.mask == Kept && b.st.mask == Cleared))
  }

  lemma SameTabEscape(pass: Pass, ibm: bool, s: seq<byte>, modes: Modes)
    requires SevenBit(s) && s != [] && s[0] in {66, 68, 98}
    ensures SameTaken(Escape(pass, ibm, s, State(Kept, modes)), Escape(pass, ibm, s, State(Cleared, modes)))
  {
    hide TabList, Plain, Block, SetMode, ModeOf, Word;
    SameTabs(16, 0, s[1..]);
    SameTabs(32, 0, s[1..]);
    if |s| > 1 {
      SameTabs(16, 0, s[2..]);
    }
    SamePlain(2, s, modes);
  }

  lemma SameGraphicEscape(pass: Pass, ibm: bool, s: seq<byte>, modes: Modes)
    requires SevenBit(s) && s != [] && s[0] in {42, 94}
    ensures SameTaken(Escape(pass, ibm, s, State(Kept, modes)), Escape(pass, ibm, s, State(Cleared, modes)))
  {
    hide TabList, Plain, Block, SetMode, ModeOf;
    SamePlain(4, s, modes);
    if |s| > 3 {
      assert Word(Kept, s, 2) == Word(Cleared, s, 2);
      SameBlock(pass.First?, s[1], if s[0] == 94 then Pins9 else Pins8or24, Word(Kept, s, 2), 4, s, modes);
    }
    hide Word;
  }

  lemma SameModeEscape(pass: Pass, ibm: bool, s: seq<byte>, modes: Modes)
    requires SevenBit(s) && s != [] && s[0] in {75, 76, 89, 90}
    ensures SameTaken(Escape(pass, ibm, s, State(Kept, modes)), Escape(pass, ibm, s, State(Cleared, modes)))
  {
    hide TabList, Plain, Block, SetMode, ModeOf;
    SamePlain(3, s, modes);
    if |s| > 2 {
      assert Word(Kept, s, 1) == Word(Cleared, s, 1);
      SameBlock(pass.First?, ModeOf(s[0], modes), Pins8or24, Word(Kept, s, 1), 3, s, modes);
    }
    hide Word;
  }

  lemma SameOtherEscape(pass: Pass, ibm: bool, s: seq<byte>, modes: Modes)
    requires SevenBit(s) && s != [] && s[0] !in {66, 68, 98, 42, 94, 75, 76, 89, 90}
    ensures SameTaken(Escape(pass, ibm, s, State(Kept, modes)), Escape(pass, ibm, s, State(Cleared, modes)))
  {
    hide TabList, Block, SetMode, ModeOf, Word, OneOperand;
    var c := s[0];
    if OneOperand(c) {
    } else if c in {36, 37, 58, 92} {
    } else if c in {35, 61, 62, 64} {
    } else if c == 63 {
    } else if c == 67 || c == 101 {
    } else {
    }
  }

  lemma SameEscape(pass: Pass, ibm: bool, s: seq<byte>, modes: Modes)
    requires SevenBit(s)
    ensures SameTaken(Escape(pass, ibm, s, State(Kept, modes)), Escape(pass, ibm, s, State(Cleared, modes)))
  {
    hide SameTaken;
    if s == [] {
      SameNothing(pass, ibm, modes);
    } else if s[0] in {66, 68, 98} {
      SameTabEscape(pass, ibm, s, modes);
    } else if s[0] in {42, 94} {
      SameGraphicEscape(pass, ibm, s, modes);
    } else if s[0] in {75, 76, 89, 90} {
      SameModeEscape(pass, ibm, s, modes);
    } else {
      SameOtherEscape(pass, ibm, s, modes);
    }
    hide Escape;
  }

  lemma SameNothing(pass: Pass, ibm: bool, modes: Modes)
    ensures SameTaken(Escape(pass, ibm, [], State(Kept, modes)), Escape(pass, ibm, [], State(Cleared, modes)))
  {
  }

  lemma SamePlain(n: nat, s: seq<byte>, modes: Modes)
    ensures SameTaken(Plain(n, s, State(Kept, modes)), Plain(n, s, State(Cleared, modes)))
  {
  }

  lemma SameBlock(eat: bool, mode: byte, pins: Pins, length: nat, read: nat, s: seq<byte>, modes: Modes)
    requires read <= |s|
    ensures var a := Block(eat, mode, pins, length, read, s, State(Kept, modes));
      var b := Block(eat, mode, pins, length, read, s, State(Cleared, modes));
      a.used == b.used && a.fatal == b.fatal && a.st == State(Kept, modes) && b.st == State(Cleared, modes)
  {
    hide Refused, DataBytes;
  }

  lemma SameFs(pass: Pass, s: seq<byte>, modes: Modes)
    requires SevenBit(s)
    ensures var a, b := Fs(pass, s, State(Kept, modes)), Fs(pass, s, State(Cleared, modes));
      a.used == b.used && a.fatal == b.fatal && a.st.modes == b.st.modes && a.st.mask == Kept && b.st.mask == Cleared
  {
    if |s| > 2 {
      assert Word(Kept, s, 1) == Word(Cleared, s, 1);
    }
    hide Word;
  }

  /** Without high bytes it makes no difference whether the 8th bit is kept or cleared. */
  lemma SameCommand(pass: Pass, ibm: bool, s: seq<byte>, modes: Modes)
    requires s != [] && SevenBit(s)
    ensures var a, b := Command(pass, ibm, s, State(Kept, modes)), Command(pass, ibm, s, State(Cleared, modes));
      SameTaken(a, b)
    ensures RedefinesMode(Kept, s) <==> RedefinesMode(Cleared, s)
  {
    hide Escape, Fs;
    assert SevenBit(s[1..]);
    SameEscape(pass, ibm, s[1..], modes);
    SameFs(pass, s[1..], modes);
  }

  lemma {:induction false} ClearedPartsIff(ibm: bool, file: seq<byte>, at: nat)
    requires at <= |file| && SevenBit(file)
    ensures Parts(ibm, file, at, State(Kept, DEFAULT_MODES), State(Cleared, DEFAULT_MODES)) <==>
            Redefines(ibm, file, at, State(Kept, DEFAULT_MODES))
    decreases |file| - at
  {
    hide Command, RedefinesMode;
    if at < |file| {
      var s := file[at..];
      var st1, st2 := State(Kept, DEFAULT_MODES), State(Cleared, DEFAULT_MODES);
      PartsTurn(ibm, file, at, st1, st2);
      RedefinesTurn(ibm, file, at, st1);
      assert SevenBit(s);
      SameCommand(Second, ibm, s, DEFAULT_MODES);
      if RedefinesMode(Kept, s) {
        RedefiningParts(ibm, s, st1, st2);
      } else {
        CommandsAgree(ibm, s, st1);
        var a, b := Command(First, ibm, s, st1), Command(Second, ibm, s, st2);
        if !a.fatal && !b.fatal {
          if a.st.mask == b.st.mask {
            assert a.st == b.st;
            PartsIffRedefines(ibm, file, at + a.used, a.st);
          } else {
            assert a.st == st1 && b.st == st2;
            ClearedPartsIff(ibm, file, at + a.used);
          }
        }
      }
    }
  }

  /** A file without high bytes that pass 1 ends with the 8th bit cleared is split the
      same exactly if pass 2 comes to no full ESC ?. */
  lemma ClearedAgreesIff(ibm: bool, file: seq<byte>)
    requires SevenBit(file)
    ensures var st := State(Kept, DEFAULT_MODES);
      Agree(RunFrom(First, ibm, file, 0, st), RunFrom(Second, ibm, file, 0, State(Cleared, DEFAULT_MODES))) <==>
      !Redefines(ibm, file, 0, st)
  {
    hide *;
    AgreeIffTogether(ibm, file, 0, State(Kept, DEFAULT_MODES), State(Cleared, DEFAULT_MODES));
    ClearedPartsIff(ibm, file, 0);
  }

  /** With high bytes it does make a difference: ESC with its 8th bit set is a character
      while the bit is kept, and begins a command when it is cleared. */
  lemma HighEscapeParts(ibm: bool)
    ensures var file: seq<byte> := [155, 64, 27, 61];
      var st := State(Kept, DEFAULT_MODES);
      && !Redefines(ibm, file, 0, st) && EndState(First, ibm, file, 0, st).mask == Cleared
      && RunFrom(First, ibm, file, 0, st) == Run([0, 1, 2], false)
      && !Agree(RunFrom(First, ibm, file, 0, st), RunFrom(Second, ibm, file, 0, Reset(EndState(First, ibm, file, 0, st))))
  {
    hide Command, Redefines, RunFrom, EndState;
    var file: seq<byte> := [155, 64, 27, 61];
    var st, done := State(Kept, DEFAULT_MODES), State(Cleared, DEFAULT_MODES);
    HighEscapeRun(ibm, file);
    HighEscapeRedefines(ibm, file);
    assert file[0..] == file;
    HighEscape(ibm);
    PartsTurn(ibm, file, 0, st, done);
    AgreeIffTogether(ibm, file, 0, st, done);
  }

  lemma HighEscapeRun(ibm: bool, file: seq<byte>)
    requires file == [155, 64, 27, 61]
    ensures var st, done := State(Kept, DEFAULT_MODES), State(Cleared, DEFAULT_MODES);
      RunFrom(First, ibm, file, 0, st) == Run([0, 1, 2], false) && EndState(First, ibm, file, 0, st) == done
  {
    hide Command;
    var st, done := State(Kept, DEFAULT_MODES), State(Cleared, DEFAULT_MODES);
    HighEscapeSplits(file);
    HighEscape(ibm);
    Character(ibm);
    Clears(ibm);
    assert RunFrom(First, ibm, file, 4, done) == Run([], false) && EndState(First, ibm, file, 4, done) == done;
    assert RunFrom(First, ibm, file, 2, st) == Run([2], false) && EndState(First, ibm, file, 2, st) == done;
    assert RunFrom(First, ibm, file, 1, st) == Run([1, 2], false) && EndState(First, ibm, file, 1, st) == done;
  }

  lemma HighEscapeRedefines(ibm: bool, file: seq<byte>)
    requires file == [155, 64, 27, 61]
    ensures !Redefines(ibm, file, 0, State(Kept, DEFAULT_MODES))
  {
    hide Command, Redefines;
    var st, done := State(Kept, DEFAULT_MODES), State(Cleared, DEFAULT_MODES);
    HighEscapeSplits(file);
    HighEscape(ibm);
    Character(ibm);
    Clears(ibm);
    assert !RedefinesMode(Kept, file) && !RedefinesMode(Kept, [64, 27, 61]) && !RedefinesMode(Kept, [27, 61]);
    hide RedefinesMode;
    RedefinesEnd(ibm, file, done);
    RedefinesTurn(ibm, file, 2, st);
    RedefinesTurn(ibm, file, 1, st);
    RedefinesTurn(ibm, file, 0, st);
  }

  lemma RedefinesEnd(ibm: bool, file: seq<byte>, st: State)
    ensures !Redefines(ibm, file, |file|, st)
  {
  }

  lemma HighEscapeSplits(file: seq<byte>)
    requires file == [155, 64, 27, 61]
    ensures file[0..] == file && file[1..] == [64, 27, 61] && file[2..] == [27, 61]
  {
  }

  lemma HighEscape(ibm: bool)
    ensures Command(First, ibm, [155, 64, 27, 61], State(Kept, DEFAULT_MODES)) == Taken(1, State(Kept, DEFAULT_MODES), false)
    ensures Command(Second, ibm, [155, 64, 27, 61], State(Kept, DEFAULT_MODES)) == Taken(1, State(Kept, DEFAULT_MODES), false)
    ensures Command(Second, ibm, [155, 64, 27, 61], State(Cleared, DEFAULT_MODES)) == Taken(2, State(Cleared, DEFAULT_MODES), false)
  {
    var s: seq<byte> := [155, 64, 27, 61];
    assert s[1..] == [64, 27, 61];
  }

  lemma Character(ibm: bool)
    ensures Command(First, ibm, [64, 27, 61], State(Kept, DEFAULT_MODES)) == Taken(1, State(Kept, DEFAULT_MODES), false)
    ensures Command(Second, ibm, [64, 27, 61], State(Kept, DEFAULT_MODES)) == Taken(1, State(Kept, DEFAULT_MODES), false)
  {
  }

  lemma Clears(ibm: bool)
    ensures Command(First, ibm, [27, 61], State(Kept, DEFAULT_MODES)) == Taken(2, State(Cleared, DEFAULT_MODES), false)
    ensures Command(Second, ibm, [27, 61], State(Kept, DEFAULT_MODES)) == Taken(2, State(Cleared, DEFAULT_MODES), false)
  {
    var s: seq<byte> := [27, 61];
    assert s[1..] == [61];
  }
}

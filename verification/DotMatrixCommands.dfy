// The commands of the dot matrix filter written out byte by byte (filter_dotmatrix/
// escape.c, tabbing.c, graphics.c): where the next command begins after each of them.

module DotMatrixCommands {
  import opened Bytes
  import opened GraphicsBlocks
  import opened DotMatrix
  import opened DotMatrixPasses

  /** `file` is taken as one command of `n` bytes, and then as `rest` is taken from `after`. */
  ghost predicate Splits(pass: Pass, ibm: bool, file: seq<byte>, st: State, n: nat, rest: seq<byte>, after: State) {
    var r, tail := RunFrom(pass, ibm, file, 0, st), RunFrom(pass, ibm, rest, 0, after);
    && |r.starts| == 1 + |tail.starts| && r.starts[0] == 0
    && (forall i :: 0 <= i < |tail.starts| ==> r.starts[i + 1] == n + tail.starts[i])
    && r.fatal == tail.fatal
    && EndState(pass, ibm, file, 0, st) == EndState(pass, ibm, rest, 0, after)
  }

  // ------------------------------------------------------------------ one turn at a time

  /** What comes before a command makes no difference to it, but for where it is. */
  lemma {:induction false} Shifted(pass: Pass, ibm: bool, head: seq<byte>, rest: seq<byte>, at: nat, st: State)
    requires at <= |rest|
    ensures var r, tail := RunFrom(pass, ibm, head + rest, |head| + at, st), RunFrom(pass, ibm, rest, at, st);
      && |r.starts| == |tail.starts| && r.fatal == tail.fatal
      && (forall i :: 0 <= i < |tail.starts| ==> r.starts[i] == |head| + tail.starts[i])
      && EndState(pass, ibm, head + rest, |head| + at, st) == EndState(pass, ibm, rest, at, st)
    decreases |rest| - at
  {
    hide Command;
    if at < |rest| {
      assert (head + rest)[|head| + at..] == rest[at..];
      var t := Command(pass, ibm, rest[at..], st);
      if !t.fatal {
        Shifted(pass, ibm, head, rest, at + t.used, t.st);
        assert |head| + at + t.used == |head| + (at + t.used);
      }
    }
  }

  lemma OneCommand(pass: Pass, ibm: bool, head: seq<byte>, rest: seq<byte>, st: State, after: State)
    requires head != []
    requires Command(pass, ibm, head + rest, st) == Taken(|head|, after, false)
    ensures Splits(pass, ibm, head + rest, st, |head|, rest, after)
  {
    hide Command;
    var file := head + rest;
    assert file[0..] == file;
    Turn(pass, ibm, file, 0, st);
    Shifted(pass, ibm, head, rest, 0, after);
  }

  lemma GivesUp(pass: Pass, ibm: bool, file: seq<byte>, st: State)
    requires file != [] && Command(pass, ibm, file, st).fatal
    ensures RunFrom(pass, ibm, file, 0, st) == Run([0], true)
  {
    hide Command;
    assert file[0..] == file;
    Turn(pass, ibm, file, 0, st);
  }

  /** The bytes of a command after its ESC or FS. */
  lemma EscapeTurn(pass: Pass, ibm: bool, head: seq<byte>, rest: seq<byte>, st: State, after: State)
    requires head != [] && Masked(st.mask, head[0]) == 27
    requires Escape(pass, ibm, head[1..] + rest, st) == Taken(|head| - 1, after, false)
    ensures Splits(pass, ibm, head + rest, st, |head|, rest, after)
  {
    hide Escape, Fs, Masked, Splits;
    assert (head + rest)[1..] == head[1..] + rest;
    OneCommand(pass, ibm, head, rest, st, after);
  }

  lemma FsTurn(pass: Pass, ibm: bool, head: seq<byte>, rest: seq<byte>, st: State, after: State)
    requires head != [] && Masked(st.mask, head[0]) == 28
    requires Fs(pass, head[1..] + rest, st) == Taken(|head| - 1, after, false)
    ensures Splits(pass, ibm, head + rest, st, |head|, rest, after)
  {
    hide Escape, Fs, Masked, Splits;
    assert (head + rest)[1..] == head[1..] + rest;
    OneCommand(pass, ibm, head, rest, st, after);
  }

  // -------------------------------------------------------------------------- characters

  /** Everything but ESC and FS is one byte. */
  lemma Characters(pass: Pass, ibm: bool, b: byte, rest: seq<byte>, st: State)
    requires Masked(st.mask, b) != 27 && Masked(st.mask, b) != 28
    ensures Splits(pass, ibm, [b] + rest, st, 1, rest, st)
  {
    hide Escape, Fs, Masked, Splits;
    assert ([b] + rest)[0] == b;
    OneCommand(pass, ibm, [b], rest, st, st);
  }

  /** A byte as it is while the 8th bit is left alone, without it after ESC =, and 128
      whatever it was after ESC >. */
  lemma MaskTable(st: State, b: byte)
    ensures st.mask == Kept ==> Masked(st.mask, b) == b
    ensures st.mask == Cleared ==> Masked(st.mask, b) == if b < 128 then b else b - 128
    ensures st.mask == AllSet ==> Masked(st.mask, b) == 128
  {
  }

  // --------------------------------------------------------------- operands, however many

  /** The number of operands of the commands that always have as many. */
  lemma PlainCommand(pass: Pass, ibm: bool, esc: byte, code: byte, operands: seq<byte>, rest: seq<byte>, st: State, after: State)
    requires Masked(st.mask, esc) == 27
    requires var c := Masked(st.mask, code);
      && c !in {42, 63, 66, 67, 68, 75, 76, 89, 90, 94, 98, 101}
      && var n :=
           if c in {25, 32, 33, 38, 43, 45, 47, 51, 65, 74, 78, 81, 82, 83, 85, 87, 97, 102,
                    106, 107, 108, 109, 112, 114, 115, 116, 119, 120} then 1
           else if c == 36 || c == 37 || (c == 92 && !ibm) then 2
           else if c == 58 then 3
           else 0;
         |operands| <= n && (|operands| < n ==> rest == [])
    requires var c := Masked(st.mask, code);
      && after.mask == (if c == 35 then Kept else if c == 61 then Cleared else if c == 62 then AllSet else st.mask)
      && after.modes == (if c == 64 && pass == Second then Modes(0, 1, 2, 3) else st.modes)
    ensures Splits(pass, ibm, [esc, code] + operands + rest, st, 2 + |operands|, rest, after)
  {
    hide Escape, Masked, Splits;
    var head := [esc, code] + operands;
    var s := head[1..] + rest;
    assert s[0] == code && |s| == 1 + |operands| + |rest|;
    OtherEscapeIs(pass, ibm, s, st, Masked(st.mask, code));
    EscapeTurn(pass, ibm, head, rest, st, after);
  }

  /** ESC C has a second operand after a zero, and ESC e after 0 or 1, as a number or a
      digit. */
  lemma ChoosingCommand(pass: Pass, ibm: bool, esc: byte, code: byte, operands: seq<byte>, rest: seq<byte>, st: State)
    requires Masked(st.mask, esc) == 27
    requires var c := Masked(st.mask, code);
      && (c == 67 || c == 101)
      && var n := if operands == [] then 1
                  else if Masked(st.mask, operands[0]) == 0 then 2
                  else if c == 101 && Masked(st.mask, operands[0]) in {48, 1, 49} then 2
                  else 1;
         |operands| <= n && (|operands| < n ==> rest == [])
    ensures Splits(pass, ibm, [esc, code] + operands + rest, st, 2 + |operands|, rest, st)
  {
    hide Escape, Masked, Splits;
    var head := [esc, code] + operands;
    var s := head[1..] + rest;
    assert s[0] == code && |s| == 1 + |operands| + |rest| && (operands != [] ==> s[1] == operands[0]);
    MoreEscapeIs(pass, ibm, s, st, Masked(st.mask, code));
    EscapeTurn(pass, ibm, head, rest, st, st);
  }

  /** ESC ?: pass 1 takes the letter only, and leaves the mode to be taken for a
      character; pass 2 takes both and makes it the mode of ESC K, L, Y or Z. */
  lemma ModeCommand(pass: Pass, ibm: bool, esc: byte, code: byte, operands: seq<byte>, rest: seq<byte>, st: State, after: State)
    requires Masked(st.mask, esc) == 27 && Masked(st.mask, code) == 63
    requires var n := if pass == First then 1 else 2; |operands| <= n && (|operands| < n ==> rest == [])
    requires after.mask == st.mask && if |operands| < 2 then after.modes == st.modes else
      var letter, mode := Masked(st.mask, operands[0]), Masked(st.mask, operands[1]);
      && after.modes.k == (if letter == 75 then mode else st.modes.k)
      && after.modes.l == (if letter == 76 then mode else st.modes.l)
      && after.modes.y == (if letter == 89 then mode else st.modes.y)
      && after.modes.z == (if letter == 90 then mode else st.modes.z)
    ensures Splits(pass, ibm, [esc, code] + operands + rest, st, 2 + |operands|, rest, after)
  {
    hide Escape, Masked, Splits;
    var head := [esc, code] + operands;
    var s := head[1..] + rest;
    assert s[0] == code && |s| == 1 + |operands| + |rest|;
    assert operands != [] ==> s[1] == operands[0];
    assert |operands| > 1 ==> s[2] == operands[1];
    ModeEscapeIs(pass, ibm, s, st, Masked(st.mask, code));
    EscapeTurn(pass, ibm, head, rest, st, after);
  }

  // -------------------------------------------------------------------------- tab stops

  /** The first `k` stops are in no falling order, and none of them is zero. */
  ghost predicate Rising(m: Mask, stops: seq<byte>, k: nat)
    requires k <= |stops|
  {
    forall i :: 0 <= i < k ==> RisesAt(m, stops, i)
  }

  ghost predicate RisesAt(m: Mask, stops: seq<byte>, i: nat)
    requires i < |stops|
  {
    Masked(m, stops[i]) > 0 && (i > 0 ==> Masked(m, stops[i]) >= Masked(m, stops[i - 1]))
  }

  /** A list of tab stops that is not finished: it may go on. */
  ghost predicate Unfinished(m: Mask, n: nat, stops: seq<byte>) {
    |stops| < n && Rising(m, stops, |stops|)
  }

  /** A whole list: `n` stops, or fewer and then a zero or an earlier one. */
  ghost predicate WholeList(m: Mask, n: nat, stops: seq<byte>) {
    && 0 < |stops| <= n && Rising(m, stops, |stops| - 1)
    && (|stops| == n || !RisesAt(m, stops, |stops| - 1))
  }

  lemma {:induction false} ListTaken(m: Mask, n: nat, k: nat, stops: seq<byte>, rest: seq<byte>)
    requires k <= |stops| <= n && (WholeList(m, n, stops) || (Unfinished(m, n, stops) && rest == []))
    requires k == |stops| ==> n == k || rest == []
    ensures TabList(n - k, if k == 0 then 0 else Masked(m, stops[k - 1]), m, stops[k..] + rest) == |stops| - k
    decreases |stops| - k
  {
    hide Masked;
    var s := stops[k..] + rest;
    if k < |stops| {
      assert s[0] == stops[k] && s[1..] == stops[k + 1..] + rest;
      assert k < |stops| - 1 ==> RisesAt(m, stops, k);
      if RisesAt(m, stops, k) {
        assert k == |stops| - 1 && |stops| < n ==> rest == [];
        ListTaken(m, n, k + 1, stops, rest);
      }
    }
  }

  /** ESC B has up to 16 stops and ESC D up to 32; ESC b a channel first, and the 16 stops
      only if there is such a channel. */
  lemma TabCommand(pass: Pass, ibm: bool, esc: byte, code: byte, channel: seq<byte>, stops: seq<byte>, rest: seq<byte>, st: State)
    requires Masked(st.mask, esc) == 27 && Masked(st.mask, code) in {66, 68, 98}
    requires |channel| == if Masked(st.mask, code) == 98 then 1 else 0
    requires var n := if Masked(st.mask, code) == 68 then 32 else 16;
      if channel != [] && Masked(st.mask, channel[0]) > 7 then stops == []
      else WholeList(st.mask, n, stops) || (Unfinished(st.mask, n, stops) && rest == [])
    ensures Splits(pass, ibm, [esc, code] + channel + stops + rest, st, 2 + |channel| + |stops|, rest, st)
  {
    hide Escape, Masked, Splits, TabList, RisesAt, Rising;
    var c := Masked(st.mask, code);
    var head := [esc, code] + channel + stops;
    var s := head[1..] + rest;
    assert s[0] == code && s[1..] == channel + stops + rest;
    TabEscapeIs(pass, ibm, s, st, c);
    if c == 98 {
      assert s[1] == channel[0] && s[2..] == stops + rest;
    } else {
      assert s[1..] == stops + rest;
    }
    if !(c == 98 && Masked(st.mask, channel[0]) > 7) {
      ListTaken(st.mask, if c == 68 then 32 else 16, 0, stops, rest);
      assert stops[0..] == stops;
    }
    EscapeTurn(pass, ibm, head, rest, st, st);
  }

  /** A file that ends after its ESC, or before the channel of ESC b. */
  lemma CodeMissing(pass: Pass, ibm: bool, esc: byte, code: byte, st: State)
    requires Masked(st.mask, esc) == 27
    ensures Splits(pass, ibm, [esc], st, 1, [], st)
    ensures Masked(st.mask, code) == 98 ==> Splits(pass, ibm, [esc, code], st, 2, [], st)
  {
    hide Masked, Splits;
    assert [esc] + [] == [esc] && [esc][1..] + [] == [];
    EscapeTurn(pass, ibm, [esc], [], st, st);
    if Masked(st.mask, code) == 98 {
      assert [esc, code] + [] == [esc, code] && [esc, code][1..] + [] == [code];
      EscapeTurn(pass, ibm, [esc, code], [], st, st);
    }
  }

  // --------------------------------------------------------------------------- graphics

  /** What a block of graphics takes when it is all there or ends the file: its columns
      are of one byte in the 8-pin modes, of three in the 24-pin modes and of two for nine
      pins; and drawing gives up on a mode there is none of and on more than 8640 bytes. */
  lemma BlockTaken(eat: bool, mode: byte, pins: Pins, columns: nat, read: nat, s: seq<byte>, st: State)
    requires read <= |s|
    ensures var size := columns * (if pins == Pins9 then 2 else if mode < 32 then 1 else 3);
      var left := |s| - read;
      Block(eat, mode, pins, columns, read, s, st) ==
        if !eat && (mode !in {0, 1, 2, 3, 4, 5, 6, 32, 33, 38, 39, 40} || size > 8640) then Taken(read, st, true)
        else Taken(read + (if size <= left then size else left), st, false)
  {
    DensityTable(mode as int);
  }

  /** ESC *, K, L, Y, Z and ^: for ESC * and ^ a mode, two bytes of length, and as many
      columns. Pass 1 eats them and pass 2 draws them. */
  lemma GraphicCommand(pass: Pass, ibm: bool, esc: byte, code: byte, given: seq<byte>, low: byte, high: byte,
                       data: seq<byte>, rest: seq<byte>, st: State, mode: byte)
    requires Masked(st.mask, esc) == 27 && Masked(st.mask, code) in {42, 75, 76, 89, 90, 94}
    requires |given| == if Masked(st.mask, code) in {42, 94} then 1 else 0
    requires var c := Masked(st.mask, code);
      mode == if c == 75 then st.modes.k else if c == 76 then st.modes.l
              else if c == 89 then st.modes.y else if c == 90 then st.modes.z else Masked(st.mask, given[0])
    requires var size := ((Masked(st.mask, low) as int) + 256 * (Masked(st.mask, high) as int)) *
                         (if Masked(st.mask, code) == 94 then 2 else if mode < 32 then 1 else 3);
      |data| <= size && (|data| < size ==> rest == [])
    ensures var file := [esc, code] + given + [low, high] + data + rest;
      var size := ((Masked(st.mask, low) as int) + 256 * (Masked(st.mask, high) as int)) *
                  (if Masked(st.mask, code) == 94 then 2 else if mode < 32 then 1 else 3);
      if pass == Second && (mode !in {0, 1, 2, 3, 4, 5, 6, 32, 33, 38, 39, 40} || size > 8640) then
        RunFrom(pass, ibm, file, 0, st) == Run([0], true)
      else Splits(pass, ibm, file, st, 4 + |given| + |data|, rest, st)
  {
    hide Block, Escape, Masked, Splits, RunFrom;
    var c := Masked(st.mask, code);
    var head := [esc, code] + given + [low, high] + data;
    var s := head[1..] + rest;
    var k := 1 + |given|;
    assert s[0] == code && (given != [] ==> s[1] == given[0]) && s[k] == low && s[k + 1] == high;
    assert |s| == k + 2 + |data| + |rest|;
    GraphicEscapeIs(pass, ibm, s, st, c);
    var columns := Word(st.mask, s, k);
    BlockTaken(pass.First?, mode, if c == 94 then Pins9 else Pins8or24, columns, k + 2, s, st);
    if Escape(pass, ibm, s, st).fatal {
      assert (head + rest)[1..] == s;
      EscapeGivesUp(pass, ibm, head + rest, st);
    } else {
      EscapeTurn(pass, ibm, head, rest, st, st);
    }
  }

  lemma EscapeGivesUp(pass: Pass, ibm: bool, file: seq<byte>, st: State)
    requires file != [] && Masked(st.mask, file[0]) == 27 && Escape(pass, ibm, file[1..], st).fatal
    ensures RunFrom(pass, ibm, file, 0, st) == Run([0], true)
  {
    hide Escape, Fs, Masked, RunFrom;
    GivesUp(pass, ibm, file, st);
  }

  /** A command for which the file ends before its length. */
  lemma LengthMissing(pass: Pass, ibm: bool, esc: byte, code: byte, operands: seq<byte>, st: State)
    requires Masked(st.mask, esc) == 27 && Masked(st.mask, code) in {42, 75, 76, 89, 90, 94}
    requires |operands| < if Masked(st.mask, code) in {42, 94} then 3 else 2
    ensures Splits(pass, ibm, [esc, code] + operands, st, 2 + |operands|, [], st)
  {
    hide Block, Escape, Masked, Splits;
    var head := [esc, code] + operands;
    assert head + [] == head && head[1..] + [] == [code] + operands;
    GraphicEscapeIs(pass, ibm, [code] + operands, st, Masked(st.mask, code));
    EscapeTurn(pass, ibm, head, [], st, st);
  }

  // ------------------------------------------------------------------------------- FS

  /** The FS codes but for FS Z: one operand, or none; FS @ resets in both passes. */
  lemma FsCommand(pass: Pass, ibm: bool, fs: byte, code: byte, operands: seq<byte>, rest: seq<byte>, st: State, after: State)
    requires Masked(st.mask, fs) == 28 && Masked(st.mask, code) != 90
    requires var n := if Masked(st.mask, code) in {51, 67, 69, 73, 83, 86} then 1 else 0;
      |operands| <= n && (|operands| < n ==> rest == [])
    requires after.mask == st.mask
    requires after.modes == if Masked(st.mask, code) == 64 then Modes(0, 1, 2, 3) else st.modes
    ensures Splits(pass, ibm, [fs, code] + operands + rest, st, 2 + |operands|, rest, after)
  {
    hide Fs, Masked, Splits;
    var head := [fs, code] + operands;
    var s := head[1..] + rest;
    assert s[0] == code && |s| == 1 + |operands| + |rest|;
    FsIs(pass, s, st);
    FsTurn(pass, ibm, head, rest, st, after);
  }

  /** FS Z: two bytes of length, and as many columns of three bytes. It is pass 1 that
      draws them and gives up on too many, and pass 2 that eats them. */
  lemma FsGraphic(pass: Pass, ibm: bool, fs: byte, code: byte, low: byte, high: byte, data: seq<byte>, rest: seq<byte>, st: State)
    requires Masked(st.mask, fs) == 28 && Masked(st.mask, code) == 90
    requires var size := ((Masked(st.mask, low) as int) + 256 * (Masked(st.mask, high) as int)) * 3;
      |data| <= size && (|data| < size ==> rest == [])
    ensures var file := [fs, code, low, high] + data + rest;
      if pass == First && (Masked(st.mask, low) as int) + 256 * (Masked(st.mask, high) as int) > 2880 then
        RunFrom(pass, ibm, file, 0, st) == Run([0], true)
      else Splits(pass, ibm, file, st, 4 + |data|, rest, st)
  {
    hide Block, Fs, Masked, Splits, RunFrom;
    var head := [fs, code, low, high] + data;
    var s := head[1..] + rest;
    assert s[0] == code && s[1] == low && s[2] == high && |s| == 3 + |data| + |rest|;
    FsIs(pass, s, st);
    BlockTaken(pass.Second?, 40, Pins8or24, Word(st.mask, s, 1), 3, s, st);
    if Fs(pass, s, st).fatal {
      assert (head + rest)[1..] == s;
      FsGivesUp(pass, ibm, head + rest, st);
    } else {
      FsTurn(pass, ibm, head, rest, st, st);
    }
  }

  lemma FsGivesUp(pass: Pass, ibm: bool, file: seq<byte>, st: State)
    requires file != [] && Masked(st.mask, file[0]) == 28 && Fs(pass, file[1..], st).fatal
    ensures RunFrom(pass, ibm, file, 0, st) == Run([0], true)
  {
    hide Escape, Fs, Masked, RunFrom;
    GivesUp(pass, ibm, file, st);
  }
}

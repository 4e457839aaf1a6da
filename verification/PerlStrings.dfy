// Reference counted strings, copied on write (libgu/gu_pcs.c): every handle behaves
// as if it held a string of its own, and every C string given away stays as it was.

module PerlStrings {
  import opened Bytes
  import opened StringHeap
  import opened Options

  /** The handles to objects that have no storage yet: new and never given a string. */
  ghost function Bares(h: Heap): set<Handle> {
    set v | v in h.handles && h.handles[v] in h.objects && h.objects[h.handles[v]].storage.None?
  }

  lemma BaresRewritten(h: Heap, h': Heap, v: Handle)
    requires Sound(h) && v in h.handles && h.objects[h.handles[v]].refcount <= 1 && h'.handles == h.handles
    requires h.handles[v] in h'.objects && h'.objects[h.handles[v]].storage.Some?
    requires h'.objects == h.objects[h.handles[v] := h'.objects[h.handles[v]]]
    ensures Bares(h') == Bares(h) - {v}
  {
    hide Sound;
    Alone(h, v);
    var o := h.handles[v];
    forall g | g in h.handles && g != v
      ensures h.handles[g] != o
    {
      assert h.handles[g] == o ==> g in Holders(h.handles, o);
    }
  }

  lemma BaresCreated(h: Heap, v: Handle, o: nat)
    requires Sound(h) && v !in h.handles && o !in h.objects
    ensures Bares(Created(h, v, o)) == Bares(h) + {v}
  {
    hide Counted, Formed, Wanted;
  }

  lemma BaresFreed(h: Heap, v: Handle)
    requires Sound(h) && v in h.handles && h.handles[v] in h.objects
    ensures Bares(Freed(h, v)) == Bares(h) - {v}
  {
    hide Sound;
    forall g | g in h.handles && g != v
      ensures g in Bares(Freed(h, v)) <==> g in Bares(h)
    {
      FreeHandles(h, v, g);
      HandleHolds(h, g);
    }
  }

  lemma BaresMoved(h: Heap, v: Handle, g: Handle)
    requires Sound(h) && v !in h.handles && g in h.handles && g !in Bares(h)
    ensures Bares(Moved(h, v, g)) == Bares(h)
  {
    hide Counted, Formed, Wanted;
  }

  lemma BaresSnapped(h: Heap, v: Handle, g: Handle)
    requires Sound(h) && v in h.handles && g !in h.handles && h.handles[v] in h.objects
    ensures Bares(Snapped(h, v, g)) == Bares(h) + if v in Bares(h) then {g} else {}
  {
    hide Counted, Formed, Wanted;
  }

  /** The handles to objects with a C string given away. */
  ghost function Pinned(h: Heap): set<Handle> {
    set v | v in h.handles && h.handles[v] in h.objects && h.objects[h.handles[v]].lurkers > 0
  }

  /** The handles to the same object. */
  ghost function Peers(h: Heap, v: Handle): set<Handle>
    requires v in h.handles
  {
    set g | g in h.handles && h.handles[g] == h.handles[v]
  }

  lemma PinnedRewritten(h: Heap, h': Heap, v: Handle)
    requires v in h.handles && h.handles[v] in h.objects && h'.handles == h.handles
    requires h.handles[v] in h'.objects && h'.objects[h.handles[v]].lurkers == h.objects[h.handles[v]].lurkers
    requires h'.objects == h.objects[h.handles[v] := h'.objects[h.handles[v]]]
    ensures Pinned(h') == Pinned(h)
  {
  }

  lemma PinnedAlone(h: Heap, v: Handle)
    requires Sound(h) && v in h.handles && h.objects[h.handles[v]].refcount <= 1
    ensures v !in Pinned(h) && h.objects[h.handles[v]].lurkers == 0 && Peers(h, v) == {v}
    ensures forall g :: g in h.handles && g != v ==> h.handles[g] != h.handles[v]
  {
    Alone(h, v);
    hide Sound;
    var o := h.handles[v];
    forall g | g in h.handles && g != v
      ensures h.handles[g] != o
    {
      assert h.handles[g] == o ==> g in Holders(h.handles, o);
    }
  }

  lemma NotAlone(h: Heap, v: Handle)
    requires Sound(h) && v in h.handles && h.objects[h.handles[v]].refcount > 1
    ensures v in Pinned(h) || exists g :: g in h.handles && g != v && h.handles[g] == h.handles[v]
  {
    hide Formed, Wanted;
    var o := h.handles[v];
    assert Counted(h, o);
    if v !in Pinned(h) {
      assert |Holders(h.handles, o)| > 1;
      assert |Holders(h.handles, o) - {v}| >= 1;
      var g :| g in Holders(h.handles, o) - {v};
    }
  }

  lemma PinnedCreated(h: Heap, v: Handle, o: nat)
    requires Sound(h) && v !in h.handles && o !in h.objects
    ensures Pinned(Created(h, v, o)) == Pinned(h)
    ensures forall g :: g in h.handles ==> h.handles[g] != o
  {
    hide Counted, Formed, Wanted;
  }

  lemma PinnedFreed(h: Heap, v: Handle)
    requires Sound(h) && v in h.handles && h.handles[v] in h.objects
    ensures Pinned(Freed(h, v)) == Pinned(h) - {v}
  {
    hide Sound;
    forall g | g in h.handles && g != v
      ensures g in Pinned(Freed(h, v)) <==> g in Pinned(h)
    {
      FreeHandles(h, v, g);
      HandleHolds(h, g);
    }
  }

  lemma PinnedMoved(h: Heap, v: Handle, g: Handle)
    requires v !in h.handles && g in h.handles && g !in Pinned(h)
    ensures Pinned(Moved(h, v, g)) == Pinned(h)
  {
  }

  lemma PinnedSnapped(h: Heap, v: Handle, g: Handle)
    requires v in h.handles && g !in h.handles && h.handles[v] in h.objects
    ensures Pinned(Snapped(h, v, g)) == Pinned(h) + if v in Pinned(h) then {g} else {}
  {
  }

  lemma PinnedGiven(h: Heap, v: Handle, k: nat)
    requires CanGive(h, v, k)
    ensures Pinned(GivenAway(h, v, k)) == Pinned(h) + Peers(h, v) - {v}
    ensures Bares(GivenAway(h, v, k)) == Bares(h)
  {
    hide Sound;
    assert v !in Bares(h);
    HandleHolds(h, v);
    hide Formed;
    assert h.objects[h.handles[v]].lurkers >= 0;
    forall g | g in h.handles && g != v
      ensures g in Pinned(GivenAway(h, v, k)) <==> g in Pinned(h) || g in Peers(h, v)
      ensures g in Bares(GivenAway(h, v, k)) <==> g in Bares(h)
    {
      GiveHandles(h, v, k, g);
      HandleHolds(h, g);
    }
  }

  lemma BaresGrown(h: Heap, h': Heap, v: Handle)
    requires v in h.handles && h.handles[v] in h.objects && h'.handles == h.handles
    requires h.handles[v] in h'.objects && h'.objects[h.handles[v]].storage.Some?
    requires h'.objects == h.objects[h.handles[v] := h'.objects[h.handles[v]]]
    ensures Bares(h') == Bares(h) - Peers(h, v)
  {
  }

  // ------------------------------------------------------ what a program should see

  /** What a program does with its string variables. */
  datatype Op =
    | OpNew(v: Handle)
    | OpNewCstr(v: Handle, s: seq<byte>)
    | OpSnapshot(v: Handle, g: Handle)
    | OpFree(v: Handle)
    | OpFreeKeepCstr(v: Handle, k: nat)
    | OpGetCstr(v: Handle)
    | OpEdit(v: Handle, i: nat, c: byte)
    | OpSetCstr(v: Handle, s: seq<byte>)
    | OpSetPcs(v: Handle, src: Handle)
    | OpTruncate(v: Handle, n: nat)
    | OpAppendCstr(v: Handle, s: seq<byte>)
    | OpAppendPcs(v: Handle, src: Handle)

  /** Strings as plain values: one in each variable in use, and the C strings kept. */
  datatype Seen = Seen(values: map<Handle, seq<byte>>, kept: map<nat, seq<byte>>)

  /** The variables an operation names are in use, or free, as it needs them, and no
      kept C string's name is used twice. */
  predicate Legal(op: Op, s: Seen) {
    && op.v.Variable?
    && match op
       case OpNew(v) => v !in s.values
       case OpNewCstr(v, _) => v !in s.values
       case OpSnapshot(v, g) => v in s.values && g !in s.values && g.Variable?
       case OpFreeKeepCstr(v, k) => v in s.values && k !in s.kept
       case OpEdit(v, i, _) => v in s.values && i < |s.values[v]|
       case OpSetPcs(v, src) => v in s.values && src in s.values
       case OpAppendPcs(v, src) => v in s.values && src in s.values
       case _ => op.v in s.values
  }

  function Apply(op: Op, s: Seen): Seen
    requires Legal(op, s)
  {
    match op
    case OpNew(v) => s.(values := s.values[v := []])
    case OpNewCstr(v, t) => s.(values := s.values[v := t])
    case OpSnapshot(v, g) => s.(values := s.values[g := s.values[v]])
    case OpFree(v) => s.(values := s.values - {v})
    case OpFreeKeepCstr(v, k) => Seen(s.values - {v}, s.kept[k := s.values[v]])
    case OpGetCstr(_) => s
    case _ => s.(values := s.values[op.v := Changed(op, s.values)])
  }

  /** The new value of a string that is changed. */
  function Changed(op: Op, values: map<Handle, seq<byte>>): seq<byte>
    requires op.OpEdit? || op.OpSetCstr? || op.OpSetPcs? || op.OpTruncate? || op.OpAppendCstr? || op.OpAppendPcs?
    requires op.v in values && (op.OpEdit? ==> op.i < |values[op.v]|)
    requires op.OpSetPcs? || op.OpAppendPcs? ==> op.src in values
  {
    match op
    case OpEdit(v, i, c) => With(values[v], i, c)
    case OpSetCstr(_, t) => t
    case OpSetPcs(_, src) => values[src]
    case OpTruncate(v, n) => if n < |values[v]| then values[v][..n] else values[v]
    case OpAppendCstr(v, t) => values[v] + t
    case OpAppendPcs(v, src) => values[v] + values[src]
  }

  /** Which variables are copies of each other, `cell` being the same; which have no
      string yet; and which have a C string given away. */
  datatype Sharing = Sharing(cell: map<Handle, nat>, next: nat, bare: set<Handle>, pinned: set<Handle>)

  const NoSharing := Sharing(map[], 0, {}, {})

  /** Everything in the hands of this variable alone. */
  predicate Sole(s: Sharing, v: Handle)
    requires v in s.cell
  {
    v !in s.pinned && forall g :: g in s.cell && g != v ==> s.cell[g] != s.cell[v]
  }

  function Copies(s: Sharing, v: Handle): set<Handle>
    requires v in s.cell
  {
    set g | g in s.cell && s.cell[g] == s.cell[v]
  }

  /** A variable with a string that it shares with nobody. */
  function Fresh(s: Sharing, v: Handle, bare: bool): Sharing {
    Sharing(s.cell[v := s.next], s.next + 1, if bare then s.bare + {v} else s.bare - {v}, s.pinned - {v})
  }

  /** What an operation makes of the sharing. A change leaves the variable by itself,
      and shortening a string to more than its length is no change. */
  function Shares(op: Op, s: Seen, sh: Sharing): Sharing
    requires Legal(op, s) && sh.cell.Keys == s.values.Keys
  {
    match op
    case OpNew(v) => Fresh(sh, v, true)
    case OpNewCstr(v, _) => Fresh(sh, v, false)
    case OpSnapshot(v, g) => Snap(sh, v, g)
    case OpFree(v) => Sharing(sh.cell - {v}, sh.next, sh.bare - {v}, sh.pinned - {v})
    case OpFreeKeepCstr(v, _) =>
      Sharing(sh.cell - {v}, sh.next, sh.bare - Copies(sh, v), sh.pinned + Copies(sh, v) - {v})
    case OpGetCstr(v) => sh.(bare := sh.bare - Copies(sh, v))
    case OpTruncate(v, n) => if n < |s.values[v]| then Fresh(sh, v, false) else sh
    case _ => Fresh(sh, op.v, false)
  }

  /** Operations that copy from a string without storage, free what they are to copy,
      or copy bytes over themselves. */
  predicate Fails(op: Op, s: Seen, sh: Sharing)
    requires Legal(op, s) && sh.cell.Keys == s.values.Keys
  {
    op.v in sh.cell && ChangeFails(op, s.values, sh)
  }

  predicate ChangeFails(op: Op, values: map<Handle, seq<byte>>, sh: Sharing)
    requires op.v in sh.cell && op.v in values
  {
    match op
    case OpSetPcs(v, src) => if src == v then !Sole(sh, v) else src in sh.bare
    case OpAppendCstr(v, _) => v in sh.bare && !Sole(sh, v)
    case OpAppendPcs(v, src) =>
      (v in sh.bare && !Sole(sh, v)) || if src == v then values[v] != [] else src in sh.bare
    case _ => false
  }

  lemma SharesKeys(op: Op, s: Seen, sh: Sharing)
    requires Legal(op, s) && sh.cell.Keys == s.values.Keys
    ensures Shares(op, s, sh).cell.Keys == Apply(op, s).values.Keys
  {
  }

  predicate AllLegal(ops: seq<Op>, s: Seen) {
    ops == [] || (Legal(ops[0], s) && AllLegal(ops[1..], Apply(ops[0], s)))
  }

  function ApplyAll(ops: seq<Op>, s: Seen): Seen
    requires AllLegal(ops, s)
  {
    if ops == [] then s else ApplyAll(ops[1..], Apply(ops[0], s))
  }

  /** None of the operations fails, the sharing being what those before it made it. */
  predicate NoneFails(ops: seq<Op>, s: Seen, sh: Sharing)
    requires AllLegal(ops, s) && sh.cell.Keys == s.values.Keys
  {
    ops == [] ||
    (!Fails(ops[0], s, sh) &&
     (SharesKeys(ops[0], s, sh); NoneFails(ops[1..], Apply(ops[0], s), Shares(ops[0], s, sh))))
  }

  lemma NextOp(ops: seq<Op>, s: Seen, sh: Sharing)
    requires AllLegal(ops, s) && ops != [] && sh.cell.Keys == s.values.Keys
    ensures Legal(ops[0], s) && AllLegal(ops[1..], Apply(ops[0], s))
    ensures ApplyAll(ops, s) == ApplyAll(ops[1..], Apply(ops[0], s))
    ensures Shares(ops[0], s, sh).cell.Keys == Apply(ops[0], s).values.Keys
    ensures NoneFails(ops, s, sh) <==>
            !Fails(ops[0], s, sh) && NoneFails(ops[1..], Apply(ops[0], s), Shares(ops[0], s, sh))
  {
    SharesKeys(ops[0], s, sh);
    hide Apply, Shares, Fails, Legal;
  }

  /** A new string, which is then copied into another: the copy fails. */
  lemma CopyOfNothingFails(a: nat, b: nat, t: seq<byte>)
    requires a != b
    ensures var ops := [OpNew(Variable(a)), OpNewCstr(Variable(b), t), OpSetPcs(Variable(b), Variable(a))];
            AllLegal(ops, Seen(map[], map[])) && !NoneFails(ops, Seen(map[], map[]), NoSharing)
  {
    var x, y := Variable(a), Variable(b);
    var ops := [OpNew(x), OpNewCstr(y, t), OpSetPcs(y, x)];
    var s0 := Seen(map[], map[]);
    var s1 := Apply(ops[0], s0);
    var s2 := Apply(ops[1], s1);
    assert ops[1..] == [OpNewCstr(y, t), OpSetPcs(y, x)] && ops[1..][1..] == [OpSetPcs(y, x)];
    assert s2.values.Keys == {x, y};
    assert AllLegal([OpSetPcs(y, x)], s2) by { assert [OpSetPcs(y, x)][1..] == []; }
    assert AllLegal(ops[1..], s1) && AllLegal(ops, s0);
    NextOp(ops, s0, NoSharing);
    var h1 := Shares(ops[0], s0, NoSharing);
    NextOp(ops[1..], s1, h1);
    var h2 := Shares(ops[1], s1, h1);
    NextOp([OpSetPcs(y, x)], s2, h2);
    assert x in h2.bare;
  }

  /** A new string that is given a C string first can be copied. */
  lemma CopyAfterSetWorks(a: nat, b: nat, t: seq<byte>)
    requires a != b
    ensures var ops := [OpNew(Variable(a)), OpSetCstr(Variable(a), t), OpNew(Variable(b)), OpSetPcs(Variable(b), Variable(a))];
            AllLegal(ops, Seen(map[], map[])) && NoneFails(ops, Seen(map[], map[]), NoSharing)
  {
    var x, y := Variable(a), Variable(b);
    var ops := [OpNew(x), OpSetCstr(x, t), OpNew(y), OpSetPcs(y, x)];
    var s0 := Seen(map[], map[]);
    var s1 := Apply(ops[0], s0);
    var s2 := Apply(ops[1], s1);
    var s3 := Apply(ops[2], s2);
    assert ops[1..] == [OpSetCstr(x, t), OpNew(y), OpSetPcs(y, x)];
    assert ops[1..][1..] == [OpNew(y), OpSetPcs(y, x)] && ops[1..][1..][1..] == [OpSetPcs(y, x)];
    assert s3.values.Keys == {x, y} && s2.values.Keys == {x};
    assert AllLegal([OpSetPcs(y, x)], s3) by { assert [OpSetPcs(y, x)][1..] == []; }
    assert AllLegal(ops[1..][1..], s2) && AllLegal(ops[1..], s1) && AllLegal(ops, s0);
    NextOp(ops, s0, NoSharing);
    var h1 := Shares(ops[0], s0, NoSharing);
    NextOp(ops[1..], s1, h1);
    var h2 := Shares(ops[1], s1, h1);
    NextOp(ops[1..][1..], s2, h2);
    var h3 := Shares(ops[2], s2, h2);
    NextOp([OpSetPcs(y, x)], s3, h3);
    assert x !in h3.bare;
    assert NoneFails([OpSetPcs(y, x)][1..], Apply(ops[3], s3), Shares(ops[3], s3, h3)) by { assert [OpSetPcs(y, x)][1..] == []; }
  }

  /** The sharing on the heap is that which follows from the operations. */
  ghost predicate Linked(h: Heap, s: Sharing) {
    && s.cell.Keys == h.handles.Keys && s.bare == Bares(h) && s.pinned == Pinned(h)
    && (forall v, g :: v in h.handles && g in h.handles && v in s.cell && g in s.cell ==>
          (s.cell[v] == s.cell[g] <==> h.handles[v] == h.handles[g]))
    && (forall v :: v in s.cell ==> s.cell[v] < s.next)
  }

  lemma SoleIff(h: Heap, s: Sharing, v: Handle)
    requires Sound(h) && Linked(h, s) && v in h.handles
    ensures Sole(s, v) <==> h.objects[h.handles[v]].refcount <= 1
  {
    HandleHolds(h, v);
    hide Sound, Bares, Pinned, Formed, Counted;
    if h.objects[h.handles[v]].refcount <= 1 {
      PinnedAlone(h, v);
    } else {
      NotAlone(h, v);
    }
  }

  lemma LinkedFresh(h: Heap, h': Heap, s: Sharing, v: Handle, bare: bool)
    requires Linked(h, s) && v in h'.handles && h'.handles - {v} == h.handles - {v}
    requires forall g :: g in h'.handles && g != v ==> h'.handles[g] != h'.handles[v]
    requires Bares(h') == (if bare then Bares(h) + {v} else Bares(h) - {v}) && Pinned(h') == Pinned(h) - {v}
    ensures Linked(h', Fresh(s, v, bare))
  {
    hide Bares, Pinned;
    var s' := Fresh(s, v, bare);
    forall g | g != v
      ensures g in h'.handles <==> g in h.handles
      ensures g in h'.handles ==> h'.handles[g] == h.handles[g]
    {
      assert g in h'.handles <==> g in h'.handles - {v};
      assert g in h.handles <==> g in h.handles - {v};
      if g in h'.handles {
        assert h'.handles[g] == (h'.handles - {v})[g] == (h.handles - {v})[g];
      }
    }
    assert s'.cell.Keys == h'.handles.Keys;
  }

  /** Another variable for the same string. */
  function Snap(s: Sharing, v: Handle, g: Handle): Sharing
    requires v in s.cell
  {
    Sharing(s.cell[g := s.cell[v]], s.next, s.bare + (if v in s.bare then {g} else {}),
            s.pinned + if v in s.pinned then {g} else {})
  }

  lemma LinkedSnap(h: Heap, h': Heap, s: Sharing, v: Handle, g: Handle)
    requires Linked(h, s) && v in h.handles && g !in h.handles && h'.handles == h.handles[g := h.handles[v]]
    requires Bares(h') == Bares(h) + (if v in Bares(h) then {g} else {})
    requires Pinned(h') == Pinned(h) + if v in Pinned(h) then {g} else {}
    ensures v in s.cell && Linked(h', Snap(s, v, g))
  {
    hide Bares, Pinned;
  }

  lemma LinkedKeys(h: Heap, s: Sharing)
    requires Linked(h, s)
    ensures s.cell.Keys == h.handles.Keys
  {
  }

  lemma BaresArePeers(h: Heap, v: Handle)
    requires v in h.handles
    ensures v in Peers(h, v)
  {
  }

  lemma LinkedFree(h: Heap, h': Heap, s: Sharing, v: Handle, full: set<Handle>, given: set<Handle>)
    requires Linked(h, s) && v in h.handles && h'.handles == h.handles - {v}
    requires Bares(h') == Bares(h) - full && Pinned(h') == Pinned(h) + given - {v}
    ensures Linked(h', Sharing(s.cell - {v}, s.next, s.bare - full, s.pinned + given - {v}))
    ensures given == {} ==> Linked(h', Sharing(s.cell - {v}, s.next, s.bare - full, s.pinned - {v}))
  {
    hide Bares, Pinned;
    assert given == {} ==> s.pinned + given == s.pinned;
  }

  lemma LinkedLook(h: Heap, h': Heap, s: Sharing, v: Handle)
    requires Linked(h, s) && v in h.handles && h'.handles == h.handles
    requires Bares(h') == Bares(h) - Peers(h, v) && Pinned(h') == Pinned(h)
    ensures v in s.cell && Linked(h', s.(bare := s.bare - Copies(s, v)))
  {
    hide Bares, Pinned, Peers, Copies;
    CopiesArePeers(h, s, v);
  }

  lemma CopiesArePeers(h: Heap, s: Sharing, v: Handle)
    requires Linked(h, s) && v in h.handles
    ensures Copies(s, v) == Peers(h, v)
  {
    hide Bares, Pinned;
  }

  /** The heap shows what plain values would: each variable its string, and each kept
      C string the bytes it had when it was kept. */
  ghost predicate Shows(h: Heap, s: Seen) {
    && Sound(h) && Values(h) == s.values && Keeps(h).Keys == s.kept.Keys
    && (forall k :: k in s.kept ==> s.kept[k] + [0] <= Keeps(h)[k])
  }

  lemma KeptKeys(h: Heap)
    requires Sound(h)
    ensures Keeps(h).Keys == h.kept.Keys
  {
    hide Counted, Formed, Wanted;
  }

  lemma StillShows(h: Heap, h': Heap, s: Seen, values: map<Handle, seq<byte>>)
    requires Shows(h, s) && Sound(h') && Keeps(h') == Keeps(h) && Values(h') == values
    ensures Shows(h', s.(values := values))
  {
    hide Sound, Values, Keeps;
  }

  class Strings {
    var objects: map<nat, Pcs>
    var memory: map<nat, seq<byte>>
    var handles: map<Handle, nat>
    var kept: map<nat, nat>
    var brk: nat                             // addresses are never used twice

    ghost function Now(): Heap
      reads `objects, `memory, `handles, `kept
    {
      Heap(objects, memory, handles, kept)
    }

    ghost predicate Bounded()
      reads `objects, `memory, `brk
    {
      (forall o :: o in objects ==> o < brk) && (forall a :: a in memory ==> a < brk)
    }

    ghost predicate Ready()
      reads `objects, `memory, `handles, `kept, `brk
    {
      Sound(Now()) && Bounded()
    }

    ghost predicate Unshared(v: Handle)
      reads `objects, `handles
    {
      v in handles && handles[v] in objects && objects[handles[v]].refcount <= 1
    }

    constructor ()
      ensures Ready() && Values(Now()) == map[] && Keeps(Now()) == map[]
    {
      objects, memory, handles, kept, brk := map[], map[], map[], map[], 0;
    }

    /** gu_pcs_new() */
    method New(v: Handle)
      requires Ready() && v !in handles
      modifies `objects, `handles, `brk
      ensures Ready() && Now() == Created(old(Now()), v, old(brk)) && old(brk) !in old(objects)
      ensures Values(Now()) == old(Values(Now()))[v := []] && Keeps(Now()) == old(Keeps(Now()))
    {
      hide Keeps, Sound, Values;
      CreateSound(Now(), v, brk);
      CreateValues(Now(), v, brk);
      objects := objects[brk := Pcs(None, 0, 0, 1, 0)];
      handles := handles[v := brk];
      brk := brk + 1;
    }

    /** gu_pcs_snapshot() */
    method Snapshot(v: Handle, g: Handle)
      requires Ready() && v in handles && g !in handles
      modifies `objects, `handles
      ensures Ready() && v in old(Values(Now())) && handles == old(handles)[g := old(handles)[v]]
      ensures Values(Now()) == old(Values(Now()))[g := old(Values(Now()))[v]] && Keeps(Now()) == old(Keeps(Now()))
      ensures Bares(Now()) == old(Bares(Now())) + if v in old(Bares(Now())) then {g} else {}
      ensures Pinned(Now()) == old(Pinned(Now())) + if v in old(Pinned(Now())) then {g} else {}
    {
      hide Bares, Pinned, Counted, Formed, Keeps, Sound, ValueOf, Values;
      HandleHolds(Now(), v);
      ValuesAre(Now());
      BaresSnapped(Now(), v, g);
      PinnedSnapped(Now(), v, g);
      SnapSound(Now(), v, g);
      SnapValues(Now(), v, g);
      var p := handles[v];
      objects := objects[p := objects[p].(refcount := objects[p].refcount + 1)];
      handles := handles[g := p];
    }

    /** gu_pcs_free() */
    method Free(v: Handle)
      requires Ready() && v in handles && handles[v] in objects
      modifies `objects, `memory, `handles
      ensures Ready() && Now() == Freed(old(Now()), v) && handles == old(handles) - {v}
      ensures Values(Now()) == old(Values(Now())) - {v} && Keeps(Now()) == old(Keeps(Now()))
    {
      hide Keeps, Sound, Values;
      FreeSound(Now(), v);
      FreeValues(Now(), v);
      var o := handles[v];
      objects := objects[o := objects[o].(refcount := objects[o].refcount - 1)];
      var p := objects[o];
      if p.refcount - p.lurkers == 0 {
        if p.storage.Some? && p.lurkers == 0 {
          memory := memory - {p.storage.value};
        }
        objects := objects - {o};
      }
      handles := handles - {v};
      assert old(objects)[o := p] - {o} == old(objects) - {o};
      assert memory - {} == memory;
    }

    /** gu_pcs_grow(). What realloc() leaves in the new bytes is not known, and the
        old block is gone. */
    method Realloc(o: nat, n: nat) returns (ghost a: nat, ghost b: seq<byte>)
      requires o in objects && Bounded()
      requires match objects[o].storage
        case None => objects[o].storageSize == 0
        case Some(x) => x in memory && |memory[x]| == objects[o].storageSize
      modifies `objects, `memory, `brk
      ensures Bounded() && brk >= old(brk)
      ensures memory == (old(memory) - StorageOf(old(objects)[o]))[a := b]
      ensures objects == old(objects)[o := old(objects)[o].(storage := Some(a), storageSize := |b|)]
      ensures a in old(memory) ==> old(objects)[o].storage == Some(a)
      ensures |b| == if n < old(objects)[o].storageSize then old(objects)[o].storageSize else n + 1
      ensures old(objects)[o].storage.Some? ==> old(memory)[old(objects)[o].storage.value] <= b
      ensures n >= old(objects)[o].storageSize ==> a == old(brk) && b[n] == 0
      ensures n < old(objects)[o].storageSize ==> memory == old(memory) && objects == old(objects)
    {
      var p := objects[o];
      if n + 1 > p.storageSize {
        var bytes: seq<byte> := if p.storage.Some? then memory[p.storage.value] else [];
        assert |seq<byte>(n + 1 - p.storageSize, _ => 0)| == n + 1 - p.storageSize;
        var unknown: seq<byte> :| |unknown| == n + 1 - p.storageSize;
        bytes := bytes + unknown;
        if p.storage.Some? {
          memory := memory - {p.storage.value};
        }
        a, b := brk, bytes[n := 0];
        objects := objects[o := p.(storage := Some(brk), storageSize := n + 1)];
        memory := memory[brk := bytes[n := 0]];
        brk := brk + 1;
      } else {
        a, b := p.storage.value, memory[p.storage.value];
      }
    }

    /** Grow the storage of an object, copy `s` and its terminating zero to offset
        `at`, and set the length. */
    method Lay(o: nat, at: nat, s: seq<byte>) returns (ghost a: nat, ghost bytes: seq<byte>)
      requires o in objects && Bounded()
      requires match objects[o].storage
        case None => objects[o].storageSize == 0 && at == 0
        case Some(x) => x in memory && at < |memory[x]| == objects[o].storageSize
      modifies `objects, `memory, `brk
      ensures Bounded() && o in objects && Now() == Rewritten(old(Now()), o, objects[o], a, bytes)
      ensures objects[o] == old(objects[o]).(storage := Some(a), storageSize := |bytes|, length := at + |s|)
      ensures a in old(memory) ==> old(objects[o]).storage == Some(a)
      ensures at + |s| < |bytes| && bytes[at + |s|] == 0
      ensures bytes[..at + |s|] == (if at == 0 then [] else old(memory)[old(objects)[o].storage.value][..at]) + s
    {
      hide Sound;
      ghost var b;
      a, b := Realloc(o, at + |s|);
      var m := objects[o].storage.value;
      bytes := Laid(b, at, s);
      LaidParts(b, at, s);
      memory := memory[m := memory[m][..at] + s + [0] + memory[m][at + |s| + 1..]];
      objects := objects[o := objects[o].(length := at + |s|)];
    }

    /** The same for an object that only `v` refers to. */
    method Put(v: Handle, at: nat, s: seq<byte>)
      requires Ready() && Unshared(v) && at <= objects[handles[v]].length
      modifies `objects, `memory, `brk
      ensures Ready() && Unshared(v) && objects[handles[v]].storage.Some?
      ensures v in old(Values(Now())) && at <= |old(Values(Now()))[v]|
      ensures Values(Now()) == old(Values(Now()))[v := old(Values(Now()))[v][..at] + s]
      ensures Keeps(Now()) == old(Keeps(Now()))
      ensures objects == old(objects)[handles[v] := objects[handles[v]]]
    {
      hide Bounded, Counted, Formed, Holders, Keeps, Sound, StorageOf, Text, Values;
      ghost var was := Now();
      assert Sound(was) && Bounded() && v in handles && objects[handles[v]].refcount <= 1;
      assert was == Heap(objects, memory, handles, kept);
      HandleHolds(was, v);
      Alone(was, v);
      var o := handles[v];
      FormedText(objects[o], memory, at);
      ValuesAre(was);
      assert ValueOf(was, v) == Text(objects[o], memory);
      ghost var a, bytes := Lay(o, at, s);
      assert CanRewrite(was, o, objects[o], a, bytes);
      RewriteAlone(was, v, objects[o], a, bytes);
      assert objects == old(objects)[o := objects[o]];
    }

    /** What is seen of a string through its handle. */
    lemma Look(v: Handle)
      requires Ready() && v in handles
      ensures handles[v] in objects && v in Values(Now())
      ensures var p := objects[handles[v]];
        && (v in Bares(Now()) <==> p.storage.None?)
        && |Values(Now())[v]| == p.length
        && (match p.storage
            case None => p.storageSize == 0 && Values(Now())[v] == []
            case Some(a) => a in memory && p.length < |memory[a]| == p.storageSize &&
                            Values(Now())[v] == memory[a][..p.length] && memory[a][p.length] == 0)
    {
      hide Sound, Holders;
      HandleHolds(Now(), v);
      ValuesAre(Now());
    }

    lemma TwoHolders(v: Handle, g: Handle)
      requires Ready() && Unshared(v) && g in handles && g != v
      ensures handles[g] != handles[v]
    {
      hide Sound;
      Alone(Now(), v);
      var o := handles[v];
      assert handles[g] == o ==> g in Holders(handles, o);
    }

    /** The PCS to PCS copy of gu_pcs_set_pcs() into an object of its own. Reading
        from an object without storage is following a NULL pointer. */
    method CopyInto(v: Handle, src: Handle) returns (ok: bool)
      requires Ready() && Unshared(v) && src in handles
      modifies `objects, `memory, `brk
      ensures ok <==> src == v || src !in old(Bares(Now()))
      ensures ok ==> Ready() && Unshared(v) && Bares(Now()) == old(Bares(Now())) - {v} && Pinned(Now()) == old(Pinned(Now()))
      ensures ok ==> (src in old(Values(Now())) &&
        Values(Now()) == old(Values(Now()))[v := old(Values(Now()))[src]] && Keeps(Now()) == old(Keeps(Now())))
    {
      hide Bares, Pinned, Bounded, Keeps, Sound, Values;
      assert v in handles;
      Look(src);
      Look(v);
      if v != src {
        TwoHolders(v, src);
      }
      ghost var was := Now();
      assert Sound(was) && was.handles == handles && was.objects == objects && objects[handles[v]].refcount <= 1;
      var p2 := objects[handles[src]];
      ok := handles[src] == handles[v] || p2.storage.Some?;
      if ok {
        var text := if p2.storage.None? then [] else memory[p2.storage.value][..p2.length];
        Put(v, 0, text);
        assert was == old(Now()) && Values(was)[v][..0] + text == text;
        assert Now().handles == handles && Now().objects == objects;
        BaresRewritten(was, Now(), v);
        OwnRewritten(was, Now(), v);
      }
    }

    lemma OwnNotPinned(v: Handle)
      requires Ready() && Unshared(v)
      ensures v !in Pinned(Now())
      ensures forall g :: g in handles && g != v ==> handles[g] != handles[v]
    {
      PinnedAlone(Now(), v);
    }

    lemma OwnRewritten(was: Heap, now: Heap, v: Handle)
      requires Sound(was) && Sound(now) && v in was.handles && now.handles == was.handles
      requires was.handles[v] in was.objects && was.objects[was.handles[v]].refcount <= 1
      requires was.handles[v] in now.objects && now.objects[was.handles[v]].refcount <= 1
      requires now.objects == was.objects[was.handles[v] := now.objects[was.handles[v]]]
      ensures Pinned(now) == Pinned(was)
    {
      hide Sound, Pinned;
      PinnedAlone(was, v);
      PinnedAlone(now, v);
      PinnedRewritten(was, now, v);
    }

    /** gu_pcs_new_pcs() */
    method NewPcs(v: Handle, src: Handle) returns (ok: bool)
      requires Ready() && v !in handles && src in handles
      modifies `objects, `memory, `handles, `brk
      ensures ok <==> src !in old(Bares(Now()))
      ensures ok ==> Ready() && Unshared(v) && Bares(Now()) == old(Bares(Now())) && Pinned(Now()) == old(Pinned(Now()))
      ensures handles == old(handles)[v := old(brk)] && old(brk) !in old(objects)
      ensures ok ==> (src in old(Values(Now())) &&
        Values(Now()) == old(Values(Now()))[v := old(Values(Now()))[src]] && Keeps(Now()) == old(Keeps(Now())))
    {
      hide Keeps, Pinned, Sound, Values;
      Look(src);
      ghost var was := Now();
      assert Sound(was) && was.handles == handles && was.objects == objects;
      assert brk !in objects;
      BaresCreated(was, v, brk);
      PinnedCreated(was, v, brk);
      New(v);
      assert Unshared(v) && handles == old(handles)[v := old(brk)];
      assert v !in Bares(was);
      ok := CopyInto(v, src);
    }

    /** What every change to a shared string begins with: exchange the object for a
        copy that nobody else has. */
    method CopyOnWrite(v: Handle) returns (ok: bool)
      requires Ready() && v in handles && Local !in handles
      modifies `objects, `memory, `handles, `brk
      ensures ok <==> old(Unshared(v)) || v !in old(Bares(Now()))
      ensures ok ==> Ready() && Unshared(v) && handles.Keys == old(handles).Keys
      ensures ok ==> Values(Now()) == old(Values(Now())) && Keeps(Now()) == old(Keeps(Now()))
      ensures ok ==> Bares(Now()) == old(Bares(Now()))
      ensures ok ==> handles - {v} == old(handles) - {v} && Pinned(Now()) == old(Pinned(Now())) - {v}
    {
      hide Bounded, Pinned, Formed, Keeps, Sound, ValueOf, Values;
      Look(v);
      ok := true;
      if objects[handles[v]].refcount > 1 {
        assert !Unshared(v);
        assert Local !in Bares(Now());
        ghost var values := Values(Now());
        assert Local !in values by { ValuesAre(Now()); }
        ok := NewPcs(Local, v);
        if ok {
          Exchange(v);
          assert (values[Local := values[v]] - {Local})[v := values[v]] == values;
          assert old(handles).Keys + {Local} - {Local} == old(handles).Keys;
          assert old(handles)[Local := old(brk)] - {Local} == old(handles);
        }
      } else {
        assert Unshared(v);
        PinnedAlone(Now(), v);
      }
    }

    /** `gu_pcs_free(pcs); *pcs = new_pcs` */
    method Exchange(v: Handle)
      requires Ready() && Local in handles && v in handles && v != Local && v !in Bares(Now())
      requires Unshared(Local) && Local !in Bares(Now()) && handles[v] != handles[Local]
      modifies `objects, `memory, `handles
      ensures Ready() && Unshared(v) && handles.Keys == old(handles).Keys - {Local}
      ensures Local in old(Values(Now()))
      ensures Values(Now()) == (old(Values(Now())) - {Local})[v := old(Values(Now()))[Local]]
      ensures Keeps(Now()) == old(Keeps(Now())) && Bares(Now()) == old(Bares(Now()))
      ensures handles - {v} == old(handles) - {Local} - {v} && Pinned(Now()) == old(Pinned(Now())) - {v}
    {
      hide Bares, Keeps, Pinned, Sound, StorageOf, Values;
      Look(v);
      Look(Local);
      ghost var was := Now();
      assert Sound(was) && was.handles == handles && was.objects == objects;
      BaresFreed(was, v);
      PinnedFreed(was, v);
      Free(v);
      ghost var now := Now();
      assert Sound(now) && now.handles == handles == was.handles - {v} && Unshared(Local) && now.objects == objects;
      assert Bares(now) == Bares(was);
      BaresMoved(now, v, Local);
      PinnedAlone(now, Local);
      PinnedMoved(now, v, Local);
      MoveSound(now, v, Local);
      MoveValues(now, v, Local);
      handles := (handles - {Local})[v := handles[Local]];
      assert Now() == Moved(now, v, Local);
      assert (Values(was) - {v} - {Local})[v := Values(was)[Local]] == (Values(was) - {Local})[v := Values(was)[Local]];
    }

    // ---------------------------------------------------- changing a string

    /** gu_pcs_set_cstr() */
    method SetCstr(v: Handle, s: seq<byte>)
      requires Ready() && v in handles
      modifies `objects, `memory, `handles, `brk
      ensures Ready() && handles.Keys == old(handles).Keys && Bares(Now()) == old(Bares(Now())) - {v}
      ensures Unshared(v) && handles - {v} == old(handles) - {v} && Pinned(Now()) == old(Pinned(Now())) - {v}
      ensures Values(Now()) == old(Values(Now()))[v := s] && Keeps(Now()) == old(Keeps(Now()))
    {
      hide Bares, Bounded, Keeps, Pinned, Now, Sound, Values;
      Look(v);
      assert Sound(Now());
      ghost var values := Values(Now());
      if objects[handles[v]].refcount > 1 {
        Detach(v);
        assert (values - {v})[v := []] == values[v := []];
      } else {
        assert Unshared(v);
        OwnNotPinned(v);
      }
      Replace(v, s);
      assert values[v := []][v := s] == values[v := s];
    }

    /** Give a string of one's own a new value. */
    method Replace(v: Handle, s: seq<byte>)
      requires Ready() && Unshared(v)
      modifies `objects, `memory, `brk
      ensures Ready() && Unshared(v) && Bares(Now()) == old(Bares(Now())) - {v}
      ensures Pinned(Now()) == old(Pinned(Now()))
      ensures Values(Now()) == old(Values(Now()))[v := s] && Keeps(Now()) == old(Keeps(Now()))
    {
      hide Bares, Pinned, Bounded, Keeps, Sound, Values;
      assert v in handles;
      Look(v);
      ghost var was := Now();
      assert Sound(was) && was.handles == handles && was.objects == objects && objects[handles[v]].refcount <= 1;
      Put(v, 0, s);
      assert Values(was)[v][..0] + s == s;
      assert Now().handles == handles && Now().objects == objects;
      BaresRewritten(was, Now(), v);
      OwnRewritten(was, Now(), v);
    }

    /** `gu_pcs_free(pcs); *pcs = gu_pcs_new()` */
    method Detach(v: Handle)
      requires Ready() && v in handles
      modifies `objects, `memory, `handles, `brk
      ensures Ready() && Unshared(v) && handles.Keys == old(handles).Keys
      ensures Bares(Now()) - {v} == old(Bares(Now())) - {v}
      ensures handles - {v} == old(handles) - {v} && Pinned(Now()) == old(Pinned(Now())) - {v}
      ensures Values(Now()) == (old(Values(Now())) - {v})[v := []] && Keeps(Now()) == old(Keeps(Now()))
    {
      hide Bares, Pinned, Keeps, Sound, StorageOf, Values, Freed, Created;
      Look(v);
      ghost var was := Now();
      assert Sound(was) && was.handles == handles && was.objects == objects;
      BaresFreed(was, v);
      PinnedFreed(was, v);
      Free(v);
      Recreate(v);
      assert Bares(was) - {v} + {v} - {v} == Bares(was) - {v};
    }

    method Recreate(v: Handle)
      requires Ready() && v !in handles
      modifies `objects, `handles, `brk
      ensures Ready() && Unshared(v) && handles.Keys == old(handles).Keys + {v} && handles - {v} == old(handles) - {v}
      ensures Bares(Now()) == old(Bares(Now())) + {v} && Pinned(Now()) == old(Pinned(Now()))
      ensures Values(Now()) == old(Values(Now()))[v := []] && Keeps(Now()) == old(Keeps(Now()))
    {
      hide Bares, Pinned, Keeps, Sound, Values;
      assert Sound(Now()) && brk !in objects;
      BaresCreated(Now(), v, brk);
      PinnedCreated(Now(), v, brk);
      New(v);
    }

    /** gu_pcs_set_pcs(). Setting a shared string to itself frees it first. */
    method SetPcs(v: Handle, src: Handle) returns (ok: bool)
      requires Ready() && v in handles && src in handles
      modifies `objects, `memory, `handles, `brk
      ensures ok <==> if src == v then old(Unshared(v)) else src !in old(Bares(Now()))
      ensures ok ==> Ready() && handles.Keys == old(handles).Keys && Bares(Now()) == old(Bares(Now())) - {v}
      ensures ok ==> Unshared(v) && handles - {v} == old(handles) - {v} && Pinned(Now()) == old(Pinned(Now())) - {v}
      ensures ok ==> (src in old(Values(Now())) &&
        Values(Now()) == old(Values(Now()))[v := old(Values(Now()))[src]] && Keeps(Now()) == old(Keeps(Now())))
    {
      hide Bares, Pinned, Bounded, Keeps, Sound, StorageOf, Values;
      Look(v);
      Look(src);
      ghost var was := Now();
      assert Sound(was) && was.handles == handles && was.objects == objects;
      if objects[handles[v]].refcount > 1 {
        assert !Unshared(v);
        BaresFreed(was, v);
        PinnedFreed(was, v);
        Free(v);
        assert handles == was.handles - {v};
        ok := src != v;
        if ok {
          ok := NewPcs(v, src);
          assert (Values(was) - {v})[v := Values(was)[src]] == Values(was)[v := Values(was)[src]];
        }
      } else {
        assert Unshared(v);
        PinnedAlone(was, v);
        ok := CopyInto(v, src);
      }
    }

    /** gu_pcs_append_cstr(), and gu_pcs_append_char() for a single character. */
    method AppendCstr(v: Handle, s: seq<byte>) returns (ok: bool)
      requires Ready() && v in handles && Local !in handles
      modifies `objects, `memory, `handles, `brk
      ensures ok <==> old(Unshared(v)) || v !in old(Bares(Now()))
      ensures ok ==> Ready() && handles.Keys == old(handles).Keys && Bares(Now()) == old(Bares(Now())) - {v}
      ensures ok ==> Unshared(v) && handles - {v} == old(handles) - {v} && Pinned(Now()) == old(Pinned(Now())) - {v}
      ensures ok ==> (v in old(Values(Now())) &&
        Values(Now()) == old(Values(Now()))[v := old(Values(Now()))[v] + s] && Keeps(Now()) == old(Keeps(Now())))
    {
      hide *;
      Look(v);
      ok := CopyOnWrite(v);
      if ok {
        Extend(v, s);
      }
    }

    /** Append to a string of one's own. */
    method Extend(v: Handle, s: seq<byte>)
      requires Ready() && Unshared(v)
      modifies `objects, `memory, `brk
      ensures Ready() && Unshared(v) && Bares(Now()) == old(Bares(Now())) - {v} && v in old(Values(Now()))
      ensures Pinned(Now()) == old(Pinned(Now()))
      ensures Values(Now()) == old(Values(Now()))[v := old(Values(Now()))[v] + s] && Keeps(Now()) == old(Keeps(Now()))
    {
      hide Bares, Pinned, Bounded, Keeps, Sound, Values;
      assert v in handles;
      Look(v);
      ghost var was := Now();
      assert Sound(was) && was.handles == handles && was.objects == objects && objects[handles[v]].refcount <= 1;
      var length := objects[handles[v]].length;
      Put(v, length, s);
      assert Values(was)[v][..length] == Values(was)[v];
      assert Now().handles == handles && Now().objects == objects;
      BaresRewritten(was, Now(), v);
      OwnRewritten(was, Now(), v);
    }

    /** gu_pcs_append_pcs(). Appending a string to itself lets memcpy() copy bytes over
        those it still has to copy, unless there are none but the terminating zero. */
    method AppendPcs(v: Handle, src: Handle) returns (ok: bool)
      requires Ready() && v in handles && src in handles && Local !in handles && v in Values(Now())
      modifies `objects, `memory, `handles, `brk
      ensures ok <==> (old(Unshared(v)) || v !in old(Bares(Now()))) &&
                      if v == src then old(Values(Now()))[v] == [] else src !in old(Bares(Now()))
      ensures ok ==> Ready() && handles.Keys == old(handles).Keys && Bares(Now()) == old(Bares(Now())) - {v}
      ensures ok ==> Unshared(v) && handles - {v} == old(handles) - {v} && Pinned(Now()) == old(Pinned(Now())) - {v}
      ensures ok ==> v in old(Values(Now())) && src in old(Values(Now())) && Keeps(Now()) == old(Keeps(Now()))
      ensures ok ==> Values(Now()) == old(Values(Now()))[v := old(Values(Now()))[v] + old(Values(Now()))[src]]
    {
      hide *;
      Look(v);
      Look(src);
      ok := CopyOnWrite(v);
      if ok {
        Look(src);
        var p2 := objects[handles[src]];
        ok := if src == v then p2.length == 0 else p2.storage.Some?;
        if ok {
          Extend(v, if p2.length == 0 then [] else memory[p2.storage.value][..p2.length]);
        }
      }
    }

    /** gu_pcs_truncate() */
    method Truncate(v: Handle, newlen: nat) returns (r: nat)
      requires Ready() && v in handles && Local !in handles
      modifies `objects, `memory, `handles, `brk
      ensures Ready() && handles.Keys == old(handles).Keys && Bares(Now()) == old(Bares(Now()))
      ensures v in old(Values(Now())) && v in Values(Now()) && r == |Values(Now())[v]|
      ensures var was := old(Values(Now()))[v];
        Values(Now()) == old(Values(Now()))[v := if newlen < |was| then was[..newlen] else was]
      ensures Keeps(Now()) == old(Keeps(Now()))
      ensures handles - {v} == old(handles) - {v}
      ensures if newlen < |old(Values(Now()))[v]| then Unshared(v) && Pinned(Now()) == old(Pinned(Now())) - {v} && v !in Bares(Now())
              else handles == old(handles) && Pinned(Now()) == old(Pinned(Now()))
    {
      hide Bares, Pinned, Bounded, Keeps, Now, Sound, Unshared, Values;
      Look(v);
      assert Sound(Now());
      ghost var values := Values(Now());
      if newlen < objects[handles[v]].length {
        var _ := CopyOnWrite(v);
        Shorten(v, newlen);
      } else {
        assert values[v := values[v]] == values;
      }
      Look(v);
      r := objects[handles[v]].length;
    }

    /** `p->length = newlen; p->storage[newlen] = 0` */
    method Shorten(v: Handle, newlen: nat)
      requires Ready() && Unshared(v) && v !in Bares(Now())
      requires v in Values(Now()) && newlen < |Values(Now())[v]|
      modifies `objects, `memory
      ensures Ready() && Unshared(v) && Bares(Now()) == old(Bares(Now())) && Pinned(Now()) == old(Pinned(Now()))
      ensures Values(Now()) == old(Values(Now()))[v := old(Values(Now()))[v][..newlen]] && Keeps(Now()) == old(Keeps(Now()))
    {
      hide Bares, Pinned, Holders, Keeps, Sound, Values;
      assert v in handles;
      Look(v);
      ghost var was := Now();
      assert Sound(was) && was == Heap(objects, memory, handles, kept) && objects[handles[v]].refcount <= 1;
      Alone(was, v);
      var p := handles[v];
      var a := objects[p].storage.value;
      objects := objects[p := objects[p].(length := newlen)];
      memory := memory[a := memory[a][newlen := 0]];
      assert CanRewrite(was, p, objects[p], a, memory[a]);
      assert Now() == Rewritten(was, p, objects[p], a, memory[a]) by {
        assert (was.memory - {a})[a := memory[a]] == memory;
      }
      RewriteAlone(was, v, objects[p], a, memory[a]);
      assert memory[a][..newlen] == Values(was)[v][..newlen];
      assert Now().handles == handles && Now().objects == objects;
      BaresRewritten(was, Now(), v);
      OwnRewritten(was, Now(), v);
    }

    // ---------------------------------------------------- reading and giving away

    /** gu_pcs_grow() by itself. The C strings given away stay where they are exactly
        if the object has none or has room already. The handles see no difference,
        unless there was no storage: then the string is as long as the first zero
        among the bytes that realloc() happened to find, since only the last is set. */
    method Grow(v: Handle, n: nat) returns (ghost a: nat, ghost b: seq<byte>)
      requires Ready() && v in handles
      modifies `objects, `memory, `brk
      ensures handles[v] in objects && objects[handles[v]].storage == Some(a) && a in memory && memory[a] == b && b != []
      ensures (forall k :: k in kept ==> kept[k] in memory) <==> old(Roomy(v, n) || NoneKept(v))
      ensures old(Roomy(v, n) || (NoneKept(v) && (v !in Bares(Now()) || n == 0))) ==>
        Ready() && Values(Now()) == old(Values(Now())) && Keeps(Now()) == old(Keeps(Now()))
      ensures old(v in Bares(Now())) ==> (Ready() <==> b[0] == 0)
      ensures Bares(Now()) == old(Bares(Now()) - Peers(Now(), v)) && Pinned(Now()) == old(Pinned(Now()))
      ensures old(Unshared(v)) ==> Unshared(v)
    {
      hide Bares, Pinned, Counted, Keeps, StorageOf, Values, Wanted;
      Look(v);
      ghost var was, p, o := Now(), objects[handles[v]], handles[v];
      assert Sound(was) && was == Heap(objects, memory, handles, kept) && Bounded();
      assert Roomy(v, n) == (n < p.storageSize) && NoneKept(v) == (p.lurkers == 0);
      HandleHolds(was, v);
      assert brk !in memory;
      a, b := Realloc(handles[v], n);
      ghost var p' := objects[o];
      assert p.storage.Some? ==> b[p.length] == was.memory[p.storage.value][p.length];
      assert Now() == Rewritten(was, o, p', a, b) && (n < p.storageSize ==> Now() == was);
      BaresGrown(was, Now(), v);
      PinnedRewritten(was, Now(), v);
      GrowKept(was, v, p', a, b, n);
      assert old(Unshared(v)) ==> Unshared(v);
      assert Now().kept == kept && Now().memory == memory;
      if n < p.storageSize {
      } else if p.lurkers == 0 && b[p.length] == 0 {
        GrowSame(was, o, p', a, b);
      } else if p.lurkers == 0 {
        assert !Formed(p', memory);
        assert Ready() ==> Formed(p', memory);
      } else {
        BareNotKept(was, o);
      }
    }

    /** gu_pcs_grow(pcs, 0): have storage, whatever is in it. */
    method EnsureStorage(v: Handle)
      requires Ready() && v in handles
      modifies `objects, `memory, `brk
      ensures Ready() && Values(Now()) == old(Values(Now())) && Keeps(Now()) == old(Keeps(Now()))
      ensures Bares(Now()) == old(Bares(Now()) - Peers(Now(), v)) && Pinned(Now()) == old(Pinned(Now()))
      ensures v !in Bares(Now()) && (old(Unshared(v)) ==> Unshared(v))
    {
      hide Bares, Pinned, Bounded, Keeps, Sound, Unshared, Values;
      Look(v);
      assert Roomy(v, 0) || (NoneKept(v) && v in Bares(Now())) by {
        if objects[handles[v]].lurkers != 0 {
          BareNotKept(Now(), handles[v]);
        }
      }
      var _, _ := Grow(v, 0);
    }

    /** gu_pcs_get_cstr(): a pointer to a C string with the value. */
    method GetCstr(v: Handle) returns (r: seq<byte>)
      requires Ready() && v in handles
      modifies `objects, `memory, `brk
      ensures Ready() && Values(Now()) == old(Values(Now())) && Keeps(Now()) == old(Keeps(Now()))
      ensures v in Values(Now()) && Values(Now())[v] + [0] <= r
      ensures Bares(Now()) == old(Bares(Now()) - Peers(Now(), v)) && Pinned(Now()) == old(Pinned(Now()))
    {
      hide Bares, Pinned, Peers, Bounded, Keeps, Now, Sound, Unshared, Values;
      EnsureStorage(v);
      Look(v);
      r := memory[objects[handles[v]].storage.value];
      assert Sound(Now());
      assert r[..|Values(Now())[v]|] == Values(Now())[v];
    }

    /** gu_pcs_get_editable_cstr(), and a change of one byte made through it. */
    method Edit(v: Handle, i: nat, c: byte) returns (ok: bool)
      requires Ready() && v in handles && Local !in handles && v in Values(Now()) && i < |Values(Now())[v]|
      modifies `objects, `memory, `handles, `brk
      ensures ok && Ready() && handles.Keys == old(handles).Keys && Bares(Now()) == old(Bares(Now())) && v !in Bares(Now())
      ensures Unshared(v) && handles - {v} == old(handles) - {v} && Pinned(Now()) == old(Pinned(Now())) - {v}
      ensures Values(Now()) == old(Values(Now()))[v := With(old(Values(Now()))[v], i, c)] && Keeps(Now()) == old(Keeps(Now()))
    {
      hide *;
      Look(v);
      ok := CopyOnWrite(v);
      Poke(v, i, c);
    }

    method Poke(v: Handle, i: nat, c: byte)
      requires Ready() && Unshared(v) && v in Values(Now()) && i < |Values(Now())[v]|
      modifies `memory
      ensures Ready() && Bares(Now()) == old(Bares(Now())) && Pinned(Now()) == old(Pinned(Now()))
      ensures Values(Now()) == old(Values(Now()))[v := With(old(Values(Now()))[v], i, c)] && Keeps(Now()) == old(Keeps(Now()))
    {
      hide Holders, Keeps, Sound, Values;
      assert v in handles;
      Look(v);
      ghost var was := Now();
      assert Sound(was) && was == Heap(objects, memory, handles, kept) && objects[handles[v]].refcount <= 1;
      Alone(was, v);
      var p := objects[handles[v]];
      var a := p.storage.value;
      assert p.length < |With(memory[a], i, c)| == p.storageSize && With(memory[a], i, c)[p.length] == 0;
      memory := memory[a := With(memory[a], i, c)];
      assert CanRewrite(was, handles[v], p, a, memory[a]);
      assert Now() == Rewritten(was, handles[v], p, a, memory[a]) by {
        assert (was.memory - {a})[a := memory[a]] == memory;
      }
      RewriteAlone(was, v, p, a, memory[a]);
      assert memory[a][..p.length] == With(Values(was)[v], i, c);
      assert Bares(Now()) == Bares(was);
    }

    /** gu_pcs_free_keep_cstr(): the handle is gone, the C string stays. */
    method FreeKeepCstr(v: Handle, k: nat)
      requires Ready() && v in handles && k !in kept
      modifies `objects, `memory, `handles, `kept, `brk
      ensures Ready() && handles == old(handles) - {v}
      ensures Bares(Now()) == old(Bares(Now()) - Peers(Now(), v))
      ensures Pinned(Now()) == old(Pinned(Now()) + Peers(Now(), v)) - {v}
      ensures Values(Now()) == old(Values(Now())) - {v} && k in Keeps(Now()) && v in old(Values(Now()))
      ensures Keeps(Now()) == old(Keeps(Now()))[k := Keeps(Now())[k]] && old(Values(Now()))[v] + [0] <= Keeps(Now())[k]
    {
      hide Bares, Pinned, Keeps, Sound, Unshared, Values;
      EnsureStorage(v);
      Look(v);
      ghost var was := Now();
      assert Sound(was) && was == Heap(objects, memory, handles, kept);
      assert CanGive(was, v, k);
      GiveSound(was, v, k);
      GiveValues(was, v, k);
      PinnedGiven(was, v, k);
      var o := handles[v];
      var p := objects[o].(lurkers := objects[o].lurkers + 1);
      objects := objects[o := p];
      if p.refcount - p.lurkers == 0 {
        objects := objects - {o};
        assert objects == was.objects - {o};
      }
      handles, kept := handles - {v}, kept[k := p.storage.value];
      assert Now() == GivenAway(was, v, k);
      assert memory[p.storage.value][..p.length] + [0] <= memory[p.storage.value];
    }

    // ---------------------------------------------------- programs

    /** Create a string, whichever way. */
    method Create(op: Op, ghost sh: Sharing)
      requires Ready() && (op.OpNew? || op.OpNewCstr? || op.OpSnapshot?) && Linked(Now(), sh)
      requires if op.OpSnapshot? then op.v in handles && op.g !in handles else op.v !in handles
      modifies `objects, `memory, `handles, `brk
      ensures Ready() && Keeps(Now()) == old(Keeps(Now()))
      ensures handles.Keys == old(handles).Keys + {if op.OpSnapshot? then op.g else op.v}
      ensures op.OpSnapshot? ==> op.v in old(Values(Now()))
      ensures Values(Now()) == match op
        case OpNew(v) => old(Values(Now()))[v := []]
        case OpNewCstr(v, s) => old(Values(Now()))[v := s]
        case _ => old(Values(Now()))[op.g := old(Values(Now()))[op.v]]
      ensures match op
        case OpNew(v) => Linked(Now(), Fresh(sh, v, true))
        case OpNewCstr(v, _) => Linked(Now(), Fresh(sh, v, false))
        case _ => op.v in sh.cell && Linked(Now(), Snap(sh, op.v, op.g))
    {
      hide Bares, Pinned, Counted, Formed, Keeps, Linked, Sound, Values;
      match op
      case OpNew(v) => CreateNew(v, sh);
      case OpNewCstr(v, s) =>
        CreateNew(v, sh);
        CreatedSet(v, s, sh, old(Now()));
      case OpSnapshot(v, g) => CreateSnapshot(v, g, sh);
    }

    method CreateNew(v: Handle, ghost sh: Sharing)
      requires Ready() && v !in handles && Linked(Now(), sh)
      modifies `objects, `handles, `brk
      ensures Ready() && Keeps(Now()) == old(Keeps(Now())) && handles.Keys == old(handles).Keys + {v}
      ensures Values(Now()) == old(Values(Now()))[v := []] && Linked(Now(), Fresh(sh, v, true))
      ensures handles - {v} == old(handles) && Bares(Now()) == old(Bares(Now())) + {v} && Pinned(Now()) == old(Pinned(Now()))
      ensures v !in old(Pinned(Now())) && v !in old(Bares(Now()))
    {
      hide Counted, Formed, Keeps, Linked, Sound, Values;
      ghost var was := Now();
      assert Sound(was) && was == Heap(objects, memory, handles, kept);
      assert brk !in objects;
      BaresCreated(was, v, brk);
      PinnedCreated(was, v, brk);
      assert v !in Pinned(was) && v !in Bares(was);
      hide Bares, Pinned;
      New(v);
      assert handles == was.handles[v := old(brk)];
      assert handles - {v} == was.handles - {v} == was.handles;
      LinkedFresh(was, Now(), sh, v, true);
    }

    /** gu_pcs_new_cstr() after its gu_pcs_new(), which left `was` with one more. */
    method CreatedSet(v: Handle, s: seq<byte>, ghost sh: Sharing, ghost was: Heap)
      requires Ready() && v in handles && v !in was.handles && Sound(was) && Linked(was, sh)
      requires handles - {v} == was.handles && Bares(Now()) == Bares(was) + {v} && Pinned(Now()) == Pinned(was)
      requires v !in Pinned(was) && v !in Bares(was)
      requires Values(Now()) == Values(was)[v := []]
      modifies `objects, `memory, `handles, `brk
      ensures Ready() && Keeps(Now()) == old(Keeps(Now())) && handles.Keys == old(handles).Keys
      ensures Values(Now()) == Values(was)[v := s] && Linked(Now(), Fresh(sh, v, false))
    {
      hide Bares, Pinned, Counted, Formed, Keeps, Linked, Sound, Values;
      SetCstr(v, s);
      assert Values(was)[v := []][v := s] == Values(was)[v := s];
      assert was.handles - {v} == was.handles;
      PinnedAlone(Now(), v);
      LinkedFresh(was, Now(), sh, v, false);
    }

    method CreateSnapshot(v: Handle, g: Handle, ghost sh: Sharing)
      requires Ready() && v in handles && g !in handles && Linked(Now(), sh)
      modifies `objects, `handles
      ensures Ready() && Keeps(Now()) == old(Keeps(Now())) && handles.Keys == old(handles).Keys + {g}
      ensures v in old(Values(Now())) && Values(Now()) == old(Values(Now()))[g := old(Values(Now()))[v]]
      ensures v in sh.cell && Linked(Now(), Snap(sh, v, g))
    {
      hide Bares, Pinned, Counted, Formed, Keeps, Linked, Sound, Values;
      ghost var was := Now();
      Snapshot(v, g);
      LinkedSnap(was, Now(), sh, v, g);
    }

    /** Change a string. */
    method Change(op: Op, ghost sh: Sharing) returns (ok: bool)
      requires Ready() && Local !in handles && op.v in handles && op.v in Values(Now()) && Linked(Now(), sh)
      requires op.OpEdit? || op.OpSetCstr? || op.OpSetPcs? || op.OpTruncate? || op.OpAppendCstr? || op.OpAppendPcs?
      requires op.OpEdit? ==> op.i < |Values(Now())[op.v]|
      requires op.OpSetPcs? || op.OpAppendPcs? ==> op.src in handles
      modifies `objects, `memory, `handles, `brk
      ensures ok ==> Ready() && handles.Keys == old(handles).Keys && Keeps(Now()) == old(Keeps(Now()))
      ensures ok ==> op.v in old(Values(Now())) && (op.OpSetPcs? || op.OpAppendPcs? ==> op.src in old(Values(Now())))
      ensures ok ==> Values(Now()) == old(Values(Now()))[op.v := Changed(op, old(Values(Now())))]
      ensures ok <==> !ChangeFails(op, old(Values(Now())), sh)
      ensures ok ==> Linked(Now(), if op.OpTruncate? && op.n >= |old(Values(Now()))[op.v]| then sh else Fresh(sh, op.v, false))
    {
      hide Bares, Pinned, Bounded, Keeps, Linked, Sound, Unshared, Values, With, ChangeFails, Changed, WouldFail, Fresh;
      ghost var was := Now();
      assert Sound(was) && was.handles == handles;
      Look(op.v);
      assert op.OpSetPcs? || op.OpAppendPcs? ==> op.src in Values(Now()) by {
        if op.OpSetPcs? || op.OpAppendPcs? {
          Look(op.src);
        }
      }
      WhetherFails(op, sh);
      ok := ChangeIt(op);
      if ok {
        ChangedLinked(was, op, sh);
      }
    }

    /** What fails, on the heap. */
    ghost predicate WouldFail(op: Op)
      requires Ready() && op.v in handles && op.v in Values(Now())
      reads `objects, `memory, `handles, `kept, `brk
    {
      match op
      case OpSetPcs(v, src) => if src == v then !Unshared(v) else src in Bares(Now())
      case OpAppendCstr(v, _) => v in Bares(Now()) && !Unshared(v)
      case OpAppendPcs(v, src) =>
        (v in Bares(Now()) && !Unshared(v)) || if src == v then Values(Now())[v] != [] else src in Bares(Now())
      case _ => false
    }

    lemma WhetherFails(op: Op, sh: Sharing)
      requires Ready() && op.v in handles && op.v in Values(Now()) && Linked(Now(), sh)
      requires op.OpEdit? || op.OpSetCstr? || op.OpSetPcs? || op.OpTruncate? || op.OpAppendCstr? || op.OpAppendPcs?
      requires op.OpSetPcs? || op.OpAppendPcs? ==> op.src in handles && op.src in Values(Now())
      ensures op.v in sh.cell
      ensures ChangeFails(op, Values(Now()), sh) <==> WouldFail(op)
    {
      WhetherSole(op.v, sh);
      hide Bares, Pinned, Sound, Bounded, Values, Unshared, Sole, Linked;
    }

    lemma WhetherSole(v: Handle, sh: Sharing)
      requires Ready() && v in handles && Linked(Now(), sh)
      ensures v in sh.cell && sh.bare == Bares(Now()) && (Sole(sh, v) <==> Unshared(v))
    {
      SoleIff(Now(), sh, v);
      HandleHolds(Now(), v);
      hide Bares, Pinned, Sound, Formed, Counted, Sole;
    }

    lemma ChangedLinked(was: Heap, op: Op, sh: Sharing)
      requires Linked(was, sh) && Sound(was) && Ready() && op.v in was.handles && op.v in Values(was)
      requires op.OpEdit? || op.OpSetCstr? || op.OpSetPcs? || op.OpTruncate? || op.OpAppendCstr? || op.OpAppendPcs?
      requires if op.OpTruncate? && op.n >= |Values(was)[op.v]| then
                 handles == was.handles && Bares(Now()) == Bares(was) && Pinned(Now()) == Pinned(was)
               else
                 Unshared(op.v) && handles - {op.v} == was.handles - {op.v} && Bares(Now()) == Bares(was) - {op.v} &&
                 Pinned(Now()) == Pinned(was) - {op.v}
      ensures Linked(Now(), if op.OpTruncate? && op.n >= |Values(was)[op.v]| then sh else Fresh(sh, op.v, false))
    {
      hide Bares, Pinned, Sound, Values;
      if !(op.OpTruncate? && op.n >= |Values(was)[op.v]|) {
        PinnedAlone(Now(), op.v);
        LinkedFresh(was, Now(), sh, op.v, false);
      }
    }

    method ChangeIt(op: Op) returns (ok: bool)
      requires Ready() && Local !in handles && op.v in handles && op.v in Values(Now())
      requires op.OpEdit? || op.OpSetCstr? || op.OpSetPcs? || op.OpTruncate? || op.OpAppendCstr? || op.OpAppendPcs?
      requires op.OpEdit? ==> op.i < |Values(Now())[op.v]|
      requires op.OpSetPcs? || op.OpAppendPcs? ==> op.src in handles
      modifies `objects, `memory, `handles, `brk
      ensures ok ==> Ready() && handles.Keys == old(handles).Keys && Keeps(Now()) == old(Keeps(Now()))
      ensures ok ==> (op.OpSetPcs? || op.OpAppendPcs? ==> op.src in old(Values(Now())))
      ensures ok ==> Values(Now()) == old(Values(Now()))[op.v := Changed(op, old(Values(Now())))]
      ensures ok <==> !old(WouldFail(op))
      ensures ok ==>
        if op.OpTruncate? && op.n >= |old(Values(Now()))[op.v]| then
          handles == old(handles) && Bares(Now()) == old(Bares(Now())) && Pinned(Now()) == old(Pinned(Now()))
        else
          Unshared(op.v) && handles - {op.v} == old(handles) - {op.v} && Bares(Now()) == old(Bares(Now())) - {op.v} &&
          Pinned(Now()) == old(Pinned(Now())) - {op.v}
    {
      hide Bares, Pinned, Keeps, Now, Ready, Unshared, Values, With;
      match op
      case OpEdit(v, i, c) => ok := Edit(v, i, c);
      case OpSetCstr(v, s) =>
        SetCstr(v, s);
        ok := true;
      case OpSetPcs(v, src) => ok := SetPcs(v, src);
      case OpTruncate(v, n) =>
        var _ := Truncate(v, n);
        ok := true;
      case OpAppendCstr(v, s) => ok := AppendCstr(v, s);
      case OpAppendPcs(v, src) => ok := AppendPcs(v, src);
    }

    /** Carry out an operation: it does to the heap what it would to plain values, or
        it fails, exactly if it copies from a string without storage, frees what it is
        to copy, or copies bytes over themselves. */
    method Perform(op: Op, ghost seen: Seen, ghost sh: Sharing) returns (ok: bool)
      requires Ready() && Local !in handles && Shows(Now(), seen) && Legal(op, seen)
      requires sh.cell.Keys == seen.values.Keys && Linked(Now(), sh)
      modifies this
      ensures ok <==> !Fails(op, seen, sh)
      ensures ok ==> Ready() && Local !in handles && Shows(Now(), Apply(op, seen)) && Linked(Now(), Shares(op, seen, sh))
    {
      hide Bares, Pinned, Bounded, Changed, Formed, Keeps, Linked, Sound, ValueOf, Values, Fresh, Snap, Copies, Sole;
      ghost var was := Now();
      assert Sound(was) && was == Heap(objects, memory, handles, kept);
      ValuesAre(was);
      KeptKeys(was);
      assert seen.values == Values(was) && seen.kept.Keys == kept.Keys;
      if op.OpNew? || op.OpNewCstr? || op.OpSnapshot? {
        assert if op.OpSnapshot? then op.v in handles && op.g !in handles && op.g.Variable? else op.v !in handles;
        Create(op, sh);
        ok := true;
        StillShows(was, Now(), seen, Values(Now()));
        assert Apply(op, seen) == seen.(values := Values(Now()));
      } else if op.OpFree? || op.OpFreeKeepCstr? || op.OpGetCstr? {
        assert op.v in handles && (op.OpFreeKeepCstr? ==> op.k !in kept);
        Release(op, sh);
        ok := true;
        assert Shows(Now(), Apply(op, seen));
      } else {
        assert op.v in handles;
        ok := Change(op, sh);
        if ok {
          StillShows(was, Now(), seen, Values(Now()));
          assert Apply(op, seen) == seen.(values := Values(Now()));
        }
      }
    }

    /** A program's run: it sees plain values throughout, and gets through if and only
        if none of its operations fails. */
    method PerformAll(ops: seq<Op>) returns (ok: bool)
      requires Ready() && handles == map[] && kept == map[] && AllLegal(ops, Seen(map[], map[]))
      modifies this
      ensures ok ==> Ready() && Shows(Now(), ApplyAll(ops, Seen(map[], map[])))
      ensures ok <==> NoneFails(ops, Seen(map[], map[]), NoSharing)
    {
      ghost var seen, sh := Seen(map[], map[]), NoSharing;
      StartsLinked();
      assert sh.cell.Keys == seen.values.Keys && Local !in handles;
      hide *;
      ghost var all := ApplyAll(ops, seen);
      ok := true;
      var n := 0;
      assert ops[0..] == ops;
      while n < |ops| && ok
        invariant n <= |ops|
        invariant sh.cell.Keys == seen.values.Keys
        invariant ok ==> Ready() && Local !in handles && Shows(Now(), seen) && Linked(Now(), sh)
        invariant ok ==> AllLegal(ops[n..], seen) && ApplyAll(ops[n..], seen) == all
        invariant NoneFails(ops, Seen(map[], map[]), NoSharing) <==> ok && NoneFails(ops[n..], seen, sh)
        decreases |ops| - n
      {
        NextOp(ops[n..], seen, sh);
        ok := Perform(ops[n], seen, sh);
        seen, sh := Apply(ops[n], seen), Shares(ops[n], seen, sh);
        assert ops[n..][1..] == ops[n + 1..];
        n := n + 1;
      }
      if ok {
        assert ops[n..] == [];
        NoMoreOps(seen, sh);
      }
    }

    lemma StartsLinked()
      requires Ready() && handles == map[] && kept == map[]
      ensures Shows(Now(), Seen(map[], map[])) && Linked(Now(), NoSharing)
    {
      hide Counted, Formed, Wanted, Text;
    }

    lemma NoMoreOps(s: Seen, sh: Sharing)
      requires sh.cell.Keys == s.values.Keys
      ensures AllLegal([], s) && ApplyAll([], s) == s && NoneFails([], s, sh)
    {
    }

    /** Let go of a string, or look at it. */
    method Release(op: Op, ghost sh: Sharing)
      requires Ready() && op.v in handles && (op.OpFree? || op.OpFreeKeepCstr? || op.OpGetCstr?)
      requires op.OpFreeKeepCstr? ==> op.k !in kept
      requires Linked(Now(), sh)
      modifies this
      ensures Ready() && handles.Keys <= old(handles).Keys && op.v in old(Values(Now()))
      ensures Values(Now()) == if op.OpGetCstr? then old(Values(Now())) else old(Values(Now())) - {op.v}
      ensures op.OpFreeKeepCstr? ==> op.k in Keeps(Now()) && old(Values(Now()))[op.v] + [0] <= Keeps(Now())[op.k]
      ensures Keeps(Now()) == if op.OpFreeKeepCstr? then old(Keeps(Now()))[op.k := Keeps(Now())[op.k]] else old(Keeps(Now()))
      ensures op.v in sh.cell
      ensures match op
        case OpFree(v) => Linked(Now(), Sharing(sh.cell - {v}, sh.next, sh.bare - {v}, sh.pinned - {v}))
        case OpFreeKeepCstr(v, _) =>
          Linked(Now(), Sharing(sh.cell - {v}, sh.next, sh.bare - Copies(sh, v), sh.pinned + Copies(sh, v) - {v}))
        case _ => Linked(Now(), sh.(bare := sh.bare - Copies(sh, op.v)))
    {
      hide Bares, Pinned, Peers, Copies, Bounded, Keeps, Linked, Sound, StorageOf, Values;
      Look(op.v);
      ghost var was := Now();
      assert Sound(was) && was == Heap(objects, memory, handles, kept);
      LinkedKeys(was, sh);
      CopiesArePeers(was, sh, op.v);
      match op
      case OpFree(v) =>
        BaresFreed(was, v);
        PinnedFreed(was, v);
        Free(v);
        assert handles == was.handles - {v};
        LinkedFree(was, Now(), sh, v, {v}, {});
      case OpFreeKeepCstr(v, k) =>
        FreeKeepCstr(v, k);
        BaresArePeers(was, v);
        LinkedFree(was, Now(), sh, v, Peers(was, v), Peers(was, v));
      case OpGetCstr(v) =>
        var _ := GetCstr(v);
        LinkedLook(was, Now(), sh, v);
    }

    ghost predicate Roomy(v: Handle, n: nat)
      requires v in handles && handles[v] in objects
      reads `handles, `objects
    {
      n < objects[handles[v]].storageSize
    }

    ghost predicate NoneKept(v: Handle)
      requires v in handles && handles[v] in objects
      reads `handles, `objects
    {
      objects[handles[v]].lurkers == 0
    }
  }

  lemma BareNotKept(h: Heap, o: nat)
    requires Sound(h) && o in h.objects && h.objects[o].lurkers != 0
    ensures h.objects[o].storage.Some?
  {
    hide Wanted, Formed, Holders;
    assert Counted(h, o);
  }

  lemma GrowSame(h: Heap, o: nat, p: Pcs, a: nat, b: seq<byte>)
    requires Sound(h) && o in h.objects && h.objects[o].lurkers == 0 && Formed(h.objects[o], h.memory)
    requires p == h.objects[o].(storage := Some(a), storageSize := |b|) && (a in h.memory ==> h.objects[o].storage == Some(a))
    requires p.length < |b| && b[p.length] == 0
    requires h.objects[o].storage.Some? ==> h.memory[h.objects[o].storage.value] <= b
    ensures var h' := Rewritten(h, o, p, a, b); Sound(h') && Values(h') == Values(h) && Keeps(h') == Keeps(h)
  {
    hide Sound;
    RewriteSame(h, o, p, a, b);
  }

  lemma GrowKept(h: Heap, v: Handle, p: Pcs, a: nat, b: seq<byte>, n: nat)
    requires Sound(h) && v in h.handles && h.handles[v] in h.objects
    requires a in h.memory ==> h.objects[h.handles[v]].storage == Some(a)
    requires n < h.objects[h.handles[v]].storageSize ==> Rewritten(h, h.handles[v], p, a, b) == h
    requires n >= h.objects[h.handles[v]].storageSize ==> a !in h.memory
    ensures (forall k :: k in h.kept ==> h.kept[k] in Rewritten(h, h.handles[v], p, a, b).memory) <==>
      n < h.objects[h.handles[v]].storageSize || h.objects[h.handles[v]].lurkers == 0
  {
    hide Wanted;
    var o := h.handles[v];
    assert Counted(h, o) && Formed(h.objects[o], h.memory);
    if n >= h.objects[o].storageSize && h.objects[o].storage.Some? {
      var m := h.objects[o].storage.value;
      if h.objects[o].lurkers == 0 {
        assert forall k :: k in h.kept && h.kept[k] == m ==> k in Holders(h.kept, m);
      } else {
        var k :| k in Holders(h.kept, m);
        assert h.kept[k] !in Rewritten(h, o, p, a, b).memory;
      }
    }
  }

  function With(s: seq<byte>, i: nat, c: byte): (r: seq<byte>)
    requires i < |s|
    ensures |r| == |s| && r[i] == c && forall j :: 0 <= j < |s| && j != i ==> r[j] == s[j]
  {
    s[..i] + [c] + s[i + 1..]
  }

  ghost function Laid(b: seq<byte>, at: nat, s: seq<byte>): seq<byte>
    requires at + |s| < |b|
  {
    b[..at] + s + [0] + b[at + |s| + 1..]
  }

  lemma LaidParts(b: seq<byte>, at: nat, s: seq<byte>)
    requires at + |s| < |b|
    ensures |Laid(b, at, s)| == |b| && Laid(b, at, s)[..at + |s|] == b[..at] + s && Laid(b, at, s)[at + |s|] == 0
  {
  }
}

// The heap behind the reference counted strings of libgu/gu_pcs.c: what is sound
// about it, and what each step that the library takes does to what can be seen
// through handles and kept C strings.

module StringHeap {
  import opened Bytes
  import opened Options

  /** struct PCS */
  datatype Pcs = Pcs(storage: Option<nat>, storageSize: nat, length: nat, refcount: int, lurkers: int)

  /** A `void *` variable: one of the program's, or the new_pcs of a library function. */
  datatype Handle = Variable(n: nat) | Local

  /** Everything reachable: objects and storage by address, the handles that are not
      NULL, and the C strings that gu_pcs_free_keep_cstr() gave away. */
  datatype Heap = Heap(objects: map<nat, Pcs>, memory: map<nat, seq<byte>>, handles: map<Handle, nat>, kept: map<nat, nat>)

  function Holders<K, V(==)>(m: map<K, V>, v: V): set<K> {
    set k | k in m && m[k] == v
  }

  /** The storage of an object is a C string of its length, or there is none yet. */
  predicate Formed(p: Pcs, memory: map<nat, seq<byte>>) {
    match p.storage
    case None => p.storageSize == 0 && p.length == 0
    case Some(a) =>
      a in memory && |memory[a]| == p.storageSize && p.length < p.storageSize && memory[a][p.length] == 0
  }

  /** refcount counts handles and lurkers, lurkers counts the kept C strings, and an
      object is there only as long as some handle is. */
  ghost predicate Counted(h: Heap, o: nat)
    requires o in h.objects
  {
    var p := h.objects[o];
    && p.lurkers == (if p.storage.Some? then |Holders(h.kept, p.storage.value)| else 0)
    && p.refcount == |Holders(h.handles, o)| + p.lurkers
    && Holders(h.handles, o) != {}
  }

  /** Storage is there only for an object or a kept C string. */
  ghost predicate Wanted(h: Heap, a: nat) {
    (exists o :: o in h.objects && h.objects[o].storage == Some(a)) || (exists k :: k in h.kept && h.kept[k] == a)
  }

  ghost predicate Sound(h: Heap) {
    && (forall v :: v in h.handles ==> h.handles[v] in h.objects)
    && (forall o :: o in h.objects ==> Formed(h.objects[o], h.memory))
    && (forall o :: o in h.objects ==> Counted(h, o))
    && (forall o, o' :: o in h.objects && o' in h.objects && o != o' && h.objects[o].storage.Some? ==>
          h.objects[o].storage != h.objects[o'].storage)
    && (forall k :: k in h.kept ==> h.kept[k] in h.memory)
    && (forall a :: a in h.memory ==> Wanted(h, a))
  }

  function Text(p: Pcs, memory: map<nat, seq<byte>>): seq<byte>
    requires Formed(p, memory)
  {
    if p.storage.None? then [] else memory[p.storage.value][..p.length]
  }

  /** The strings that the handles stand for. */
  ghost function Values(h: Heap): map<Handle, seq<byte>>
    requires Sound(h)
  {
    map v | v in h.handles :: Text(h.objects[h.handles[v]], h.memory)
  }

  /** The bytes behind the kept C strings. */
  ghost function Keeps(h: Heap): map<nat, seq<byte>>
    requires Sound(h)
  {
    map k | k in h.kept :: h.memory[h.kept[k]]
  }

  function StorageOf(p: Pcs): set<nat> {
    if p.storage.Some? then {p.storage.value} else {}
  }

  /** Storage lasts exactly as long as somebody can see it: until the last handle to
      its object is gone and no C string in it was given away. */
  lemma FreedExactlyWhenUnseen(h: Heap, a: nat)
    requires Sound(h)
    ensures a in h.memory <==>
      || (exists v :: v in h.handles && h.objects[h.handles[v]].storage == Some(a))
      || (exists k :: k in h.kept && h.kept[k] == a)
  {
    if a in h.memory {
      assert Wanted(h, a);
      if o :| o in h.objects && h.objects[o].storage == Some(a) {
        assert Counted(h, o);
        var v :| v in Holders(h.handles, o);
        assert v in h.handles && h.objects[h.handles[v]].storage == Some(a);
      } else {
        assert exists k :: k in h.kept && h.kept[k] == a;
      }
    }
    forall v | v in h.handles
      ensures h.objects[h.handles[v]].storage == Some(a) ==> a in h.memory
    {
      assert Formed(h.objects[h.handles[v]], h.memory);
    }
  }

  // ------------------------------------------------------ what one step does

  ghost function Rewritten(h: Heap, o: nat, p: Pcs, a: nat, bytes: seq<byte>): Heap
    requires o in h.objects
  {
    h.(objects := h.objects[o := p], memory := (h.memory - StorageOf(h.objects[o]))[a := bytes])
  }

  lemma Alone(h: Heap, v: Handle)
    requires Sound(h) && v in h.handles && h.objects[h.handles[v]].refcount <= 1
    ensures h.objects[h.handles[v]].refcount == 1 && h.objects[h.handles[v]].lurkers == 0
    ensures Holders(h.handles, h.handles[v]) == {v}
  {
    hide Wanted, Formed;
    var o := h.handles[v];
    assert Counted(h, o) && v in Holders(h.handles, o);
    assert |Holders(h.handles, o) - {v}| == 0;
  }

  /** No C string has been given away that lies in the storage of `o`, and `p` with
      storage `bytes` at `a` is a proper state for it. */
  ghost predicate CanRewrite(h: Heap, o: nat, p: Pcs, a: nat, bytes: seq<byte>) {
    && Sound(h) && o in h.objects && h.objects[o].lurkers == 0
    && p.storage == Some(a) && p.refcount == h.objects[o].refcount && p.lurkers == 0
    && (a in h.memory ==> h.objects[o].storage == Some(a))
    && |bytes| == p.storageSize && p.length < p.storageSize && bytes[p.length] == 0
  }

  lemma NotKept(h: Heap, o: nat, a: nat)
    requires Sound(h) && o in h.objects && h.objects[o].lurkers == 0
    requires a in h.memory ==> h.objects[o].storage == Some(a)
    ensures Holders(h.kept, a) == {}
  {
    hide Wanted, Formed;
    assert Counted(h, o);
    if k :| k in Holders(h.kept, a) {
      assert h.kept[k] in h.memory;
    }
  }

  lemma RewriteAt(h: Heap, o: nat, p: Pcs, a: nat, bytes: seq<byte>, x: nat)
    requires CanRewrite(h, o, p, a, bytes) && x in h.objects
    ensures var h' := Rewritten(h, o, p, a, bytes);
      Counted(h', x) && Formed(h'.objects[x], h'.memory)
    ensures x != o ==> h.objects[x].storage != Some(a) && Formed(h.objects[x], h.memory)
    ensures x != o ==> Text(h.objects[x], h.memory) == Text(h.objects[x], Rewritten(h, o, p, a, bytes).memory)
  {
    hide Wanted, Holders;
    assert Counted(h, x) && Counted(h, o) && Formed(h.objects[x], h.memory);
    if x == o {
      NotKept(h, o, a);
    } else {
      assert h.objects[x].storage.Some? ==> h.objects[x].storage != h.objects[o].storage;
    }
  }

  lemma RewriteWanted(h: Heap, o: nat, p: Pcs, a: nat, bytes: seq<byte>, b: nat)
    requires CanRewrite(h, o, p, a, bytes)
    requires b == a || (b in h.memory && b !in StorageOf(h.objects[o]))
    ensures Wanted(Rewritten(h, o, p, a, bytes), b)
  {
    hide Counted, Formed;
    var h' := Rewritten(h, o, p, a, bytes);
    if b == a {
      assert h'.objects[o].storage == Some(a);
    } else {
      assert Wanted(h, b);
      if x :| x in h.objects && h.objects[x].storage == Some(b) {
        assert h'.objects[x].storage == Some(b);
      }
    }
  }

  lemma RewriteKeeps(h: Heap, o: nat, p: Pcs, a: nat, bytes: seq<byte>, k: nat)
    requires CanRewrite(h, o, p, a, bytes) && k in h.kept
    ensures h.kept[k] != a && h.kept[k] in h.memory && h.kept[k] !in StorageOf(h.objects[o])
  {
    hide Wanted, Formed;
    NotKept(h, o, a);
    assert Counted(h, o) && k in Holders(h.kept, h.kept[k]);
  }

  lemma RewriteSound(h: Heap, o: nat, p: Pcs, a: nat, bytes: seq<byte>)
    requires CanRewrite(h, o, p, a, bytes)
    ensures Sound(Rewritten(h, o, p, a, bytes))
  {
    hide Counted, Formed, Wanted, Holders;
    var h' := Rewritten(h, o, p, a, bytes);
    forall x | x in h.objects
      ensures Counted(h', x) && Formed(h'.objects[x], h'.memory) && (x != o ==> h.objects[x].storage != Some(a))
    {
      RewriteAt(h, o, p, a, bytes, x);
    }
    forall b | b in h'.memory
      ensures Wanted(h', b)
    {
      RewriteWanted(h, o, p, a, bytes, b);
    }
    forall k | k in h.kept
      ensures h.kept[k] in h'.memory
    {
      RewriteKeeps(h, o, p, a, bytes, k);
    }
  }

  lemma RewriteValue(h: Heap, o: nat, p: Pcs, a: nat, bytes: seq<byte>, g: Handle)
    requires CanRewrite(h, o, p, a, bytes) && Sound(Rewritten(h, o, p, a, bytes)) && g in h.handles
    ensures Values(Rewritten(h, o, p, a, bytes))[g] == if h.handles[g] == o then bytes[..p.length] else Values(h)[g]
  {
    hide Sound, Holders;
    ValuesAre(h);
    ValuesAre(Rewritten(h, o, p, a, bytes));
    if h.handles[g] != o {
      RewriteAt(h, o, p, a, bytes, h.handles[g]);
    }
  }

  /** A rewritten object shows in the handles to it and nowhere else. */
  lemma RewriteValues(h: Heap, o: nat, p: Pcs, a: nat, bytes: seq<byte>)
    requires CanRewrite(h, o, p, a, bytes) && Sound(Rewritten(h, o, p, a, bytes))
    ensures var h' := Rewritten(h, o, p, a, bytes);
      && Values(h').Keys == Values(h).Keys == h.handles.Keys
      && (forall g :: g in h.handles ==> Values(h')[g] == if h.handles[g] == o then bytes[..p.length] else Values(h)[g])
      && Keeps(h') == Keeps(h)
  {
    hide Formed, Sound, StorageOf, ValueOf, Values;
    var h' := Rewritten(h, o, p, a, bytes);
    ValuesAre(h);
    ValuesAre(h');
    forall g | g in h.handles
      ensures Values(h')[g] == if h.handles[g] == o then bytes[..p.length] else Values(h)[g]
    {
      RewriteValue(h, o, p, a, bytes, g);
    }
    forall k | k in h.kept
      ensures k in Keeps(h') && Keeps(h')[k] == Keeps(h)[k]
    {
      RewriteKeeps(h, o, p, a, bytes, k);
    }
    assert Keeps(h').Keys == Keeps(h).Keys;
  }

  /** Nobody else notices when an object with a single handle gets a new string. */
  lemma RewriteAlone(h: Heap, v: Handle, p: Pcs, a: nat, bytes: seq<byte>)
    requires Sound(h) && v in h.handles && h.objects[h.handles[v]].refcount <= 1
    requires CanRewrite(h, h.handles[v], p, a, bytes)
    ensures var h' := Rewritten(h, h.handles[v], p, a, bytes);
      Sound(h') && Values(h') == Values(h)[v := bytes[..p.length]] && Keeps(h') == Keeps(h)
  {
    hide CanRewrite, Keeps, Rewritten, Sound, Values;
    Alone(h, v);
    RewriteSound(h, h.handles[v], p, a, bytes);
    RewriteValues(h, h.handles[v], p, a, bytes);
    var o := h.handles[v];
    forall g | g in h.handles && g != v
      ensures h.handles[g] != o
    {
      assert h.handles[g] == o ==> g in Holders(h.handles, o);
    }
  }

  /** Nor does anybody notice when an object gets more room for the string it has. */
  lemma RewriteSame(h: Heap, o: nat, p: Pcs, a: nat, bytes: seq<byte>)
    requires CanRewrite(h, o, p, a, bytes) && Formed(h.objects[o], h.memory)
    requires bytes[..p.length] == Text(h.objects[o], h.memory)
    ensures var h' := Rewritten(h, o, p, a, bytes);
      Sound(h') && Values(h') == Values(h) && Keeps(h') == Keeps(h)
  {
    hide Formed, Keeps, Rewritten, Sound, Text, Values;
    RewriteSound(h, o, p, a, bytes);
    RewriteValues(h, o, p, a, bytes);
    ValuesAre(h);
  }

  ghost function ValueOf(h: Heap, v: Handle): seq<byte>
    requires v in h.handles && h.handles[v] in h.objects && Formed(h.objects[h.handles[v]], h.memory)
  {
    Text(h.objects[h.handles[v]], h.memory)
  }

  lemma HandleHolds(h: Heap, v: Handle)
    requires Sound(h) && v in h.handles
    ensures h.handles[v] in h.objects
    ensures Formed(h.objects[h.handles[v]], h.memory) && Counted(h, h.handles[v])
  {
    hide Formed, Counted, Wanted;
  }

  lemma ValuesAre(h: Heap)
    requires Sound(h)
    ensures Values(h).Keys == h.handles.Keys
    ensures forall v :: v in h.handles ==>
      h.handles[v] in h.objects && Formed(h.objects[h.handles[v]], h.memory) && Values(h)[v] == ValueOf(h, v)
  {
    hide Formed, Counted, Wanted, Text;
  }

  lemma HoldersAdd<K, V>(m: map<K, V>, v: K, o: V, x: V)
    requires v !in m
    ensures |Holders(m[v := o], x)| == |Holders(m, x)| + if x == o then 1 else 0
    ensures x == o || Holders(m, x) != {} ==> Holders(m[v := o], x) != {}
  {
    assert Holders(m[v := o], x) == if x == o then Holders(m, x) + {v} else Holders(m, x);
  }

  lemma HoldersRemove<K, V>(m: map<K, V>, v: K, x: V)
    requires v in m
    ensures |Holders(m - {v}, x)| == |Holders(m, x)| - if m[v] == x then 1 else 0
    ensures m[v] != x ==> Holders(m - {v}, x) == Holders(m, x)
    ensures m[v] == x ==> (|Holders(m, x)| == 1 <==> Holders(m - {v}, x) == {})
  {
    assert Holders(m - {v}, x) == Holders(m, x) - {v};
  }

  lemma StillWanted(h: Heap, h': Heap, a: nat)
    requires Wanted(h, a)
    requires forall x :: x in h.objects && h.objects[x].storage == Some(a) ==> x in h'.objects && h'.objects[x].storage == Some(a)
    requires forall k :: k in h.kept && h.kept[k] == a ==> k in h'.kept && h'.kept[k] == a
    ensures Wanted(h', a)
  {
    if x :| x in h.objects && h.objects[x].storage == Some(a) {
      assert h'.objects[x].storage == Some(a);
    }
  }

  lemma FormedText(p: Pcs, memory: map<nat, seq<byte>>, at: nat)
    requires Formed(p, memory) && at <= p.length
    ensures |Text(p, memory)| == p.length
    ensures match p.storage
      case None => p.storageSize == 0 && at == 0
      case Some(a) => a in memory && at < |memory[a]| == p.storageSize && Text(p, memory)[..at] == memory[a][..at]
  {
  }

  // gu_pcs_new() into a variable

  ghost function Created(h: Heap, v: Handle, o: nat): Heap {
    h.(objects := h.objects[o := Pcs(None, 0, 0, 1, 0)], handles := h.handles[v := o])
  }

  lemma CreateAt(h: Heap, v: Handle, o: nat, x: nat)
    requires Sound(h) && v !in h.handles && o !in h.objects && (x == o || x in h.objects)
    ensures Counted(Created(h, v, o), x) && Formed(Created(h, v, o).objects[x], h.memory)
  {
    hide Wanted;
    HoldersAdd(h.handles, v, o, x);
    if x == o {
      assert Holders(h.handles, o) == {};
    } else {
      assert Counted(h, x);
    }
  }

  lemma CreateSound(h: Heap, v: Handle, o: nat)
    requires Sound(h) && v !in h.handles && o !in h.objects
    ensures Sound(Created(h, v, o))
  {
    hide Formed, Holders, Wanted, Counted;
    var h' := Created(h, v, o);
    forall x | x in h'.objects
      ensures Counted(h', x) && Formed(h'.objects[x], h'.memory)
    {
      CreateAt(h, v, o, x);
    }
    forall a | a in h'.memory
      ensures Wanted(h', a)
    {
      StillWanted(h, h', a);
    }
  }

  lemma CreateValues(h: Heap, v: Handle, o: nat)
    requires Sound(h) && v !in h.handles && o !in h.objects && Sound(Created(h, v, o))
    ensures Values(Created(h, v, o)) == Values(h)[v := []] && Keeps(Created(h, v, o)) == Keeps(h)
  {
    hide Formed, Sound, Text, Values;
    ValuesAre(h);
    var h' := Created(h, v, o);
    ValuesAre(h');
    forall w | w in h.handles
      ensures ValueOf(h', w) == ValueOf(h, w)
    {
      assert h.handles[w] != o;
    }
    NewIsEmpty(h', v);
    hide ValueOf;
    assert Values(h') == Values(h)[v := []];
    assert Keeps(h') == Keeps(h);
  }

  lemma NewIsEmpty(h: Heap, v: Handle)
    requires v in h.handles && h.handles[v] in h.objects && h.objects[h.handles[v]] == Pcs(None, 0, 0, 1, 0)
    ensures Formed(h.objects[h.handles[v]], h.memory) && ValueOf(h, v) == []
  {
  }

  // gu_pcs_snapshot() into a variable

  ghost function Snapped(h: Heap, v: Handle, g: Handle): Heap
    requires v in h.handles && h.handles[v] in h.objects
  {
    var o := h.handles[v];
    h.(objects := h.objects[o := h.objects[o].(refcount := h.objects[o].refcount + 1)], handles := h.handles[g := o])
  }

  lemma SnapAt(h: Heap, v: Handle, g: Handle, x: nat)
    requires Sound(h) && v in h.handles && g !in h.handles && x in h.objects
    ensures Counted(Snapped(h, v, g), x) && Formed(Snapped(h, v, g).objects[x], h.memory)
  {
    hide Holders, Wanted;
    HoldersAdd(h.handles, g, h.handles[v], x);
    assert Counted(h, x);
  }

  lemma SnapSound(h: Heap, v: Handle, g: Handle)
    requires Sound(h) && v in h.handles && g !in h.handles
    ensures Sound(Snapped(h, v, g))
  {
    hide Formed, Holders, Wanted, Counted;
    var h' := Snapped(h, v, g);
    forall x | x in h'.objects
      ensures Counted(h', x) && Formed(h'.objects[x], h'.memory)
    {
      SnapAt(h, v, g, x);
    }
    forall a | a in h'.memory
      ensures Wanted(h', a)
    {
      StillWanted(h, h', a);
    }
  }

  lemma SnapValues(h: Heap, v: Handle, g: Handle)
    requires Sound(h) && v in h.handles && g !in h.handles && Sound(Snapped(h, v, g))
    ensures Values(Snapped(h, v, g)) == Values(h)[g := Values(h)[v]] && Keeps(Snapped(h, v, g)) == Keeps(h)
  {
    hide Formed, Sound, Values;
    ValuesAre(h);
    var h' := Snapped(h, v, g);
    ValuesAre(h');
    forall w | w in h.handles
      ensures ValueOf(h', w) == ValueOf(h, w)
    {
    }
    assert ValueOf(h', g) == ValueOf(h, v);
    assert Keeps(h') == Keeps(h);
  }

  // `*pcs = new_pcs`, where *pcs was NULL and new_pcs goes out of scope

  ghost function Moved(h: Heap, v: Handle, g: Handle): Heap
    requires g in h.handles
  {
    h.(handles := (h.handles - {g})[v := h.handles[g]])
  }

  lemma MoveAt(h: Heap, v: Handle, g: Handle, x: nat)
    requires Sound(h) && v !in h.handles && g in h.handles && x in h.objects
    ensures Counted(Moved(h, v, g), x)
  {
    hide Holders, Wanted, Formed;
    HoldersRemove(h.handles, g, x);
    HoldersAdd(h.handles - {g}, v, h.handles[g], x);
    assert Counted(h, x);
  }

  lemma MoveSound(h: Heap, v: Handle, g: Handle)
    requires Sound(h) && v !in h.handles && g in h.handles
    ensures Sound(Moved(h, v, g))
  {
    hide Formed, Holders, Wanted, Counted;
    var h' := Moved(h, v, g);
    forall x | x in h'.objects
      ensures Counted(h', x)
    {
      MoveAt(h, v, g, x);
    }
    forall a | a in h'.memory
      ensures Wanted(h', a)
    {
      StillWanted(h, h', a);
    }
  }

  lemma MoveValues(h: Heap, v: Handle, g: Handle)
    requires Sound(h) && v !in h.handles && g in h.handles && Sound(Moved(h, v, g))
    ensures Values(Moved(h, v, g)) == (Values(h) - {g})[v := Values(h)[g]] && Keeps(Moved(h, v, g)) == Keeps(h)
  {
    hide Sound;
    ValuesAre(h);
    ValuesAre(Moved(h, v, g));
  }

  // gu_pcs_free()

  ghost function Freed(h: Heap, v: Handle): Heap
    requires v in h.handles && h.handles[v] in h.objects
  {
    var o := h.handles[v];
    var p := h.objects[o].(refcount := h.objects[o].refcount - 1);
    if p.refcount == p.lurkers then
      Heap(h.objects - {o}, if p.lurkers == 0 then h.memory - StorageOf(p) else h.memory, h.handles - {v}, h.kept)
    else Heap(h.objects[o := p], h.memory, h.handles - {v}, h.kept)
  }

  lemma FreeAt(h: Heap, v: Handle, x: nat)
    requires Sound(h) && v in h.handles && x in Freed(h, v).objects
    ensures Counted(Freed(h, v), x) && Formed(Freed(h, v).objects[x], Freed(h, v).memory)
  {
    hide Holders, Wanted;
    HoldersRemove(h.handles, v, x);
    assert Counted(h, x) && Counted(h, h.handles[v]) && Formed(h.objects[x], h.memory);
  }

  lemma KeptIsWanted(h: Heap, a: nat)
    requires Holders(h.kept, a) != {}
    ensures Wanted(h, a)
  {
    var k :| k in Holders(h.kept, a);
    assert k in h.kept && h.kept[k] == a;
  }

  lemma FreeWanted(h: Heap, v: Handle, a: nat)
    requires Sound(h) && v in h.handles && a in Freed(h, v).memory
    ensures Wanted(Freed(h, v), a)
  {
    hide Formed, Wanted;
    var o := h.handles[v];
    assert Wanted(h, a) && Counted(h, o);
    if h.objects[o].storage == Some(a) && o !in Freed(h, v).objects {
      assert Holders(h.kept, a) != {};
      KeptIsWanted(Freed(h, v), a);
    } else {
      hide Counted, Holders;
      StillWanted(h, Freed(h, v), a);
    }
  }

  lemma FreeKeeps(h: Heap, v: Handle, k: nat)
    requires Sound(h) && v in h.handles && k in h.kept
    ensures h.kept[k] in Freed(h, v).memory
  {
    hide Formed, Wanted;
    assert Counted(h, h.handles[v]) && k in Holders(h.kept, h.kept[k]);
  }

  lemma FreeHandles(h: Heap, v: Handle, g: Handle)
    requires Sound(h) && v in h.handles && g in h.handles && g != v
    ensures h.handles[g] in Freed(h, v).objects
  {
    hide Formed, Wanted;
    var o := h.handles[v];
    assert Counted(h, o);
    HoldersRemove(h.handles, v, o);
    assert h.handles[g] == o ==> g in Holders(h.handles - {v}, o);
  }

  lemma FreeSound(h: Heap, v: Handle)
    requires Sound(h) && v in h.handles
    ensures Sound(Freed(h, v))
  {
    hide Formed, Holders, Wanted, Counted;
    var h' := Freed(h, v);
    forall x | x in h'.objects
      ensures Counted(h', x) && Formed(h'.objects[x], h'.memory)
    {
      FreeAt(h, v, x);
    }
    forall a | a in h'.memory
      ensures Wanted(h', a)
    {
      FreeWanted(h, v, a);
    }
    forall k | k in h.kept
      ensures h.kept[k] in h'.memory
    {
      FreeKeeps(h, v, k);
    }
    forall g | g in h.handles && g != v
      ensures h.handles[g] in h'.objects
    {
      FreeHandles(h, v, g);
    }
  }

  lemma FreeValue(h: Heap, v: Handle, g: Handle)
    requires Sound(h) && v in h.handles && Sound(Freed(h, v)) && g in h.handles && g != v
    ensures Values(Freed(h, v))[g] == Values(h)[g]
  {
    hide Sound, Holders;
    ValuesAre(h);
    ValuesAre(Freed(h, v));
  }

  lemma FreeValues(h: Heap, v: Handle)
    requires Sound(h) && v in h.handles && Sound(Freed(h, v))
    ensures Values(Freed(h, v)) == Values(h) - {v} && Keeps(Freed(h, v)) == Keeps(h)
  {
    hide Formed, Sound, StorageOf, ValueOf, Values;
    ValuesAre(h);
    var h' := Freed(h, v);
    ValuesAre(h');
    assert h'.handles == h.handles - {v} && h'.kept == h.kept;
    forall g | g in h'.handles
      ensures Values(h')[g] == Values(h)[g]
    {
      FreeValue(h, v, g);
    }
    forall k | k in h.kept
      ensures k in Keeps(h') && Keeps(h')[k] == Keeps(h)[k]
    {
      FreeKeeps(h, v, k);
    }
    assert Keeps(h').Keys == Keeps(h).Keys;
  }

  // gu_pcs_free_keep_cstr()

  ghost function GivenAway(h: Heap, v: Handle, k: nat): Heap
    requires v in h.handles && h.handles[v] in h.objects && h.objects[h.handles[v]].storage.Some?
  {
    var o := h.handles[v];
    var p := h.objects[o].(lurkers := h.objects[o].lurkers + 1);
    h.(objects := if p.refcount == p.lurkers then h.objects - {o} else h.objects[o := p],
       handles := h.handles - {v}, kept := h.kept[k := p.storage.value])
  }

  ghost predicate CanGive(h: Heap, v: Handle, k: nat) {
    Sound(h) && v in h.handles && h.objects[h.handles[v]].storage.Some? && k !in h.kept
  }

  lemma GiveAt(h: Heap, v: Handle, k: nat, x: nat)
    requires CanGive(h, v, k) && x in GivenAway(h, v, k).objects
    ensures Counted(GivenAway(h, v, k), x) && Formed(GivenAway(h, v, k).objects[x], h.memory)
  {
    hide Holders, Wanted;
    var o := h.handles[v];
    assert Counted(h, x) && Counted(h, o) && Formed(h.objects[x], h.memory);
    HoldersRemove(h.handles, v, x);
    if h.objects[x].storage.Some? {
      HoldersAdd(h.kept, k, h.objects[o].storage.value, h.objects[x].storage.value);
    }
    assert x != o ==> h.objects[x].storage != h.objects[o].storage;
  }

  lemma GiveWanted(h: Heap, v: Handle, k: nat, a: nat)
    requires CanGive(h, v, k) && a in h.memory
    ensures Wanted(GivenAway(h, v, k), a)
  {
    hide Formed, Counted;
    var h' := GivenAway(h, v, k);
    assert Wanted(h, a);
    if h.objects[h.handles[v]].storage == Some(a) {
      assert h'.kept[k] == a;
    } else {
      StillWanted(h, h', a);
    }
  }

  lemma GiveHandles(h: Heap, v: Handle, k: nat, g: Handle)
    requires CanGive(h, v, k) && g in h.handles && g != v
    ensures h.handles[g] in GivenAway(h, v, k).objects
  {
    hide Formed, Wanted;
    var o := h.handles[v];
    assert Counted(h, o);
    HoldersRemove(h.handles, v, o);
    assert h.handles[g] == o ==> g in Holders(h.handles - {v}, o);
  }

  lemma GiveSound(h: Heap, v: Handle, k: nat)
    requires CanGive(h, v, k)
    ensures Sound(GivenAway(h, v, k))
  {
    hide Holders, Wanted, Counted;
    var h' := GivenAway(h, v, k);
    forall x | x in h'.objects
      ensures Counted(h', x) && Formed(h'.objects[x], h'.memory)
    {
      GiveAt(h, v, k, x);
    }
    forall a | a in h'.memory
      ensures Wanted(h', a)
    {
      GiveWanted(h, v, k, a);
    }
    forall g | g in h.handles && g != v
      ensures h.handles[g] in h'.objects
    {
      GiveHandles(h, v, k, g);
    }
    assert Formed(h.objects[h.handles[v]], h.memory);
    assert h.objects[h.handles[v]].storage.value in h.memory;
  }

  lemma GiveValue(h: Heap, v: Handle, k: nat, g: Handle)
    requires CanGive(h, v, k) && Sound(GivenAway(h, v, k)) && g in h.handles && g != v
    ensures Values(GivenAway(h, v, k))[g] == Values(h)[g]
  {
    hide Counted, Formed, Sound, Values;
    assert Sound(h);
    HandleHolds(h, v);
    assert h.objects[h.handles[v]].storage.Some?;
    ValuesAre(h);
    var h' := GivenAway(h, v, k);
    ValuesAre(h');
    assert h'.handles[g] == h.handles[g] && h'.memory == h.memory;
    assert h'.objects[h'.handles[g]].storage == h.objects[h.handles[g]].storage &&
           h'.objects[h'.handles[g]].length == h.objects[h.handles[g]].length;
  }

  lemma GiveValues(h: Heap, v: Handle, k: nat)
    requires CanGive(h, v, k) && Sound(GivenAway(h, v, k))
    ensures Values(GivenAway(h, v, k)) == Values(h) - {v}
    ensures h.objects[h.handles[v]].storage.value in h.memory
    ensures Keeps(GivenAway(h, v, k)) == Keeps(h)[k := h.memory[h.objects[h.handles[v]].storage.value]]
  {
    hide Counted, Sound, ValueOf, Values;
    ValuesAre(h);
    var h' := GivenAway(h, v, k);
    ValuesAre(h');
    assert h'.handles == h.handles - {v} && h'.memory == h.memory;
    forall g | g in h'.handles
      ensures Values(h')[g] == Values(h)[g]
    {
      GiveValue(h, v, k, g);
    }
    HandleHolds(h, v);
  }
}

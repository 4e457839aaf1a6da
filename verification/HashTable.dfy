// The chained hash table (libgu/gu_pch.c): it is a finite map, and its iterator
// visits every key exactly once.

module HashTable {
  /** The bytes of a C string, without the terminating zero. */
  type CString = seq<bv8>

  /** A `void *`: the table stores it and never follows it. */
  datatype Pointer = NULL | To(object: nat)

  /** A character added in gu_hash(): `char` is signed, and widened with copies of its top
      bit. */
  function Added(total: bv32, c: bv8): bv32 {
    (total << 4) + (if c < 0x80 then c as bv32 else (c as bv32) | 0xffff_ff00)
  }

  /** What comes into the top four bits is mixed in below; as a signed number it is
      shifted with copies of its top bit. */
  function MixedIn(total: bv32): bv32 {
    if total & 0xf000_0000 == 0 then total
    else if total & 0x8000_0000 == 0 then total ^ ((total & 0xf000_0000) >> 24) ^ (total & 0xf000_0000)
    else total ^ (((total & 0xf000_0000) >> 24) | 0xffff_ff00) ^ (total & 0xf000_0000)
  }

  function Mix(total: bv32, c: bv8): bv32 { MixedIn(Added(total, c)) }

  /** The total becomes sixteen times what it was and the character more, as a number from
      -128 to 127, modulo 2^32. */
  lemma AddedIs(total: bv32, c: bv8)
    ensures Added(total, c) == 16 * total + if c < 0x80 then c as bv32 else c as bv32 - 256
  {
    Sixteen(total);
    Widened(c);
  }

  lemma Sixteen(total: bv32)
    ensures total << 4 == 16 * total
  {
  }

  lemma Widened(c: bv8)
    ensures c >= 0x80 ==> (c as bv32) | 0xffff_ff00 == c as bv32 - 256
  {
  }

  /** The top four bits are mixed into bits 4 to 7, and are gone from the top if and only
      if the uppermost of them was not set. Otherwise they are all ones, and all bits from
      8 to 27 are inverted. */
  lemma MixedInIs(t: bv32)
    ensures MixedIn(t) & 0xf000_0000 == if t < 0x8000_0000 then 0 else 0xf000_0000
    ensures (MixedIn(t) ^ t) & 0xff == (t >> 24) & 0xf0
    ensures (MixedIn(t) ^ t) & 0x0fff_ff00 == if t < 0x8000_0000 then 0 else 0x0fff_ff00
  {
    MixedBits(t, MixedIn(t));
  }

  lemma MixedBits(t: bv32, r: bv32)
    requires t & 0xf000_0000 == 0 ==> r == t
    requires t & 0xf000_0000 != 0 && t & 0x8000_0000 == 0 ==>
      r == t ^ ((t & 0xf000_0000) >> 24) ^ (t & 0xf000_0000)
    requires t & 0x8000_0000 != 0 ==>
      r == t ^ (((t & 0xf000_0000) >> 24) | 0xffff_ff00) ^ (t & 0xf000_0000)
    ensures r & 0xf000_0000 == if t < 0x8000_0000 then 0 else 0xf000_0000
    ensures (r ^ t) & 0xff == (t >> 24) & 0xf0
    ensures (r ^ t) & 0x0fff_ff00 == if t < 0x8000_0000 then 0 else 0x0fff_ff00
  {
  }

  function Total(s: CString): bv32 {
    if s == [] then 0 else Mix(Total(s[..|s| - 1]), s[|s| - 1])
  }

  /** gu_hash() */
  method GuHash(s: CString, modus: nat) returns (r: nat)
    requires modus >= 1
    ensures r == Hash(s, modus) < modus
  {
    var total: bv32 := 0;
    for i := 0 to |s|
      invariant total == Total(s[..i])
    {
      assert s[..i + 1][..i] == s[..i];
      total := Mix(total, s[i]);
    }
    assert s[..|s|] == s;
    r := total as int % modus;
  }

  function Hash(s: CString, modus: nat): (r: nat)
    requires modus >= 1
    ensures r < modus
  {
    Total(s) as int % modus
  }

  class Entry {
    const key: CString
    var value: Pointer
    var next: Entry?

    constructor (key: CString, value: Pointer)
      ensures this.key == key && this.value == value && next == null
    {
      this.key, this.value, next := key, value, null;
    }
  }

  ghost function At(chain: seq<Entry>, i: nat): Entry? {
    if i < |chain| then chain[i] else null
  }

  ghost predicate Present(key: CString, chain: seq<Entry>) {
    exists i :: 0 <= i < |chain| && chain[i].key == key
  }

  /** The link of entry `i` of a chain is to the next one. */
  ghost predicate Follows(next: map<Entry, Entry?>, chain: seq<Entry>, i: nat)
    requires i < |chain|
  {
    chain[i] in next && next[chain[i]] == At(chain, i + 1)
  }

  /** Each bucket leads along its chain. */
  ghost predicate Chained(heads: seq<Entry?>, next: map<Entry, Entry?>, chains: seq<seq<Entry>>) {
    && |heads| == |chains|
    && (forall b :: 0 <= b < |chains| ==> heads[b] == At(chains[b], 0))
    && (forall b, i :: 0 <= b < |chains| && 0 <= i < |chains[b]| ==> Follows(next, chains[b], i))
  }

  /** The keys of a chain from entry `i` on. */
  ghost function KeysFrom(chain: seq<Entry>, i: nat): seq<CString>
    decreases |chain| - i
  {
    if i < |chain| then [chain[i].key] + KeysFrom(chain, i + 1) else []
  }

  /** The keys of all chains from chain `b` on. */
  ghost function AllFrom(chains: seq<seq<Entry>>, b: nat): seq<CString>
    decreases |chains| - b
  {
    if b < |chains| then KeysFrom(chains[b], 0) + AllFrom(chains, b + 1) else []
  }

  /** Each entry is on the chain that its key hashes to, and no key is twice in a chain. */
  ghost predicate Placed(chains: seq<seq<Entry>>, entries: set<Entry>) {
    && |chains| >= 1
    && (forall b, i :: 0 <= b < |chains| && 0 <= i < |chains[b]| ==>
          chains[b][i] in entries && Hash(chains[b][i].key, |chains|) == b)
    && (forall b, i, j :: 0 <= b < |chains| && 0 <= i < j < |chains[b]| ==> chains[b][i].key != chains[b][j].key)
    && (forall e, f :: e in entries && f in entries && e.key == f.key ==> e == f)
  }

  ghost predicate Complete(chains: seq<seq<Entry>>, keys: set<CString>) {
    |chains| >= 1 && forall k :: k in keys ==> Present(k, chains[Hash(k, |chains|)])
  }

  lemma SamePlace(chains: seq<seq<Entry>>, entries: set<Entry>, b: nat, i: nat, b': nat, i': nat)
    requires Placed(chains, entries) && b < |chains| && i < |chains[b]| && b' < |chains| && i' < |chains[b']|
    requires chains[b][i].key == chains[b'][i'].key
    ensures b == b' && i == i'
  {
    hide Hash;
  }

  lemma PlacedAppend(chains: seq<seq<Entry>>, entries: set<Entry>, keys: set<CString>, b: nat, e: Entry)
    requires Placed(chains, entries) && Complete(chains, keys) && b == Hash(e.key, |chains|)
    requires forall e :: e in entries ==> e.key in keys
    requires e.key !in keys
    ensures Placed(chains[b := chains[b] + [e]], entries + {e})
    ensures Complete(chains[b := chains[b] + [e]], keys + {e.key})
  {
    hide Hash;
    var now := chains[b := chains[b] + [e]];
    assert now[b][|chains[b]|] == e;
    forall k | k in keys
      ensures Present(k, now[Hash(k, |chains|)])
    {
      var i :| 0 <= i < |chains[Hash(k, |chains|)]| && chains[Hash(k, |chains|)][i].key == k;
      assert now[Hash(k, |chains|)][i].key == k;
    }
  }

  /** What hanging `e` on the end of chain `c` of bucket `b` does to the bucket heads... */
  ghost function HeadsAppend(heads: seq<Entry?>, c: seq<Entry>, b: nat, e: Entry): seq<Entry?>
    requires b < |heads|
  {
    if c == [] then heads[b := e] else heads
  }

  /** ...and to the links. */
  ghost function NextAppend(next: map<Entry, Entry?>, c: seq<Entry>, e: Entry): map<Entry, Entry?> {
    if c == [] then next[e := null] else next[e := null][c[|c| - 1] := e]
  }

  lemma ChainedAppend(heads: seq<Entry?>, next: map<Entry, Entry?>, chains: seq<seq<Entry>>, entries: set<Entry>,
                      b: nat, e: Entry)
    requires Placed(chains, entries) && Chained(heads, next, chains) && b < |chains| && e !in next
    ensures Chained(HeadsAppend(heads, chains[b], b, e), NextAppend(next, chains[b], e), chains[b := chains[b] + [e]])
  {
    hide Hash, Placed;
    var now, next' := chains[b := chains[b] + [e]], NextAppend(next, chains[b], e);
    forall x, i | 0 <= x < |now| && 0 <= i < |now[x]|
      ensures Follows(next', now[x], i)
    {
      if chains[b] != [] {
        assert Follows(next, chains[b], |chains[b]| - 1);
      }
      if x != b || i < |chains[b]| {
        assert Follows(next, chains[x], i);
        if chains[b] != [] && chains[x][i] == chains[b][|chains[b]| - 1] {
          SamePlace(chains, entries, x, i, b, |chains[b]| - 1);
        }
      }
    }
  }

  lemma KeysUpdated(m: map<CString, Pointer>, k: CString, v: Pointer)
    ensures m[k := v].Keys == m.Keys + {k}
  {
  }

  /** An iterator past bucket `b`, or at `item`, entry `i` of that bucket's chain. */
  ghost predicate Positioned(chains: seq<seq<Entry>>, b: int, item: Entry?, i: nat) {
    b >= -1 && (item != null ==> 0 <= b < |chains| && i < |chains[b]| && chains[b][i] == item)
  }

  /** The keys ahead of an iterator that is past bucket `b`, but for the entries of
      that bucket from `i` on if it is `within` it. */
  ghost function KeysAhead(chains: seq<seq<Entry>>, b: int, within: bool, i: nat): seq<CString>
    requires b >= -1 && (within ==> 0 <= b < |chains|)
  {
    (if within then KeysFrom(chains[b], i) else []) + AllFrom(chains, b + 1)
  }

  function Without(keys: seq<CString>, key: CString): seq<CString> {
    if keys == [] then [] else (if keys[0] == key then [] else [keys[0]]) + Without(keys[1..], key)
  }

  lemma {:induction false} WithoutConcat(a: seq<CString>, b: seq<CString>, key: CString)
    ensures Without(a + b, key) == Without(a, key) + Without(b, key)
  {

    if a == [] {
      assert a + b == b && Without(a, key) == [];
    } else {
      var first, t := a[0], a[1..];
      WithoutConcat(t, b, key);
      assert a == [first] + t;
      Assoc([first], t, b);
      WithoutStep(first, t, key);
      WithoutStep(first, t + b, key);
      Assoc([first], Without(t, key), Without(b, key));
    }
  }

  lemma Assoc(a: seq<CString>, b: seq<CString>, c: seq<CString>)
    ensures a + b + c == a + (b + c)
  {
  }

  ghost function Cut(chain: seq<Entry>, i: nat): seq<Entry>
    requires i < |chain|
  {
    chain[..i] + chain[i + 1..]
  }

  /** Cutting the entry with a key out of its chain takes that key, and nothing else,
      from what lies ahead. */
  lemma {:induction false} CutChain(c: seq<Entry>, i: nat, j: nat)
    requires i < |c| && j <= |c|
    requires forall k :: 0 <= k < |c| && k != i ==> c[k].key != c[i].key
    ensures KeysFrom(Cut(c, i), if j <= i then j else j - 1) == Without(KeysFrom(c, j), c[i].key)
    decreases |c| - j
  {
    hide KeysFrom;
    var d, key := Cut(c, i), c[i].key;
    var j' := if j <= i then j else j - 1;
    assert |d| == |c| - 1 && (j' < |d| && j != i ==> d[j'] == c[j]);
    KeysStep(c, j);
    KeysStep(d, j');
    if j < |c| {
      CutChain(c, i, j + 1);
      WithoutStep(c[j].key, KeysFrom(c, j + 1), key);
    } else {
      assert Without([], key) == [];
    }
  }

  lemma KeysStep(c: seq<Entry>, j: nat)
    ensures KeysFrom(c, j) == if j < |c| then [c[j].key] + KeysFrom(c, j + 1) else []
  {
  }

  lemma WithoutStep(first: CString, rest: seq<CString>, key: CString)
    ensures Without([first] + rest, key) == if first == key then Without(rest, key) else [first] + Without(rest, key)
  {
    assert ([first] + rest)[1..] == rest;
  }

  lemma {:induction false} OtherChain(c: seq<Entry>, j: nat, key: CString)
    requires forall k :: 0 <= k < |c| ==> c[k].key != key
    ensures Without(KeysFrom(c, j), key) == KeysFrom(c, j)
    decreases |c| - j
  {
    if j < |c| {
      OtherChain(c, j + 1, key);
      assert KeysFrom(c, j)[1..] == KeysFrom(c, j + 1);
    }
  }

  lemma {:induction false} CutAll(chains: seq<seq<Entry>>, entries: set<Entry>, b: nat, i: nat, x: nat)
    requires Placed(chains, entries) && b < |chains| && i < |chains[b]|
    ensures AllFrom(chains[b := Cut(chains[b], i)], x) == Without(AllFrom(chains, x), chains[b][i].key)
    decreases |chains| - x
  {
    hide Hash, Placed;
    if x < |chains| {
      CutAll(chains, entries, b, i, x + 1);
      WithoutConcat(KeysFrom(chains[x], 0), AllFrom(chains, x + 1), chains[b][i].key);
      CutOne(chains, entries, b, i, x, 0);
    }
  }

  lemma CutOne(chains: seq<seq<Entry>>, entries: set<Entry>, b: nat, i: nat, x: nat, j: nat)
    requires Placed(chains, entries) && b < |chains| && i < |chains[b]| && x < |chains| && j <= |chains[x]|
    ensures KeysFrom(chains[b := Cut(chains[b], i)][x], if x == b && j > i then j - 1 else j) ==
      Without(KeysFrom(chains[x], j), chains[b][i].key)
  {
    hide Hash;
    if x == b {
      CutChain(chains[b], i, j);
    } else {
      OtherChain(chains[x], j, chains[b][i].key);
    }
  }

  lemma CutAhead(chains: seq<seq<Entry>>, entries: set<Entry>, b: nat, i: nat, x: int, within: bool, j: nat)
    requires Placed(chains, entries) && b < |chains| && i < |chains[b]|
    requires x >= -1 && (within ==> 0 <= x < |chains| && j < |chains[x]|)
    ensures KeysAhead(chains[b := Cut(chains[b], i)], x, within, if x == b && j > i then j - 1 else j) ==
      Without(KeysAhead(chains, x, within, j), chains[b][i].key)
  {
    hide Placed, AllFrom, KeysFrom, Cut;
    CutAll(chains, entries, b, i, x + 1);
    if within {
      CutOne(chains, entries, b, i, x, j);
      WithoutConcat(KeysFrom(chains[x], j), AllFrom(chains, x + 1), chains[b][i].key);
    } else {
      WithoutConcat([], AllFrom(chains, x + 1), chains[b][i].key);
    }
  }

  /** An iterator survives the removal of any entry but the one it is at. */
  lemma PositionedCut(chains: seq<seq<Entry>>, entries: set<Entry>, b: nat, i: nat, x: int, item: Entry?, j: nat)
    requires Placed(chains, entries) && b < |chains| && i < |chains[b]| && Positioned(chains, x, item, j)
    ensures Positioned(chains[b := Cut(chains[b], i)], x, item, if x == b && j > i then j - 1 else j) <==>
      item == null || item.key != chains[b][i].key
  {
    hide Hash;
  }

  lemma CutAppended(chains: seq<seq<Entry>>, b: nat, e: Entry)
    requires b < |chains|
    ensures var more := chains[b := chains[b] + [e]]; more[b := Cut(more[b], |chains[b]|)] == chains
  {
    assert Cut(chains[b] + [e], |chains[b]|) == chains[b];
  }

  lemma {:induction false} AbsentAll(chains: seq<seq<Entry>>, x: nat, key: CString)
    requires forall b, i :: 0 <= b < |chains| && 0 <= i < |chains[b]| ==> chains[b][i].key != key
    ensures Without(AllFrom(chains, x), key) == AllFrom(chains, x)
    decreases |chains| - x
  {
    if x < |chains| {
      AbsentAll(chains, x + 1, key);
      OtherChain(chains[x], 0, key);
      WithoutConcat(KeysFrom(chains[x], 0), AllFrom(chains, x + 1), key);
    }
  }

  lemma AbsentAhead(chains: seq<seq<Entry>>, x: int, within: bool, j: nat, key: CString)
    requires forall b, i :: 0 <= b < |chains| && 0 <= i < |chains[b]| ==> chains[b][i].key != key
    requires x >= -1 && (within ==> 0 <= x < |chains|)
    ensures Without(KeysAhead(chains, x, within, j), key) == KeysAhead(chains, x, within, j)
  {
    AbsentAll(chains, x + 1, key);
    if within {
      OtherChain(chains[x], j, key);
      WithoutConcat(KeysFrom(chains[x], j), AllFrom(chains, x + 1), key);
    } else {
      assert [] + AllFrom(chains, x + 1) == AllFrom(chains, x + 1);
    }
  }

  lemma PlacedCut(chains: seq<seq<Entry>>, entries: set<Entry>, keys: set<CString>, b: nat, i: nat)
    requires Placed(chains, entries) && Complete(chains, keys) && b < |chains| && i < |chains[b]|
    ensures Placed(chains[b := Cut(chains[b], i)], entries - {chains[b][i]})
    ensures Complete(chains[b := Cut(chains[b], i)], keys - {chains[b][i].key})
  {
    hide Hash;
    var now, e := chains[b := Cut(chains[b], i)], chains[b][i];
    forall k | k in keys && k != e.key
      ensures Present(k, now[Hash(k, |chains|)])
    {
      var h := Hash(k, |chains|);
      var j :| 0 <= j < |chains[h]| && chains[h][j].key == k;
      assert now[h][if h == b && j > i then j - 1 else j].key == k;
    }
  }

  /** What unhanging entry `i` of chain `c` does to the bucket heads... */
  ghost function HeadsCut(heads: seq<Entry?>, c: seq<Entry>, b: nat, i: nat): seq<Entry?>
    requires b < |heads|
  {
    if i == 0 then heads[b := At(c, 1)] else heads
  }

  /** ...and to the links of the others. */
  ghost function NextCut(next: map<Entry, Entry?>, c: seq<Entry>, i: nat): map<Entry, Entry?>
    requires i < |c|
  {
    (if i == 0 then next else next[c[i - 1] := At(c, i + 1)]) - {c[i]}
  }

  lemma ChainedCut(heads: seq<Entry?>, next: map<Entry, Entry?>, chains: seq<seq<Entry>>, entries: set<Entry>,
                   b: nat, i: nat)
    requires Placed(chains, entries) && Chained(heads, next, chains) && b < |chains| && i < |chains[b]|
    ensures Chained(HeadsCut(heads, chains[b], b, i), NextCut(next, chains[b], i), chains[b := Cut(chains[b], i)])
  {
    hide Hash, Placed;
    var now, next' := chains[b := Cut(chains[b], i)], NextCut(next, chains[b], i);
    forall x, j | 0 <= x < |now| && 0 <= j < |now[x]|
      ensures Follows(next', now[x], j)
    {
      var j' := if x == b && j >= i then j + 1 else j;
      assert now[x][j] == chains[x][j'] && Follows(next, chains[x], j');
      if chains[x][j'] == chains[b][i] {
        SamePlace(chains, entries, x, j', b, i);
      }
      if i > 0 && chains[x][j'] == chains[b][i - 1] {
        SamePlace(chains, entries, x, j', b, i - 1);
      }
    }
  }

  ghost function Links(entries: set<Entry>): map<Entry, Entry?>
    reads entries`next
  {
    map e | e in entries :: e.next
  }

  /** The entries hold what `m` says. */
  ghost predicate Tells(entries: set<Entry>, m: map<CString, Pointer>)
    reads entries`value
  {
    forall e :: e in entries ==> e.key in m && m[e.key] == e.value
  }

  lemma TellsNew(entries: set<Entry>, m: map<CString, Pointer>, e: Entry)
    requires Tells(entries, m) && e.key !in m
    ensures Tells(entries + {e}, m[e.key := e.value])
  {
  }

  lemma TellsCut(entries: set<Entry>, m: map<CString, Pointer>, e: Entry)
    requires Tells(entries, m) && forall f :: f in entries && f.key == e.key ==> f == e
    ensures Tells(entries - {e}, m - {e.key})
  {
  }

  lemma LinksCut(entries: set<Entry>, e: Entry)
    ensures Links(entries - {e}) == Links(entries) - {e}
  {
  }

  lemma KeysCut(m: map<CString, Pointer>, k: CString)
    requires k in m
    ensures (m - {k}).Keys == m.Keys - {k} && |m - {k}| == |m| - 1
  {
  }

  lemma NotLinked(entries: set<Entry>, e: Entry)
    requires e !in entries
    ensures e !in Links(entries)
  {
  }

  lemma InTable(chains: seq<seq<Entry>>, entries: set<Entry>, b: nat, i: nat)
    requires Placed(chains, entries) && b < |chains| && i < |chains[b]|
    ensures chains[b][i] in entries
  {
    hide Hash;
  }

  lemma LinksNew(entries: set<Entry>, e: Entry)
    ensures Links(entries + {e}) == Links(entries)[e := e.next]
  {
  }

  class Table {
    const buckets: array<Entry?>
    var keyCount: int
    var currentBucket: int
    var nextItem: Entry?
    ghost var chains: seq<seq<Entry>>     // the entries reached from each bucket
    ghost var entries: set<Entry>
    ghost var contents: map<CString, Pointer>
    ghost var index: nat                  // where nextItem is in its chain

    ghost predicate Valid()
      reads `chains, `contents, `entries, `keyCount, buckets, entries
    {
      && Placed(chains, entries) && Complete(chains, contents.Keys)
      && Chained(buckets[..], Links(entries), chains)
      && Tells(entries, contents)
      && keyCount == |contents|
    }

    /** The iterator is at an entry of the table, or between chains. */
    ghost predicate Iterating()
      reads `chains, `currentBucket, `nextItem, `index
    {
      Positioned(chains, currentBucket, nextItem, index)
    }

    /** The keys that gu_pch_nextkey() has still to return, in order. */
    ghost function Remaining(): seq<CString>
      requires Iterating()
      reads `chains, `currentBucket, `nextItem, `index
    {
      KeysAhead(chains, currentBucket, nextItem != null, index)
    }

    /** gu_pch_new() */
    constructor (bucketCount: nat)
      requires bucketCount >= 1
      ensures Valid() && Iterating() && contents == map[] && fresh(buckets) && entries == {}
      ensures buckets.Length == bucketCount && Remaining() == []
    {
      buckets := new Entry?[bucketCount](_ => null);
      keyCount, currentBucket, nextItem := 0, -1, null;
      chains, entries, contents, index := seq(bucketCount, _ => []), {}, map[], 0;
      new;
      NothingFrom(chains, 0);
    }

    lemma BetweenChains()
      requires Valid() && Iterating() && nextItem == null
      ensures |chains| == buckets.Length && currentBucket >= -1 && Remaining() == AllFrom(chains, currentBucket + 1)
    {
    }

    lemma ChainOf(b: nat)
      requires Valid() && b < buckets.Length
      ensures |chains| == buckets.Length && buckets[b] == At(chains[b], 0)
    {
    }

    lemma NextOf(b: nat, i: nat)
      requires Valid() && b < |chains| && i < |chains[b]|
      ensures chains[b][i].next == At(chains[b], i + 1)
    {
      assert Follows(Links(entries), chains[b], i);
    }

    /** A key of the table is on the chain that it hashes to, at one place. */
    lemma OnItsChain(key: CString, b: nat, i: nat)
      requires Valid() && b < |chains|
      ensures i < |chains[b]| && chains[b][i].key == key ==>
        key in contents && contents[key] == chains[b][i].value && b == Hash(key, |chains|)
      ensures b == Hash(key, |chains|) ==> (key in contents <==> Present(key, chains[b]))
    {
      hide Hash;
    }

    /** The walk along a chain in gu_pch_set(), gu_pch_get() and gu_pch_delete(): the
        entry with that key, or null at the end, and the entry before it. */
    method Find(key: CString) returns (b: nat, prev: Entry?, entry: Entry?, ghost i: nat)
      requires Valid()
      ensures |chains| == buckets.Length && b == Hash(key, buckets.Length) && i <= |chains[b]|
      ensures entry == At(chains[b], i) && prev == if i == 0 then null else chains[b][i - 1]
      ensures entry != null <==> key in contents
      ensures entry != null ==> entry.key == key && contents[key] == entry.value
    {
      hide Complete, Follows, Hash, Links, Tells;
      assert |chains| == buckets.Length >= 1;
      b := GuHash(key, buckets.Length);
      ChainOf(b);
      ghost var c := chains[b];
      entry, prev, i := buckets[b], null, 0;
      assert !Present(key, c[..0]);
      while entry != null && entry.key != key
        invariant i <= |c| && entry == At(c, i) && prev == if i == 0 then null else c[i - 1]
        invariant !Present(key, c[..i]) && c == chains[b]
        decreases |c| - i
      {
        assert i < |c| && entry == c[i];
        NextOf(b, i);
        StillAbsent(key, c, i);
        prev, entry, i := entry, entry.next, i + 1;
      }
      OnItsChain(key, b, i);
      assert entry == if i < |c| then c[i] else null;
      if i == |c| {
        assert c[..i] == c;
      }
    }

    lemma StillAbsent(key: CString, c: seq<Entry>, i: nat)
      requires i < |c| && c[i].key != key && !Present(key, c[..i])
      ensures !Present(key, c[..i + 1])
    {
      assert forall j :: 0 <= j < i ==> c[..i][j] == c[j];
    }

    /** gu_pch_get() */
    method Get(key: CString) returns (r: Pointer)
      requires Valid()
      ensures r == if key in contents then contents[key] else NULL
    {
      hide Placed, Chained, Tells, Hash;
      var _, _, entry, _ := Find(key);
      r := if entry != null then entry.value else NULL;
    }

    /** `*entry_pp = entry` at the end of chain `c` */
    method Hang(b: nat, prev: Entry?, entry: Entry, ghost c: seq<Entry>, ghost next: map<Entry, Entry?>)
      requires b < buckets.Length && entry in entries && Links(entries) == next[entry := null]
      requires prev == (if c == [] then null else c[|c| - 1]) && (prev != null ==> prev in entries)
      modifies buckets, entries`next
      ensures buckets[..] == HeadsAppend(old(buckets[..]), c, b, entry)
      ensures Links(entries) == NextAppend(next, c, entry)
    {
      if prev == null {
        buckets[b] := entry;
      } else {
        prev.next := entry;
      }
    }

    /** Count a new entry in. */
    ghost method Adopt(entry: Entry, b: nat)
      requires Placed(chains, entries) && Complete(chains, contents.Keys) && Tells(entries, contents)
      requires entry.key !in contents && b == Hash(entry.key, |chains|)
      modifies `chains, `entries, `contents
      ensures chains == old(chains)[b := old(chains)[b] + [entry]] && entries == old(entries) + {entry}
      ensures contents == old(contents)[entry.key := entry.value] && |contents| == old(|contents|) + 1
      ensures Placed(chains, entries) && Complete(chains, contents.Keys) && Tells(entries, contents)
    {
      hide Complete, Hash, Placed;
      assert forall e :: e in entries ==> e.key in contents.Keys;
      PlacedAppend(chains, entries, contents.Keys, b, entry);
      TellsNew(entries, contents, entry);
      KeysUpdated(contents, entry.key, entry.value);
      chains := chains[b := chains[b] + [entry]];
      entries := entries + {entry};
      contents := contents[entry.key := entry.value];
    }

    /** The end of gu_pch_set() for a new key: hang a new entry on the end of the chain. */
    method Append(key: CString, value: Pointer, b: nat, prev: Entry?) returns (entry: Entry)
      requires Valid() && key !in contents && b == Hash(key, |chains|) && |chains| == buckets.Length
      requires prev == if chains[b] == [] then null else chains[b][|chains[b]| - 1]
      modifies `keyCount, `chains, `entries, `contents, buckets, entries`next
      ensures Valid() && contents == old(contents)[key := value] && fresh(entries - old(entries))
      ensures entry.key == key && chains == old(chains)[b := old(chains)[b] + [entry]]
    {
      hide Chained, Complete, Hash, HeadsAppend, Links, NextAppend, Placed, Tells;
      ghost var c, heads, was := chains[b], buckets[..], Links(entries);
      assert Placed(chains, entries) && Complete(chains, contents.Keys) && Chained(heads, was, chains);
      assert Tells(entries, contents) && keyCount == |contents|;
      entry := new Entry(key, value);
      NotLinked(entries, entry);
      ChainedAppend(heads, was, chains, entries, b, entry);
      if prev != null {
        InTable(chains, entries, b, |c| - 1);
      }
      LinksNew(entries, entry);
      Adopt(entry, b);
      keyCount := keyCount + 1;
      Hang(b, prev, entry, c, was);
      assert Valid();
    }

    /** gu_pch_set(). A traversal under way goes on as before, but may come to the new key. */
    method Set(key: CString, value: Pointer)
      requires Valid()
      modifies `keyCount, `chains, `entries, `contents, buckets, entries
      ensures Valid() && contents == old(contents)[key := value] && fresh(entries - old(entries))
      ensures old(Iterating()) ==>
        Iterating() && old(Remaining()) == if key in old(contents) then Remaining() else Without(Remaining(), key)
    {
      hide AllFrom, Chained, Complete, Cut, Hash, KeysFrom, Links, Tells, Without;
      var b, prev, entry, i := Find(key);
      if entry != null {
        assert entry in entries;
        SetValue(entry, value);
      } else {
        assert i == |chains[b]|;
        ghost var was := chains;
        entry := Append(key, value, b, prev);
        if old(Iterating()) {
          CutAppended(was, b, entry);
          assert Placed(chains, entries) && chains[b][i] == entry;
          CutAhead(chains, entries, b, i, currentBucket, nextItem != null, index);
        }
      }
    }

    /** `entry->value = value` */
    method SetValue(entry: Entry, value: Pointer)
      requires Valid() && entry in entries
      modifies `contents, entry`value
      ensures Valid() && contents == old(contents)[entry.key := value]
    {
      hide Chained, Complete, Hash, Links;
      ghost var next := Links(entries);
      assert Placed(chains, entries) && Complete(chains, contents.Keys) && Chained(buckets[..], next, chains);
      assert Tells(entries, contents) && keyCount == |contents|;
      assert entry.key in contents;
      assert forall e :: e in entries && e.key == entry.key ==> e == entry;
      KeysUpdated(contents, entry.key, value);
      assert contents.Keys + {entry.key} == contents.Keys;
      entry.value := value;
      contents := contents[entry.key := value];
      assert Tells(entries, contents);
      assert Valid();
    }

    /** `*entry_pp = entry->next` */
    method Unhang(b: nat, prev: Entry?, entry: Entry, ghost c: seq<Entry>, ghost i: nat)
      requires b < buckets.Length && i < |c| && entry == c[i] && entry.next == At(c, i + 1)
      requires prev == (if i == 0 then null else c[i - 1]) && (prev != null ==> prev in entries && prev != entry)
      requires entry in entries
      modifies buckets, entries`next
      ensures buckets[..] == HeadsCut(old(buckets[..]), c, b, i)
      ensures Links(entries) - {entry} == NextCut(old(Links(entries)), c, i)
    {
      if prev == null {
        buckets[b] := entry.next;
      } else {
        prev.next := entry.next;
      }
    }

    /** Count an entry out, and move the place of the iterator if that is beyond it. */
    ghost method Discard(entry: Entry, b: nat, i: nat)
      requires Placed(chains, entries) && Complete(chains, contents.Keys) && Tells(entries, contents)
      requires b < |chains| && i < |chains[b]| && entry == chains[b][i]
      modifies `chains, `entries, `contents, `index
      ensures chains == old(chains)[b := Cut(old(chains)[b], i)] && entries == old(entries) - {entry}
      ensures contents == old(contents) - {entry.key} && |contents| == old(|contents|) - 1
      ensures Placed(chains, entries) && Complete(chains, contents.Keys) && Tells(entries, contents)
      ensures index == if currentBucket == b && old(index) > i then old(index) - 1 else old(index)
    {
      hide Complete, Cut, Hash;
      assert entry in entries && forall e :: e in entries && e.key == entry.key ==> e == entry;
      assert entry.key in contents;
      PlacedCut(chains, entries, contents.Keys, b, i);
      TellsCut(entries, contents, entry);
      KeysCut(contents, entry.key);
      chains := chains[b := Cut(chains[b], i)];
      entries := entries - {entry};
      contents := contents - {entry.key};
      if currentBucket == b && index > i {
        index := index - 1;
      }
    }

    lemma InPlace(b: nat, i: nat)
      requires b < |chains| && i < |chains[b]| && Placed(chains, entries)
      ensures chains[b][i] in entries
      ensures i > 0 ==> chains[b][i - 1] in entries && chains[b][i - 1] != chains[b][i]
    {
    }

    /** The end of gu_pch_delete() for a key of the table. */
    method Remove(b: nat, prev: Entry?, entry: Entry, ghost i: nat)
      requires Valid() && |chains| == buckets.Length
      requires b < |chains| && i < |chains[b]| && entry == chains[b][i]
      requires prev == if i == 0 then null else chains[b][i - 1]
      modifies `keyCount, `chains, `entries, `contents, `index, buckets, entries`next
      ensures Valid() && contents == old(contents) - {entry.key} && entries == old(entries) - {entry}
      ensures chains == old(chains)[b := Cut(old(chains)[b], i)]
      ensures index == if currentBucket == b && old(index) > i then old(index) - 1 else old(index)
    {
      hide At, Chained, Complete, Cut, Hash, HeadsCut, Links, NextCut, Placed, Tells;
      ghost var c, heads, was := chains[b], buckets[..], Links(entries);
      assert Placed(chains, entries) && Complete(chains, contents.Keys) && Chained(heads, was, chains);
      assert Tells(entries, contents) && keyCount == |contents|;
      ChainedCut(heads, was, chains, entries, b, i);
      NextOf(b, i);
      InPlace(b, i);
      Unhang(b, prev, entry, c, i);
      LinksCut(entries, entry);
      keyCount := keyCount - 1;
      Discard(entry, b, i);
      assert Valid();
    }

    /** gu_pch_delete(). A traversal under way goes on, without the key, exactly if
        the key is not the one that it would come to next: that entry is freed, and
        the iterator left pointing to it. */
    method Delete(key: CString) returns (r: Pointer)
      requires Valid()
      modifies `keyCount, `chains, `entries, `contents, `index, buckets, entries`next
      ensures Valid() && contents == old(contents) - {key}
      ensures r == if key in old(contents) then old(contents)[key] else NULL
      ensures old(Iterating()) ==> (Iterating() <==> nextItem == null || nextItem.key != key)
      ensures old(Iterating()) && Iterating() ==> Remaining() == Without(old(Remaining()), key)
    {
      hide Chained, Complete, Cut, Hash, KeysAhead, Links, Placed, Tells, Without;
      var b, prev, entry, i := Find(key);
      if entry == null {
        r := NULL;
        NotThere(key);
        assert old(Iterating()) ==> nextItem == null || nextItem.key != key;
        assert contents == contents - {key};
        if Iterating() {
          assert currentBucket >= -1 && (nextItem != null ==> 0 <= currentBucket < |chains|);
          AbsentAhead(chains, currentBucket, nextItem != null, index, key);
        }
      } else {
        r := entry.value;
        assert i < |chains[b]|;
        assert entry == chains[b][i] && |chains| == buckets.Length;
        assert Placed(chains, entries);
        if Iterating() {
          PositionedCut(chains, entries, b, i, currentBucket, nextItem, index);
          assert currentBucket >= -1 && (nextItem != null ==>
            0 <= currentBucket < |chains| && index < |chains[currentBucket]|);
          CutAhead(chains, entries, b, i, currentBucket, nextItem != null, index);
        }
        Remove(b, prev, entry, i);
      }
    }

    lemma NotThere(key: CString)
      requires Valid() && key !in contents
      ensures forall b, i :: 0 <= b < |chains| && 0 <= i < |chains[b]| ==> chains[b][i].key != key
    {
      hide Hash;
    }

    /** gu_pch_size() */
    method Size() returns (r: int)
      requires Valid()
      ensures r == |contents|
    {
      hide Placed, Chained, Tells, Hash;
      r := keyCount;
    }

    lemma AllOnce()
      requires Valid()
      ensures var keys := AllFrom(chains, 0);
        Distinct(keys) && |keys| == |contents| && forall k :: k in keys <==> k in contents
    {
      hide AllFrom, Chained, Complete, Distinct, Placed, Tells;
      EveryKeyOnce(chains, entries, contents);
    }

    /** gu_pch_rewind() */
    method Rewind()
      requires Valid()
      modifies `currentBucket, `nextItem
      ensures Valid() && Iterating() && Remaining() == AllFrom(chains, 0)
    {
      hide Placed, Chained, Tells, Hash;
      currentBucket := -1;
      nextItem := null;
    }

    /** The search of gu_pch_nextkey() for the next bucket that is not empty. */
    method NextBucket()
      requires Valid() && Iterating() && nextItem == null
      modifies `currentBucket, `nextItem, `index
      ensures Valid() && Iterating() && Remaining() == old(Remaining())
      ensures nextItem == null ==> Remaining() == []
    {
      hide KeysFrom, Valid;
      BetweenChains();
      currentBucket := currentBucket + 1;
      while currentBucket < buckets.Length
        invariant currentBucket >= 0 && nextItem == null && Valid() && |chains| == buckets.Length
        invariant AllFrom(chains, currentBucket) == old(Remaining())
        decreases buckets.Length - currentBucket
      {
        ChainOf(currentBucket);
        AllStep(chains, currentBucket);
        nextItem := buckets[currentBucket];
        index := 0;
        if nextItem != null {
          break;
        }
        assert chains[currentBucket] == [];
        currentBucket := currentBucket + 1;
      }
      assert nextItem == null ==> AllFrom(chains, currentBucket) == [] && AllFrom(chains, currentBucket + 1) == [];
    }

    /** What is known of the entry that the iterator is at. */
    lemma AtItem(c: seq<Entry>, i: nat)
      requires Valid() && Iterating() && nextItem != null && c == chains[currentBucket] && i == index
      ensures 0 <= currentBucket < |chains| && i < |c| && c[i] == nextItem && nextItem.next == At(c, i + 1)
      ensures Remaining() == [nextItem.key] + (KeysFrom(c, i + 1) + AllFrom(chains, currentBucket + 1))
      ensures nextItem.key in contents && contents[nextItem.key] == nextItem.value
    {
      hide AllFrom, At, Hash, Present, Valid;
      assert 0 <= currentBucket < |chains| && i < |c| && c[i] == nextItem;
      NextOf(currentBucket, i);
      OnItsChain(c[i].key, currentBucket, i);
      assert KeysFrom(c, i) == [c[i].key] + KeysFrom(c, i + 1);
    }

    /** The rest of gu_pch_nextkey(): return the key reached and step to the next entry. */
    method TakeItem() returns (key: CString, value: Pointer)
      requires Valid() && Iterating() && nextItem != null
      modifies `nextItem, `index
      ensures Valid() && Iterating() && [key] + Remaining() == old(Remaining())
      ensures key in contents && contents[key] == value
    {
      hide AllFrom, Valid;
      assert 0 <= currentBucket < |chains|;
      ghost var c := chains[currentBucket];
      AtItem(c, index);
      key, value := nextItem.key, nextItem.value;
      nextItem := nextItem.next;
      index := index + 1;
      assert Iterating() && Remaining() == KeysFrom(c, index) + AllFrom(chains, currentBucket + 1);
    }

    /** gu_pch_nextkey() */
    method NextKey() returns (found: bool, key: CString, value: Pointer)
      requires Valid() && Iterating()
      modifies `currentBucket, `nextItem, `index
      ensures Valid() && Iterating()
      ensures found <==> old(Remaining()) != []
      ensures found ==> [key] + Remaining() == old(Remaining()) && key in contents && contents[key] == value
      ensures !found ==> Remaining() == []
    {
      hide *;
      if nextItem == null {
        NextBucket();
      }
      found, key, value := nextItem != null, [], NULL;
      if nextItem != null {
        key, value := TakeItem();
      }
    }
  }

  ghost predicate Distinct(keys: seq<CString>) {
    forall i, j :: 0 <= i < j < |keys| ==> keys[i] != keys[j]
  }

  lemma DistinctConcat(a: seq<CString>, b: seq<CString>)
    requires Distinct(a) && Distinct(b) && forall k :: k in a ==> k !in b
    ensures Distinct(a + b)
  {
    forall i, j | 0 <= i < j < |a + b|
      ensures (a + b)[i] != (a + b)[j]
    {
      if i < |a| <= j {
        assert a[i] in a && b[j - |a|] in b;
      }
    }
  }

  lemma {:induction false} KeysOfChain(c: seq<Entry>, j: nat, key: CString)
    ensures key in KeysFrom(c, j) <==> exists i :: j <= i < |c| && c[i].key == key
    decreases |c| - j
  {
    if j < |c| {
      KeysOfChain(c, j + 1, key);
    }
  }

  lemma {:induction false} KeysOfAll(chains: seq<seq<Entry>>, x: nat, key: CString)
    ensures key in AllFrom(chains, x) <==> exists b :: x <= b < |chains| && key in KeysFrom(chains[b], 0)
    decreases |chains| - x
  {
    hide KeysFrom;
    if x < |chains| {
      KeysOfAll(chains, x + 1, key);
      assert key in AllFrom(chains, x) <==> key in KeysFrom(chains[x], 0) || key in AllFrom(chains, x + 1);
    }
  }

  lemma {:induction false} ChainDistinct(c: seq<Entry>, j: nat)
    requires forall i, k :: 0 <= i < k < |c| ==> c[i].key != c[k].key
    ensures Distinct(KeysFrom(c, j))
    decreases |c| - j
  {
    if j < |c| {
      ChainDistinct(c, j + 1);
      KeysOfChain(c, j + 1, c[j].key);
    }
  }

  lemma {:induction false} AllDistinct(chains: seq<seq<Entry>>, entries: set<Entry>, x: nat)
    requires Placed(chains, entries)
    ensures Distinct(AllFrom(chains, x))
    decreases |chains| - x
  {
    if x < |chains| {
      hide Hash;
      AllDistinct(chains, entries, x + 1);
      ChainDistinct(chains[x], 0);
      forall k | k in KeysFrom(chains[x], 0)
        ensures k !in AllFrom(chains, x + 1)
      {
        Apart(chains, entries, x, k);
      }
      DistinctConcat(KeysFrom(chains[x], 0), AllFrom(chains, x + 1));
    }
  }

  lemma Apart(chains: seq<seq<Entry>>, entries: set<Entry>, x: nat, key: CString)
    requires Placed(chains, entries) && x < |chains| && key in KeysFrom(chains[x], 0)
    ensures key !in AllFrom(chains, x + 1)
  {
    hide Hash;
    KeysOfChain(chains[x], 0, key);
    KeysOfAll(chains, x + 1, key);
    if key in AllFrom(chains, x + 1) {
      var b :| x + 1 <= b < |chains| && key in KeysFrom(chains[b], 0);
      KeysOfChain(chains[b], 0, key);
    }
  }

  lemma {:induction false} SizeOfDistinct(keys: seq<CString>, s: set<CString>)
    requires Distinct(keys) && forall k :: k in keys <==> k in s
    ensures |keys| == |s|
  {
    if keys == [] {
      assert s == {};
    } else {
      var last := keys[|keys| - 1];
      var rest := keys[..|keys| - 1];
      assert keys == rest + [last];
      forall k ensures k in rest <==> k in s - {last} { assert k in keys <==> k in rest || k == last; }
      SizeOfDistinct(rest, s - {last});
    }
  }

  /** What a traversal from the start has ahead is every key once. */
  lemma EveryKeyOnce(chains: seq<seq<Entry>>, entries: set<Entry>, m: map<CString, Pointer>)
    requires Placed(chains, entries) && Complete(chains, m.Keys) && Tells(entries, m)
    ensures Distinct(AllFrom(chains, 0)) && |AllFrom(chains, 0)| == |m|
    ensures forall k :: k in AllFrom(chains, 0) <==> k in m
  {
    var keys := AllFrom(chains, 0);
    AllDistinct(chains, entries, 0);
    forall k
      ensures k in keys <==> k in m
    {
      KeyAhead(chains, entries, m, k);
    }
    SizeOfDistinct(keys, m.Keys);
  }

  lemma KeyAhead(chains: seq<seq<Entry>>, entries: set<Entry>, m: map<CString, Pointer>, k: CString)
    requires Placed(chains, entries) && Complete(chains, m.Keys) && Tells(entries, m)
    ensures k in AllFrom(chains, 0) <==> k in m
  {
    hide Hash;
    KeysOfAll(chains, 0, k);
    if k in AllFrom(chains, 0) {
      var b :| 0 <= b < |chains| && k in KeysFrom(chains[b], 0);
      KeysOfChain(chains[b], 0, k);
    }
    if k in m {
      KeysOfChain(chains[Hash(k, |chains|)], 0, k);
    }
  }

  lemma OneTaken(keys: seq<CString>, key: CString, rest: seq<CString>)
    ensures keys + ([key] + rest) == keys + [key] + rest
  {
  }

  /** The loop gu_pch_rewind() and gu_pch_nextkey() are for. */
  method Traverse(t: Table) returns (keys: seq<CString>, values: seq<Pointer>)
    requires t.Valid()
    modifies t`currentBucket, t`nextItem, t`index
    ensures t.Valid() && |keys| == |values| == |t.contents| && Distinct(keys)
    ensures forall k :: k in keys <==> k in t.contents
    ensures forall i :: 0 <= i < |keys| ==> keys[i] in t.contents && values[i] == t.contents[keys[i]]
  {
    hide *;
    ghost var all := AllFrom(t.chains, 0);
    t.AllOnce();
    t.Rewind();
    keys, values := [], [];
    var found, key, value := t.NextKey();
    ghost var ahead := (if found then [key] else []) + t.Remaining();
    assert ahead == all;
    while found
      invariant t.Valid() && t.Iterating() && |keys| == |values|
      invariant keys + ahead == all && ahead == (if found then [key] else []) + t.Remaining()
      invariant !found ==> t.Remaining() == []
      invariant found ==> key in t.contents && t.contents[key] == value
      invariant forall i :: 0 <= i < |keys| ==> keys[i] in t.contents && values[i] == t.contents[keys[i]]
      decreases |t.Remaining()|, found
    {
      OneTaken(keys, key, t.Remaining());
      keys, values := keys + [key], values + [value];
      found, key, value := t.NextKey();
      ahead := (if found then [key] else []) + t.Remaining();
    }
    assert keys == all;
  }

  lemma AllStep(chains: seq<seq<Entry>>, b: nat)
    requires b < |chains|
    ensures AllFrom(chains, b) == KeysFrom(chains[b], 0) + AllFrom(chains, b + 1)
    ensures chains[b] == [] ==> KeysFrom(chains[b], 0) == [] && AllFrom(chains, b) == AllFrom(chains, b + 1)
  {
  }

  lemma {:induction false} NothingFrom(chains: seq<seq<Entry>>, b: nat)
    requires forall c :: 0 <= c < |chains| ==> chains[c] == []
    ensures AllFrom(chains, b) == []
    decreases |chains| - b
  {
    if b < |chains| {
      NothingFrom(chains, b + 1);
    }
  }
}

// Sliding arrays (libgu/gu_pca.c), and splitting and joining with them
// (libgu/gu_pcre_split.c, libgu/gu_pca_join.c).

module PerlArray {
  /** A `char *`. */
  datatype Item = NULL | Text(text: string)

  datatype Found = Slot(item: Item) | Beyond      // a slot of the storage, or outside it

  class Pca {
    var removedAtStart: nat
    var sizeUsed: nat
    var storage: array<Item>                      // size_allocated is its length
    const increment: nat

    ghost predicate Valid()
      reads `removedAtStart, `sizeUsed, `storage
    {
      removedAtStart <= sizeUsed <= storage.Length
    }

    ghost function View(): seq<Item>
      requires Valid()
      reads `removedAtStart, `sizeUsed, `storage, storage
    {
      storage[removedAtStart..sizeUsed]
    }

    /** gu_pca_new() */
    constructor (initialSize: nat, increment: nat)
      ensures Valid() && View() == [] && fresh(storage) && this.increment == increment
    {
      this.increment := increment;
      removedAtStart, sizeUsed, storage := 0, 0, new Item[initialSize](_ => NULL);
    }

    /** gu_pca_size() */
    method Size() returns (n: int)
      requires Valid()
      ensures n == |View()|
    {
      n := sizeUsed - removedAtStart;
    }

    /** gu_pca_index(). The bounds are those of the used slots from the start of the
        storage, and one more: the element is right exactly within the array, and NULL
        exactly one past its end and beyond, or before the start of the storage. */
    method Index(i: int) returns (r: Found)
      requires Valid()
      ensures 0 <= i < |View()| ==> r == Slot(View()[i])
      ensures i > |View()| || i + removedAtStart < 0 ==> r == Slot(NULL)
      ensures i == |View()| ==> r == if sizeUsed == storage.Length then Beyond else Slot(storage[sizeUsed])
      ensures i < 0 <= i + removedAtStart ==> r == Slot(storage[i + removedAtStart])
    {
      var index := i + removedAtStart;
      if index >= 0 && index <= sizeUsed {
        return if index < storage.Length then Slot(storage[index]) else Beyond;
      }
      return Slot(NULL);
    }

    /** gu_pca_pop() */
    method Pop() returns (r: Item)
      requires Valid()
      modifies `sizeUsed
      ensures Valid()
      ensures old(View()) == [] ==> r == NULL && View() == []
      ensures old(View()) != [] ==> View() + [r] == old(View())
    {
      if sizeUsed > removedAtStart {
        sizeUsed := sizeUsed - 1;
        return storage[sizeUsed];
      }
      return NULL;
    }

    /** gu_pca_shift() */
    method Shift() returns (r: Item)
      requires Valid()
      modifies `removedAtStart
      ensures Valid()
      ensures old(View()) == [] ==> r == NULL && View() == []
      ensures old(View()) != [] ==> [r] + View() == old(View())
    {
      if sizeUsed > removedAtStart {
        removedAtStart := removedAtStart + 1;
        return storage[removedAtStart - 1];
      }
      return NULL;
    }

    /** gu_pca_expand(), which throws an exception if the array is not growable. */
    method Expand() returns (ok: bool)
      requires Valid()
      modifies `storage
      ensures Valid() && View() == old(View()) && (ok <==> increment > 0)
      ensures if ok then fresh(storage) && storage.Length == old(storage.Length) + increment else storage == old(storage)
    {
      if increment <= 0 {
        return false;
      }
      var was := storage;
      var larger := new Item[was.Length + increment](i requires 0 <= i reads was => if i < was.Length then was[i] else NULL);
      storage := larger;
      ok := true;
    }

    /** gu_pca_push(). It refuses exactly if every slot is live and there can be no more. */
    method Push(item: Item) returns (ok: bool)
      requires Valid()
      modifies `removedAtStart, `sizeUsed, `storage, storage
      ensures Valid() && (storage == old(storage) || fresh(storage))
      ensures ok <==> !(|old(View())| == old(storage.Length) && increment == 0)
      ensures View() == if ok then old(View()) + [item] else old(View())
    {
      ok := true;
      if sizeUsed == storage.Length {
        if removedAtStart > 0 {
          MoveDown();
        } else {
          ok := Expand();
          if !ok {
            return;
          }
        }
      }
      ghost var was := View();
      storage[sizeUsed] := item;
      sizeUsed := sizeUsed + 1;
      assert View()[..|was|] == was;
    }

    /** memmove() of the live slots to the start of the storage. */
    method MoveDown()
      requires Valid()
      modifies `removedAtStart, `sizeUsed, storage
      ensures Valid() && removedAtStart == 0 && View() == old(View())
    {
      var n, k := sizeUsed - removedAtStart, removedAtStart;
      forall i | 0 <= i < n {
        storage[i] := storage[i + k];
      }
      sizeUsed, removedAtStart := n, 0;
    }

    /** gu_pca_unshift() */
    method Unshift(item: Item) returns (ok: bool)
      requires Valid()
      modifies `removedAtStart, `sizeUsed, `storage, storage
      ensures Valid() && (storage == old(storage) || fresh(storage))
      ensures ok <==> !(|old(View())| == old(storage.Length) && increment == 0)
      ensures View() == if ok then [item] + old(View()) else old(View())
    {
      ok := true;
      ghost var was := View();
      if removedAtStart > 0 {
        removedAtStart := removedAtStart - 1;
        storage[removedAtStart] := item;
      } else {
        if sizeUsed == storage.Length {
          ok := Expand();
          if !ok {
            return;
          }
        }
        forall i | 1 <= i <= sizeUsed {
          storage[i] := storage[i - 1];
        }
        sizeUsed := sizeUsed + 1;
        storage[0] := item;
      }
      assert View()[1..] == was;
    }
  }

  // ---------------------------------------------------------------- split, join

  predicate At(separator: string, s: string, i: nat) {
    i + |separator| <= |s| && s[i..i + |separator|] == separator
  }

  /** The leftmost match of a fixed string from `i` on. */
  function Match(separator: string, s: string, i: nat): (r: int)
    ensures r == -1 || (i <= r && At(separator, s, r))
    ensures r == -1 ==> forall j :: i <= j ==> !At(separator, s, j)
    ensures r != -1 ==> forall j :: i <= j < r ==> !At(separator, s, j)
    decreases |s| - i
  {
    if At(separator, s, i) then i else if i < |s| then Match(separator, s, i + 1) else -1
  }

  function Joined(separator: string, pieces: seq<Item>): string
    requires forall i :: 0 <= i < |pieces| ==> pieces[i].Text?
  {
    if pieces == [] then ""
    else if |pieces| == 1 then pieces[0].text
    else Joined(separator, pieces[..|pieces| - 1]) + separator + pieces[|pieces| - 1].text
  }

  /** Pieces of text without the separator in them. */
  ghost predicate Pieces(separator: string, pieces: seq<Item>) {
    forall i :: 0 <= i < |pieces| ==> pieces[i].Text? && forall j :: 0 <= j ==> !At(separator, pieces[i].text, j)
  }

  lemma MatchWithin(separator: string, s: string, i: nat, end: nat, j: nat)
    requires i <= end <= |s| && separator != "" && At(separator, s[i..end], j)
    ensures At(separator, s, i + j) && i + j < end
  {
    var n := |separator|;
    forall k | 0 <= k < n
      ensures s[i + j + k] == separator[k]
    {
      assert s[i..end][j..j + n][k] == s[i..end][j + k] == s[i + j + k];
    }
    assert s[i + j..i + j + n] == separator;
  }

  /** What comes before a leftmost match, or is left when there is none, is a piece. */
  lemma UpToMatch(separator: string, s: string, i: nat, end: nat)
    requires i <= end <= |s| && forall j :: i <= j < end ==> !At(separator, s, j)
    requires separator != ""
    ensures forall j :: 0 <= j ==> !At(separator, s[i..end], j)
  {
    hide At;
    forall j: nat
      ensures !At(separator, s[i..end], j)
    {
      if At(separator, s[i..end], j) {
        MatchWithin(separator, s, i, end, j);
      }
    }
  }

  lemma JoinedSnoc(separator: string, pieces: seq<Item>, item: Item, before: string)
    requires Pieces(separator, pieces) && item.Text?
    requires Joined(separator, pieces) + (if pieces == [] then "" else separator) == before
    ensures Joined(separator, pieces + [item]) == before + item.text
  {
    assert (pieces + [item])[..|pieces|] == pieces;
    if pieces == [] {
      assert before == "" && pieces + [item] == [item];
    }
  }

  lemma PiecesSnoc(separator: string, pieces: seq<Item>, item: Item)
    requires Pieces(separator, pieces) && item.Text? && forall j :: 0 <= j ==> !At(separator, item.text, j)
    ensures Pieces(separator, pieces + [item])
  {
  }

  /** The first of the pieces: what comes before the first separator in it. */
  ghost predicate Leftmost(separator: string, piece: Item) {
    piece.Text? && forall j :: 0 <= j < |piece.text| ==> !At(separator, piece.text + separator, j)
  }

  ghost predicate AllLeftmost(separator: string, pieces: seq<Item>) {
    forall i :: 0 <= i < |pieces| ==> Leftmost(separator, pieces[i])
  }

  /** The pieces so far and the separators between and after them are the string up to
      offset `i`. */
  ghost predicate SplitUpTo(separator: string, s: string, pieces: seq<Item>, i: nat) {
    && i <= |s| && Pieces(separator, pieces) && AllLeftmost(separator, pieces)
    && Joined(separator, pieces) + (if pieces == [] then "" else separator) == s[..i]
  }

  lemma NextPiece(separator: string, s: string, pieces: seq<Item>, i: nat, m: nat)
    requires separator != "" && SplitUpTo(separator, s, pieces, i) && i <= m <= |s|
    requires forall j :: i <= j < m ==> !At(separator, s, j)
    ensures var now := pieces + [Text(s[i..m])]; Pieces(separator, now) && Joined(separator, now) == s[..m]
    ensures AllLeftmost(separator, pieces)
    ensures At(separator, s, m) ==> m + |separator| <= |s|
    ensures At(separator, s, m) ==> SplitUpTo(separator, s, pieces + [Text(s[i..m])], m + |separator|)
  {
    hide Joined, Pieces, Leftmost;
    UpToMatch(separator, s, i, m);
    if At(separator, s, m) {
      LeftmostMatch(separator, s, i, m);
    }
    hide At;
    JoinedSnoc(separator, pieces, Text(s[i..m]), s[..i]);
    PiecesSnoc(separator, pieces, Text(s[i..m]));
    assert s[..i] + s[i..m] == s[..m];
    if At(separator, s, m) {
      AtSlice(separator, s, m);
    }
  }

  lemma LeftmostMatch(separator: string, s: string, i: nat, m: nat)
    requires separator != "" && i <= m <= |s| && At(separator, s, m) && forall j :: i <= j < m ==> !At(separator, s, j)
    ensures Leftmost(separator, Text(s[i..m]))
  {
    var end := m + |separator|;
    AtSlice(separator, s, m);
    hide At;
    assert s[i..m] + separator == s[i..end] by { assert s[..end][i..] == s[i..end]; }
    forall j | 0 <= j < m - i
      ensures !At(separator, s[i..end], j)
    {
      if At(separator, s[i..end], j) {
        MatchWithin(separator, s, i, end, j);
      }
    }
  }

  // -------------------------------------------------------------- what a split is

  /** A piece that lacks the separator is not made up of something, the separator and
      something. */
  lemma PieceLacks(separator: string, pieces: seq<Item>, i: nat, a: string, b: string)
    requires Pieces(separator, pieces) && i < |pieces|
    ensures pieces[i].Text? && pieces[i].text != a + separator + b
  {
    var t := a + separator + b;
    assert t[|a|..|a| + |separator|] == separator;
    assert At(separator, t, |a|);
  }

  lemma {:induction false} JoinedFront(separator: string, pieces: seq<Item>)
    requires |pieces| > 1 && forall i :: 0 <= i < |pieces| ==> pieces[i].Text?
    ensures Joined(separator, pieces) == pieces[0].text + separator + Joined(separator, pieces[1..])
    decreases |pieces|
  {
    var k := |pieces| - 1;
    if k > 1 {
      JoinedFront(separator, pieces[..k]);
      assert pieces[..k][1..] == pieces[1..][..k - 1];
    } else {
      assert pieces[..k] == [pieces[0]] && pieces[1..] == [pieces[1]];
    }
  }

  /** A string can be split in one way only into pieces that lack the separator, all but
      the last of them ending where the first separator begins. */
  lemma {:induction false} OneSplit(separator: string, a: seq<Item>, b: seq<Item>)
    requires separator != "" && a != [] && b != [] && Pieces(separator, a) && Pieces(separator, b)
    requires AllLeftmost(separator, a[..|a| - 1]) && AllLeftmost(separator, b[..|b| - 1])
    requires Joined(separator, a) == Joined(separator, b)
    ensures a == b
    decreases |a|
  {
    if |a| == 1 && |b| == 1 {
    } else if |a| == 1 {
      JoinedFront(separator, b);
      PieceLacks(separator, a, 0, b[0].text, Joined(separator, b[1..]));
    } else if |b| == 1 {
      JoinedFront(separator, a);
      PieceLacks(separator, b, 0, a[0].text, Joined(separator, a[1..]));
    } else {
      JoinedFront(separator, a);
      JoinedFront(separator, b);
      assert Leftmost(separator, a[..|a| - 1][0]) && Leftmost(separator, b[..|b| - 1][0]);
      SameFront(separator, a[0].text, Joined(separator, a[1..]), b[0].text, Joined(separator, b[1..]));
      SameFront(separator, b[0].text, Joined(separator, b[1..]), a[0].text, Joined(separator, a[1..]));
      RestOf(separator, a);
      RestOf(separator, b);
      OneSplit(separator, a[1..], b[1..]);
      assert a == [a[0]] + a[1..] && b == [b[0]] + b[1..];
    }
  }

  lemma RestOf(separator: string, a: seq<Item>)
    requires |a| > 1 && Pieces(separator, a) && AllLeftmost(separator, a[..|a| - 1])
    ensures Pieces(separator, a[1..]) && AllLeftmost(separator, a[1..][..|a| - 2])
  {
    hide At, Leftmost;
    var rest := a[1..][..|a| - 2];
    forall i | 0 <= i < |rest|
      ensures Leftmost(separator, rest[i])
    {
      assert Leftmost(separator, a[..|a| - 1][i + 1]);
    }
  }

  lemma SameFront(separator: string, x: string, r: string, y: string, s: string)
    requires x + separator + r == y + separator + s && Leftmost(separator, Text(y))
    ensures |x| >= |y| && (|x| == |y| ==> x == y && r == s)
  {
    var t := x + separator + r;
    var n := |separator|;
    if |x| < |y| {
      forall k | 0 <= k < n
        ensures (y + separator)[|x| + k] == separator[k]
      {
        assert t[|x| + k] == separator[k] == (y + separator + s)[|x| + k];
      }
      assert (y + separator)[|x|..|x| + n] == separator;
      assert At(separator, y + separator, |x|);
    } else if |x| == |y| {
      assert t[..|x|] == x == y && t[|x| + n..] == r == s;
    }
  }

  lemma AtSlice(separator: string, s: string, m: nat)
    requires m <= |s| && At(separator, s, m)
    ensures m + |separator| <= |s| && s[..m] + separator == s[..m + |separator|]
  {
    assert s[..m] + s[m..m + |separator|] == s[..m + |separator|];
  }

  /** gu_pcre_split() for a pattern that is a fixed string. No piece contains it, each
      ends where the first separator begins, and the pieces put together with it are the
      string; so they are the only ones that can be meant. */
  method Split(separator: string, s: string) returns (list: Pca)
    requires separator != ""
    ensures fresh(list) && fresh(list.storage) && list.Valid() && list.View() != []
    ensures Pieces(separator, list.View()) && AllLeftmost(separator, list.View()[..|list.View()| - 1])
    ensures Joined(separator, list.View()) == s
  {
    hide Match;
    list := new Pca(16, 32);
    var iii := 0;
    var m := Match(separator, s, iii);
    ghost var pieces: seq<Item> := [];
    assert SplitUpTo(separator, s, pieces, 0);
    while m != -1
      invariant m == Match(separator, s, iii) && SplitUpTo(separator, s, pieces, iii) && iii <= |s|
      invariant fresh(list.storage) && list.Valid() && list.increment == 32 && list.View() == pieces
      decreases |s| - iii
    {
      assert m + |separator| <= |s|;
      NextPiece(separator, s, pieces, iii, m);
      var _ := list.Push(Text(s[iii..m]));
      pieces := pieces + [Text(s[iii..m])];
      iii := m + |separator|;
      m := Match(separator, s, iii);
    }
    NextPiece(separator, s, pieces, iii, |s|);
    assert s[iii..] == s[iii..|s|] && s[..|s|] == s;
    var _ := list.Push(Text(s[iii..]));
  }

  /** gu_pca_join() */
  method Join(separator: string, list: Pca) returns (text: string)
    requires list.Valid() && forall i :: 0 <= i < |list.View()| ==> list.View()[i].Text?
    ensures text == Joined(separator, list.View())
  {
    ghost var pieces := list.View();
    text := "";
    var iii := 0;
    var n := list.Size();
    while iii < n
      invariant 0 <= iii <= n == |pieces| && text == Joined(separator, pieces[..iii])
    {
      if iii > 0 {
        text := text + separator;
      }
      var item := list.Index(iii);
      text := text + item.item.text;
      assert pieces[..iii + 1][..iii] == pieces[..iii];
      iii := iii + 1;
      n := list.Size();
    }
    assert pieces[..iii] == pieces;
  }

  /** Split, then join: the string one had. */
  method SplitThenJoin(separator: string, s: string) returns (text: string)
    requires separator != ""
    ensures text == s
  {
    var list := Split(separator, s);
    assert forall i :: 0 <= i < |list.View()| ==> list.View()[i].Text?;
    text := Join(separator, list);
  }
}

// The backend of the live list of AppleTalk names (gui_backend() of
// browsers/nbp_lookup_ali.c): a sorted array of the names seen in the last three
// rounds, kept the same as the list of the front end.

module NameBackend {
  import opened NameOrder
  import opened NameFrontEnd

  /** struct NAME */
  datatype Name = Name(iteration: int, str: string)

  function Strings(names: seq<Name>): (r: seq<string>)
    ensures |r| == |names|
  {
    seq(|names|, i requires 0 <= i < |names| => names[i].str)
  }

  /** In order, with no two that differ in case only. */
  predicate Sorted(names: seq<Name>) {
    && (forall i :: 0 <= i < |names| ==> IsName(names[i].str))
    && (forall i, j :: 0 <= i < j < |names| ==> Compare(names[i].str, names[j].str) < 0)
  }

  predicate Listed(names: seq<Name>, s: string) {
    exists i :: 0 <= i < |names| && Folded(names[i].str) == Folded(s)
  }

  predicate Heard(round: seq<string>, s: string) {
    exists i :: 0 <= i < |round| && Folded(round[i]) == Folded(s)
  }

  /** The last of the rounds so far, counted from 1, in which a name was seen in some
      spelling, or 0. */
  function LastSeen(history: seq<seq<string>>, s: string): (r: nat)
    ensures r <= |history|
  {
    if history == [] then 0
    else if Heard(history[|history| - 1], s) then |history|
    else LastSeen(history[..|history| - 1], s)
  }

  predicate Recent(seen: int, low: int) { seen >= 1 && seen >= low }

  /** The array is in order, holds names seen since round `from`, each with the round
      it was last seen in, and all those seen since round `low`. */
  ghost predicate Holds(names: seq<Name>, history: seq<seq<string>>, from: int, low: int) {
    && Sorted(names)
    && (forall i :: 0 <= i < |names| ==> names[i].iteration == LastSeen(history, names[i].str) && Recent(names[i].iteration, from))
    && (forall s :: IsName(s) && Recent(LastSeen(history, s), low) ==> Listed(names, s))
  }

  /** The array holds exactly the names seen since round `low`. */
  ghost predicate Tracks(names: seq<Name>, history: seq<seq<string>>, low: int) {
    Holds(names, history, low, low)
  }

  /** Where the search for `s` stops: at the first name not before it. */
  ghost predicate Place(names: seq<Name>, s: string, y: nat, cmp: int) {
    && y <= |names|
    && (forall j :: 0 <= j < y ==> Compare(s, names[j].str) > 0)
    && (if y < |names| then cmp == Compare(s, names[y].str) <= 0 else cmp > 0)
  }

  function Sighted(names: seq<Name>, s: string, y: nat, cmp: int, iteration: int): seq<Name>
    requires y <= |names| && (cmp == 0 ==> y < |names|)
  {
    if cmp == 0 then names[y := names[y].(iteration := iteration)]
    else names[..y] + [Name(iteration, s)] + names[y..]
  }

  lemma SightSorted(names: seq<Name>, s: string, y: nat, cmp: int, iteration: int)
    requires Sorted(names) && IsName(s) && Place(names, s, y, cmp)
    ensures Sorted(Sighted(names, s, y, cmp, iteration))
  {
    hide Compare, IsName;
    if cmp != 0 {
      var now := Sighted(names, s, y, cmp, iteration);
      forall i | 0 <= i < |names|
        ensures i < y ==> Compare(names[i].str, s) < 0
        ensures i >= y ==> Compare(s, names[i].str) < 0
      {
        CompareTurned(s, names[i].str);
        if i > y {
          CompareChain(s, names[y].str, names[i].str);
        }
      }
      assert forall i :: 0 <= i < |now| ==> now[i] == if i < y then names[i] else if i == y then Name(iteration, s) else names[i - 1];
    }
  }

  /** The search finds a name exactly if some spelling of it is listed. */
  lemma PlaceFinds(names: seq<Name>, s: string, y: nat, cmp: int)
    requires Sorted(names) && IsName(s) && Place(names, s, y, cmp)
    ensures cmp == 0 ==> Folded(names[y].str) == Folded(s)
    ensures cmp == 0 <==> Listed(names, s)
    ensures forall i :: 0 <= i < |names| && Folded(names[i].str) == Folded(s) ==> cmp == 0 && i == y
  {
    hide Compare, IsName, Folded;
    if y < |names| {
      CompareEqual(s, names[y].str);
    }
    forall i | 0 <= i < |names| && Folded(names[i].str) == Folded(s)
      ensures cmp == 0 && i == y
    {
      CompareEqual(s, names[i].str);
      if i > y {
        CompareTurned(names[y].str, names[i].str);
        CompareChain(s, names[y].str, names[i].str);
      }
    }
  }

  lemma HeardMore(round: seq<string>, t: string, s: string)
    ensures Heard(round + [t], s) <==> Heard(round, s) || Folded(t) == Folded(s)
  {
    hide Folded;
    assert forall i :: 0 <= i < |round| ==> (round + [t])[i] == round[i];
    assert (round + [t])[|round|] == t;
  }

  lemma SeenMore(h: seq<seq<string>>, round: seq<string>, t: string, s: string)
    ensures LastSeen(h + [round + [t]], s) == if Folded(t) == Folded(s) then |h| + 1 else LastSeen(h + [round], s)
  {
    HeardMore(round, t, s);
    assert (h + [round + [t]])[..|h|] == h && (h + [round])[..|h|] == h;
  }

  /** Taking in a name that was seen keeps the array exact. */
  lemma SightTracks(names: seq<Name>, h: seq<seq<string>>, round: seq<string>, t: string, y: nat, cmp: int, low: int)
    requires Tracks(names, h + [round], low) && IsName(t) && Place(names, t, y, cmp) && low <= |h| + 1
    ensures Tracks(Sighted(names, t, y, cmp, |h| + 1), h + [round + [t]], low)
  {
    hide Compare, IsName, Folded, LastSeen, Sorted;
    var now := Sighted(names, t, y, cmp, |h| + 1);
    assert Place(names, t, y, cmp) ==> y <= |names|;
    SightSorted(names, t, y, cmp, |h| + 1);
    PlaceFinds(names, t, y, cmp);
    forall i | 0 <= i < |now|
      ensures now[i].iteration == LastSeen(h + [round + [t]], now[i].str) && Recent(now[i].iteration, low)
    {
      SeenMore(h, round, t, now[i].str);
      if cmp == 0 {
        assert now[i].str == names[i].str;
      } else if i != y {
        assert now[i] == names[if i < y then i else i - 1];
      }
    }
    forall s | IsName(s) && Recent(LastSeen(h + [round + [t]], s), low)
      ensures Listed(now, s)
    {
      SeenMore(h, round, t, s);
      if Folded(s) == Folded(t) {
        assert Folded(now[y].str) == Folded(s);
      } else {
        assert Listed(names, s);
        var i :| 0 <= i < |names| && Folded(names[i].str) == Folded(s);
        assert now[if cmp == 0 || i < y then i else i + 1].str == names[i].str;
      }
    }
  }

  /** Taking out a name not seen since round `low`. */
  lemma DropHolds(names: seq<Name>, h: seq<seq<string>>, from: int, low: int, x: nat)
    requires Holds(names, h, from, low) && x < |names| && !Recent(names[x].iteration, low)
    ensures Holds(names[..x] + names[x + 1..], h, from, low)
  {
    hide Compare, IsName, Folded, LastSeen;
    var now := names[..x] + names[x + 1..];
    assert forall i :: 0 <= i < |now| ==> now[i] == names[if i < x then i else i + 1];
    forall s | IsName(s) && Recent(LastSeen(h, s), low)
      ensures Listed(now, s)
    {
      var i :| 0 <= i < |names| && Folded(names[i].str) == Folded(s);
      SeenFolded(h, names[i].str, s);
      assert now[if i < x then i else i - 1] == names[i];
    }
  }

  lemma {:induction false} SeenFolded(h: seq<seq<string>>, a: string, b: string)
    requires Folded(a) == Folded(b)
    ensures LastSeen(h, a) == LastSeen(h, b)
  {
    hide Folded;
    if h != [] {
      SeenFolded(h[..|h| - 1], a, b);
    }
  }

  lemma NewRound(names: seq<Name>, h: seq<seq<string>>, low: int)
    requires Tracks(names, h, low)
    ensures Tracks(names, h + [[]], low)
  {
    forall s: string
      ensures LastSeen(h + [[]], s) == LastSeen(h, s)
    {
      assert (h + [[]])[..|h|] == h && !Heard([], s);
    }
  }

  /** After a round nothing is listed but what was seen in the last three. */
  lemma RoundDone(names: seq<Name>, h: seq<seq<string>>, from: int, low: int)
    requires Holds(names, h, from, low) && forall i :: 0 <= i < |names| ==> Recent(names[i].iteration, low)
    ensures Tracks(names, h, low)
  {
  }

  // ------------------------------------------------------------------ one round

  /** The array and all that has been printed. */
  datatype List = List(names: seq<Name>, out: string)

  /** The front end, having read everything so far, shows the array, has seen the ends of
      so many rounds, and could make sense of every line. */
  predicate InSync(l: List, rounds: nat) {
    FeedAll(Empty, l.out) == FrontEnd(Strings(l.names), "", rounds, false)
  }

  /** Where the search for `s`, having come to `y`, stops. */
  function PlaceFrom(names: seq<Name>, s: string, y: nat): (r: nat)
    requires y <= |names|
    ensures y <= r <= |names|
    decreases |names| - y
  {
    if y < |names| && Compare(s, names[y].str) > 0 then PlaceFrom(names, s, y + 1) else y
  }

  /** The comparison on which it stops, which at the end of the array is the last one. */
  function PlaceCmp(names: seq<Name>, s: string): (cmp: int) {
    var y := PlaceFrom(names, s, 0);
    if y < |names| then Compare(s, names[y].str) else 1
  }

  /** One name of the lookup's results. */
  function WithSight(l: List, s: string, iteration: nat): List {
    var y, cmp := PlaceFrom(l.names, s, 0), PlaceCmp(l.names, s);
    List(Sighted(l.names, s, y, cmp, iteration), if cmp == 0 then l.out else l.out + InsertLine(y, s))
  }

  function WithSights(l: List, found: seq<string>, iteration: nat): List
    decreases |found|
  {
    if found == [] then l
    else WithSight(WithSights(l, found[..|found| - 1], iteration), found[|found| - 1], iteration)
  }

  /** Remove names not seen since more than two iterations ago, from `x` on. */
  function WithDrops(l: List, iteration: nat, x: nat): List
    decreases |l.names| - x
  {
    if x >= |l.names| then l
    else if iteration - l.names[x].iteration > 2 then
      WithDrops(List(l.names[..x] + l.names[x + 1..], l.out + DeleteLine(x)), iteration, x)
    else WithDrops(l, iteration, x + 1)
  }

  /** One iteration of the never ending loop, on the names that the lookup found. */
  function WithRound(l: List, iteration: nat, found: seq<string>): List {
    var d := WithDrops(WithSights(l, found, iteration), iteration, 0);
    d.(out := d.out + "\n")
  }

  /** The list after some rounds. */
  function After(rounds: seq<seq<string>>): List
    decreases |rounds|
  {
    if rounds == [] then List([], "")
    else WithRound(After(rounds[..|rounds| - 1]), |rounds|, rounds[|rounds| - 1])
  }

  predicate AllNames(round: seq<string>) {
    forall i :: 0 <= i < |round| ==> IsName(round[i])
  }

  lemma InsertShows(names: seq<Name>, out: string, y: nat, s: string, n: nat)
    requires y <= |names|
    ensures InSync(List(names, out), n) && '\n' !in s ==>
            InSync(List(names[..y] + [Name(0, s)] + names[y..], out + InsertLine(y, s)), n)
  {
    hide FeedAll, InsertLine;
    var f := FeedAll(Empty, out);
    var now := names[..y] + [Name(0, s)] + names[y..];
    FeedConcat(Empty, out, InsertLine(y, s));
    if InSync(List(names, out), n) && '\n' !in s {
      ObeyInsert(f, y, s);
      assert Strings(now) == Strings(names)[..y] + [s] + Strings(names)[y..];
    }
  }

  lemma DeleteShows(names: seq<Name>, out: string, x: nat, n: nat)
    requires x < |names|
    ensures InSync(List(names, out), n) ==> InSync(List(names[..x] + names[x + 1..], out + DeleteLine(x)), n)
  {
    hide DeleteLine, FeedAll;
    var f := FeedAll(Empty, out);
    var now := names[..x] + names[x + 1..];
    FeedConcat(Empty, out, DeleteLine(x));
    if InSync(List(names, out), n) {
      ObeyDelete(f, x);
      assert Strings(now) == Strings(names)[..x] + Strings(names)[x + 1..];
    }
  }

  lemma DividerShows(l: List, n: nat)
    ensures InSync(l, n) ==> InSync(l.(out := l.out + "\n"), n + 1)
  {
    assert (l.out + "\n")[..|l.out|] == l.out;
  }

  predicate OneLineEach(round: seq<string>) {
    forall i :: 0 <= i < |round| ==> '\n' !in round[i]
  }

  /** A name with a newline found in a round is listed after it, and no front end that
      reads lines can show it. */
  lemma NewlineShows(names: seq<Name>, h: seq<seq<string>>, found: seq<string>, out: string)
    requires Tracks(names, h + [found], |h| - 1) && !OneLineEach(found)
    requires forall i :: 0 <= i < |found| ==> IsName(found[i])
    ensures FeedAll(Empty, out).list != Strings(names)
  {
    hide FeedAll, Folded, IsName, Tracks;
    var i :| 0 <= i < |found| && '\n' in found[i];
    FoundIsListed(names, h, found, i);
    var j :| 0 <= j < |names| && Folded(names[j].str) == Folded(found[i]) && IsName(names[j].str);
    FoldedNewline(names[j].str, found[i]);
    assert Plain(Empty);
    ListsNoNewline(Empty, out);
    assert Strings(names)[j] == names[j].str;
  }

  lemma FoundIsListed(names: seq<Name>, h: seq<seq<string>>, found: seq<string>, i: nat)
    requires Tracks(names, h + [found], |h| - 1) && i < |found| && IsName(found[i])
    ensures exists j :: 0 <= j < |names| && Folded(names[j].str) == Folded(found[i]) && IsName(names[j].str)
  {
    hide Folded, IsName, Compare;
    assert Heard(found, found[i]);
    assert LastSeen(h + [found], found[i]) == |h| + 1;
  }

  // --------------------------------------------------------------- what a round keeps

  lemma {:induction false} PlaceIs(names: seq<Name>, s: string, y: nat)
    requires y <= |names| && forall j :: 0 <= j < y ==> Compare(s, names[j].str) > 0
    ensures var r := PlaceFrom(names, s, y); Place(names, s, r, if r < |names| then Compare(s, names[r].str) else 1)
    decreases |names| - y
  {
    hide Compare;
    if y < |names| && Compare(s, names[y].str) > 0 {
      PlaceIs(names, s, y + 1);
    }
  }

  lemma SightKeeps(l: List, h: seq<seq<string>>, round: seq<string>, s: string, low: int)
    requires IsName(s) && low <= |h| + 1 && Tracks(l.names, h + [round], low)
    ensures Tracks(WithSight(l, s, |h| + 1).names, h + [round + [s]], low)
    ensures InSync(l, |h|) && '\n' !in s ==> InSync(WithSight(l, s, |h| + 1), |h|)
  {
    hide Compare, FeedAll, InsertLine, IsName, LastSeen, Tracks, PlaceFrom;
    var y, cmp := PlaceFrom(l.names, s, 0), PlaceCmp(l.names, s);
    PlaceIs(l.names, s, 0);
    SightTracks(l.names, h, round, s, y, cmp, low);
    hide Place;
    if cmp != 0 {
      InsertShows(l.names, l.out, y, s, |h|);
      assert Strings(Sighted(l.names, s, y, cmp, |h| + 1)) == Strings(l.names[..y] + [Name(0, s)] + l.names[y..]);
    } else {
      assert Strings(Sighted(l.names, s, y, cmp, |h| + 1)) == Strings(l.names);
    }
  }

  lemma {:induction false} SightsKeep(l: List, h: seq<seq<string>>, found: seq<string>, low: int)
    requires AllNames(found) && low <= |h| + 1 && Tracks(l.names, h + [[]], low)
    ensures var m := WithSights(l, found, |h| + 1);
            Tracks(m.names, h + [found], low) && (InSync(l, |h|) && OneLineEach(found) ==> InSync(m, |h|))
    decreases |found|
  {
    hide Tracks, InSync, WithSight, IsName;
    if found != [] {
      var n := |found| - 1;
      SightsKeep(l, h, found[..n], low);
      assert found[..n] + [found[n]] == found;
      SightKeeps(WithSights(l, found[..n], |h| + 1), h, found[..n], found[n], low);
    }
  }

  lemma {:induction false} DropsKeep(l: List, h: seq<seq<string>>, x: nat, n: nat)
    requires Holds(l.names, h, |h| - 3, |h| - 2)
    requires forall i :: 0 <= i < x && i < |l.names| ==> l.names[i].iteration >= |h| - 2
    ensures var m := WithDrops(l, |h|, x); Tracks(m.names, h, |h| - 2) && (InSync(l, n) ==> InSync(m, n))
    decreases |l.names| - x
  {
    hide DeleteLine, FeedAll, IsName, LastSeen, Listed, Sorted, Strings, Tracks;
    if x >= |l.names| {
      assert forall i :: 0 <= i < |l.names| ==> l.names[i].iteration >= 1;
      RoundDone(l.names, h, |h| - 3, |h| - 2);
    } else if |h| - l.names[x].iteration > 2 {
      DropHolds(l.names, h, |h| - 3, |h| - 2, x);
      DeleteShows(l.names, l.out, x, n);
      hide Holds;
      DropsKeep(List(l.names[..x] + l.names[x + 1..], l.out + DeleteLine(x)), h, x, n);
    } else {
      hide Holds;
      DropsKeep(l, h, x + 1, n);
    }
  }

  lemma TracksHolds(names: seq<Name>, h: seq<seq<string>>, low: int)
    requires Tracks(names, h, low)
    ensures Holds(names, h, low, low + 1) && Sorted(names)
  {
    hide Sorted, LastSeen, IsName, Listed;
  }

  /** A round leaves the array exact, and the front end showing it and one round further,
      if it showed it before, exactly if no name found has a newline in it. */
  lemma RoundKeeps(l: List, h: seq<seq<string>>, found: seq<string>)
    requires AllNames(found) && Tracks(l.names, h, |h| - 2)
    ensures var m := WithRound(l, |h| + 1, found);
            Tracks(m.names, h + [found], |h| - 1) && (InSync(l, |h|) ==> (InSync(m, |h| + 1) <==> OneLineEach(found)))
  {
    hide Tracks, FeedAll, Holds, IsName, Strings, OneLineEach, WithDrops, WithSights;
    NewRound(l.names, h, |h| - 2);
    SightsKeep(l, h, found, |h| - 2);
    var s := WithSights(l, found, |h| + 1);
    TracksHolds(s.names, h + [found], |h| - 2);
    DropsKeep(s, h + [found], 0, |h|);
    var d := WithDrops(s, |h| + 1, 0);
    DividerShows(d, |h|);
    if !OneLineEach(found) {
      NewlineShows(d.names, h, found, d.out + "\n");
    }
  }

  lemma {:induction false} AfterTracks(rounds: seq<seq<string>>)
    requires forall r :: 0 <= r < |rounds| ==> AllNames(rounds[r])
    ensures Tracks(After(rounds).names, rounds, |rounds| - 2)
    decreases |rounds|
  {
    hide Tracks, WithRound, AllNames;
    if rounds == [] {
      NothingTracked();
    } else {
      var n := |rounds| - 1;
      AfterTracks(rounds[..n]);
      RoundKeeps(After(rounds[..n]), rounds[..n], rounds[n]);
      assert rounds[..n] + [rounds[n]] == rounds;
    }
  }

  lemma NothingTracked()
    ensures Tracks([], [], -2)
  {
  }

  /** The front end shows the array after every round of a run if and only if no name
      with a newline in it was ever found. */
  lemma {:induction false} ShownIff(rounds: seq<seq<string>>)
    requires forall r :: 0 <= r < |rounds| ==> AllNames(rounds[r])
    ensures (forall r :: 0 <= r <= |rounds| ==> InSync(After(rounds[..r]), r)) <==>
            (forall r :: 0 <= r < |rounds| ==> OneLineEach(rounds[r]))
    decreases |rounds|
  {
    hide Tracks, WithRound, AllNames, InSync, OneLineEach;
    assert rounds[..|rounds|] == rounds;
    if rounds == [] {
      assert InSync(After([]), 0) by { StartsInSync(); }
    } else {
      var n := |rounds| - 1;
      var h := rounds[..n];
      ShownIff(h);
      AfterTracks(h);
      RoundKeeps(After(h), h, rounds[n]);
      assert forall r :: 0 <= r <= n ==> h[..r] == rounds[..r];
      assert InSync(After(rounds[..n]), n) ==> (InSync(After(rounds), n + 1) <==> OneLineEach(rounds[n]));
      if forall r :: 0 <= r <= |rounds| ==> InSync(After(rounds[..r]), r) {
        assert forall r :: 0 <= r <= n ==> InSync(After(h[..r]), r);
        assert InSync(After(rounds[..n]), n) && InSync(After(rounds[..|rounds|]), |rounds|);
        forall r | 0 <= r < |rounds|
          ensures OneLineEach(rounds[r])
        {
          if r < n {
            assert h[r] == rounds[r];
          }
        }
      }
      if forall r :: 0 <= r < |rounds| ==> OneLineEach(rounds[r]) {
        assert forall r :: 0 <= r < |h| ==> OneLineEach(h[r]);
        assert h[..n] == h;
        forall r | 0 <= r <= |rounds|
          ensures InSync(After(rounds[..r]), r)
        {
          if r <= n {
            assert InSync(After(h[..r]), r);
          } else {
            assert InSync(After(h[..n]), n);
          }
        }
      }
    }
  }

  lemma StartsInSync()
    ensures InSync(After([]), 0)
  {
  }

  /** gu_strcasecmp() */
  method GuStrcasecmp(s1: string, s2: string) returns (val: int)
    requires IsName(s1) && IsName(s2)
    ensures val == Compare(s1, s2)
  {
    hide IsName;
    var i := 0;
    while true
      invariant i <= |s1| && i <= |s2| && Compare(s1, s2) == Compare(s1[i..], s2[i..])
      invariant IsName(s1[i..]) && IsName(s2[i..])
      decreases |s1| - i
    {
      FirstOfName(s1[i..]);
      FirstOfName(s2[i..]);
      val := (if i < |s1| then Rank(s1[i]) else 0) - (if i < |s2| then Rank(s2[i]) else 0);
      if val != 0 || (i == |s1| && i == |s2|) {
        return;
      }
      assert s1[i..][1..] == s1[i + 1..] && s2[i..][1..] == s2[i + 1..];
      i := i + 1;
    }
  }

  class Backend {
    var names: seq<Name>
    var iteration: nat
    var out: string

    constructor ()
      ensures iteration == 0 && Now() == After([])
    {
      names, iteration, out := [], 0, "";
    }

    ghost function Now(): List
      reads `names, `out
    {
      List(names, out)
    }

    /** Iterate over the names which we saw on previous iterations. */
    method Find(s: string) returns (y: nat, cmp: int)
      requires IsName(s) && AllNames(Strings(names))
      ensures y == PlaceFrom(names, s, 0) && (y < |names| ==> cmp == Compare(s, names[y].str)) && (y == |names| ==> cmp > 0)
    {
      hide Compare, IsName;
      y, cmp := 0, 1;
      while y < |names|
        invariant 0 <= y <= |names| && cmp > 0
        invariant PlaceFrom(names, s, 0) == PlaceFrom(names, s, y)
      {
        assert IsName(Strings(names)[y]);
        cmp := GuStrcasecmp(s, names[y].str);
        if cmp <= 0 {
          break;
        }
        y := y + 1;
      }
    }

    /** One name of the lookup's results. */
    method Sight(s: string)
      requires IsName(s) && AllNames(Strings(names))
      modifies `names, `out
      ensures Now() == WithSight(old(Now()), s, iteration) && AllNames(Strings(names))
    {
      hide Compare, IsName, InsertLine, PlaceFrom, AllNames;
      var y, cmp := Find(s);
      ghost var was := names;
      if cmp != 0 {
        names := names[..y] + [Name(0, s)] + names[y..];
        out := out + InsertLine(y, s);
      }
      names := names[y := names[y].(iteration := iteration)];
      assert names == Sighted(was, s, y, cmp, iteration);
      SightedNames(was, s, y, cmp, iteration);
      assert PlaceCmp(was, s) == 0 <==> cmp == 0;
    }

    lemma SightedNames(was: seq<Name>, s: string, y: nat, cmp: int, it: int)
      requires y <= |was| && (cmp == 0 ==> y < |was|) && IsName(s) && AllNames(Strings(was))
      ensures AllNames(Strings(Sighted(was, s, y, cmp, it)))
    {
      hide IsName;
      var now := Sighted(was, s, y, cmp, it);
      forall i | 0 <= i < |now|
        ensures IsName(now[i].str)
      {
        if cmp == 0 {
          assert now[i].str == Strings(was)[i];
        } else if i < y {
          assert now[i].str == Strings(was)[i];
        } else if i > y {
          assert now[i].str == Strings(was)[i - 1];
        }
      }
    }

    /** Remove names which haven't been seen since more than two iterations ago. */
    method Drop()
      modifies `names, `out
      ensures Now() == WithDrops(old(Now()), iteration, 0)
    {
      hide DeleteLine, WithDrops;
      var x := 0;
      while x < |names|
        invariant 0 <= x && WithDrops(Now(), iteration, x) == WithDrops(old(Now()), iteration, 0)
        decreases |names| - x, |names|
      {
        DropsNext(Now(), iteration, x);
        if iteration - names[x].iteration > 2 {
          out := out + DeleteLine(x);
          if x + 1 < |names| {
            names := names[..x] + names[x + 1..];
            x := x - 1;
          } else {
            assert names[..x] == names[..x] + names[x + 1..];
            names := names[..x];
            DropsEnd(Now(), iteration, x);
            DropsEnd(Now(), iteration, x + 1);
          }
        }
        x := x + 1;
      }
      DropsEnd(Now(), iteration, x);
    }

    lemma DropsNext(l: List, it: nat, x: nat)
      requires x < |l.names|
      ensures WithDrops(l, it, x) ==
              if it - l.names[x].iteration > 2 then
                WithDrops(List(l.names[..x] + l.names[x + 1..], l.out + DeleteLine(x)), it, x)
              else WithDrops(l, it, x + 1)
    {
    }

    lemma DropsEnd(l: List, it: nat, x: nat)
      requires x >= |l.names|
      ensures WithDrops(l, it, x) == l
    {
    }

    /** One iteration of the never ending loop, on the names that the lookup found. */
    method Round(found: seq<string>)
      requires AllNames(found) && AllNames(Strings(names))
      modifies this
      ensures iteration == old(iteration) + 1 && Now() == WithRound(old(Now()), iteration, found)
    {
      hide WithSight, IsName;
      iteration := iteration + 1;
      var x := 0;
      assert found[..0] == [];
      while x < |found|
        invariant x <= |found| && AllNames(Strings(names)) && Now() == WithSights(old(Now()), found[..x], iteration)
        modifies `names, `out
      {
        Sight(found[x]);
        assert found[..x + 1][..x] == found[..x];
        x := x + 1;
      }
      assert found[..x] == found;
      Drop();
      out := out + "\n";
    }

    /** A run of any number of rounds: the array holds exactly the names seen in the
        last three, and the list printed is that of ShownIff. */
    method Run(rounds: seq<seq<string>>)
      requires iteration == 0 && Now() == After([])
      requires forall r :: 0 <= r < |rounds| ==> AllNames(rounds[r])
      modifies this
      ensures Now() == After(rounds) && Tracks(names, rounds, |rounds| - 2)
      ensures (forall r :: 0 <= r < |rounds| ==> OneLineEach(rounds[r])) ==> InSync(Now(), |rounds|)
    {
      hide Tracks, WithRound, AllNames, InSync, OneLineEach;
      var n := 0;
      while n < |rounds|
        invariant n <= |rounds| && iteration == n && Now() == After(rounds[..n])
      {
        AfterTracks(rounds[..n]);
        TracksNames(names, rounds[..n], n - 2);
        Round(rounds[n]);
        assert rounds[..n + 1][..n] == rounds[..n];
        n := n + 1;
      }
      assert rounds[..n] == rounds;
      AfterTracks(rounds);
      ShownIff(rounds);
    }

    lemma TracksNames(names: seq<Name>, h: seq<seq<string>>, low: int)
      requires Tracks(names, h, low)
      ensures AllNames(Strings(names))
    {
      TracksHolds(names, h, low);
    }
  }

  // ------------------------------------------------------ the move as it is written

  /** memmove() within the bytes of the array. */
  function Memmove(bytes: seq<int>, to: nat, from: nat, n: nat): seq<int>
    requires to + n <= |bytes| && from + n <= |bytes|
  {
    bytes[..to] + bytes[from..from + n] + bytes[to + n..]
  }

  /** Deleting record `x` of `count` records of `size` bytes each moves as many bytes
      as there are records after it. That is right for the records that are left,
      whatever is in them, if and only if there are none. */
  lemma MoveRightIffLast(count: nat, x: nat, size: nat)
    requires x < count && size >= 2
    ensures (forall bytes: seq<int> :: |bytes| == count * size ==> MovesRight(bytes, count, x, size)) <==> x + 1 == count
  {
    Room(count, x, size);
    if x + 1 == count {
      forall bytes: seq<int> | |bytes| == count * size
        ensures MovesRight(bytes, count, x, size)
      {
      }
    } else {
      var bytes := Spoiled(count * size);
      WrongMove(bytes, count, x, size);
    }
  }

  lemma Room(count: nat, x: nat, size: nat)
    requires x < count && size >= 2
    ensures x * size + size <= count * size && (count - x - 1) * size == count * size - x * size - size
    ensures (count - x - 1) * size >= 2 * (count - x - 1)
  {
    var m := count - x - 1;
    assert count * size == (x + 1 + m) * size == x * size + size + m * size;
    assert m * size == 2 * m + m * (size - 2);
  }

  predicate MovesRight(bytes: seq<int>, count: nat, x: nat, size: nat)
    requires x < count && size >= 2 && |bytes| == count * size
  {
    Room(count, x, size);
    var to, from, left := x * size, x * size + size, count * size - size;
    Memmove(bytes, to, from, count - x - 1)[..left] == Memmove(bytes, to, from, (count - x - 1) * size)[..left]
  }

  function Spoiled(n: nat): seq<int> {
    seq(n, i => if i == n - 1 then 1 else 0)
  }

  lemma WrongMove(bytes: seq<int>, count: nat, x: nat, size: nat)
    requires x + 1 < count && size >= 2 && bytes == Spoiled(count * size)
    ensures !MovesRight(bytes, count, x, size)
  {
    Room(count, x, size);
    var to, from, left := x * size, x * size + size, count * size - size;
    var m := count - x - 1;
    assert Memmove(bytes, to, from, m * size)[left - 1] == bytes[left - 1 + size] == 1;
    assert Memmove(bytes, to, from, m)[left - 1] == bytes[left - 1] == 0;
  }
}

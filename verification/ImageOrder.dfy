/**
 * Which image is newest (internal/image/resolve.go:178-194): by creation time, then by ID, and
 * when that is an order at all.
 */
module ImageOrder {
  import opened Options
  import opened SortedKeys
  import opened ImageMarkers
  import opened Text

  // compareIDs(a, b) < 0: as numbers where both are, else as strings.
  predicate IdBelow(a: string, b: string) {
    if Atoi(a).Some? && Atoi(b).Some? then Atoi(a).value < Atoi(b).value else Below(a, b)
  }

  // a sorts before b: newer, or as old with the higher ID.
  predicate Newer(a: Image, b: Image) {
    a.created > b.created || (a.created == b.created && IdBelow(b.id, a.id))
  }

  // ------------------------------------------------------------------- sorting

  // A stable insertion sort: x goes behind everything that is not after it.
  function Inserted(x: Image, s: seq<Image>): seq<Image> {
    if s == [] then [x]
    else if Newer(x, s[|s| - 1]) then Inserted(x, s[..|s| - 1]) + [s[|s| - 1]]
    else s + [x]
  }

  function Newest(s: seq<Image>): seq<Image> {
    if s == [] then [] else Inserted(s[|s| - 1], Newest(s[..|s| - 1]))
  }

  lemma {:induction false} InsertedLength(x: Image, s: seq<Image>)
    ensures |Inserted(x, s)| == |s| + 1 && multiset(Inserted(x, s)) == multiset(s) + multiset{x}
  {
    if s != [] {
      assert s == s[..|s| - 1] + [s[|s| - 1]];
      if Newer(x, s[|s| - 1]) {
        InsertedLength(x, s[..|s| - 1]);
      }
    }
  }

  lemma {:induction false} NewestIsPermutation(s: seq<Image>)
    ensures |Newest(s)| == |s| && multiset(Newest(s)) == multiset(s)
  {
    if s != [] {
      assert s == s[..|s| - 1] + [s[|s| - 1]];
      NewestIsPermutation(s[..|s| - 1]);
      InsertedLength(s[|s| - 1], Newest(s[..|s| - 1]));
    }
  }

  // How far x has to go: with the last `k` of s behind it and the rest not yet compared.
  lemma {:induction false} InsertedFrom(x: Image, s: seq<Image>, k: nat)
    requires k <= |s| && forall i :: k <= i < |s| ==> Newer(x, s[i])
    ensures Inserted(x, s) == Inserted(x, s[..k]) + s[k..]
    decreases |s|
  {
    if k < |s| {
      var front := s[..|s| - 1];
      InsertedFrom(x, front, k);
      assert front[..k] == s[..k];
      assert s[k..] == front[k..] + [s[|s| - 1]];
      Associate(Inserted(x, s[..k]), front[k..], [s[|s| - 1]]);
    } else {
      assert s[..k] == s && Inserted(x, s) + s[k..] == Inserted(x, s);
    }
  }

  // x standing at j among the others.
  function Standing(s: seq<Image>, x: Image, j: nat): seq<Image>
    requires j <= |s|
  {
    s[..j] + [x] + s[j..]
  }

  // One image moved to its place among those before it, by swapping.
  method MoveIntoPlace(a: array<Image>, i: nat)
    requires i < a.Length
    modifies a
    ensures a[..i + 1] == Inserted(old(a[i]), old(a[..i]))
    ensures a[i + 1..] == old(a[i + 1..])
  {
    hide Newer, Inserted;
    ghost var x, before, rest := a[i], a[..i], a[i + 1..];
    var j := i;
    assert a[..i + 1] == Standing(before, x, i);
    while j > 0 && Newer(a[j], a[j - 1])
      invariant 0 <= j <= i
      invariant a[..i + 1] == Standing(before, x, j)
      invariant a[i + 1..] == rest
      invariant forall k :: j <= k < i ==> Newer(x, before[k])
    {
      ghost var now := a[..i + 1];
      assert a[j] == now[j] && a[j - 1] == now[j - 1];
      a[j], a[j - 1] := a[j - 1], a[j];
      assert a[..i + 1] == now[j := before[j - 1]][j - 1 := x];
      j := j - 1;
    }
    InsertedFrom(x, before, j);
    Stops(before, x, j, a[..i + 1]);
  }

  lemma Stops(s: seq<Image>, x: Image, j: nat, now: seq<Image>)
    requires j <= |s| && now == Standing(s, x, j) && (j > 0 ==> !Newer(now[j], now[j - 1]))
    ensures Inserted(x, s[..j]) + s[j..] == now
  {
    assert j > 0 ==> now[j - 1] == s[..j][j - 1];
    assert now[j] == x;
  }

  // No image stands before a later one.
  predicate LatestFirst(s: seq<Image>) { forall i, j :: 0 <= i < j < |s| ==> s[i].created >= s[j].created }

  // The higher ID: as a number where both are numbers, else as a string.
  predicate HigherId(a: string, b: string) {
    if Atoi(a).Some? && Atoi(b).Some? then Atoi(a).value > Atoi(b).value else Below(b, a)
  }

  // Of images of one time the one with the higher ID stands first.
  predicate HigherFirst(s: seq<Image>) {
    forall i, j :: 0 <= i < j < |s| && s[i].created == s[j].created ==> HigherId(s[i].id, s[j].id)
  }

  lemma {:induction false} InsertedByTime(x: Image, s: seq<Image>)
    requires LatestFirst(s)
    ensures LatestFirst(Inserted(x, s)) && forall y :: y in Inserted(x, s) <==> y in s || y == x
  {
    hide IdBelow;
    if s != [] && Newer(x, s[|s| - 1]) {
      var front, last := s[..|s| - 1], s[|s| - 1];
      var r := Inserted(x, front);
      InsertedByTime(x, front);
      assert s == front + [last];
      forall k | 0 <= k < |r| ensures r[k].created >= last.created {
        assert r[k] in r;
      }
    } else if s != [] {
      assert s[|s| - 1].created >= x.created;
    }
  }

  // Whatever the IDs are.
  lemma {:induction false} NewestByTime(s: seq<Image>)
    ensures LatestFirst(Newest(s)) && forall y :: y in Newest(s) <==> y in s
  {
    hide LatestFirst, Inserted;
    if s != [] {
      var front, last := s[..|s| - 1], s[|s| - 1];
      NewestByTime(front);
      InsertedByTime(last, Newest(front));
      assert s == front + [last];
    } else {
      NothingByTime();
    }
  }

  lemma NothingByTime()
    ensures LatestFirst([])
  {
  }

  // Where IDs are an order, they decide between images of one time.
  lemma NewestById(s: seq<Image>)
    requires DistinctIds(s) && Ordered(Elements(s))
    ensures HigherFirst(Newest(s))
  {
    NewestInOrder(s);
  }

  method SortNewest(a: array<Image>)
    modifies a
    ensures a[..] == Newest(old(a[..]))
    ensures LatestFirst(a[..])
    ensures DistinctIds(old(a[..])) && Ordered(Elements(old(a[..]))) ==> HigherFirst(a[..])
  {
    hide Newer, Newest, HigherFirst, LatestFirst, Ordered, DistinctIds;
    SortInPlace(a);
    NewestByTime(old(a[..]));
    if DistinctIds(old(a[..])) && Ordered(Elements(old(a[..]))) { NewestById(old(a[..])); }
  }

  method SortInPlace(a: array<Image>)
    modifies a
    ensures a[..] == Newest(old(a[..]))
  {
    ghost var was := a[..];
    for i := 0 to a.Length
      invariant a[..i] == Newest(was[..i])
      invariant a[i..] == was[i..]
    {
      assert a[i] == a[i..][0] == was[i];
      assert was[..i + 1][..i] == was[..i];
      ghost var rest := a[i + 1..];
      assert rest == a[i..][1..] == was[i + 1..];
      MoveIntoPlace(a, i);
    }
    assert a[..a.Length] == a[..] && was[..a.Length] == was;
  }

  // ---------------------------------------------------------- when it is an order

  predicate DistinctIds(s: seq<Image>) { forall i, j :: 0 <= i < j < |s| ==> s[i].id != s[j].id }

  // Any two of these compare, and comparisons chain.
  ghost predicate Ordered(s: set<Image>) {
    && (forall a, b :: a in s && b in s && a != b ==> Newer(a, b) || Newer(b, a))
    && (forall a, b, c :: a in s && b in s && c in s && Newer(a, b) && Newer(b, c) ==> Newer(a, c))
  }

  predicate InOrder(s: seq<Image>) { forall i, j :: 0 <= i < j < |s| ==> Newer(s[i], s[j]) }

  function Elements(s: seq<Image>): set<Image> { set x | x in s }

  lemma NotBoth(a: Image, b: Image)
    ensures !(Newer(a, b) && Newer(b, a)) && !Newer(a, a)
  {
    Trichotomy(a.id, b.id);
    Trichotomy(a.id, a.id);
  }

  lemma InOrderSnoc(s: seq<Image>, x: Image)
    requires InOrder(s) && forall y :: y in s ==> Newer(y, x)
    ensures InOrder(s + [x])
  {
    forall i, j | 0 <= i < j < |s + [x]| ensures Newer((s + [x])[i], (s + [x])[j]) {
      assert s[i] in s;
    }
  }

  lemma LastIsOldest(s: seq<Image>, x: Image)
    requires s != [] && InOrder(s) && x in s
    ensures x == s[|s| - 1] || Newer(x, s[|s| - 1])
  {
  }

  lemma {:induction false} InsertedInOrder(x: Image, s: seq<Image>)
    requires InOrder(s) && x !in s && Ordered(Elements(s) + {x})
    ensures InOrder(Inserted(x, s))
    ensures Elements(Inserted(x, s)) == Elements(s) + {x}
  {
    hide Newer;
    if s != [] {
      var front, last := s[..|s| - 1], s[|s| - 1];
      assert s == front + [last];
      assert Elements(s) == Elements(front) + {last};
      if Newer(x, last) {
        SubsetOrdered(Elements(s) + {x}, Elements(front) + {x});
        InsertedInOrder(x, front);
        forall y | y in Inserted(x, front) ensures Newer(y, last) {
          assert y in Elements(Inserted(x, front));
        }
        InOrderSnoc(Inserted(x, front), last);
      } else {
        assert last in Elements(s) && x != last;
        forall y | y in s ensures Newer(y, x) {
          LastIsOldest(s, y);
          assert y in Elements(s);
        }
        InOrderSnoc(s, x);
      }
    }
  }

  lemma {:induction false} NewestInOrder(s: seq<Image>)
    requires DistinctIds(s) && Ordered(Elements(s))
    ensures InOrder(Newest(s)) && Elements(Newest(s)) == Elements(s)
  {
    if s != [] {
      var front, last := s[..|s| - 1], s[|s| - 1];
      assert s == front + [last];
      assert Elements(s) == Elements(front) + {last};
      NewestInOrder(front);
      forall x | x in Newest(front) ensures x != last {
        assert x in Elements(front);
      }
      InsertedInOrder(last, Newest(front));
    }
  }

  // Ordered images have one order.
  lemma {:induction false} OneOrder(s: seq<Image>, t: seq<Image>)
    requires InOrder(s) && InOrder(t) && Elements(s) == Elements(t)
    ensures s == t
    decreases |s|
  {
    NoElements(s);
    NoElements(t);
    if s != [] {
      assert s[0] in Elements(t);
      assert t[0] in Elements(s);
      if s[0] != t[0] {
        NotBoth(s[0], t[0]);
      }
      TailElements(s);
      TailElements(t);
      OneOrder(s[1..], t[1..]);
      assert s == [s[0]] + s[1..] && t == [t[0]] + t[1..];
    }
  }

  lemma NoElements(s: seq<Image>)
    ensures Elements(s) == {} <==> s == []
  {
    if s != [] {
      assert s[0] in Elements(s);
    }
  }

  lemma TailElements(s: seq<Image>)
    requires s != [] && InOrder(s)
    ensures Elements(s[1..]) == Elements(s) - {s[0]} && InOrder(s[1..])
  {
    assert s == [s[0]] + s[1..];
    forall x | x in s[1..] ensures x != s[0] {
      NotBoth(x, x);
    }
  }

  // The order the provider listed the images in is forgotten, and any other way of sorting them
  // newest first comes to the same.
  lemma ListingOrderForgotten(s: seq<Image>, t: seq<Image>)
    requires DistinctIds(s) && Ordered(Elements(s)) && Elements(s) == Elements(t)
    ensures DistinctIds(t) ==> Newest(s) == Newest(t)
    ensures InOrder(t) ==> t == Newest(s)
  {
    NewestInOrder(s);
    if DistinctIds(t) {
      NewestInOrder(t);
      OneOrder(Newest(s), Newest(t));
    }
    if InOrder(t) {
      OneOrder(Newest(s), t);
    }
  }

  // ------------------------------------------------------------------ filtering

  function Filter(s: seq<Image>, p: Image -> bool): seq<Image> {
    if s == [] then [] else Filter(s[..|s| - 1], p) + if p(s[|s| - 1]) then [s[|s| - 1]] else []
  }

  lemma FilterMeans(s: seq<Image>, p: Image -> bool)
    ensures forall x :: x in Filter(s, p) <==> x in s && p(x)
    ensures DistinctIds(s) ==> DistinctIds(Filter(s, p))
    ensures InOrder(s) ==> InOrder(Filter(s, p))
  {
    hide DistinctIds, InOrder, Filter;
    FilterMembers(s, p);
    if DistinctIds(s) { FilterDistinct(s, p); }
    if InOrder(s) { FilterInOrder(s, p); }
  }

  lemma {:induction false} FilterMembers(s: seq<Image>, p: Image -> bool)
    ensures forall x :: x in Filter(s, p) <==> x in s && p(x)
  {
    if s != [] {
      var front, last := s[..|s| - 1], s[|s| - 1];
      assert s == front + [last];
      FilterMembers(front, p);
    }
  }

  lemma {:induction false} FilterDistinct(s: seq<Image>, p: Image -> bool)
    requires DistinctIds(s)
    ensures DistinctIds(Filter(s, p))
  {
    if s != [] {
      var front, last := s[..|s| - 1], s[|s| - 1];
      FilterDistinct(front, p);
      FilterMembers(front, p);
      var f := Filter(front, p);
      forall k | 0 <= k < |f| ensures f[k].id != last.id {
        assert f[k] in front;
        var i :| 0 <= i < |front| && front[i] == f[k];
        assert s[i] == f[k];
      }
    }
  }

  lemma {:induction false} FilterInOrder(s: seq<Image>, p: Image -> bool)
    requires InOrder(s)
    ensures InOrder(Filter(s, p))
  {
    if s != [] {
      var front, last := s[..|s| - 1], s[|s| - 1];
      FilterInOrder(front, p);
      FilterMembers(front, p);
      var f := Filter(front, p);
      forall k | 0 <= k < |f| ensures Newer(f[k], last) {
        assert f[k] in front;
        var i :| 0 <= i < |front| && front[i] == f[k];
        assert s[i] == f[k];
      }
    }
  }

  lemma SubsetOrdered(s: set<Image>, t: set<Image>)
    requires Ordered(s) && t <= s
    ensures Ordered(t)
  {
  }

  // Sorting and filtering commute.
  lemma SortThenFilter(s: seq<Image>, p: Image -> bool)
    requires DistinctIds(s) && Ordered(Elements(s))
    ensures Newest(Filter(s, p)) == Filter(Newest(s), p)
  {
    NewestInOrder(s);
    FilterMeans(s, p);
    FilterMeans(Newest(s), p);
    SubsetOrdered(Elements(s), Elements(Filter(s, p)));
    NewestInOrder(Filter(s, p));
    assert Elements(Filter(Newest(s), p)) == Elements(Filter(s, p)) by {
      forall x ensures x in Filter(Newest(s), p) <==> x in Filter(s, p) {
        assert x in Newest(s) <==> x in Elements(s);
      }
    }
    OneOrder(Newest(Filter(s, p)), Filter(Newest(s), p));
  }

  // ---------------------------------------------------- exactly when listings are forgotten

  predicate NoTwice(s: seq<Image>) { forall i, j :: 0 <= i < j < |s| ==> s[i] != s[j] }

  ghost predicate Before(s: seq<Image>, x: Image, y: Image) {
    exists i, j :: 0 <= i < j < |s| && s[i] == x && s[j] == y
  }

  lemma OnlyOneWay(s: seq<Image>, x: Image, y: Image)
    requires NoTwice(s) && Before(s, x, y)
    ensures !Before(s, y, x)
  {
  }

  // Inserting one more leaves the others as they stand.
  lemma {:induction false} InsertedKeeps(z: Image, s: seq<Image>, x: Image, y: Image)
    requires Before(s, x, y)
    ensures Before(Inserted(z, s), x, y)
  {
    var front, last := s[..|s| - 1], s[|s| - 1];
    var i, j :| 0 <= i < j < |s| && s[i] == x && s[j] == y;
    if Newer(z, last) {
      if j < |front| {
        assert front[i] == x && front[j] == y;
        InsertedKeeps(z, front, x, y);
        var k, l :| 0 <= k < l < |Inserted(z, front)| && Inserted(z, front)[k] == x && Inserted(z, front)[l] == y;
        assert Inserted(z, s)[k] == x && Inserted(z, s)[l] == y;
      } else {
        InsertedMembers(z, front);
        assert front[i] in Inserted(z, front);
        var k :| 0 <= k < |Inserted(z, front)| && Inserted(z, front)[k] == x;
        assert Inserted(z, s)[k] == x && Inserted(z, s)[|Inserted(z, front)|] == y;
      }
    } else {
      assert Inserted(z, s)[i] == x && Inserted(z, s)[j] == y;
    }
  }

  lemma InsertedMembers(z: Image, s: seq<Image>)
    ensures forall x :: x in Inserted(z, s) <==> x in s || x == z
  {
    InsertedLength(z, s);
    forall x ensures x in Inserted(z, s) <==> x in s || x == z {
      assert x in Inserted(z, s) <==> x in multiset(Inserted(z, s));
      assert x in s <==> x in multiset(s);
    }
  }

  lemma {:induction false} InsertedOnce(z: Image, s: seq<Image>)
    requires NoTwice(s) && z !in s
    ensures NoTwice(Inserted(z, s))
  {
    if s != [] && Newer(z, s[|s| - 1]) {
      var front := s[..|s| - 1];
      InsertedOnce(z, front);
      InsertedMembers(z, front);
      forall k | 0 <= k < |Inserted(z, front)| ensures Inserted(z, front)[k] != s[|s| - 1] {
        assert Inserted(z, front)[k] in Inserted(z, front);
      }
    }
  }

  lemma {:induction false} NewestOnce(s: seq<Image>)
    requires NoTwice(s)
    ensures NoTwice(Newest(s))
  {
    if s != [] {
      var front, last := s[..|s| - 1], s[|s| - 1];
      NewestOnce(front);
      NewestIsPermutation(front);
      assert last in Newest(front) <==> last in multiset(front);
      InsertedOnce(last, Newest(front));
    }
  }

  // Two that are listed first, the second not newer than the first, are never exchanged.
  lemma {:induction false} FirstTwoStay(x: Image, y: Image, rest: seq<Image>)
    requires !Newer(y, x)
    ensures Before(Newest([x, y] + rest), x, y)
    decreases |rest|
  {
    var s := [x, y] + rest;
    if rest == [] {
      assert s[..1] == [x] && [x][..0] == [];
      assert Newest([x]) == [x] by { assert Newest([]) == []; }
      assert s == [x, y] && Newest(s) == Inserted(y, [x]) == [x] + [y];
      assert Newest(s)[0] == x && Newest(s)[1] == y;
    } else {
      var front := rest[..|rest| - 1];
      assert s[..|s| - 1] == [x, y] + front;
      FirstTwoStay(x, y, front);
      InsertedKeeps(s[|s| - 1], Newest([x, y] + front), x, y);
    }
  }

  // The same images with x and y listed first.
  function Led(s: seq<Image>, x: Image, y: Image): seq<Image> { [x, y] + Filter(s, z => z != x && z != y) }

  lemma LedLists(s: seq<Image>, x: Image, y: Image)
    requires DistinctIds(s) && x in s && y in s && x != y
    ensures DistinctIds(Led(s, x, y)) && Elements(Led(s, x, y)) == Elements(s)
  {
    var rest := Filter(s, z => z != x && z != y);
    FilterMeans(s, z => z != x && z != y);
    forall a, b | a in s && b in s && a != b ensures a.id != b.id {
      var i, j :| 0 <= i < |s| && 0 <= j < |s| && s[i] == a && s[j] == b;
    }
    forall k | 0 <= k < |rest| ensures rest[k].id != x.id && rest[k].id != y.id {
      assert rest[k] in rest;
    }
    forall z ensures z in Led(s, x, y) <==> z in s {
    }
  }

  // Every listing of these images sorts to the same.
  ghost predicate SortsAlike(s: seq<Image>) {
    forall t :: DistinctIds(t) && Elements(t) == Elements(s) ==> Newest(t) == Newest(s)
  }

  // Then each of any two keeps its place in front where the other is not newer.
  lemma PlacedAlike(s: seq<Image>, x: Image, y: Image)
    requires DistinctIds(s) && SortsAlike(s) && x in s && y in s && x != y && !Newer(y, x)
    ensures Before(Newest(s), x, y)
  {
    LedLists(s, x, y);
    FirstTwoStay(x, y, Filter(s, z => z != x && z != y));
  }

  // Which image is newest, and the whole order, is the same for every listing if and only if the
  // images are ordered.
  lemma SameForEveryListing(s: seq<Image>)
    requires DistinctIds(s)
    ensures SortsAlike(s) <==> Ordered(Elements(s))
  {
    hide Newer, Newest, Before, DistinctIds;
    if Ordered(Elements(s)) {
      forall t | DistinctIds(t) && Elements(t) == Elements(s) ensures Newest(t) == Newest(s) {
        ListingOrderForgotten(s, t);
      }
    }
    if SortsAlike(s) {
      var r := Newest(s);
      DistinctOnce(s);
      NewestOnce(s);
      forall a, b | a in s && b in s && a != b ensures Newer(a, b) || Newer(b, a) {
        if !Newer(a, b) && !Newer(b, a) {
          PlacedAlike(s, a, b);
          PlacedAlike(s, b, a);
          OnlyOneWay(r, a, b);
        }
      }
      forall a, b, c | a in s && b in s && c in s && Newer(a, b) && Newer(b, c) ensures Newer(a, c) {
        NotBoth(a, b);
        NotBoth(b, c);
        if !Newer(a, c) {
          PlacedAlike(s, a, b);
          PlacedAlike(s, b, c);
          if a != c { PlacedAlike(s, c, a); }
          RoundOnce(r, a, b, c);
        }
      }
    }
  }

  lemma DistinctOnce(s: seq<Image>)
    requires DistinctIds(s)
    ensures NoTwice(s)
  {
  }

  // What stands in a row does not go round.
  lemma RoundOnce(r: seq<Image>, a: Image, b: Image, c: Image)
    requires NoTwice(r) && Before(r, a, b) && Before(r, b, c)
    ensures a != c && !Before(r, c, a)
  {
  }

  // ------------------------------------------------------------------ which IDs

  // As the provider writes numbers: no sign but a minus, no leading zero.
  predicate Canonical(id: string) {
    && Atoi(id).Some?
    && id[0] != '+' && id != "-0"
    && (id[0] == '0' ==> |id| == 1)
    && (id[0] == '-' ==> id[1] != '0' || |id| == 2)
  }

  lemma {:induction false} DigitsOfValue(s: string)
    requires s != "" && AllDigits(s) && (s[0] == '0' ==> |s| == 1)
    ensures Digits(NumberOf(s)) == s && (NumberOf(s) == 0 ==> s == "0")
  {
    var front, last := s[..|s| - 1], s[|s| - 1];
    assert s == front + [last];
    if |s| == 1 {
      assert NumberOf(front) == 0;
    } else {
      DigitsOfValue(front);
      assert NumberOf(s) / 10 == NumberOf(front) && NumberOf(s) % 10 == (last - '0') as int;
    }
  }

  // Canonical IDs that are the same number are the same ID.
  lemma CanonicalIsUnique(a: string, b: string)
    requires Canonical(a) && Canonical(b) && Atoi(a) == Atoi(b)
    ensures a == b
  {
    hide Atoi, Canonical, NumberOf, Digits, AllDigits;
    CanonicalDigits(a);
    CanonicalDigits(b);
    var x, y := if a[0] == '-' then a[1..] else a, if b[0] == '-' then b[1..] else b;
    DigitsOfValue(x);
    DigitsOfValue(y);
    assert a[0] == '-' ==> a == "-" + x;
    assert b[0] == '-' ==> b == "-" + y;
  }

  lemma CanonicalDigits(id: string)
    requires Canonical(id)
    ensures id != ""
    ensures var x := if id[0] == '-' then id[1..] else id;
            && x != "" && AllDigits(x) && (x[0] == '0' ==> |x| == 1)
            && Atoi(id).value == (if id[0] == '-' then -(NumberOf(x) as int) else NumberOf(x))
            && (id[0] == '-' ==> x != "0")
  {
    assert id == [id[0]] + id[1..];
  }

  // Two numbers and a word between them, as strings, the other way round from as numbers.
  ghost predicate Straddled(ids: set<string>) {
    exists x, y, z :: x in ids && y in ids && z in ids
      && Atoi(x).Some? && Atoi(y).Some? && Atoi(z).None?
      && Atoi(x).value < Atoi(y).value && Below(y, z) && Below(z, x)
  }

  ghost predicate NumbersDiffer(ids: set<string>) {
    forall a, b :: a in ids && b in ids && a != b && Atoi(a).Some? && Atoi(b).Some? ==> Atoi(a).value != Atoi(b).value
  }

  ghost predicate IdsOrdered(ids: set<string>) {
    && (forall a, b :: a in ids && b in ids && a != b ==> IdBelow(a, b) || IdBelow(b, a))
    && (forall a, b, c :: a in ids && b in ids && c in ids && IdBelow(a, b) && IdBelow(b, c) ==> IdBelow(a, c))
  }

  lemma NumbersCompare(ids: set<string>)
    ensures (forall a, b :: a in ids && b in ids && a != b ==> IdBelow(a, b) || IdBelow(b, a)) <==> NumbersDiffer(ids)
  {
    forall a, b | a in ids && b in ids && a != b
      ensures (IdBelow(a, b) || IdBelow(b, a)) <==> !(Atoi(a).Some? && Atoi(b).Some? && Atoi(a).value == Atoi(b).value)
    {
      Trichotomy(a, b);
    }
  }

  lemma Chains(ids: set<string>, a: string, b: string, c: string)
    requires NumbersDiffer(ids) && !Straddled(ids)
    requires a in ids && b in ids && c in ids && IdBelow(a, b) && IdBelow(b, c)
    ensures IdBelow(a, c)
  {
    hide Atoi;
    Trichotomy(a, b);
    Trichotomy(b, c);
    Trichotomy(a, c);
    if Below(a, b) && Below(b, c) {
      Transitive(a, b, c);
    }
    if Below(b, c) && Below(c, a) {
      Transitive(b, c, a);
    }
    if Below(c, a) && Below(a, b) {
      Transitive(c, a, b);
    }
  }

  lemma StraddledGoesRound(ids: set<string>)
    requires Straddled(ids)
    ensures !IdsOrdered(ids)
  {
    hide Atoi, Below;
    var x, y, z :| x in ids && y in ids && z in ids
      && Atoi(x).Some? && Atoi(y).Some? && Atoi(z).None?
      && Atoi(x).value < Atoi(y).value && Below(y, z) && Below(z, x);
    assert IdBelow(x, y) && IdBelow(y, z) && IdBelow(z, x);
    Trichotomy(x, z);
  }

  // The comparator orders a set of IDs exactly when no two of its numbers are equal and none of its
  // other IDs stands between two numbers that strings and numbers order differently.
  lemma WhenIdsAreOrdered(ids: set<string>)
    ensures IdsOrdered(ids) <==> NumbersDiffer(ids) && !Straddled(ids)
  {
    hide Atoi, IdBelow, Straddled;
    NumbersCompare(ids);
    if NumbersDiffer(ids) && !Straddled(ids) {
      forall a, b, c | a in ids && b in ids && c in ids && IdBelow(a, b) && IdBelow(b, c)
        ensures IdBelow(a, c)
      {
        Chains(ids, a, b, c);
      }
    }
    if Straddled(ids) {
      StraddledGoesRound(ids);
    }
  }

  function Ids(s: set<Image>): set<string> { set x | x in s :: x.id }

  // Ordered IDs order the images that bear them.
  lemma OrderedByIds(s: set<Image>)
    requires IdsOrdered(Ids(s)) && forall a, b :: a in s && b in s && a != b ==> a.id != b.id
    ensures Ordered(s)
  {
    hide Atoi, IdBelow;
    forall a, b | a in s && b in s && a != b ensures Newer(a, b) || Newer(b, a) {
      assert a.id in Ids(s) && b.id in Ids(s);
    }
    forall a, b, c | a in s && b in s && c in s && Newer(a, b) && Newer(b, c) ensures Newer(a, c) {
      assert a.id in Ids(s) && b.id in Ids(s) && c.id in Ids(s);
    }
  }

  // Numbers as the provider writes them are ordered, and so are IDs that are no numbers at all.
  lemma UniformIdsAreOrdered(ids: set<string>)
    requires (forall id :: id in ids ==> Canonical(id)) || (forall id :: id in ids ==> Atoi(id).None?)
    ensures IdsOrdered(ids)
  {
    forall a, b | a in ids && b in ids && a != b && Atoi(a).Some? && Atoi(b).Some?
      ensures Atoi(a).value != Atoi(b).value
    {
      if Atoi(a) == Atoi(b) {
        CanonicalIsUnique(a, b);
      }
    }
    WhenIdsAreOrdered(ids);
  }

  // "9" < "10" < "1a" < "9": three IDs of one moment, and the newest depends on who is listed first.
  lemma MixedIdsGoRound(a: Image, b: Image, c: Image)
    requires a.id == "9" && b.id == "10" && c.id == "1a" && a.created == b.created == c.created
    ensures Newest([a, b, c])[0] != Newest([b, c, a])[0]
  {
    Numbers();
    assert Newer(b, a) && Newer(c, b) && Newer(a, c) by {
      assert "1a"[1..] == "a" && "10"[1..] == "0";
      assert Below("1a", "9") && Below("10", "1a");
    }
    NotBoth(c, a);
    NotBoth(a, b);
    ThreeSorted(a, b, c);
    ThreeSorted(b, c, a);
  }

  // Three images where the second is newer than the first, and the last not newer than the first.
  lemma ThreeSorted(a: Image, b: Image, c: Image)
    requires Newer(b, a) && !Newer(c, a)
    ensures Newest([a, b, c]) == [b, a, c]
  {
    assert [a, b, c][..2] == [a, b] && [a, b][..1] == [a] && [a][..0] == [];
    assert Newest([a]) == [a] by { assert Newest([]) == []; }
    assert Inserted(b, [a]) == Inserted(b, [a][..0]) + [a];
    assert Newest([a, b]) == [b, a];
    assert Inserted(c, [b, a]) == [b, a] + [c];
  }

  lemma Numbers()
    ensures Atoi("9") == Some(9) && Atoi("10") == Some(10) && Atoi("1a") == None
  {
    assert "9"[..0] == "" && "10"[..1] == "1" && "1"[..0] == "";
    assert NumberOf("9") == 9 && NumberOf("1") == 1 && NumberOf("10") == 10;
    assert !IsDigit("1a"[1]);
  }
}

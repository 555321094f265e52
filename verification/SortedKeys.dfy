/** Strings in byte order, and the one sorted listing of a set of them (Go's sort.Strings over a map's keys). */
module SortedKeys {

  predicate Below(a: string, b: string) {
    b != "" && (a == "" || a[0] < b[0] || (a[0] == b[0] && Below(a[1..], b[1..])))
  }

  lemma {:induction false} Trichotomy(a: string, b: string)
    ensures Below(a, b) || Below(b, a) || a == b
    ensures !(Below(a, b) && Below(b, a)) && (a == b ==> !Below(a, b))
  {
    if a != "" && b != "" && a[0] == b[0] {
      Trichotomy(a[1..], b[1..]);
      assert a == [a[0]] + a[1..] && b == [b[0]] + b[1..];
    }
  }

  lemma {:induction false} Transitive(a: string, b: string, c: string)
    requires Below(a, b) && Below(b, c)
    ensures Below(a, c)
  {
    if a != "" && a[0] == b[0] == c[0] {
      Transitive(a[1..], b[1..], c[1..]);
    }
  }

  // They agree before k, and there a ends or has the lower character.
  predicate LowerAt(a: string, b: string, k: nat) {
    k <= |a| && k < |b| && a[..k] == b[..k] && (k == |a| || a[k] < b[k])
  }

  // Byte order, said at the first difference.
  lemma {:induction false} BelowExactly(a: string, b: string)
    ensures Below(a, b) <==> exists k: nat :: LowerAt(a, b, k)
  {
    if a != "" && b != "" && a[0] == b[0] {
      BelowExactly(a[1..], b[1..]);
      forall k: nat ensures LowerAt(a[1..], b[1..], k) <==> LowerAt(a, b, k + 1) {
        LowerNext(a, b, k);
      }
      if k: nat :| LowerAt(a, b, k) {
        assert k > 0;
        assert LowerAt(a[1..], b[1..], k - 1) <==> LowerAt(a, b, k - 1 + 1);
      }
    } else if k: nat :| LowerAt(a, b, k) {
      if k > 0 { LowerStarts(a, b, k); }
    } else if Below(a, b) {
      assert LowerAt(a, b, 0);
    }
  }

  lemma LowerStarts(a: string, b: string, k: nat)
    requires k > 0 && LowerAt(a, b, k)
    ensures a != "" && b != "" && a[0] == b[0]
  {
    assert a[..k][0] == b[..k][0];
  }

  lemma LowerNext(a: string, b: string, k: nat)
    requires a != "" && b != "" && a[0] == b[0]
    ensures LowerAt(a[1..], b[1..], k) <==> LowerAt(a, b, k + 1)
  {
    if k + 1 <= |a| && k + 1 <= |b| {
      assert a[..k + 1] == [a[0]] + a[1..][..k];
      assert b[..k + 1] == [b[0]] + b[1..][..k];
      if a[..k + 1] == b[..k + 1] {
        assert a[1..][..k] == a[..k + 1][1..] == b[1..][..k];
      }
    }
  }

  predicate Sorted(s: seq<string>) { forall i, j :: 0 <= i < j < |s| ==> Below(s[i], s[j]) }

  ghost predicate Lists(s: seq<string>, keys: set<string>) {
    Sorted(s) && forall k :: k in s <==> k in keys
  }

  // A set of strings has one sorted listing.
  lemma {:induction false} OneListing(s: seq<string>, t: seq<string>, keys: set<string>)
    requires Lists(s, keys) && Lists(t, keys)
    ensures s == t
    decreases |s|
  {
    NoneListed(s, keys);
    NoneListed(t, keys);
    if s != [] {
      FirstIsLeast(s, t[0]);
      FirstIsLeast(t, s[0]);
      Trichotomy(s[0], t[0]);
      var rest := keys - {s[0]};
      RestLists(s, keys);
      RestLists(t, keys);
      OneListing(s[1..], t[1..], rest);
    }
  }

  lemma NoneListed(s: seq<string>, keys: set<string>)
    requires Lists(s, keys)
    ensures s == [] <==> keys == {}
  {
    if s != [] {
      assert s[0] in s;
    }
    if k :| k in keys {
      assert k in s;
    }
  }

  lemma FirstIsLeast(s: seq<string>, k: string)
    requires Sorted(s) && k in s
    ensures s[0] == k || Below(s[0], k)
  {
  }

  lemma RestLists(s: seq<string>, keys: set<string>)
    requires Lists(s, keys) && s != []
    ensures Lists(s[1..], keys - {s[0]})
  {
    assert s == [s[0]] + s[1..];
    forall k | k in s[1..] ensures k != s[0] {
      Trichotomy(s[0], k);
    }
  }

  function Insert(k: string, s: seq<string>): seq<string> {
    if s == [] || Below(k, s[0]) then [k] + s else [s[0]] + Insert(k, s[1..])
  }

  function Sort(s: seq<string>): seq<string> {
    if s == [] then [] else Insert(s[|s| - 1], Sort(s[..|s| - 1]))
  }

  lemma {:induction false} InsertKeepsOrder(k: string, s: seq<string>)
    requires Sorted(s) && k !in s
    ensures Sorted(Insert(k, s)) && forall x :: x in Insert(k, s) <==> x == k || x in s
  {
    if s != [] && !Below(k, s[0]) {
      var tail := Insert(k, s[1..]);
      InsertKeepsOrder(k, s[1..]);
      Trichotomy(k, s[0]);
      assert forall x :: x in tail ==> Below(s[0], x);
      assert s == [s[0]] + s[1..];
      forall i, j | 0 <= i < j < |tail| + 1 ensures Below(([s[0]] + tail)[i], ([s[0]] + tail)[j]) {
        assert tail[j - 1] in tail;
      }
    } else if s != [] {
      forall x | x in s ensures Below(k, x) {
        if x != s[0] { Transitive(k, s[0], x); }
      }
    }
  }

  predicate Distinct(s: seq<string>) { forall i, j :: 0 <= i < j < |s| ==> s[i] != s[j] }

  lemma {:induction false} SortLists(s: seq<string>)
    requires Distinct(s)
    ensures Lists(Sort(s), set k | k in s)
  {
    if s != [] {
      var last := s[|s| - 1];
      var front := s[..|s| - 1];
      SortLists(front);
      assert s == front + [last];
      InsertKeepsOrder(last, Sort(front));
    }
  }

  // The order a map's keys happened to come in is forgotten.
  lemma SortForgetsOrder(s: seq<string>, t: seq<string>)
    requires Distinct(s) && Distinct(t) && forall k :: k in s <==> k in t
    ensures Sort(s) == Sort(t)
  {
    SortLists(s);
    SortLists(t);
    OneListing(Sort(s), Sort(t), set k | k in s);
  }

  lemma {:induction false} SomeOrder(keys: set<string>) returns (s: seq<string>)
    ensures Distinct(s) && forall k :: k in s <==> k in keys
    decreases |keys|
  {
    if keys == {} {
      s := [];
    } else {
      var k :| k in keys;
      var front := SomeOrder(keys - {k});
      s := front + [k];
    }
  }

  // The keys in order.
  ghost function InOrder(keys: set<string>): (s: seq<string>)
    ensures Lists(s, keys)
  {
    ASortedListing(keys);
    var s :| Lists(s, keys);
    s
  }

  lemma ASortedListing(keys: set<string>)
    ensures exists s :: Lists(s, keys)
  {
    var s := SomeOrder(keys);
    SortLists(s);
    assert Lists(Sort(s), keys);
  }

  // Go visits a map's keys in no particular order; sorting what came leaves one answer.
  method SortKeys(keys: set<string>) returns (s: seq<string>)
    ensures s == InOrder(keys)
  {
    var left := keys;
    var seen: seq<string> := [];
    while left != {}
      invariant left <= keys && Distinct(seen)
      invariant forall k :: k in seen <==> k in keys && k !in left
      decreases left
    {
      var k :| k in left;
      seen := seen + [k];
      left := left - {k};
    }
    s := Sort(seen);
    SortLists(seen);
    OneListing(s, InOrder(keys), keys);
  }
}

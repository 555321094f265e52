/**
 * Retention (internal/image/retention.go): what a prune keeps and deletes in one scope, that it
 * agrees with what a launch picks (internal/image/resolve.go:71-88), and that a prune cut short
 * goes on where it stopped.
 */
module ImagePrune {
  import opened Options
  import opened ImageMarkers
  import opened ImageOrder

  datatype Plan = Plan(scope: Scope, keep: seq<Image>, delete: seq<Image>)

  datatype Refusal = NegativeKeep | BadTag | NoTarget
  datatype Planning = Ready(plan: Plan) | Refused(why: Refusal)

  function In(s: Scope): Image -> bool { (img: Image) => Eligible(img, s) }
  function Bears(id: string): Image -> bool { (img: Image) => img.id == id }
  function Others(id: string): Image -> bool { (img: Image) => img.id != id }

  // The eligible images, newest first.
  function Candidates(imgs: seq<Image>, s: Scope): seq<Image> { Newest(Filter(imgs, In(s))) }

  function Lead(s: seq<Image>, keep: nat): nat { if keep < |s| then keep else |s| }

  function Kept(s: seq<Image>, keep: nat, protectedId: string): seq<Image> {
    s[..Lead(s, keep)] + Filter(s[Lead(s, keep)..], Bears(protectedId))
  }

  function Dropped(s: seq<Image>, keep: nat, protectedId: string): seq<Image> {
    Filter(s[Lead(s, keep)..], Others(protectedId))
  }

  function Reversed(s: seq<Image>): (r: seq<Image>)
    ensures |r| == |s| && forall k :: 0 <= k < |s| ==> r[k] == s[|s| - 1 - k]
  {
    seq(|s|, k requires 0 <= k < |s| => s[|s| - 1 - k])
  }

  function Planned(imgs: seq<Image>, s: Scope, keepPrevious: int, protectedId: string): Planning {
    if keepPrevious < 0 then Refused(NegativeKeep)
    else if !ValidUserTag(s.tag) then Refused(BadTag)
    else if s.arch == "" || s.region == "" then Refused(NoTarget)
    else
      var all := Candidates(imgs, s);
      Ready(Plan(s, Kept(all, 1 + keepPrevious, protectedId), Reversed(Dropped(all, 1 + keepPrevious, protectedId))))
  }

  // What a launch of `tag` for this target takes; None is its error.
  function Launched(all: seq<Image>, s: Scope): Option<Image> {
    var ok := Candidates(all, s);
    if ok == [] then None else Some(ok[0])
  }

  // ------------------------------------------------------------ the source's loops

  method Collect(imgs: seq<Image>, s: Scope) returns (ok: seq<Image>)
    ensures ok == Candidates(imgs, s)
  {
    var found: seq<Image> := [];
    for n := 0 to |imgs|
      invariant found == Filter(imgs[..n], In(s))
    {
      assert imgs[..n + 1][..n] == imgs[..n];
      if Eligible(imgs[n], s) {
        found := found + [imgs[n]];
      }
    }
    assert imgs[..|imgs|] == imgs;
    var a := new Image[|found|](i requires 0 <= i < |found| => found[i]);
    assert a[..] == found;
    SortNewest(a);
    ok := a[..];
  }

  // The candidates: every eligible image and no other, none of them before a later one.
  lemma CandidatesByTime(imgs: seq<Image>, s: Scope)
    ensures LatestFirst(Candidates(imgs, s))
    ensures forall x :: x in Candidates(imgs, s) <==> x in imgs && Eligible(x, s)
  {
    hide Newest, Filter, LatestFirst, Eligible, DistinctIds;
    NewestByTime(Filter(imgs, In(s)));
    FilterMeans(imgs, In(s));
  }

  // And where IDs are an order, of images of one time the one with the higher ID first.
  lemma CandidatesById(imgs: seq<Image>, s: Scope)
    requires Comparable(imgs, s)
    ensures HigherFirst(Candidates(imgs, s))
  {
    hide Newest, Filter, HigherFirst;
    FilterMeans(imgs, In(s));
    NewestById(Filter(imgs, In(s)));
  }

  // The first candidate is later than none, and of those of one time has the highest ID.
  lemma FirstIsNewest(ok: seq<Image>)
    requires ok != [] && LatestFirst(ok)
    ensures forall x :: x in ok ==> ok[0].created >= x.created
    ensures HigherFirst(ok) ==> forall x :: x in ok && x != ok[0] && x.created == ok[0].created ==> HigherId(ok[0].id, x.id)
  {
    hide HigherId;
    forall x | x in ok ensures exists k :: 0 <= k < |ok| && ok[k] == x {
    }
  }

  // A launch takes an eligible image that no eligible image is later than, and of those of one time,
  // where IDs are an order, the one with the highest ID.
  method NewestTagged(all: seq<Image>, tag: string, arch: string, region: string) returns (r: Option<Image>)
    ensures r == Launched(all, Scope(tag, arch, region))
    ensures r.None? <==> forall x :: x in all ==> !Eligible(x, Scope(tag, arch, region))
    ensures r.Some? ==> && r.value in all && Eligible(r.value, Scope(tag, arch, region))
                        && forall x :: x in all && Eligible(x, Scope(tag, arch, region)) ==> r.value.created >= x.created
    ensures r.Some? && Comparable(all, Scope(tag, arch, region)) ==>
              forall x :: x in all && Eligible(x, Scope(tag, arch, region)) && x != r.value && x.created == r.value.created ==> HigherId(r.value.id, x.id)
  {
    hide Candidates, Eligible, HigherId, HigherFirst, LatestFirst, Comparable;
    ghost var s := Scope(tag, arch, region);
    CandidatesByTime(all, s);
    if Comparable(all, s) { CandidatesById(all, s); }
    var ok := Collect(all, Scope(tag, arch, region));
    assert forall x :: x in all && Eligible(x, s) ==> x in ok;
    if ok == [] { return None; }
    assert ok[0] in ok;
    FirstIsNewest(ok);
    r := Some(ok[0]);
  }

  lemma SplitOne(s: seq<Image>, n: nat, keep: nat, id: string)
    requires n < |s|
    ensures Kept(s[..n + 1], keep, id)
            == Kept(s[..n], keep, id) + if n < keep || s[n].id == id then [s[n]] else []
    ensures Dropped(s[..n + 1], keep, id)
            == Dropped(s[..n], keep, id) + if n < keep || s[n].id == id then [] else [s[n]]
  {
    var before, after := s[..n], s[..n + 1];
    if n < keep {
      assert after[..n + 1] == after && before[..n] == before;
      assert after[n + 1..] == [] && before[n..] == [];
    } else {
      assert after[keep..][..n - keep] == before[keep..];
      assert after[..keep] == before[..keep];
    }
  }

  // What a plan comes to: of the eligible images as many as asked for are kept, and none of those is
  // earlier than one to be deleted; the protected one is never deleted; and the earliest goes first.
  ghost predicate KeepsTheNewest(plan: Plan, all: seq<Image>, keep: nat, protectedId: string) {
    var n := if keep < |all| then keep else |all|;
    && |plan.keep| >= n && plan.keep[..n] == all[..n]
    && (forall i, x :: 0 <= i < n && x in plan.delete ==> plan.keep[i].created >= x.created)
    && (forall x :: x in plan.keep[n..] ==> x.id == protectedId)
    && (forall x :: x in plan.delete ==> x.id != protectedId)
    && (forall i, j :: 0 <= i < j < |plan.delete| ==> plan.delete[i].created <= plan.delete[j].created)
  }

  lemma PlanKeepsTheNewest(imgs: seq<Image>, s: Scope, keepPrevious: int, protectedId: string)
    requires Planned(imgs, s, keepPrevious, protectedId).Ready?
    ensures KeepsTheNewest(Planned(imgs, s, keepPrevious, protectedId).plan, Candidates(imgs, s), 1 + keepPrevious, protectedId)
  {
    hide Candidates;
    CandidatesByTime(imgs, s);
    SplitByTime(Candidates(imgs, s), 1 + keepPrevious, protectedId);
  }

  lemma SplitByTime(all: seq<Image>, keep: nat, id: string)
    requires LatestFirst(all)
    ensures var d := Dropped(all, keep, id);
            && (forall i, x :: 0 <= i < Lead(all, keep) && x in d ==> Kept(all, keep, id)[i].created >= x.created)
            && (forall x :: x in Kept(all, keep, id)[Lead(all, keep)..] ==> x.id == id)
            && (forall x :: x in d ==> x.id != id) && LatestFirst(d)
  {
    var tail := all[Lead(all, keep)..];
    FilterMembers(tail, Bears(id));
    FilterMembers(tail, Others(id));
    FilterByTime(tail, Others(id));
    assert Kept(all, keep, id)[Lead(all, keep)..] == Filter(tail, Bears(id));
    forall i, x | 0 <= i < Lead(all, keep) && x in Dropped(all, keep, id) ensures all[i].created >= x.created {
      var k :| 0 <= k < |tail| && tail[k] == x;
      assert all[Lead(all, keep) + k] == x;
    }
  }

  lemma {:induction false} FilterByTime(s: seq<Image>, p: Image -> bool)
    requires LatestFirst(s)
    ensures LatestFirst(Filter(s, p))
  {
    if s != [] {
      var front, last := s[..|s| - 1], s[|s| - 1];
      var f := Filter(front, p);
      FilterByTime(front, p);
      FilterMembers(front, p);
      forall k | 0 <= k < |f| ensures f[k].created >= last.created {
        assert f[k] in front;
        var i :| 0 <= i < |front| && front[i] == f[k];
        assert s[i] == f[k];
      }
    }
  }

  method PlanPrune(imgs: seq<Image>, s: Scope, keepPrevious: int, protectedId: string) returns (r: Planning)
    ensures r == Planned(imgs, s, keepPrevious, protectedId)
    ensures r.Ready? <==> keepPrevious >= 0 && ValidUserTag(s.tag) && s.arch != "" && s.region != ""
    ensures r.Ready? ==> && r.plan.scope == s
                         && KeepsTheNewest(r.plan, Candidates(imgs, s), 1 + keepPrevious, protectedId)
                         && multiset(r.plan.keep) + multiset(r.plan.delete) == multiset(Filter(imgs, In(s)))
                         && forall img :: img in r.plan.delete ==> Ours(img, s)
  {
    if Planned(imgs, s, keepPrevious, protectedId).Ready? {
      PlanKeepsTheNewest(imgs, s, keepPrevious, protectedId);
      PlanPartitions(imgs, s, keepPrevious, protectedId);
      DeletesOurs(imgs, s, keepPrevious, protectedId);
    }
    r := MakePlan(imgs, s, keepPrevious, protectedId);
  }

  // A ready snapshot of ours that was built for the scope and does bear its tag.
  predicate Ours(img: Image, s: Scope) { Suits(img, s) && s.tag in img.tags }

  lemma DeletesOurs(imgs: seq<Image>, s: Scope, keepPrevious: int, protectedId: string)
    requires Planned(imgs, s, keepPrevious, protectedId).Ready?
    ensures forall img :: img in Planned(imgs, s, keepPrevious, protectedId).plan.delete ==> img in imgs && Ours(img, s)
  {
    hide Kept, Dropped, Newest, Filter, Eligible, BuiltFor;
    var plan := Planned(imgs, s, keepPrevious, protectedId).plan;
    PlanPartitions(imgs, s, keepPrevious, protectedId);
    FilterMembers(imgs, In(s));
    forall img | img in plan.delete ensures img in imgs && Ours(img, s) {
      assert img in multiset(plan.keep) + multiset(plan.delete);
      assert img in multiset(Filter(imgs, In(s)));
      EligibleExactly(img, s);
    }
  }

  method MakePlan(imgs: seq<Image>, s: Scope, keepPrevious: int, protectedId: string) returns (r: Planning)
    ensures r == Planned(imgs, s, keepPrevious, protectedId)
  {
    hide Kept, Dropped;
    if keepPrevious < 0 {
      return Refused(NegativeKeep);
    }
    if !ValidUserTag(s.tag) {
      return Refused(BadTag);
    }
    if s.arch == "" || s.region == "" {
      return Refused(NoTarget);
    }
    var ok := Collect(imgs, s);
    var keep := 1 + keepPrevious;
    var kept: seq<Image>, deleted: seq<Image> := [], [];
    NothingSplit(keep, protectedId);
    for i := 0 to |ok|
      invariant kept == Kept(ok[..i], keep, protectedId)
      invariant deleted == Dropped(ok[..i], keep, protectedId)
    {
      SplitOne(ok, i, keep, protectedId);
      if i < keep || ok[i].id == protectedId {
        kept := kept + [ok[i]];
      } else {
        deleted := deleted + [ok[i]];
      }
    }
    assert ok[..|ok|] == ok;
    return Ready(Plan(s, kept, Reversed(deleted)));
  }

  lemma NothingSplit(keep: nat, id: string)
    ensures Kept([], keep, id) == [] && Dropped([], keep, id) == []
  {
  }

  // -------------------------------------------------------- one plan, one listing

  lemma {:induction false} FilterParts(s: seq<Image>, p: Image -> bool, q: Image -> bool)
    requires forall x :: x in s ==> p(x) != q(x)
    ensures multiset(Filter(s, p)) + multiset(Filter(s, q)) == multiset(s)
  {
    if s != [] {
      var front, last := s[..|s| - 1], s[|s| - 1];
      assert s == front + [last];
      FilterParts(front, p, q);
    }
  }

  // Every eligible image is kept or deleted, and none is both or twice.
  lemma PlanPartitions(imgs: seq<Image>, s: Scope, keepPrevious: int, protectedId: string)
    requires Planned(imgs, s, keepPrevious, protectedId).Ready?
    ensures var plan := Planned(imgs, s, keepPrevious, protectedId).plan;
            multiset(plan.keep) + multiset(plan.delete) == multiset(Filter(imgs, In(s)))
  {
    hide Kept, Dropped, Newest, Filter;
    var all, keep := Candidates(imgs, s), 1 + keepPrevious;
    NewestIsPermutation(Filter(imgs, In(s)));
    SplitPartitions(all, keep, protectedId);
    ReversedSame(Dropped(all, keep, protectedId));
  }

  lemma SplitPartitions(s: seq<Image>, keep: nat, id: string)
    ensures multiset(Kept(s, keep, id)) + multiset(Dropped(s, keep, id)) == multiset(s)
  {
    hide Filter;
    var head, tail := s[..Lead(s, keep)], s[Lead(s, keep)..];
    FilterParts(tail, Bears(id), Others(id));
    assert s == head + tail;
    assert multiset(s) == multiset(head) + multiset(tail);
  }

  lemma {:induction false} ReversedSame(s: seq<Image>)
    ensures multiset(Reversed(s)) == multiset(s)
  {
    if s != [] {
      var n := |s| - 1;
      ReversedSame(s[..n]);
      assert Reversed(s) == [s[n]] + Reversed(s[..n]);
      assert s == s[..n] + [s[n]];
    }
  }

  // What a launch would take is the first image kept, and is never to be deleted.
  lemma LaunchedIsKept(imgs: seq<Image>, s: Scope, keepPrevious: int, protectedId: string)
    requires Planned(imgs, s, keepPrevious, protectedId).Ready? && DistinctIds(imgs)
    ensures var plan := Planned(imgs, s, keepPrevious, protectedId).plan;
            match Launched(imgs, s)
            case None => plan.keep == [] && plan.delete == []
            case Some(img) => plan.keep != [] && plan.keep[0] == img && img !in plan.delete
  {
    var all, keep := Candidates(imgs, s), 1 + keepPrevious;
    CandidatesDistinct(imgs, s);
    if all != [] {
      var n := Lead(all, keep);
      FilterMeans(all[n..], Others(protectedId));
      forall k | 0 <= k < |Dropped(all, keep, protectedId)| ensures Dropped(all, keep, protectedId)[k] != all[0] {
        assert Dropped(all, keep, protectedId)[k] in all[n..];
      }
    }
  }

  lemma CandidatesDistinct(imgs: seq<Image>, s: Scope)
    requires DistinctIds(imgs)
    ensures DistinctIds(Candidates(imgs, s))
    ensures forall x :: x in Candidates(imgs, s) <==> x in imgs && Eligible(x, s)
  {
    var f := Filter(imgs, In(s));
    FilterMeans(imgs, In(s));
    NewestDistinct(f);
  }

  lemma {:induction false} InsertedDistinct(x: Image, s: seq<Image>)
    requires DistinctIds(s) && forall y :: y in s ==> y.id != x.id
    ensures DistinctIds(Inserted(x, s)) && forall y :: y in Inserted(x, s) <==> y in s || y == x
  {
    hide Newer;
    if s != [] && Newer(x, s[|s| - 1]) {
      var front, last := s[..|s| - 1], s[|s| - 1];
      assert s == front + [last];
      InsertedDistinct(x, front);
      var t := Inserted(x, front);
      forall k | 0 <= k < |t| ensures t[k].id != last.id {
        assert t[k] in t;
      }
    }
  }

  lemma {:induction false} NewestDistinct(s: seq<Image>)
    requires DistinctIds(s)
    ensures DistinctIds(Newest(s)) && forall y :: y in Newest(s) <==> y in s
  {
    if s != [] {
      var front, last := s[..|s| - 1], s[|s| - 1];
      assert s == front + [last];
      NewestDistinct(front);
      InsertedDistinct(last, Newest(front));
    }
  }

  // --------------------------------------------------------- planning once more

  function Without(gone: set<Image>): Image -> bool { (img: Image) => img !in gone }

  lemma {:induction false} FilterConcat(a: seq<Image>, b: seq<Image>, p: Image -> bool)
    ensures Filter(a + b, p) == Filter(a, p) + Filter(b, p)
    decreases |b|
  {
    if b == [] {
      assert a + b == a;
    } else {
      var n := |b| - 1;
      assert (a + b)[..|a + b| - 1] == a + b[..n];
      FilterConcat(a, b[..n], p);
    }
  }

  lemma {:induction false} FilterAll(s: seq<Image>, p: Image -> bool)
    requires forall x :: x in s ==> p(x)
    ensures Filter(s, p) == s
  {
    if s != [] {
      var front, last := s[..|s| - 1], s[|s| - 1];
      assert s == front + [last];
      assert last in s && forall x :: x in front ==> x in s;
      FilterAll(front, p);
      assert Filter(s, p) == Filter(front, p) + [last];
    }
  }

  lemma FilterSnoc(s: seq<Image>, x: Image, p: Image -> bool)
    ensures Filter(s + [x], p) == Filter(s, p) + if p(x) then [x] else []
  {
    assert (s + [x])[..|s|] == s;
  }

  lemma {:induction false} FilterTwice(s: seq<Image>, p: Image -> bool, q: Image -> bool, r: Image -> bool)
    requires forall x :: x in s ==> (r(x) <==> p(x) && q(x))
    ensures Filter(Filter(s, p), q) == Filter(s, r)
  {
    if s != [] {
      var front, last := s[..|s| - 1], s[|s| - 1];
      assert s == front + [last];
      FilterTwice(front, p, q, r);
      FilterStep(front, last, p, q);
      FilterSnoc(front, last, r);
    }
  }

  lemma FilterStep(front: seq<Image>, last: Image, p: Image -> bool, q: Image -> bool)
    ensures Filter(Filter(front + [last], p), q)
            == Filter(Filter(front, p), q) + if p(last) && q(last) then [last] else []
  {
    FilterSnoc(front, last, p);
    var f := Filter(front, p);
    if p(last) {
      FilterSnoc(f, last, q);
    } else {
      assert f + [] == f;
    }
  }

  lemma {:induction false} SameFilter(s: seq<Image>, p: Image -> bool, q: Image -> bool)
    ensures Filter(Filter(s, p), q) == Filter(Filter(s, q), p)
  {
    if s != [] {
      var front, last := s[..|s| - 1], s[|s| - 1];
      assert s == front + [last];
      SameFilter(front, p, q);
      FilterStep(front, last, p, q);
      FilterStep(front, last, q, p);
    }
  }

  // Taking planned images away from the candidates takes them away from the plan and does nothing else.
  lemma SplitWithout(s: seq<Image>, keep: nat, id: string, gone: set<Image>)
    requires DistinctIds(s) && forall x :: x in gone ==> x in Dropped(s, keep, id)
    ensures Kept(Filter(s, Without(gone)), keep, id) == Kept(s, keep, id)
    ensures Dropped(Filter(s, Without(gone)), keep, id) == Filter(Dropped(s, keep, id), Without(gone))
  {
    hide Filter;
    var n := Lead(s, keep);
    var head, tail := s[..n], s[n..];
    FilterMeans(tail, Others(id));
    LeadStays(s, keep, gone);
    FilterTwice(tail, Without(gone), Bears(id), Bears(id));
    SameFilter(tail, Without(gone), Others(id));
  }

  // The images kept for their place stay in it.
  lemma LeadStays(s: seq<Image>, keep: nat, gone: set<Image>)
    requires DistinctIds(s) && forall x :: x in gone ==> x in s[Lead(s, keep)..]
    ensures var left := Filter(s, Without(gone));
            && left[..Lead(left, keep)] == s[..Lead(s, keep)]
            && left[Lead(left, keep)..] == Filter(s[Lead(s, keep)..], Without(gone))
  {
    hide Filter;
    var n := Lead(s, keep);
    var head, tail := s[..n], s[n..];
    HeadStays(s, n, gone);
    assert s == head + tail;
    FilterConcat(head, tail, Without(gone));
    FilterAll(head, Without(gone));
    FilterMeans(tail, Without(gone));
    var rest, left := Filter(tail, Without(gone)), Filter(s, Without(gone));
    assert left == head + rest;
    if |s| <= keep {
      NoElements(rest);
      assert Elements(rest) == {};
    }
  }

  lemma HeadStays(s: seq<Image>, n: nat, gone: set<Image>)
    requires DistinctIds(s) && n <= |s| && forall x :: x in gone ==> x in s[n..]
    ensures forall x :: x in s[..n] ==> x !in gone
  {
    forall x | x in s[..n] ensures x !in s[n..] {
      var i :| 0 <= i < n && s[..n][i] == x;
      assert forall j :: 0 <= j < |s[n..]| ==> s[n..][j] == s[n + j];
    }
  }

  // ---------------------------------------------------------- resuming a prune

  ghost predicate Comparable(imgs: seq<Image>, s: Scope) {
    DistinctIds(imgs) && Ordered(Elements(Filter(imgs, In(s))))
  }

  lemma CandidatesWithout(imgs: seq<Image>, s: Scope, gone: set<Image>, now: seq<Image>)
    requires Comparable(imgs, s) && DistinctIds(now) && Elements(now) == Elements(imgs) - gone
    ensures Candidates(now, s) == Filter(Candidates(imgs, s), Without(gone))
  {
    var f, g, all := Filter(imgs, In(s)), Filter(now, In(s)), Candidates(imgs, s);
    FilterMeans(imgs, In(s));
    FilterMeans(now, In(s));
    NewestInOrder(f);
    FilterMeans(all, Without(gone));
    forall x ensures x in g <==> x in f && x !in gone {
      assert x in now <==> x in Elements(now);
      assert x in imgs <==> x in Elements(imgs);
    }
    SubsetOrdered(Elements(f), Elements(g));
    NewestInOrder(g);
    forall x ensures x in Filter(all, Without(gone)) <==> x in Newest(g) {
      assert x in all <==> x in Elements(all);
      assert x in Newest(g) <==> x in Elements(Newest(g));
      assert x in f <==> x in Elements(f);
      assert x in g <==> x in Elements(g);
    }
    OneOrder(Candidates(now, s), Filter(all, Without(gone)));
  }

  lemma FilterOne(x: Image, p: Image -> bool)
    ensures Filter([x], p) == if p(x) then [x] else []
  {
    assert [x][..0] == [];
  }

  lemma {:induction false} FilterReversed(s: seq<Image>, p: Image -> bool)
    ensures Filter(Reversed(s), p) == Reversed(Filter(s, p))
  {
    if s == [] {
      assert Reversed(s) == [];
    } else {
      hide Filter;
      var front, last := s[..|s| - 1], s[|s| - 1];
      assert s == front + [last];
      FilterReversed(front, p);
      FilterSnoc(front, last, p);
      ReversedSnoc(front, last);
      FilterConcat([last], Reversed(front), p);
      FilterOne(last, p);
      var f := Filter(front, p);
      if p(last) {
        ReversedSnoc(f, last);
      } else {
        assert f + [] == f && [] + Reversed(f) == Reversed(f);
      }
    }
  }

  lemma ReversedSnoc(s: seq<Image>, x: Image)
    ensures Reversed(s + [x]) == [x] + Reversed(s)
  {
  }

  // Whatever planned images are gone since, in whatever order the rest is listed now: the same
  // images are kept, what is still to delete is the old plan's list without the ones gone, and a
  // launch takes the same image as before.
  lemma ReplanAfterDeletions(imgs: seq<Image>, s: Scope, keepPrevious: int, protectedId: string,
                             gone: set<Image>, now: seq<Image>)
    requires Planned(imgs, s, keepPrevious, protectedId).Ready? && Comparable(imgs, s)
    requires forall x :: x in gone ==> x in Planned(imgs, s, keepPrevious, protectedId).plan.delete
    requires DistinctIds(now) && Elements(now) == Elements(imgs) - gone
    ensures var plan := Planned(imgs, s, keepPrevious, protectedId).plan;
            && Planned(now, s, keepPrevious, protectedId)
               == Ready(Plan(s, plan.keep, Filter(plan.delete, Without(gone))))
            && Launched(now, s) == Launched(imgs, s)
  {
    hide Kept, Dropped, Candidates;
    var all, keep := Candidates(imgs, s), 1 + keepPrevious;
    CandidatesWithout(imgs, s, gone, now);
    CandidatesDistinct(imgs, s);
    forall x | x in gone ensures x in Dropped(all, keep, protectedId) {
      var k :| 0 <= k < |Reversed(Dropped(all, keep, protectedId))| && Reversed(Dropped(all, keep, protectedId))[k] == x;
    }
    SplitWithout(all, keep, protectedId, gone);
    FilterReversed(Dropped(all, keep, protectedId), Without(gone));
    SameFirst(all, Filter(all, Without(gone)), keep, protectedId);
  }

  lemma SameFirst(s: seq<Image>, t: seq<Image>, keep: nat, id: string)
    requires keep > 0 && Kept(s, keep, id) == Kept(t, keep, id)
    ensures s == [] <==> t == []
    ensures s != [] ==> s[0] == t[0]
  {
    assert s != [] ==> Kept(s, keep, id)[0] == s[0];
    assert t != [] ==> Kept(t, keep, id)[0] == t[0];
  }

  lemma {:induction false} FilterPrefix(s: seq<Image>, n: nat)
    requires n <= |s| && DistinctIds(s)
    ensures Filter(s, Without(Elements(s[..n]))) == s[n..]
  {
    var gone := Elements(s[..n]);
    assert s == s[..n] + s[n..];
    FilterConcat(s[..n], s[n..], Without(gone));
    forall x | x in s[n..] ensures Without(gone)(x) {
      var i :| 0 <= i < |s[n..]| && s[n..][i] == x;
      assert forall j :: 0 <= j < n ==> s[..n][j] == s[j];
      assert s[n + i] == x;
    }
    FilterAll(s[n..], Without(gone));
    FilterMeans(s[..n], Without(gone));
    NoElements(Filter(s[..n], Without(gone)));
    assert Elements(Filter(s[..n], Without(gone))) == {};
  }

  // A prune that stopped after n deletions plans exactly the rest when it is run again.
  lemma ResumesWhereItStopped(imgs: seq<Image>, s: Scope, keepPrevious: int, protectedId: string, n: nat, now: seq<Image>)
    requires Planned(imgs, s, keepPrevious, protectedId).Ready? && Comparable(imgs, s)
    requires n <= |Planned(imgs, s, keepPrevious, protectedId).plan.delete|
    requires DistinctIds(now)
    requires Elements(now) == Elements(imgs) - Elements(Planned(imgs, s, keepPrevious, protectedId).plan.delete[..n])
    ensures var plan := Planned(imgs, s, keepPrevious, protectedId).plan;
            Planned(now, s, keepPrevious, protectedId) == Ready(Plan(s, plan.keep, plan.delete[n..]))
    ensures Launched(now, s) == Launched(imgs, s)
  {
    var all, keep := Candidates(imgs, s), 1 + keepPrevious;
    var delete := Planned(imgs, s, keepPrevious, protectedId).plan.delete;
    CandidatesDistinct(imgs, s);
    FilterMeans(all[Lead(all, keep)..], Others(protectedId));
    assert DistinctIds(delete);
    ReplanAfterDeletions(imgs, s, keepPrevious, protectedId, Elements(delete[..n]), now);
    FilterPrefix(delete, n);
  }
}

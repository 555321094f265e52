/**
 * Running a prune against an account that others change meanwhile: the scopes it plans
 * (internal/image/retention.go:63-87), one plan's deletions (103-135) and the command's loop over
 * the plans (cmd/image_prune.go:97-180).
 */
module ImagePruneRun {
  import opened Options
  import opened SortedKeys
  import opened ImageMarkers
  import opened ImagePrune
  import opened Text

  // -------------------------------------------------------------------- scopes

  // The scope an image's markers name, under this tag.
  function ScopeOf(img: Image, tag: string): Option<Scope> {
    match Parsed(img.tags)
    case None => None
    case Some(m) => Some(Scope(tag, m.arch, m.region))
  }

  predicate Asked(s: Scope, region: string, arch: string) {
    (region == "" || s.region == region) && (arch == "" || s.arch == arch)
  }

  predicate ScopeBelow(a: Scope, b: Scope) {
    Below(a.region, b.region) || (a.region == b.region && Below(a.arch, b.arch))
  }

  predicate Ascending(out: seq<Scope>) { forall i, j :: 0 <= i < j < |out| ==> ScopeBelow(out[i], out[j]) }

  method SortScopes(found: seq<Scope>) returns (out: seq<Scope>)
    requires forall i, j :: 0 <= i < j < |found| ==> found[i] != found[j]
    requires forall i, j :: 0 <= i < |found| && 0 <= j < |found| ==> found[i].tag == found[j].tag
    ensures Ascending(out) && forall s :: s in out <==> s in found
  {
    out := [];
    for n := 0 to |found|
      invariant Ascending(out)
      invariant forall s :: s in out <==> s in found[..n]
    {
      assert found[..n + 1] == found[..n] + [found[n]];
      forall s | s in out ensures s != found[n] && s.tag == found[n].tag {
        assert s in found[..n];
      }
      out := PlaceScope(out, found[n]);
    }
    assert found[..|found|] == found;
  }

  method PlaceScope(s: seq<Scope>, x: Scope) returns (out: seq<Scope>)
    requires Ascending(s) && forall y :: y in s ==> y != x && y.tag == x.tag
    ensures Ascending(out) && forall y :: y in out <==> y in s || y == x
  {
    hide ScopeBelow;
    var k := 0;
    while k < |s| && ScopeBelow(s[k], x)
      invariant 0 <= k <= |s|
      invariant forall i :: 0 <= i < k ==> ScopeBelow(s[i], x)
    {
      k := k + 1;
    }
    out := s[..k] + [x] + s[k..];
    forall i | k <= i < |s| ensures ScopeBelow(x, s[i]) {
      assert s[k] in s;
      ScopesCompare(s[k], x);
      if i > k {
        ScopesChain(x, s[k], s[i]);
      }
    }
    Between(s, x, k);
  }

  lemma Between(s: seq<Scope>, x: Scope, k: nat)
    requires k <= |s| && Ascending(s)
    requires (forall i :: 0 <= i < k ==> ScopeBelow(s[i], x)) && forall i :: k <= i < |s| ==> ScopeBelow(x, s[i])
    ensures Ascending(s[..k] + [x] + s[k..])
    ensures forall y :: y in s[..k] + [x] + s[k..] <==> y in s || y == x
  {
    hide ScopeBelow;
    var out := s[..k] + [x] + s[k..];
    assert forall i :: 0 <= i < |out| ==> out[i] == if i < k then s[i] else if i == k then x else s[i - 1];
    assert s == s[..k] + s[k..];
  }

  lemma ScopesCompare(a: Scope, b: Scope)
    requires a != b && a.tag == b.tag
    ensures ScopeBelow(a, b) || ScopeBelow(b, a)
  {
    Trichotomy(a.region, b.region);
    Trichotomy(a.arch, b.arch);
  }

  lemma ScopesChain(a: Scope, b: Scope, c: Scope)
    requires ScopeBelow(a, b) && ScopeBelow(b, c)
    ensures ScopeBelow(a, c)
  {
    if Below(a.region, b.region) && Below(b.region, c.region) {
      Transitive(a.region, b.region, c.region);
    }
    if Below(a.arch, b.arch) && Below(b.arch, c.arch) {
      Transitive(a.arch, b.arch, c.arch);
    }
  }

  // Some image puts this scope among those to prune.
  ghost predicate HasImages(imgs: seq<Image>, s: Scope, tag: string, region: string, arch: string) {
    && s.tag == tag && (region == "" || region == s.region) && (arch == "" || arch == s.arch)
    && exists k :: 0 <= k < |imgs| && Suits(imgs[k], s)
  }

  // Every scope that has images to consider, once each, in order of region and then architecture.
  method GroupScopes(imgs: seq<Image>, tag: string, region: string, arch: string) returns (out: seq<Scope>)
    ensures Ascending(out)
    ensures forall i, j :: 0 <= i < j < |out| ==>
              Below(out[i].region, out[j].region) || (out[i].region == out[j].region && Below(out[i].arch, out[j].arch))
    ensures forall s :: s in out <==> HasImages(imgs, s, tag, region, arch)
  {
    hide Parsed, Suits;
    var found: seq<Scope> := [];
    for n := 0 to |imgs|
      invariant forall i, j :: 0 <= i < j < |found| ==> found[i] != found[j]
      invariant forall s :: s in found ==> s.tag == tag
      invariant forall s :: s in found <==> HasImages(imgs[..n], s, tag, region, arch)
    {
      var img := imgs[n];
      OneMore(imgs, n, tag, region, arch);
      var s := ScopeOf(img, tag);
      if s.Some? && Asked(s.value, region, arch) && Eligible(img, s.value) && s.value !in found {
        found := found + [s.value];
      }
    }
    assert imgs[..|imgs|] == imgs;
    forall i | 0 <= i < |found| ensures found[i].tag == tag {
      assert found[i] in found;
    }
    out := SortScopes(found);
  }

  // An eligible image's markers name the scope.
  lemma EligibleNamed(img: Image, s: Scope)
    ensures Eligible(img, s) ==> ScopeOf(img, s.tag) == Some(s)
  {
    hide Parsed;
  }

  lemma OneMore(imgs: seq<Image>, n: nat, tag: string, region: string, arch: string)
    requires n < |imgs|
    ensures forall s :: HasImages(imgs[..n + 1], s, tag, region, arch)
              <==> HasImages(imgs[..n], s, tag, region, arch)
                   || (ScopeOf(imgs[n], tag) == Some(s) && Asked(s, region, arch) && Eligible(imgs[n], s))
  {
    hide Parsed, Suits, Eligible;
    var before, after := imgs[..n], imgs[..n + 1];
    forall s
      ensures HasImages(after, s, tag, region, arch)
              <==> HasImages(before, s, tag, region, arch)
                   || (ScopeOf(imgs[n], tag) == Some(s) && Asked(s, region, arch) && Eligible(imgs[n], s))
    {
      assert after == before + [imgs[n]];
      assert after[n] == imgs[n];
      assert forall k :: 0 <= k < n ==> after[k] == before[k];
      EligibleExactly(imgs[n], s);
      EligibleNamed(imgs[n], s);
    }
  }

  // The plans together take every image a prune may take, each exactly once.
  lemma ScopesPartition(imgs: seq<Image>, out: seq<Scope>, tag: string, region: string, arch: string, img: Image, s: Scope)
    requires Ascending(out) && forall x :: x in out <==> HasImages(imgs, x, tag, region, arch)
    requires img in imgs && s.tag == tag && Asked(s, region, arch) && Eligible(img, s)
    ensures s in out
    ensures forall i :: 0 <= i < |out| ==> (Eligible(img, out[i]) <==> out[i] == s)
    ensures forall i, j :: 0 <= i < j < |out| ==> out[i] != out[j]
  {
    hide Parsed, Eligible, Suits;
    EligibleExactly(img, s);
    var k :| 0 <= k < |imgs| && imgs[k] == img;
    assert HasImages(imgs, s, tag, region, arch);
    forall i | 0 <= i < |out| ensures Eligible(img, out[i]) <==> out[i] == s {
      assert out[i] in out;
      if Eligible(img, out[i]) {
        OneScope(img, s, out[i]);
      }
    }
    forall i, j | 0 <= i < j < |out| ensures out[i] != out[j] {
      Trichotomy(out[i].region, out[j].region);
      Trichotomy(out[i].arch, out[j].arch);
    }
  }

  // -------------------------------------------------------------------- account

  datatype Lookup = Found(img: Image) | Missing | LookupFailed
  datatype Removal = Removed | AlreadyGone | RemovalFailed

  datatype Event = Read(id: string, answer: Lookup) | Delete(id: string, outcome: Removal)

  class Account {
    var images: map<string, Image>
    ghost var log: seq<Event>

    constructor (images: map<string, Image>)
      ensures this.images == images && log == []
    {
      this.images, log := images, [];
    }

    // Builds, consoles and other runs.
    method Meanwhile()
      modifies this`images
    {
      images := *;
    }

    method GetImage(id: string) returns (r: Lookup)
      modifies this
      ensures log == old(log) + [Read(id, r)]
      ensures r.Found? ==> id in images && images[id] == r.img
      ensures r.Missing? ==> id !in images
    {
      Meanwhile();
      var fails := *;
      r := if fails then LookupFailed else if id in images then Found(images[id]) else Missing;
      log := log + [Read(id, r)];
    }

    // A failure may be the reply that was lost: the image may be gone all the same.
    method DeleteImage(id: string) returns (r: Removal)
      modifies this
      ensures log == old(log) + [Delete(id, r)]
      ensures !r.RemovalFailed? ==> id !in images
    {
      Meanwhile();
      var fails, applied := *, *;
      if fails {
        r := RemovalFailed;
        if applied { images := images - {id}; }
      } else {
        r := if id in images then Removed else AlreadyGone;
        images := images - {id};
      }
      log := log + [Delete(id, r)];
    }
  }

  // ------------------------------------------------------------------ one candidate

  // An image to remove, and the scope its plan was made for.
  datatype Job = Job(id: string, scope: Scope)

  datatype Stopped = ReCheckFailed(id: string) | Changed(id: string) | DeleteFailed(id: string)

  predicate SeenEligible(e: Event, j: Job) {
    e.Read? && e.id == j.id && e.answer.Found? && Suits(e.answer.img, j.scope)
  }

  // It was found gone, or found eligible and then removed.
  predicate Removes(events: seq<Event>, j: Job) {
    || events == [Read(j.id, Missing)]
    || (|events| == 2 && SeenEligible(events[0], j)
        && (events[1] == Delete(j.id, Removed) || events[1] == Delete(j.id, AlreadyGone)))
  }

  // Why the run stops here, and what it has done by then.
  predicate Halts(events: seq<Event>, j: Job, why: Stopped) {
    match why
    case ReCheckFailed(id) => id == j.id && events == [Read(j.id, LookupFailed)]
    case Changed(id) =>
      id == j.id && |events| == 1 && events[0].Read? && events[0].id == j.id
      && events[0].answer.Found? && !Suits(events[0].answer.img, j.scope)
    case DeleteFailed(id) => id == j.id && |events| == 2 && SeenEligible(events[0], j) && events[1] == Delete(j.id, RemovalFailed)
  }

  method PruneOne(m: Account, j: Job) returns (err: Option<Stopped>, ghost events: seq<Event>)
    modifies m
    ensures m.log == old(m.log) + events
    ensures if err.None? then Removes(events, j) else Halts(events, j, err.value)
  {
    hide Eligible, Suits;
    var cur := m.GetImage(j.id);
    events := [Read(j.id, cur)];
    match cur
    case Missing => return None, events;
    case LookupFailed => return Some(ReCheckFailed(j.id)), events;
    case Found(img) =>
      EligibleExactly(img, j.scope);
      if !Eligible(img, j.scope) {
        return Some(Changed(j.id)), events;
      }
      var gone := m.DeleteImage(j.id);
      events := [Read(j.id, cur), Delete(j.id, gone)];
      return if gone.RemovalFailed? then Some(DeleteFailed(j.id)) else None, events;
  }

  // ---------------------------------------------------------------- what a run did

  function Flat(es: seq<seq<Event>>): seq<Event> {
    if es == [] then [] else Flat(es[..|es| - 1]) + es[|es| - 1]
  }

  // The first `done` jobs in order, each with its own events; then all of them are done, or the
  // next one stopped the run.
  predicate Carried(es: seq<seq<Event>>, jobs: seq<Job>, done: nat, err: Option<Stopped>) {
    && done <= |jobs| && |es| == done + (if err.Some? then 1 else 0)
    && (forall i :: 0 <= i < done ==> Removes(es[i], jobs[i]))
    && (if err.None? then done == |jobs| else done < |jobs| && Halts(es[done], jobs[done], err.value))
  }

  lemma FlatSnoc(es: seq<seq<Event>>, e: seq<Event>)
    ensures Flat(es + [e]) == Flat(es) + e
  {
    assert (es + [e])[..|es|] == es;
  }

  lemma {:induction false} FlatConcat(a: seq<seq<Event>>, b: seq<seq<Event>>)
    ensures Flat(a + b) == Flat(a) + Flat(b)
    decreases |b|
  {
    hide Flat;
    NoEvents();
    if b == [] {
      assert a + b == a && Flat(a) + [] == Flat(a);
    } else {
      var front, last := b[..|b| - 1], b[|b| - 1];
      assert b == front + [last] && a + b == (a + front) + [last];
      FlatConcat(a, front);
      FlatSnoc(front, last);
      FlatSnoc(a + front, last);
      assert (Flat(a) + Flat(front)) + last == Flat(a) + (Flat(front) + last);
    }
  }

  lemma NoEvents()
    ensures Flat([]) == []
  {
  }

  // Every deletion directly follows a read that found the image eligible in the scope of a plan that
  // lists it.
  ghost predicate Guarded(log: seq<Event>, jobs: seq<Job>) {
    forall k :: 0 <= k < |log| && log[k].Delete? ==>
      && k > 0 && log[k - 1].Read? && log[k - 1].id == log[k].id && log[k - 1].answer.Found?
      && exists j :: j in jobs && j.id == log[k].id && Suits(log[k - 1].answer.img, j.scope)
  }

  // The image was deleted, or found to be gone.
  ghost predicate Gone(log: seq<Event>, id: string) {
    Read(id, Missing) in log || Delete(id, Removed) in log || Delete(id, AlreadyGone) in log
  }

  lemma GuardedConcat(a: seq<Event>, b: seq<Event>, jobs: seq<Job>)
    requires Guarded(a, jobs) && Guarded(b, jobs)
    ensures Guarded(a + b, jobs)
  {
    hide Suits;
    var log := a + b;
    assert forall k :: 0 <= k < |a| ==> log[k] == a[k];
    assert forall k :: |a| <= k < |log| ==> log[k] == b[k - |a|];
    forall k | 0 <= k < |log| && log[k].Delete?
      ensures k > 0 && log[k - 1].Read? && log[k - 1].id == log[k].id && log[k - 1].answer.Found?
      ensures exists j :: j in jobs && j.id == log[k].id && Suits(log[k - 1].answer.img, j.scope)
    {
      if k < |a| {
        assert a[k].Delete?;
      } else {
        assert b[k - |a|].Delete?;
      }
    }
  }

  lemma OneJobGuarded(events: seq<Event>, jobs: seq<Job>, j: Job, why: Stopped)
    requires j in jobs && (Removes(events, j) || Halts(events, j, why))
    ensures Guarded(events, jobs)
    ensures Removes(events, j) ==> Gone(events, j.id)
  {
    hide Suits;
    if Removes(events, j) && |events| == 2 {
      assert events[1] in events;
    }
  }

  // However far it came: no deletion without such a read, and what counts as deleted is gone.
  lemma {:induction false} WhatARunDid(es: seq<seq<Event>>, jobs: seq<Job>, done: nat, err: Option<Stopped>, n: nat)
    requires Carried(es, jobs, done, err) && n <= |es|
    ensures Guarded(Flat(es[..n]), jobs)
    ensures forall i :: 0 <= i < n && i < done ==> Gone(Flat(es[..n]), jobs[i].id)
  {
    hide Removes, Halts, Guarded, Gone, Flat;
    NoEvents();
    if n == 0 {
      assert es[..0] == [];
      NothingGuarded(jobs);
    } else {
      WhatARunDid(es, jobs, done, err, n - 1);
      var front, last := es[..n - 1], es[n - 1];
      assert es[..n] == front + [last];
      FlatSnoc(front, last);
      OneJobGuarded(last, jobs, jobs[n - 1], err.GetOr(DeleteFailed("")));
      GuardedConcat(Flat(front), last, jobs);
      forall i | 0 <= i < n && i < done ensures Gone(Flat(front) + last, jobs[i].id) {
        GoneConcat(Flat(front), last, jobs[i].id);
      }
    }
  }

  lemma NothingGuarded(jobs: seq<Job>)
    ensures Guarded([], jobs)
  {
  }

  lemma GoneConcat(a: seq<Event>, b: seq<Event>, id: string)
    ensures Gone(a, id) || Gone(b, id) ==> Gone(a + b, id)
  {
  }

  // ------------------------------------------------------------------------ one plan

  function IDs(imgs: seq<Image>): seq<string> {
    seq(|imgs|, i requires 0 <= i < |imgs| => imgs[i].id)
  }

  function Jobs(p: Plan): seq<Job> {
    seq(|p.delete|, i requires 0 <= i < |p.delete| => Job(p.delete[i].id, p.scope))
  }

  // Deletions in the plan's order, each on a fresh look; whatever stops it, what is deleted and
  // what is pending are together the plan's list.
  method ExecutePrune(m: Account, p: Plan)
    returns (deleted: seq<string>, pending: seq<string>, err: Option<Stopped>, ghost es: seq<seq<Event>>)
    modifies m
    ensures deleted + pending == IDs(p.delete)
    ensures err == None ==> pending == []
    ensures err.Some? ==> pending != [] && pending[0] == err.value.id
    ensures m.log == old(m.log) + Flat(es) && Carried(es, Jobs(p), |deleted|, err)
  {
    hide Removes, Halts, Flat;
    deleted, pending, err, es := [], [], None, [];
    NoEvents();
    for i := 0 to |p.delete|
      invariant err == None && deleted == IDs(p.delete[..i])
      invariant m.log == old(m.log) + Flat(es) && |es| == i
      invariant forall k :: 0 <= k < i ==> Removes(es[k], Jobs(p)[k])
    {
      var j := Job(p.delete[i].id, p.scope);
      ghost var events;
      err, events := PruneOne(m, j);
      FlatSnoc(es, events);
      assert old(m.log) + Flat(es) + events == old(m.log) + (Flat(es) + events);
      es := es + [events];
      if err.Some? {
        pending := IDs(p.delete[i..]);
        assert deleted + pending == IDs(p.delete);
        HaltNames(events, j, err.value);
        return;
      }
      deleted := deleted + [j.id];
    }
    assert p.delete[..|p.delete|] == p.delete;
  }

  lemma HaltNames(events: seq<Event>, j: Job, why: Stopped)
    requires Halts(events, j, why)
    ensures why.id == j.id
  {
  }

  // -------------------------------------------------------------- the command's loop

  function Deletions(plans: seq<Plan>): seq<string> {
    if plans == [] then [] else Deletions(plans[..|plans| - 1]) + IDs(plans[|plans| - 1].delete)
  }

  function AllJobs(plans: seq<Plan>): seq<Job> {
    if plans == [] then [] else AllJobs(plans[..|plans| - 1]) + Jobs(plans[|plans| - 1])
  }

  lemma NoDeletions()
    ensures Deletions([]) == [] && AllJobs([]) == []
  {
  }

  lemma DeletionsSnoc(plans: seq<Plan>, p: Plan)
    ensures Deletions(plans + [p]) == Deletions(plans) + IDs(p.delete) && AllJobs(plans + [p]) == AllJobs(plans) + Jobs(p)
  {
    hide IDs, Jobs;
    assert (plans + [p])[..|plans|] == plans;
  }

  lemma {:induction false} DeletionsConcat(a: seq<Plan>, b: seq<Plan>)
    ensures Deletions(a + b) == Deletions(a) + Deletions(b) && AllJobs(a + b) == AllJobs(a) + AllJobs(b)
    decreases |b|
  {
    hide Deletions, AllJobs, Jobs, IDs;
    NoDeletions();
    if b == [] {
      assert a + b == a && Deletions(a) + [] == Deletions(a) && AllJobs(a) + [] == AllJobs(a);
    } else {
      var front, last := b[..|b| - 1], b[|b| - 1];
      assert b == front + [last] && a + b == (a + front) + [last];
      DeletionsConcat(a, front);
      DeletionsSnoc(front, last);
      DeletionsSnoc(a + front, last);
      Associate(Deletions(a), Deletions(front), IDs(last.delete));
      Associate(AllJobs(a), AllJobs(front), Jobs(last));
    }
  }

  // The jobs are the planned deletions, in the same order.
  lemma {:induction false} JobsAreDeletions(plans: seq<Plan>)
    ensures |AllJobs(plans)| == |Deletions(plans)|
    ensures forall i :: 0 <= i < |AllJobs(plans)| ==> AllJobs(plans)[i].id == Deletions(plans)[i]
    ensures forall j :: j in AllJobs(plans) ==> exists p :: p in plans && j.scope == p.scope && j.id in IDs(p.delete)
  {
    if plans != [] {
      var front, p := plans[..|plans| - 1], plans[|plans| - 1];
      JobsAreDeletions(front);
      forall j | j in AllJobs(plans) ensures exists q :: q in plans && j.scope == q.scope && j.id in IDs(q.delete) {
        if j in AllJobs(front) {
          var q :| q in front && j.scope == q.scope && j.id in IDs(q.delete);
        } else {
          var k :| 0 <= k < |Jobs(p)| && Jobs(p)[k] == j;
          assert IDs(p.delete)[k] == j.id && p in plans;
        }
      }
    }
  }

  method ExecuteAll(m: Account, plans: seq<Plan>)
    returns (deleted: seq<string>, pending: seq<string>, err: Option<Stopped>, ghost es: seq<seq<Event>>)
    modifies m
    ensures deleted + pending == Deletions(plans)
    ensures err == None ==> pending == []
    ensures m.log == old(m.log) + Flat(es) && Carried(es, AllJobs(plans), |deleted|, err)
  {
    hide Deletions, AllJobs, Jobs, IDs, Flat, Carried;
    deleted, pending, err, es := [], [], None, [];
    NoDeletions();
    NothingCarried();
    for i := 0 to |plans|
      invariant deleted == Deletions(plans[..i])
      invariant m.log == old(m.log) + Flat(es) && Carried(es, AllJobs(plans[..i]), |deleted|, None)
    {
      DeletionsSplit(plans, i);
      ghost var log := m.log;
      ghost var more;
      var gone, left, why;
      gone, left, why, more := ExecutePrune(m, plans[i]);
      FlatConcat(es, more);
      Associate(old(m.log), Flat(es), Flat(more));
      CarriedOn(es, AllJobs(plans[..i]), |deleted|, more, Jobs(plans[i]), |gone|, why, AllJobs(plans[i + 1..]));
      es := es + more;
      ghost var before := deleted;
      deleted := deleted + gone;
      if why.Some? {
        var rest := PendingOf(plans[i + 1..]);
        Regroup(before, gone, left, rest);
        return deleted, left + rest, why, es;
      }
      assert gone + [] == gone;
    }
    assert plans[..|plans|] == plans;
    assert deleted + [] == deleted;
  }

  lemma NothingCarried()
    ensures Carried([], [], 0, None) && Flat([]) == []
  {
  }

  // One plan's jobs after those of the plans before it, and with those of the plans after it.
  lemma CarriedOn(es: seq<seq<Event>>, jobs: seq<Job>, done: nat, more: seq<seq<Event>>, next: seq<Job>, gone: nat,
                  err: Option<Stopped>, rest: seq<Job>)
    requires Carried(es, jobs, done, None) && Carried(more, next, gone, err)
    ensures err.None? ==> Carried(es + more, jobs + next, done + gone, None)
    ensures err.Some? ==> Carried(es + more, jobs + next + rest, done + gone, err)
  {
    hide Removes, Halts;
  }

  lemma Regroup(a: seq<string>, b: seq<string>, c: seq<string>, d: seq<string>)
    ensures (a + b) + (c + d) == (a + (b + c)) + d
  {
  }

  lemma DeletionsSplit(plans: seq<Plan>, i: nat)
    requires i < |plans|
    ensures Deletions(plans[..i + 1]) == Deletions(plans[..i]) + IDs(plans[i].delete)
    ensures AllJobs(plans[..i + 1]) == AllJobs(plans[..i]) + Jobs(plans[i])
    ensures Deletions(plans) == Deletions(plans[..i]) + IDs(plans[i].delete) + Deletions(plans[i + 1..])
    ensures AllJobs(plans) == AllJobs(plans[..i]) + Jobs(plans[i]) + AllJobs(plans[i + 1..])
  {
    hide Deletions, AllJobs, Jobs, IDs;
    DeletionsUpTo(plans, i);
    assert plans == plans[..i + 1] + plans[i + 1..];
    DeletionsConcat(plans[..i + 1], plans[i + 1..]);
  }

  lemma DeletionsUpTo(plans: seq<Plan>, i: nat)
    requires i < |plans|
    ensures Deletions(plans[..i + 1]) == Deletions(plans[..i]) + IDs(plans[i].delete)
    ensures AllJobs(plans[..i + 1]) == AllJobs(plans[..i]) + Jobs(plans[i])
  {
    hide Deletions, AllJobs, Jobs, IDs;
    assert plans[..i + 1] == plans[..i] + [plans[i]];
    DeletionsSnoc(plans[..i], plans[i]);
  }

  method PendingOf(plans: seq<Plan>) returns (pending: seq<string>)
    ensures pending == Deletions(plans)
  {
    pending := [];
    for n := 0 to |plans|
      invariant pending == Deletions(plans[..n])
    {
      assert plans[..n + 1][..n] == plans[..n];
      pending := pending + IDs(plans[n].delete);
    }
    assert plans[..|plans|] == plans;
  }

  // -------------------------------------------------------------------- the command

  datatype Outcome =
    | Usage                                                          // contradicting or bad flags, or no way to ask
    | Done(plans: seq<Plan>, deleted: seq<string>, pending: seq<string>)
    | Cut(plans: seq<Plan>, deleted: seq<string>, pending: seq<string>, why: Stopped)

  datatype Flags = Flags(tag: string, keep: int, dryRun: bool, yes: bool, region: string, arch: string)

  // One plan for each scope that has images, in order.
  ghost predicate PlansFor(plans: seq<Plan>, imgs: seq<Image>, flags: Flags) {
    && (forall k :: 0 <= k < |plans| ==> Planned(imgs, plans[k].scope, flags.keep, "") == Ready(plans[k]))
    && (forall i, j :: 0 <= i < j < |plans| ==>
          var s, t := plans[i].scope, plans[j].scope;
          Below(s.region, t.region) || (s.region == t.region && Below(s.arch, t.arch)))
    && (forall s :: HasImages(imgs, s, flags.tag, flags.region, flags.arch) <==> exists k :: 0 <= k < |plans| && plans[k].scope == s)
  }

  lemma ScopePlans(imgs: seq<Image>, s: Scope, flags: Flags)
    requires flags.keep >= 0 && ValidUserTag(flags.tag) && HasImages(imgs, s, flags.tag, flags.region, flags.arch)
    ensures Planned(imgs, s, flags.keep, "").Ready?
  {
    hide ValidUserTag;
  }

  method PlanAll(imgs: seq<Image>, flags: Flags) returns (plans: seq<Plan>)
    requires flags.keep >= 0 && ValidUserTag(flags.tag)
    ensures PlansFor(plans, imgs, flags)
  {
    hide HasImages, Planned, ValidUserTag, ScopeBelow;
    var scopes := GroupScopes(imgs, flags.tag, flags.region, flags.arch);
    plans := [];
    for n := 0 to |scopes|
      invariant |plans| == n
      invariant forall k :: 0 <= k < n ==> plans[k].scope == scopes[k]
      invariant forall k :: 0 <= k < n ==> Planned(imgs, plans[k].scope, flags.keep, "") == Ready(plans[k])
    {
      assert scopes[n] in scopes;
      ScopePlans(imgs, scopes[n], flags);
      var r := PlanPrune(imgs, scopes[n], flags.keep, "");
      PlanScope(imgs, scopes[n], flags.keep);
      plans := plans + [r.plan];
    }
    forall s ensures HasImages(imgs, s, flags.tag, flags.region, flags.arch)
                     <==> exists k :: 0 <= k < |plans| && plans[k].scope == s
    {
      if s in scopes {
        var k :| 0 <= k < |scopes| && scopes[k] == s;
        assert plans[k].scope == s;
      }
    }
  }

  lemma PlanScope(imgs: seq<Image>, s: Scope, keep: int)
    ensures Planned(imgs, s, keep, "").Ready? ==> Planned(imgs, s, keep, "").plan.scope == s
  {
  }

  predicate BadFlags(flags: Flags) { (flags.dryRun && flags.yes) || flags.keep < 0 || !ValidUserTag(flags.tag) }

  // What a confirmed run reports, and what it did to the account: `did`.
  ghost predicate Accounts(r: Outcome, plans: seq<Plan>, did: seq<Event>, es: seq<seq<Event>>) {
    && !r.Usage? && r.plans == plans && r.deleted + r.pending == Deletions(plans)
    && (r.Done? ==> r.pending == [])
    && did == Flat(es) && Carried(es, AllJobs(plans), |r.deleted|, if r.Cut? then Some(r.why) else None)
    && Guarded(did, AllJobs(plans)) && forall id :: id in r.deleted ==> Gone(did, id)
  }

  // `listed` is what the provider listed for the tag; `interactive` and `answer` are the user's terminal.
  method RunImagePrune(m: Account, listed: seq<Image>, flags: Flags, interactive: bool, answer: bool)
    returns (r: Outcome, ghost plans: seq<Plan>, ghost es: seq<seq<Event>>)
    modifies m
    ensures !BadFlags(flags) ==> PlansFor(plans, listed, flags)
    ensures r.Usage? <==> BadFlags(flags) || (!flags.dryRun && !flags.yes && !interactive && Deletions(plans) != [])
    ensures if BadFlags(flags) || flags.dryRun || Deletions(plans) == [] || !(flags.yes || (interactive && answer))
            then m.images == old(m.images) && m.log == old(m.log) && (!r.Usage? ==> r == Done(plans, [], Deletions(plans)))
            else |m.log| >= |old(m.log)| && m.log[..|old(m.log)|] == old(m.log)
                 && Accounts(r, plans, m.log[|old(m.log)|..], es)
  {
    plans, es := [], [];
    if (flags.dryRun && flags.yes) || flags.keep < 0 || !ValidUserTag(flags.tag) {
      return Usage, [], [];
    }
    hide PlansFor, ValidUserTag, Deletions, Accounts;
    var found := PlanAll(listed, flags);
    plans := found;
    var pending := PendingOf(found);
    if flags.dryRun || |pending| == 0 {
      return Done(found, [], pending), plans, es;
    }
    if !flags.yes {
      if !interactive {
        return Usage, plans, es;
      }
      if !answer {
        return Done(found, [], pending), plans, es;
      }
    }
    var deleted, left, why;
    deleted, left, why, es := ExecuteAll(m, found);
    r := if why.Some? then Cut(found, deleted, left, why.value) else Done(found, deleted, []);
    assert m.log[|old(m.log)|..] == Flat(es);
    RunAccounts(r, plans, es, deleted, left, why);
  }

  lemma RunAccounts(r: Outcome, plans: seq<Plan>, es: seq<seq<Event>>, deleted: seq<string>, left: seq<string>, why: Option<Stopped>)
    requires deleted + left == Deletions(plans) && Carried(es, AllJobs(plans), |deleted|, why) && (why.None? ==> left == [])
    requires r == if why.Some? then Cut(plans, deleted, left, why.value) else Done(plans, deleted, [])
    ensures Accounts(r, plans, Flat(es), es)
  {
    hide Flat, Guarded, Gone, Deletions, AllJobs, Removes, Halts;
    WhatARunDid(es, AllJobs(plans), |deleted|, why, |es|);
    assert es[..|es|] == es;
    JobsAreDeletions(plans);
    forall id | id in deleted ensures Gone(Flat(es), id) {
      var i :| 0 <= i < |deleted| && deleted[i] == id;
      assert AllJobs(plans)[i].id == (deleted + left)[i];
    }
  }
}

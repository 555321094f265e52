/** Exactly once, in order: what any sequence of replay runs, conflicts
    finished or backed out of by hand, and crashes does to the branch. */
module ReplayOnce {
  import opened Options
  import opened Git
  import opened Replay
  import opened ReplayCoverage

  /** A merge run, or the user ending a pick the run left open. `ContinuePick`
      is `git cherry-pick --continue`, which signs only if the user's own
      configuration says so. */
  datatype Event = RunMerge(fates: nat -> Fate, life: nat) | ContinuePick(signed: bool) | AbortPick

  function Step(r: Repo, e: Event, ref: Commit, list: seq<Commit>): Repo {
    match e
    case RunMerge(fates, life) => if r.picking.Some? then r else ReplayRange(r, ref, list, fates, life).0
    case ContinuePick(signed) =>
      if r.picking.None? then r
      else r.(head := Commit([r.head], Picked(r.picking.value, signed, true)), picking := None)
    case AbortPick => r.(picking := None)
  }

  function Steps(r: Repo, events: seq<Event>, ref: Commit, list: seq<Commit>): Repo
    decreases |events|
  {
    if events == [] then r else Steps(Step(r, events[0], ref, list), events[1..], ref, list)
  }

  /** The conflict being finished is the one the journal recorded. */
  predicate Recorded(r: Repo, e: Event, ref: Commit) {
    e.ContinuePick? && r.picking.Some? ==>
      && r.journal.Record? && r.journal.p.ref == ref
      && r.journal.p.stopped == r.picking && r.journal.p.onto == r.head
  }

  predicate AllRecorded(r: Repo, events: seq<Event>, ref: Commit, list: seq<Commit>)
    decreases |events|
  {
    events == [] || (Recorded(r, events[0], ref) && AllRecorded(Step(r, events[0], ref, list), events[1..], ref, list))
  }

  // ----- what lies on the branch -----

  /** The session commits landed since `h0`, oldest first, when nothing but
      picks lies between `h0` and `h`. */
  function Trail(h: Commit, h0: Commit): Option<seq<Commit>> {
    if h == h0 then Some([])
    else if |h.parents| == 1 && h.what.Picked? then
      match Trail(h.parents[0], h0)
      case None => None
      case Some(t) => Some(t + [h.what.orig])
    else None
  }

  predicate Subsequence(a: seq<Commit>, b: seq<Commit>)
    decreases |b|
  {
    || a == []
    || (b != [] &&
        (|| Subsequence(a, b[..|b| - 1])
         || (a[|a| - 1] == b[|b| - 1] && Subsequence(a[..|a| - 1], b[..|b| - 1]))))
  }

  ghost predicate DroppedSince(c: Commit, h: Commit, h0: Commit, drops: set<(Commit, Commit)>) {
    exists d :: d in drops && d.0 == c && d.1 in Reach(h) && h0 in Reach(d.1)
  }

  /** Of the first `n` commits each has landed since `h0`, in order, or was
      dropped; nothing else has landed. */
  ghost predicate Exactly(h: Commit, h0: Commit, drops: set<(Commit, Commit)>, list: seq<Commit>, n: nat) {
    && n <= |list|
    && Trail(h, h0).Some?
    && Subsequence(Trail(h, h0).value, list[..n])
    && forall i :: 0 <= i < n ==> list[i] in Trail(h, h0).value || DroppedSince(list[i], h, h0, drops)
  }

  ghost predicate LandedNext(h: Commit, h0: Commit, drops: set<(Commit, Commit)>, list: seq<Commit>, n: nat) {
    && n < |list| && h != h0 && |h.parents| == 1 && JustLanded(h, list[n])
    && Exactly(h.parents[0], h0, drops, list, n)
  }

  ghost predicate At(h: Commit, h0: Commit, drops: set<(Commit, Commit)>, list: seq<Commit>, n: nat) {
    Exactly(h, h0, drops, list, n) || LandedNext(h, h0, drops, list, n)
  }

  /** A replay is anchored where it started, or on its first pick when it
      died between that pick and its first save. */
  predicate AnchoredAt(base: Commit, h0: Commit, list: seq<Commit>) {
    base == h0 || (list != [] && base == Landed(h0, list[0]))
  }

  predicate DoneIs(p: Progress, list: seq<Commit>, n: nat)
    requires n <= |list|
  {
    p.done == if n == 0 then None else Some(list[n - 1])
  }

  predicate OurRecord(r: Repo, ref: Commit) {
    r.journal.Record? && r.journal.p.ref == ref
  }

  /** HEAD is the commit after `onto` that finishes the pick of `list[n]`. */
  predicate OneFurther(head: Commit, p: Progress, list: seq<Commit>, n: nat) {
    n < |list| && head.parents == [p.onto] && head.what.Picked? && head.what.orig == list[n] && (head.what.byHand ==> p.stopped.Some?)
  }

  /** A pick left open is that of `list[n]`, on a branch that holds exactly what
      comes before it. */
  ghost predicate OpenPick(r: Repo, h0: Commit, ref: Commit, list: seq<Commit>, n: nat) {
    r.picking.Some? ==>
      && n < |list| && r.picking.value == list[n] && !JustLanded(r.head, list[n])
      && Exactly(r.head, h0, r.drops, list, n) && !r.journal.Unreadable?
      && (OurRecord(r, ref) ==> r.head == r.journal.p.onto)
  }

  /** The invariant: the journal and the branch agree up to position `n`. */
  ghost predicate Inv(r: Repo, h0: Commit, ref: Commit, list: seq<Commit>, n: nat) {
    && n <= |list| && OpenPick(r, h0, ref, list, n)
    && if OurRecord(r, ref) then
         var p := r.journal.p;
         && DoneIs(p, list, n) && AnchoredAt(p.base, h0, list)
         && (p.stopped.Some? ==> n < |list| && p.stopped.value == list[n])
         && (|| (r.head == p.onto && At(r.head, h0, r.drops, list, n))
             || (OneFurther(r.head, p, list, n) && r.head != h0 && Exactly(p.onto, h0, r.drops, list, n)))
       else n == 0 && AnchoredAt(r.head, h0, list)
  }

  // ----- small facts -----

  lemma {:induction false} SubsequenceMember(a: seq<Commit>, b: seq<Commit>, c: Commit)
    requires Subsequence(a, b) && c in a
    ensures c in b
    decreases |b|
  {
    if Subsequence(a, b[..|b| - 1]) {
      SubsequenceMember(a, b[..|b| - 1], c);
    } else if c != a[|a| - 1] {
      SubsequenceMember(a[..|a| - 1], b[..|b| - 1], c);
    }
  }

  lemma {:induction false} SubsequenceDistinct(a: seq<Commit>, b: seq<Commit>)
    requires Subsequence(a, b) && NoDuplicates(b)
    ensures NoDuplicates(a)
    decreases |b|
  {
    if a != [] {
      if Subsequence(a, b[..|b| - 1]) {
        SubsequenceDistinct(a, b[..|b| - 1]);
      } else {
        SubsequenceDistinct(a[..|a| - 1], b[..|b| - 1]);
        forall i, j | 0 <= i < j < |a| ensures a[i] != a[j] {
          if j == |a| - 1 {
            assert a[..|a| - 1][i] == a[i];
            SubsequenceMember(a[..|a| - 1], b[..|b| - 1], a[i]);
          } else {
            assert a[..|a| - 1][i] == a[i] && a[..|a| - 1][j] == a[j];
          }
        }
      }
    }
  }

  lemma {:induction false} TrailReaches(h: Commit, h0: Commit)
    requires Trail(h, h0).Some?
    ensures h0 in Reach(h)
    decreases h
  {
    if h != h0 {
      TrailReaches(h.parents[0], h0);
    }
  }

  lemma OneStep(h: Commit, g: Commit)
    requires h.parents == [g]
    ensures Range(g, h) == {h} && h != g && g in Reach(h)
  {
    if h in Reach(g) {
      AncestorSize(h, g);
      SizeOfParent(g, h.parents);
    }
    assert g in Reach(g);
  }

  /** Nothing that was so stops being so when more is dropped or landed. */
  lemma DroppedGrows(c: Commit, h: Commit, h': Commit, h0: Commit, drops: set<(Commit, Commit)>, drops': set<(Commit, Commit)>)
    requires DroppedSince(c, h, h0, drops) && Ancestor(h, h') && drops <= drops'
    ensures DroppedSince(c, h', h0, drops')
  {
    ReachTransitive(h, h');
  }

  lemma ExactlyGrows(h: Commit, h0: Commit, drops: set<(Commit, Commit)>, drops': set<(Commit, Commit)>, list: seq<Commit>, n: nat)
    requires Exactly(h, h0, drops, list, n) && drops <= drops'
    ensures Exactly(h, h0, drops', list, n)
  {
    assert h in Reach(h);
    forall i | 0 <= i < n && DroppedSince(list[i], h, h0, drops) ensures DroppedSince(list[i], h, h0, drops') {
      DroppedGrows(list[i], h, h, h0, drops, drops');
    }
  }

  /** Landing `list[n]` on top of a branch holding exactly the first `n`. */
  lemma LandingExtends(g: Commit, h: Commit, h0: Commit, drops: set<(Commit, Commit)>, list: seq<Commit>, n: nat)
    requires Exactly(g, h0, drops, list, n) && n < |list|
    requires h.parents == [g] && h.what.Picked? && h.what.orig == list[n]
    ensures h != h0 && Exactly(h, h0, drops, list, n + 1)
  {
    TrailReaches(g, h0);
    OneStep(h, g);
    if h == h0 {
      AncestorAntisymmetric(g, h0);
    }
    var t := Trail(g, h0).value;
    assert list[..n + 1] == list[..n] + [list[n]];
    forall i | 0 <= i < n + 1 ensures list[i] in t + [list[n]] || DroppedSince(list[i], h, h0, drops) {
      if i < n && list[i] !in t {
        DroppedGrows(list[i], g, h, h0, drops, drops);
      }
    }
  }

  /** Dropping `list[n]` at HEAD, whether it has just landed there or not. */
  lemma DroppingExtends(h: Commit, h0: Commit, drops: set<(Commit, Commit)>, list: seq<Commit>, n: nat)
    requires At(h, h0, drops, list, n) && n < |list|
    ensures Exactly(h, h0, drops + {(list[n], h)}, list, n + 1)
  {
    var drops' := drops + {(list[n], h)};
    if Exactly(h, h0, drops', list, n) {
      TrailReaches(h, h0);
      assert list[..n + 1] == list[..n] + [list[n]];
      assert DroppedSince(list[n], h, h0, drops') by {
        assert (list[n], h) in drops' && h in Reach(h);
      }
    } else {
      assert h.parents == [h.parents[0]];
      LandingExtends(h.parents[0], h, h0, drops', list, n);
    }
  }

  // ----- one run -----

  /** The loop may go on from position `i`: what it would leave on dying
      before its next save still satisfies the invariant. */
  ghost predicate Going(r: Repo, h0: Commit, ref: Commit, list: seq<Commit>, i: nat, p: Progress, n: nat) {
    && Inv(r, h0, ref, list, n) && i <= |list| && At(r.head, h0, r.drops, list, i)
    && p.ref == ref && AnchoredAt(p.base, h0, list) && DoneIs(p, list, i) && p.stopped.None? && r.picking.None?
    && (i < |list| && !JustLanded(r.head, list[i]) ==>
          && Inv(r.(head := Landed(r.head, list[i])), h0, ref, list, n)
          && Inv(r.(picking := Some(list[i])), h0, ref, list, n))
  }

  /** A freshly saved position is always one the loop can go on from. */
  lemma SavedGoing(r: Repo, h0: Commit, ref: Commit, list: seq<Commit>, i: nat, p: Progress)
    requires r.journal == Record(p) && p.onto == r.head && r.picking.None?
    requires p.ref == ref && AnchoredAt(p.base, h0, list) && i <= |list| && DoneIs(p, list, i) && p.stopped.None?
    requires Exactly(r.head, h0, r.drops, list, i)
    ensures Going(r, h0, ref, list, i, p, i)
  {
    if i < |list| {
      LandingExtends(r.head, Landed(r.head, list[i]), h0, r.drops, list, i);
    }
  }

  /** Landing or dropping `list[i]`: safe to die before the save, and a
      position to go on from after it. */
  lemma AdvanceOnce(r: Repo, h0: Commit, ref: Commit, list: seq<Commit>, i: nat, p: Progress, n: nat, land: bool)
    requires Going(r, h0, ref, list, i, p, n) && i < |list| && (land ==> !JustLanded(r.head, list[i]))
    ensures
      var (r1, p1) := Advanced(r, list, i, p, land);
      && Inv(r1.(journal := r.journal), h0, ref, list, n)
      && Going(r1, h0, ref, list, i + 1, p1, i + 1)
  {
    var (r1, p1) := Advanced(r, list, i, p, land);
    if land {
      LandingExtends(r.head, r1.head, h0, r.drops, list, i);
    } else {
      DroppingExtends(r.head, h0, r.drops, list, i);
    }
    SavedGoing(r1, h0, ref, list, i + 1, p1);
  }

  ghost predicate RunOk(run: (Repo, Outcome), h0: Commit, ref: Commit, list: seq<Commit>, base: Commit, n: nat) {
    && Inv(run.0, h0, ref, list, n)
    && (run.1.Finished? ==> run.1.base == base && Exactly(run.0.head, h0, run.0.drops, list, |list|))
  }

  /** A run that ends at position `i`: finished, dead, or stopped. */
  lemma PicksEnd(r: Repo, h0: Commit, ref: Commit, list: seq<Commit>, i: nat, p: Progress, fates: nat -> Fate, life: nat, n: nat) returns (n': nat)
    requires Going(r, h0, ref, list, i, p, n)
    requires i == |list| || life <= 1 || Effective(r.head, list[i], fates(i)).Stops?
    ensures RunOk(Picks(r, list, i, p, fates, life), h0, ref, list, p.base, n')
  {
    n' := n;
    if i < |list| && life > 0 {
      var fate := Effective(r.head, list[i], fates(i));
      if fate.Stops? {
        n' := if life == 1 then n else i;
      } else {
        AdvanceOnce(r, h0, ref, list, i, p, n, fate.Lands?);
      }
    }
  }

  lemma {:induction false} PicksOnce(r: Repo, h0: Commit, ref: Commit, list: seq<Commit>, i: nat, p: Progress, fates: nat -> Fate, life: nat, n: nat) returns (n': nat)
    requires Going(r, h0, ref, list, i, p, n)
    ensures RunOk(Picks(r, list, i, p, fates, life), h0, ref, list, p.base, n')
    decreases |list| - i
  {
    hide Exactly, At, Inv, Reach;
    if i == |list| || life <= 1 || Effective(r.head, list[i], fates(i)).Stops? {
      n' := PicksEnd(r, h0, ref, list, i, p, fates, life, n);
    } else {
      var land := Effective(r.head, list[i], fates(i)).Lands?;
      var (r1, p1) := Advanced(r, list, i, p, land);
      AdvanceOnce(r, h0, ref, list, i, p, n, land);
      n' := PicksOnce(r1, h0, ref, list, i + 1, p1, fates, life - 2, i + 1);
    }
  }

  lemma IndexOfDistinct(list: seq<Commit>, n: nat)
    requires NoDuplicates(list) && n < |list|
    ensures IndexOf(list, list[n]) == n
  {
    var i := IndexOf(list, list[n]);
    assert forall j :: n < j <= |list| ==> list[n] in list[..j];
  }

  /** A run that finds its own record starts where the branch says it got to:
      at the stopped commit's successor exactly when the stopped pick was
      finished by hand. */
  lemma ResumeMatches(r: Repo, h0: Commit, ref: Commit, list: seq<Commit>, n: nat)
    requires Inv(r, h0, ref, list, n) && NoDuplicates(list) && OurRecord(r, ref)
    ensures
      var p := r.journal.p;
      ResumePoint(r, ref, list) ==
        if p.stopped.Some? && r.head != p.onto then Resume(n + 1, p.base, true) else Resume(n, p.base, false)
  {
    var p := r.journal.p;
    assert r.head in Reach(r.head);
    if r.head != p.onto {
      OneStep(r.head, p.onto);
    }
    if n > 0 {
      IndexOfDistinct(list, n - 1);
    }
    if p.stopped.Some? {
      IndexOfDistinct(list, n);
    }
  }

  /** A resumed run with nothing to amend. */
  lemma ResumedGoing(r: Repo, h0: Commit, ref: Commit, list: seq<Commit>, n: nat)
    requires Inv(r, h0, ref, list, n) && OurRecord(r, ref) && r.picking.None?
    requires r.journal.p.stopped.None? || r.head == r.journal.p.onto
    ensures Going(r, h0, ref, list, n, StartProgress(ref, list, Resume(n, r.journal.p.base, false), r.head), n)
  {
    if n < |list| && r.head == r.journal.p.onto && !JustLanded(r.head, list[n]) {
      LandingExtends(r.head, Landed(r.head, list[n]), h0, r.drops, list, n);
    }
  }

  lemma RunOnce(r: Repo, h0: Commit, ref: Commit, list: seq<Commit>, fates: nat -> Fate, life: nat, n: nat) returns (base: Commit, n': nat)
    requires Inv(r, h0, ref, list, n) && NoDuplicates(list) && r.picking.None?
    ensures AnchoredAt(base, h0, list) && RunOk(ReplayRange(r, ref, list, fates, life), h0, ref, list, base, n')
  {
    base, n' := h0, n;
    if !r.journal.Unreadable? {
      if !OurRecord(r, ref) {
        base := r.head;
        n' := PicksOnce(r, h0, ref, list, 0, StartProgress(ref, list, Resume(0, base, false), r.head), fates, life, n);
      } else {
        base := r.journal.p.base;
        if r.journal.p.stopped.None? || r.head == r.journal.p.onto {
          ResumeMatches(r, h0, ref, list, n);
          ResumedGoing(r, h0, ref, list, n);
          n' := PicksOnce(r, h0, ref, list, n, StartProgress(ref, list, Resume(n, base, false), r.head), fates, life, n);
        } else {
          n' := AmendedOnce(r, h0, ref, list, fates, life, n);
        }
      }
    }
  }

  /** The hand-finished commit is amended, recorded, and never picked again. */
  lemma AmendedGoing(r: Repo, h0: Commit, ref: Commit, list: seq<Commit>, n: nat)
    requires Inv(r, h0, ref, list, n) && r.picking.None? && OurRecord(r, ref)
    requires r.journal.p.stopped.Some? && r.head != r.journal.p.onto
    ensures
      var p1 := StartProgress(ref, list, Resume(n + 1, r.journal.p.base, true), Resigned(r.head));
      Inv(Resign(r), h0, ref, list, n) && Going(Save(Resign(r), p1), h0, ref, list, n + 1, p1, n + 1)
  {
    var p := r.journal.p;
    var r1 := Resign(r);
    ExactlyGrows(p.onto, h0, r.drops, r1.drops, list, n);
    LandingExtends(p.onto, r1.head, h0, r1.drops, list, n);
    var p1 := StartProgress(ref, list, Resume(n + 1, p.base, true), r1.head);
    SavedGoing(Save(r1, p1), h0, ref, list, n + 1, p1);
  }

  lemma AmendedPicks(r: Repo, h0: Commit, ref: Commit, list: seq<Commit>, fates: nat -> Fate, life: nat, n: nat) returns (n': nat)
    requires Inv(r, h0, ref, list, n) && r.picking.None? && OurRecord(r, ref)
    requires r.journal.p.stopped.Some? && r.head != r.journal.p.onto
    ensures
      var p1 := StartProgress(ref, list, Resume(n + 1, r.journal.p.base, true), Resigned(r.head));
      RunOk(Picks(Save(Resign(r), p1), list, n + 1, p1, fates, life), h0, ref, list, r.journal.p.base, n')
  {
    AmendedGoing(r, h0, ref, list, n);
    hide Exactly, At, Inv, Reach;
    var p1 := StartProgress(ref, list, Resume(n + 1, r.journal.p.base, true), Resigned(r.head));
    n' := PicksOnce(Save(Resign(r), p1), h0, ref, list, n + 1, p1, fates, life, n + 1);
  }

  lemma AmendedOnce(r: Repo, h0: Commit, ref: Commit, list: seq<Commit>, fates: nat -> Fate, life: nat, n: nat) returns (n': nat)
    requires Inv(r, h0, ref, list, n) && NoDuplicates(list) && r.picking.None? && OurRecord(r, ref)
    requires r.journal.p.stopped.Some? && r.head != r.journal.p.onto
    ensures RunOk(ReplayRange(r, ref, list, fates, life), h0, ref, list, r.journal.p.base, n')
    ensures life > 0 ==> Stands(r.head, ReplayRange(r, ref, list, fates, life).0.head)
  {
    hide Exactly, At, Reach, Picks, ReplayRange, Inv, Stands;
    AmendStands(r, h0, ref, list, fates, life, n);
    AmendUnfold(r, h0, ref, list, fates, life, n);
    if life > 1 {
      n' := AmendedPicks(r, h0, ref, list, fates, life - 2, n);
    } else {
      AmendedGoing(r, h0, ref, list, n);
      n' := n;
    }
  }

  /** The commit finished by hand is there, signed. */
  lemma AmendStands(r: Repo, h0: Commit, ref: Commit, list: seq<Commit>, fates: nat -> Fate, life: nat, n: nat)
    requires Inv(r, h0, ref, list, n) && NoDuplicates(list) && OurRecord(r, ref)
    requires r.journal.p.stopped.Some? && r.head != r.journal.p.onto
    ensures life > 0 ==> Stands(r.head, ReplayRange(r, ref, list, fates, life).0.head)
  {
    hide FinishedByHand, Stands, AddsOnlyGood, Picks, Exactly, At;
    ResumeMatches(r, h0, ref, list, n);
    HandIsHand(r, ref, list);
    RunSigns(r, ref, list, fates, life);
  }

  lemma AmendUnfold(r: Repo, h0: Commit, ref: Commit, list: seq<Commit>, fates: nat -> Fate, life: nat, n: nat)
    requires Inv(r, h0, ref, list, n) && NoDuplicates(list) && OurRecord(r, ref)
    requires r.journal.p.stopped.Some? && r.head != r.journal.p.onto
    ensures
      var p1 := StartProgress(ref, list, Resume(n + 1, r.journal.p.base, true), Resigned(r.head));
      ReplayRange(r, ref, list, fates, life) ==
        if life == 0 then (r, Died) else if life == 1 then (Resign(r), Died)
        else Picks(Save(Resign(r), p1), list, n + 1, p1, fates, life - 2)
  {
    ResumeMatches(r, h0, ref, list, n);
  }

  lemma StepKeeps(r: Repo, e: Event, h0: Commit, ref: Commit, list: seq<Commit>, n: nat) returns (n': nat)
    requires Inv(r, h0, ref, list, n) && NoDuplicates(list) && Recorded(r, e, ref)
    ensures Inv(Step(r, e, ref, list), h0, ref, list, n')
  {
    n' := n;
    match e {
      case RunMerge(fates, life) =>
        if r.picking.None? {
          var base;
          base, n' := RunOnce(r, h0, ref, list, fates, life, n);
        }
      case ContinuePick(signed) =>
        if r.picking.Some? {
          LandingExtends(r.head, Step(r, e, ref, list).head, h0, r.drops, list, n);
        }
      case AbortPick =>
    }
  }

  lemma {:induction false} StepsKeep(r: Repo, events: seq<Event>, h0: Commit, ref: Commit, list: seq<Commit>, n: nat) returns (n': nat)
    requires Inv(r, h0, ref, list, n) && NoDuplicates(list) && AllRecorded(r, events, ref, list)
    ensures Inv(Steps(r, events, ref, list), h0, ref, list, n')
    decreases |events|
  {
    n' := n;
    if events != [] {
      n' := StepKeeps(r, events[0], h0, ref, list, n);
      n' := StepsKeep(Step(r, events[0], ref, list), events[1..], h0, ref, list, n');
    }
  }

  lemma InvShowsTrail(r: Repo, h0: Commit, ref: Commit, list: seq<Commit>, n: nat)
    requires Inv(r, h0, ref, list, n)
    ensures Trail(r.head, h0).Some? && Subsequence(Trail(r.head, h0).value, list)
  {
    var m := n;
    if !OurRecord(r, ref) {
      assert Exactly(h0, h0, r.drops, list, 0);
      if r.head != h0 {
        LandingExtends(h0, r.head, h0, r.drops, list, 0);
        m := 1;
      }
    } else if !Exactly(r.head, h0, r.drops, list, n) {
      LandingExtends(r.head.parents[0], r.head, h0, r.drops, list, n);
      m := n + 1;
    }
    SubsequenceWiden(Trail(r.head, h0).value, list, m);
  }

  lemma {:induction false} SubsequenceWiden(a: seq<Commit>, b: seq<Commit>, m: nat)
    requires m <= |b| && Subsequence(a, b[..m])
    ensures Subsequence(a, b)
    decreases |b| - m
  {
    if m < |b| {
      assert b[..m + 1] == b[..m] + [b[m]];
      SubsequenceWiden(a, b, m + 1);
    } else {
      assert b[..m] == b;
    }
  }

  /** Over any sequence of runs, conflicts ended by hand and crashes, starting
      with no journal for this tip: between the starting commit and HEAD lie
      only picks of the list's commits, each at most once and in list order;
      and when a further run finishes, each commit of the list has landed
      there exactly once or was dropped as empty, and the run reports the
      starting commit as its base -- or, after a crash between the very first
      pick and the first save, the commit that pick made. */
  lemma ExactlyOnceInOrder(r: Repo, events: seq<Event>, ref: Commit, list: seq<Commit>, fates: nat -> Fate, life: nat)
    requires NoDuplicates(list) && !OurRecord(r, ref) && r.picking.None? && AllRecorded(r, events, ref, list)
    ensures
      var r1 := Steps(r, events, ref, list);
      && Trail(r1.head, r.head).Some?
      && Subsequence(Trail(r1.head, r.head).value, list)
      && NoDuplicates(Trail(r1.head, r.head).value)
      && (r1.picking.None? ==>
            var (r2, out) := ReplayRange(r1, ref, list, fates, life);
            out.Finished? ==>
              && Trail(r2.head, r.head).Some?
              && Subsequence(Trail(r2.head, r.head).value, list)
              && NoDuplicates(Trail(r2.head, r.head).value)
              && (forall i :: 0 <= i < |list| ==> list[i] in Trail(r2.head, r.head).value || DroppedSince(list[i], r2.head, r.head, r2.drops))
              && AnchoredAt(out.base, r.head, list))
  {
    var h0 := r.head;
    var r1 := Steps(r, events, ref, list);
    var n := StepsKeep(r, events, h0, ref, list, 0);
    InvShowsTrail(r1, h0, ref, list, n);
    SubsequenceDistinct(Trail(r1.head, h0).value, list);
    if r1.picking.None? {
      var (r2, out) := ReplayRange(r1, ref, list, fates, life);
      var base, n' := RunOnce(r1, h0, ref, list, fates, life, n);
      if out.Finished? {
        assert list[..|list|] == list;
        SubsequenceDistinct(Trail(r2.head, h0).value, list);
      }
    }
  }

  // ----- a conflict whose record was never written -----

  /** After it was finished by hand the next run starts at it all the same. */
  lemma UnrecordedStart(r: Repo, h0: Commit, ref: Commit, list: seq<Commit>, n: nat, signed: bool)
    requires Inv(r, h0, ref, list, n) && NoDuplicates(list) && r.picking.Some? && !Recorded(r, ContinuePick(signed), ref)
    ensures
      var r1 := Step(r, ContinuePick(signed), ref, list);
      ResumePoint(r1, ref, list).start == n && !ResumePoint(r1, ref, list).handFinished && !r1.journal.Unreadable?
  {
    var r1 := Step(r, ContinuePick(signed), ref, list);
    OneStep(r1.head, r.head);
    if OurRecord(r, ref) && n > 0 {
      IndexOfDistinct(list, n - 1);
    }
  }

  /** In every state that can be reached: git promises nothing about picking a
      commit again that a person has landed, so where that pick lands, the
      commit is on the branch twice. */
  lemma UnrecordedConflictLandsTwice(r: Repo, h0: Commit, ref: Commit, list: seq<Commit>, n: nat, signed: bool, fates: nat -> Fate)
    requires Inv(r, h0, ref, list, n) && NoDuplicates(list) && r.picking.Some? && !Recorded(r, ContinuePick(signed), ref)
    requires fates(n) == Lands
    ensures
      var r2 := Step(Step(r, ContinuePick(signed), ref, list), RunMerge(fates, 2), ref, list);
      && Trail(r.head, h0).Some?
      && Trail(r2.head, h0) == Some(Trail(r.head, h0).value + [list[n], list[n]])
  {
    var r1 := Step(r, ContinuePick(signed), ref, list);
    UnrecordedStart(r, h0, ref, list, n, signed);
    LandingExtends(r.head, r1.head, h0, r.drops, list, n);
    var at := ResumePoint(r1, ref, list);
    var p := StartProgress(ref, list, at, r1.head);
    var h2 := Landed(r1.head, list[n]);
    var p1 := p.(done := Some(list[n]), stopped := None, onto := h2);
    assert Picks(r1, list, n, p, fates, 2) == Picks(Save(r1.(head := h2), p1), list, n + 1, p1, fates, 0);
    TrailReaches(r1.head, h0);
    OneStep(h2, r1.head);
    var t := Trail(r.head, h0).value;
    assert Trail(r1.head, h0) == Some(t + [list[n]]);
    assert Trail(h2, h0) == Some(t + [list[n]] + [list[n]]);
    assert t + [list[n]] + [list[n]] == t + [list[n], list[n]];
  }

  ghost predicate NeverTwice(r: Repo, h0: Commit, ref: Commit, list: seq<Commit>, signed: bool, fates: nat -> Fate, life: nat) {
    var r2 := Step(Step(r, ContinuePick(signed), ref, list), RunMerge(fates, life), ref, list);
    Trail(r2.head, h0).Some? && NoDuplicates(Trail(r2.head, h0).value)
  }

  /** Exactly when finishing an open pick by hand is safe, whatever the next run
      meets: when the journal has recorded that very pick. */
  lemma SafeIffRecorded(r: Repo, events: seq<Event>, ref: Commit, list: seq<Commit>, signed: bool)
    requires NoDuplicates(list) && !OurRecord(r, ref) && r.picking.None? && AllRecorded(r, events, ref, list)
    requires Steps(r, events, ref, list).picking.Some?
    ensures
      var r1 := Steps(r, events, ref, list);
      Recorded(r1, ContinuePick(signed), ref) <==> forall fates: nat -> Fate, life: nat :: NeverTwice(r1, r.head, ref, list, signed, fates, life)
  {
    var h0, r1 := r.head, Steps(r, events, ref, list);
    var n := StepsKeep(r, events, h0, ref, list, 0);
    if Recorded(r1, ContinuePick(signed), ref) {
      forall fates: nat -> Fate, life: nat ensures NeverTwice(r1, h0, ref, list, signed, fates, life) {
        var r2 := Step(r1, ContinuePick(signed), ref, list);
        var m := StepKeeps(r1, ContinuePick(signed), h0, ref, list, n);
        var k := StepKeeps(r2, RunMerge(fates, life), h0, ref, list, m);
        var r3 := Step(r2, RunMerge(fates, life), ref, list);
        InvShowsTrail(r3, h0, ref, list, k);
        SubsequenceDistinct(Trail(r3.head, h0).value, list);
      }
    } else {
      var lands: nat -> Fate := _ => Lands;
      UnrecordedConflictLandsTwice(r1, h0, ref, list, n, signed, lands);
      var t := Trail(r1.head, h0).value;
      var twice := t + [list[n], list[n]];
      assert twice[|t|] == twice[|t| + 1];
      assert !NeverTwice(r1, h0, ref, list, signed, lands, 2);
    }
  }
}

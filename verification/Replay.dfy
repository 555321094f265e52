/** Replaying a session's commits onto the user's branch, one signed
    cherry-pick at a time, through a journal that survives conflicts finished
    by hand and crashes between any two durable writes. */
module Replay {
  import opened Options
  import opened Git

  /** The journal's content: which tip it was made for, where the whole replay
      is anchored, the last commit accounted for, the commit whose pick
      stopped, and where HEAD was when this was written. */
  datatype Progress = Progress(ref: Commit, base: Commit, done: Option<Commit>, stopped: Option<Commit>, onto: Commit)

  datatype Journal = NoFile | Unreadable | Record(p: Progress)

  /** The user's checkout. `picking` is CHERRY_PICK_HEAD. `drops` remembers
      each pick git found empty, with the HEAD it was empty against. */
  datatype Repo = Repo(head: Commit, journal: Journal, picking: Option<Commit>, drops: set<(Commit, Commit)>)

  /** What git makes of one pick when nothing forces the answer: it lands, it
      is dropped as empty, or it stops -- with the pick left open for the user
      (a conflict), or not even begun. */
  datatype Fate = Lands | Drops | Stops(open: bool)

  datatype Outcome = Finished(base: Commit) | Stopped | Refused | Died

  /** HEAD is `sha` as git itself landed it. */
  predicate JustLanded(head: Commit, sha: Commit) {
    head.what.Picked? && head.what.orig == sha && !head.what.byHand
  }

  /** The one thing git guarantees about a pick: picking again the commit that
      has just landed at HEAD changes nothing, so it is dropped. */
  function Effective(head: Commit, sha: Commit, fate: Fate): Fate {
    if JustLanded(head, sha) && fate != Stops(false) then Drops else fate
  }

  function Landed(head: Commit, sha: Commit): Commit {
    Commit([head], Picked(sha, true, false))
  }

  /** `git commit --amend -S`: the same tree and parents, now signed. */
  function Resigned(head: Commit): Commit {
    match head.what
    case Picked(orig, _, byHand) => head.(what := Picked(orig, true, byHand))
    case Authored(id, _) => head.(what := Authored(id, true))
  }

  /** Amending keeps the tree, so a pick that was empty against the old HEAD
      is empty against the amended one. */
  function Resign(r: Repo): Repo {
    r.(head := Resigned(r.head), drops := r.drops + set d | d in r.drops && d.1 == r.head :: (d.0, Resigned(r.head)))
  }

  function Save(r: Repo, p: Progress): Repo {
    r.(journal := Record(p))
  }

  // ----- where to resume -----

  /** The first position of `c` in `list`, or |list|. */
  function IndexOf(list: seq<Commit>, c: Commit): (i: nat)
    ensures i <= |list| && c !in list[..i] && (i < |list| ==> list[i] == c)
  {
    if list == [] then 0 else if list[0] == c then 0 else 1 + IndexOf(list[1..], c)
  }

  datatype Resume = Resume(start: nat, base: Commit, handFinished: bool)

  /** The last commit the record vouches for, given where HEAD is now. */
  function LastKnown(p: Progress, head: Commit): Option<Commit> {
    if p.stopped.Some? && head != p.onto then p.stopped else p.done
  }

  function ResumePoint(r: Repo, ref: Commit, list: seq<Commit>): (x: Resume)
    ensures x.start <= |list|
  {
    if !r.journal.Record? then Resume(0, r.head, false) else
    var p := r.journal.p;
    if p.ref != ref || !Ancestor(p.onto, r.head) then Resume(0, r.head, false) else
    var hand := p.stopped.Some? && r.head != p.onto && |Range(p.onto, r.head)| == 1;
    match LastKnown(p, r.head)
    case None => Resume(0, p.base, hand)
    case Some(last) =>
      if last in list then Resume(IndexOf(list, last) + 1, p.base, hand) else Resume(0, r.head, false)
  }

  // ----- one run -----

  /** The commits from position `i` on. `life` is how many more durable writes
      this process makes before it dies; 0 or more may be left at the end. */
  function Picks(r: Repo, list: seq<Commit>, i: nat, p: Progress, fates: nat -> Fate, life: nat): (Repo, Outcome)
    requires i <= |list|
    decreases |list| - i
  {
    if i == |list| then (r, Finished(p.base)) else
    if life == 0 then (r, Died) else
    var sha := list[i];
    match Effective(r.head, sha, fates(i))
    case Stops(open) =>
      var r1 := if open then r.(picking := Some(sha)) else r;
      if life == 1 then (r1, Died) else (Save(r1, p.(stopped := Some(sha), onto := r.head)), Stopped)
    case Lands =>
      var r1 := r.(head := Landed(r.head, sha));
      if life == 1 then (r1, Died) else
      var p1 := p.(done := Some(sha), stopped := None, onto := r1.head);
      Picks(Save(r1, p1), list, i + 1, p1, fates, life - 2)
    case Drops =>
      var r1 := r.(drops := r.drops + {(sha, r.head)});
      if life == 1 then (r1, Died) else
      var p1 := p.(done := Some(sha), stopped := None, onto := r.head);
      Picks(Save(r1, p1), list, i + 1, p1, fates, life - 2)
  }

  function StartProgress(ref: Commit, list: seq<Commit>, at: Resume, head: Commit): Progress
    requires at.start <= |list|
  {
    Progress(ref, at.base, if at.start > 0 then Some(list[at.start - 1]) else None, None, head)
  }

  /** One call of the replay over `list`, the commits of the range in order. */
  function ReplayRange(r: Repo, ref: Commit, list: seq<Commit>, fates: nat -> Fate, life: nat): (Repo, Outcome) {
    if r.journal.Unreadable? then (r, Refused) else
    var at := ResumePoint(r, ref, list);
    if at.handFinished then
      if life == 0 then (r, Died) else
      var r1 := Resign(r);
      if life == 1 then (r1, Died) else
      var p := StartProgress(ref, list, at, r1.head);
      Picks(Save(r1, p), list, at.start, p, fates, life - 2)
    else
      Picks(r, list, at.start, StartProgress(ref, list, at, r.head), fates, life)
  }

  // ----- what a run puts on the branch -----

  lemma {:induction false} PicksLeavePicking(r: Repo, list: seq<Commit>, i: nat, p: Progress, fates: nat -> Fate, life: nat)
    requires i <= |list|
    ensures var (r', out) := Picks(r, list, i, p, fates, life); out.Finished? ==> r'.picking == r.picking
    decreases |list| - i
  {
    if i < |list| && life > 1 {
      match Effective(r.head, list[i], fates(i)) {
        case Stops(_) =>
        case Lands =>
          var head := Landed(r.head, list[i]);
          var p1 := p.(done := Some(list[i]), stopped := None, onto := head);
          PicksLeavePicking(Save(r.(head := head), p1), list, i + 1, p1, fates, life - 2);
        case Drops =>
          var p1 := p.(done := Some(list[i]), stopped := None, onto := r.head);
          PicksLeavePicking(Save(r.(drops := r.drops + {(list[i], r.head)}), p1), list, i + 1, p1, fates, life - 2);
      }
    }
  }

  /** A run that finishes leaves no pick open. */
  lemma FinishedLeavesPicking(r: Repo, ref: Commit, list: seq<Commit>, fates: nat -> Fate, life: nat)
    ensures var (r', out) := ReplayRange(r, ref, list, fates, life); out.Finished? ==> r'.picking == r.picking
  {
    hide Picks;
    var at := ResumePoint(r, ref, list);
    if !r.journal.Unreadable? && at.handFinished && life > 1 {
      var p := StartProgress(ref, list, at, Resigned(r.head));
      PicksLeavePicking(Save(Resign(r), p), list, at.start, p, fates, life - 2);
    } else if !r.journal.Unreadable? && !at.handFinished {
      PicksLeavePicking(r, list, at.start, StartProgress(ref, list, at, r.head), fates, life);
    }
  }

  /** Everything on `after` that was not on `before` carries a good signature. */
  predicate AddsOnlyGood(before: Commit, after: Commit) {
    forall x :: x in Reach(after) && x !in Reach(before) ==> Good(x)
  }

  /** The same commit but for its signature: the same history under it, and the
      same change. */
  predicate SameChange(a: Commit, b: Commit) {
    a.parents == b.parents &&
    match a.what
    case Authored(id, _) => b.what.Authored? && b.what.id == id
    case Picked(orig, _, byHand) => b.what.Picked? && b.what.orig == orig && b.what.byHand == byHand
  }

  /** The user finished the pick that stopped: HEAD is the one commit that has
      come since the record of it was made. */
  predicate FinishedByHand(r: Repo, ref: Commit, list: seq<Commit>) {
    && r.journal.Record? && r.journal.p.ref == ref
    && r.journal.p.stopped.Some? && r.journal.p.stopped.value in list
    && r.head != r.journal.p.onto && Ancestor(r.journal.p.onto, r.head) && |Range(r.journal.p.onto, r.head)| == 1
  }

  /** There is a well signed commit on the history that is `h` but for its
      signature. */
  predicate Stands(h: Commit, after: Commit) {
    exists x :: x in Reach(after) && SameChange(h, x) && Good(x)
  }

  lemma {:induction false} PicksSigned(r: Repo, list: seq<Commit>, i: nat, p: Progress, fates: nat -> Fate, life: nat)
    requires i <= |list|
    ensures var r' := Picks(r, list, i, p, fates, life).0; Ancestor(r.head, r'.head) && AddsOnlyGood(r.head, r'.head)
    decreases |list| - i
  {
    assert r.head in Reach(r.head);
    if i < |list| && life > 0 {
      match Effective(r.head, list[i], fates(i)) {
        case Stops(_) =>
        case Lands =>
          var head := Landed(r.head, list[i]);
          ReachTransitive(r.head, head);
          if life > 1 {
            var p1 := p.(done := Some(list[i]), stopped := None, onto := head);
            var r1 := Save(r.(head := head), p1);
            PicksSigned(r1, list, i + 1, p1, fates, life - 2);
            ReachTransitive(head, Picks(r1, list, i + 1, p1, fates, life - 2).0.head);
          }
        case Drops =>
          if life > 1 {
            var p1 := p.(done := Some(list[i]), stopped := None, onto := r.head);
            PicksSigned(Save(r.(drops := r.drops + {(list[i], r.head)}), p1), list, i + 1, p1, fates, life - 2);
          }
      }
    }
  }

  lemma AmendSigns(h: Commit)
    ensures SameChange(h, Resigned(h)) && Good(Resigned(h))
    ensures forall x :: x in Reach(Resigned(h)) && x != Resigned(h) ==> x in Reach(h)
  {
  }

  /** Whatever becomes of a run, everything it puts on the branch is well signed.
      It only adds to the branch -- except that one commit finished by hand,
      and no other, is replaced by itself with a signature; which is done
      before anything else, in every run that gets as far as one write. */
  lemma RunSigns(r: Repo, ref: Commit, list: seq<Commit>, fates: nat -> Fate, life: nat)
    ensures
      var (r', out) := ReplayRange(r, ref, list, fates, life);
      && AddsOnlyGood(r.head, r'.head)
      && (!FinishedByHand(r, ref, list) ==> Ancestor(r.head, r'.head))
      && (FinishedByHand(r, ref, list) && life > 0 ==> Stands(r.head, r'.head))
      && (FinishedByHand(r, ref, list) && out.Finished? ==> Stands(r.head, r'.head))
  {
    hide Picks, FinishedByHand, AddsOnlyGood, Stands, SameChange;
    var at := ResumePoint(r, ref, list);
    HandIsHand(r, ref, list);
    if r.journal.Unreadable? || (at.handFinished && life == 0) {
      NothingAdded(r.head);
    } else if at.handFinished {
      ResignedAdds(r.head, Resigned(r.head));
      if life > 1 {
        var p := StartProgress(ref, list, at, Resigned(r.head));
        PicksSigned(Save(Resign(r), p), list, at.start, p, fates, life - 2);
        ResignedAdds(r.head, Picks(Save(Resign(r), p), list, at.start, p, fates, life - 2).0.head);
      }
    } else {
      PicksSigned(r, list, at.start, StartProgress(ref, list, at, r.head), fates, life);
    }
  }

  lemma HandIsHand(r: Repo, ref: Commit, list: seq<Commit>)
    ensures ResumePoint(r, ref, list).handFinished <==> FinishedByHand(r, ref, list)
    ensures r.journal.Unreadable? ==> !FinishedByHand(r, ref, list)
  {
  }

  lemma NothingAdded(h: Commit)
    ensures AddsOnlyGood(h, h) && Ancestor(h, h)
  {
  }

  lemma ResignedAdds(h: Commit, after: Commit)
    requires after == Resigned(h) || (Ancestor(Resigned(h), after) && AddsOnlyGood(Resigned(h), after))
    ensures AddsOnlyGood(h, after) && Stands(h, after)
  {
    AmendSigns(h);
    assert Resigned(h) in Reach(after);
    assert forall x :: x in Reach(after) && x !in Reach(h) ==> x in Reach(Resigned(h)) ==> x == Resigned(h);
  }

  /** The checkout as the program works on it. */
  class Checkout {
    var repo: Repo

    constructor (r: Repo)
      ensures repo == r
    {
      repo := r;
    }

    method ResumeAt(ref: Commit, list: seq<Commit>) returns (at: Resume)
      ensures at == ResumePoint(repo, ref, list)
    {
      if !repo.journal.Record? {
        return Resume(0, repo.head, false);
      }
      var p := repo.journal.p;
      if p.ref != ref {
        return Resume(0, repo.head, false);
      }
      if !Ancestor(p.onto, repo.head) {
        return Resume(0, repo.head, false);
      }
      var last, handFinished := p.done, false;
      if p.stopped.Some? && repo.head != p.onto {
        last := p.stopped;
        handFinished := |Range(p.onto, repo.head)| == 1;
      }
      if last.None? {
        return Resume(0, p.base, handFinished);
      }
      for i := 0 to |list|
        invariant last.value !in list[..i]
      {
        if list[i] == last.value {
          assert IndexOf(list, last.value) == i;
          return Resume(i + 1, p.base, handFinished);
        }
      }
      return Resume(0, repo.head, false);
    }

    /** `git cherry-pick --empty=drop -S`. */
    method CherryPick(sha: Commit, fate: Fate) returns (stopped: bool)
      modifies this
      ensures match Effective(old(repo.head), sha, fate)
              case Stops(open) => stopped && repo == (if open then old(repo).(picking := Some(sha)) else old(repo))
              case Lands => !stopped && repo == old(repo).(head := Landed(old(repo.head), sha))
              case Drops => !stopped && repo == old(repo).(drops := old(repo.drops) + {(sha, old(repo.head))})
    {
      match Effective(repo.head, sha, fate) {
        case Stops(open) =>
          if open {
            repo := repo.(picking := Some(sha));
          }
          stopped := true;
        case Lands =>
          repo := repo.(head := Landed(repo.head, sha));
          stopped := false;
        case Drops =>
          repo := repo.(drops := repo.drops + {(sha, repo.head)});
          stopped := false;
      }
    }

    /** The loop over the commits still to pick. */
    method PickFrom(list: seq<Commit>, start: nat, progress: Progress, fates: nat -> Fate, life: nat) returns (o: Outcome)
      requires start <= |list|
      modifies this
      ensures (repo, o) == Picks(old(repo), list, start, progress, fates, life)
    {
      var i, p, left := start, progress, life;
      while i < |list|
        invariant start <= i <= |list| && p.base == progress.base
        invariant Picks(repo, list, i, p, fates, left) == Picks(old(repo), list, start, progress, fates, life)
      {
        if left == 0 {
          return Died;
        }
        var before := repo.head;
        var stopped := CherryPick(list[i], fates(i));
        if left == 1 {
          return Died;
        }
        if stopped {
          p := p.(stopped := Some(list[i]), onto := before);
          repo := Save(repo, p);
          return Stopped;
        }
        p := p.(done := Some(list[i]), stopped := None, onto := repo.head);
        repo := Save(repo, p);
        left := left - 2;
        i := i + 1;
      }
      return Finished(p.base);
    }

    method ReplaySignedRange(ref: Commit, list: seq<Commit>, fates: nat -> Fate, life: nat) returns (o: Outcome)
      modifies this
      ensures (repo, o) == ReplayRange(old(repo), ref, list, fates, life)
      ensures AddsOnlyGood(old(repo.head), repo.head)
      ensures if FinishedByHand(old(repo), ref, list) then o.Finished? || life > 0 ==> Stands(old(repo.head), repo.head)
              else Ancestor(old(repo.head), repo.head)
    {
      RunSigns(repo, ref, list, fates, life);
      hide AddsOnlyGood, FinishedByHand, Stands, Picks;
      if repo.journal.Unreadable? {
        return Refused;
      }
      var left := life;
      var at := ResumeAt(ref, list);
      if at.handFinished {
        if left == 0 {
          return Died;
        }
        repo := Resign(repo);
        left := left - 1;
      }
      var progress := StartProgress(ref, list, at, repo.head);
      if at.handFinished {
        if left == 0 {
          return Died;
        }
        repo := Save(repo, progress);
        left := left - 1;
      }
      o := PickFrom(list, at.start, progress, fates, left);
    }
  }
}

/** What a replay guarantees whatever happened before it: a resumed run skips
    only commits that are on the branch, and a finished run has accounted for
    every commit of its range. */
module ReplayCoverage {
  import opened Options
  import opened Git
  import opened Replay

  /** `c` has been accounted for on the history of `h`: a pick of it is there,
      or picking it was empty against some commit that is there. */
  predicate Covered(c: Commit, h: Commit, drops: set<(Commit, Commit)>) {
    || (exists x :: x in Reach(h) && x.what.Picked? && x.what.orig == c)
    || (exists d :: d in drops && d.0 == c && d.1 in Reach(h))
  }

  /** Covered, or outside what the session has to deliver: `exempt` is
      everything reachable from the commit the session started from. */
  predicate Known(c: Commit, h: Commit, drops: set<(Commit, Commit)>, exempt: set<Commit>) {
    c in exempt || Covered(c, h, drops)
  }

  ghost predicate AllKnown(s: seq<Commit>, h: Commit, drops: set<(Commit, Commit)>, exempt: set<Commit>) {
    forall i :: 0 <= i < |s| ==> Known(s[i], h, drops, exempt)
  }

  predicate Accounted(s: set<Commit>, r: Repo, exempt: set<Commit>) {
    forall c :: c in s ==> Known(c, r.head, r.drops, exempt)
  }

  lemma KnownGrows(c: Commit, h: Commit, h': Commit, drops: set<(Commit, Commit)>, drops': set<(Commit, Commit)>, exempt: set<Commit>)
    requires Known(c, h, drops, exempt) && Ancestor(h, h') && drops <= drops'
    ensures Known(c, h', drops', exempt)
  {
    ReachTransitive(h, h');
  }

  lemma AllKnownGrows(s: seq<Commit>, h: Commit, h': Commit, drops: set<(Commit, Commit)>, drops': set<(Commit, Commit)>, exempt: set<Commit>)
    requires AllKnown(s, h, drops, exempt) && Ancestor(h, h') && drops <= drops'
    ensures AllKnown(s, h', drops', exempt)
  {
    forall i | 0 <= i < |s| ensures Known(s[i], h', drops', exempt) {
      KnownGrows(s[i], h, h', drops, drops', exempt);
    }
  }

  /** Amending HEAD loses nothing: what was accounted for stays so. */
  lemma KnownSurvivesResign(c: Commit, r: Repo, exempt: set<Commit>)
    requires Known(c, r.head, r.drops, exempt)
    ensures Known(c, Resign(r).head, Resign(r).drops, exempt)
  {
    var r' := Resign(r);
    if c !in exempt {
      if x :| x in Reach(r.head) && x.what.Picked? && x.what.orig == c {
        assert (if x == r.head then r'.head else x) in Reach(r'.head);
      } else {
        var d :| d in r.drops && d.0 == c && d.1 in Reach(r.head);
        if d.1 == r.head {
          assert (c, r'.head) in r'.drops;
        } else {
          assert d in r'.drops && d.1 in Reach(r'.head);
        }
      }
    }
  }

  // ----- the range a run works through -----

  ghost predicate NoDuplicates(s: seq<Commit>) {
    forall i, j :: 0 <= i < j < |s| ==> s[i] != s[j]
  }

  /** The range's commits in order: those of `o` that `skip` does not hold. */
  function Select(o: seq<Commit>, skip: set<Commit>): seq<Commit> {
    if o == [] then []
    else if o[0] in skip then Select(o[1..], skip)
    else [o[0]] + Select(o[1..], skip)
  }

  lemma {:induction false} SelectMember(o: seq<Commit>, skip: set<Commit>, c: Commit)
    ensures c in Select(o, skip) <==> c in o && c !in skip
  {
    if o != [] {
      SelectMember(o[1..], skip, c);
    }
  }

  /** Selecting keeps the order: what comes before an element in `o` and is
      not skipped comes before it in the selection. */
  lemma {:induction false} SelectOrder(o: seq<Commit>, skip: set<Commit>, i: nat, k: nat, m: nat)
    requires NoDuplicates(o) && i < |Select(o, skip)|
    requires k < m < |o| && o[m] == Select(o, skip)[i] && o[k] !in skip
    ensures o[k] in Select(o, skip)[..i]
  {
    var rest := Select(o[1..], skip);
    if o[0] in skip {
      assert o[1..][m - 1] == rest[i];
      SelectOrder(o[1..], skip, i, k - 1, m - 1);
    } else if i == 0 {
      assert false;
    } else if k > 0 {
      assert o[1..][m - 1] == rest[i - 1];
      SelectOrder(o[1..], skip, i - 1, k - 1, m - 1);
      assert Select(o, skip)[..i] == [o[0]] + rest[..i - 1];
    } else {
      assert Select(o, skip)[..i][0] == o[0];
    }
  }

  lemma {:induction false} SelectOrderBack(o: seq<Commit>, skip: set<Commit>, j: nat, i: nat) returns (k: nat, m: nat)
    requires j < i < |Select(o, skip)|
    ensures k < m < |o| && o[k] == Select(o, skip)[j] && o[m] == Select(o, skip)[i]
  {
    var rest := Select(o[1..], skip);
    if o[0] in skip {
      k, m := SelectOrderBack(o[1..], skip, j, i);
      k, m := k + 1, m + 1;
    } else if j == 0 {
      SelectMember(o[1..], skip, rest[i - 1]);
      var n :| 0 <= n < |o[1..]| && o[1..][n] == rest[i - 1];
      k, m := 0, n + 1;
    } else {
      k, m := SelectOrderBack(o[1..], skip, j - 1, i - 1);
      k, m := k + 1, m + 1;
    }
  }

  // ----- what the journal's words mean -----

  /** Everything listed before `d` is accounted for at `h`. */
  ghost predicate BeforeKnown(o: seq<Commit>, d: Commit, h: Commit, drops: set<(Commit, Commit)>, exempt: set<Commit>) {
    forall k, m :: 0 <= k < m < |o| && o[m] == d ==> Known(o[k], h, drops, exempt)
  }

  /** The journal tells the truth about the commit it was written on. */
  ghost predicate JournalSound(r: Repo, order: Commit -> seq<Commit>, exempt: set<Commit>) {
    r.journal.Record? ==>
      var p := r.journal.p;
      && Ancestor(p.base, p.onto)
      && (p.done.Some? ==> Known(p.done.value, p.onto, r.drops, exempt) && BeforeKnown(order(p.ref), p.done.value, p.onto, r.drops, exempt))
      && (p.stopped.Some? ==> BeforeKnown(order(p.ref), p.stopped.value, p.onto, r.drops, exempt))
  }

  /** While a stopped pick is on record the branch moved forward only by
      finishing it: a branch that has grown past the recorded commit holds
      the stopped one. */
  predicate Honest(r: Repo, exempt: set<Commit>) {
    r.journal.Record? && r.journal.p.stopped.Some? && r.head != r.journal.p.onto && Ancestor(r.journal.p.onto, r.head) ==>
      Known(r.journal.p.stopped.value, r.head, r.drops, exempt)
  }

  /** What a run is called with: `list` is the part of `o` outside `skip`, and
      all of `skip` is accounted for already. */
  ghost predicate RangeReady(r: Repo, o: seq<Commit>, skip: set<Commit>, exempt: set<Commit>) {
    && NoDuplicates(o)
    && forall c :: c in o && c in skip ==> Known(c, r.head, r.drops, exempt)
  }

  lemma BeforeKnownGrows(o: seq<Commit>, d: Commit, h: Commit, h': Commit, drops: set<(Commit, Commit)>, drops': set<(Commit, Commit)>, exempt: set<Commit>)
    requires BeforeKnown(o, d, h, drops, exempt) && Ancestor(h, h') && drops <= drops'
    ensures BeforeKnown(o, d, h', drops', exempt)
  {
    forall k, m | 0 <= k < m < |o| && o[m] == d ensures Known(o[k], h', drops', exempt) {
      KnownGrows(o[k], h, h', drops, drops', exempt);
    }
  }

  lemma JournalSoundGrows(r: Repo, r': Repo, order: Commit -> seq<Commit>, exempt: set<Commit>)
    requires JournalSound(r, order, exempt) && r'.journal == r.journal && r.drops <= r'.drops
    ensures JournalSound(r', order, exempt)
  {
    if r.journal.Record? {
      var p := r.journal.p;
      if p.done.Some? {
        KnownGrows(p.done.value, p.onto, p.onto, r.drops, r'.drops, exempt);
        BeforeKnownGrows(order(p.ref), p.done.value, p.onto, p.onto, r.drops, r'.drops, exempt);
      }
      if p.stopped.Some? {
        BeforeKnownGrows(order(p.ref), p.stopped.value, p.onto, p.onto, r.drops, r'.drops, exempt);
      }
    }
  }

  /** A run over `list` would take a moved HEAD for the stopped commit's, which
      is not there: the user moved the branch on without finishing the pick, or
      a run of another tip died before it could say what it had picked. */
  predicate Misled(r: Repo, ref: Commit, list: seq<Commit>, exempt: set<Commit>) {
    && r.journal.Record? && r.journal.p.ref == ref && r.journal.p.stopped.Some?
    && r.head != r.journal.p.onto && Ancestor(r.journal.p.onto, r.head)
    && r.journal.p.stopped.value in list && !Known(r.journal.p.stopped.value, r.head, r.drops, exempt)
  }

  /** `resumeAt` never skips an unlanded commit: everything before the place
      it starts at is on the branch HEAD is on now. */
  lemma ResumeSkipsOnlyKnown(r: Repo, ref: Commit, order: Commit -> seq<Commit>, skip: set<Commit>, exempt: set<Commit>)
    requires JournalSound(r, order, exempt) && RangeReady(r, order(ref), skip, exempt)
    requires !Misled(r, ref, Select(order(ref), skip), exempt)
    ensures
      var list := Select(order(ref), skip);
      var at := ResumePoint(r, ref, list);
      AllKnown(list[..at.start], r.head, r.drops, exempt) && Ancestor(at.base, r.head)
  {
    var o := order(ref);
    var list := Select(o, skip);
    var at := ResumePoint(r, ref, list);
    if at.start > 0 {
      var p := r.journal.p;
      var last := LastKnown(p, r.head).value;
      BeforeKnownGrows(o, last, p.onto, r.head, r.drops, r.drops, exempt);
      if last == p.done.GetOr(last) && p.done.Some? {
        KnownGrows(last, p.onto, r.head, r.drops, r.drops, exempt);
      }
      forall j | 0 <= j < at.start ensures Known(list[j], r.head, r.drops, exempt) {
        if j < at.start - 1 {
          var k, m := SelectOrderBack(o, skip, j, at.start - 1);
        }
      }
    }
    if r.journal.Record? && Ancestor(r.journal.p.onto, r.head) {
      ReachTransitive(r.journal.p.onto, r.head);
    }
  }

  // ----- one run -----

  /** The first pick of a run may land without the journal saying so yet. */
  ghost predicate HonestAfterFirst(r: Repo, list: seq<Commit>, i: nat, exempt: set<Commit>) {
    i < |list| ==> Honest(r.(head := Landed(r.head, list[i])), exempt)
  }

  lemma BeforeCurrent(o: seq<Commit>, skip: set<Commit>, i: nat, h: Commit, drops: set<(Commit, Commit)>, exempt: set<Commit>)
    requires NoDuplicates(o) && i < |Select(o, skip)|
    requires AllKnown(Select(o, skip)[..i], h, drops, exempt)
    requires forall c :: c in o && c in skip ==> Known(c, h, drops, exempt)
    ensures BeforeKnown(o, Select(o, skip)[i], h, drops, exempt)
  {
    forall k, m | 0 <= k < m < |o| && o[m] == Select(o, skip)[i] ensures Known(o[k], h, drops, exempt) {
      if o[k] !in skip {
        SelectOrder(o, skip, i, k, m);
      }
    }
  }

  /** The run's own state at position `i`. */
  ghost predicate Underway(r: Repo, order: Commit -> seq<Commit>, ref: Commit, skip: set<Commit>, i: nat, p: Progress, exempt: set<Commit>) {
    && i <= |Select(order(ref), skip)|
    && p.ref == ref && Ancestor(p.base, r.head)
    && RangeReady(r, order(ref), skip, exempt)
    && AllKnown(Select(order(ref), skip)[..i], r.head, r.drops, exempt)
    && (p.done.Some? ==> Known(p.done.value, r.head, r.drops, exempt) && BeforeKnown(order(ref), p.done.value, r.head, r.drops, exempt))
    && p.stopped.None?
    && JournalSound(r, order, exempt)
  }

  /** The commit at position `i` has been dealt with and the journal saved. */
  function Advanced(r: Repo, list: seq<Commit>, i: nat, p: Progress, land: bool): (Repo, Progress)
    requires i < |list|
  {
    var r1 := if land then r.(head := Landed(r.head, list[i])) else r.(drops := r.drops + {(list[i], r.head)});
    var p1 := p.(done := Some(list[i]), stopped := None, onto := r1.head);
    (Save(r1, p1), p1)
  }

  lemma AdvanceKeeps(r: Repo, order: Commit -> seq<Commit>, ref: Commit, skip: set<Commit>, i: nat, p: Progress, land: bool, exempt: set<Commit>)
    requires Underway(r, order, ref, skip, i, p, exempt) && i < |Select(order(ref), skip)|
    ensures
      var (r1, p1) := Advanced(r, Select(order(ref), skip), i, p, land);
      Underway(r1, order, ref, skip, i + 1, p1, exempt) && Honest(r1, exempt) && Ancestor(r.head, r1.head) && r.drops <= r1.drops
  {
    var o := order(ref);
    var list := Select(o, skip);
    var (r1, p1) := Advanced(r, list, i, p, land);
    assert Ancestor(r.head, r1.head) && Ancestor(p.base, r1.head) by {
      assert r.head in Reach(r.head);
      ReachTransitive(r.head, r1.head);
    }
    AllKnownGrows(list[..i], r.head, r1.head, r.drops, r1.drops, exempt);
    assert Known(list[i], r1.head, r1.drops, exempt) by {
      if land {
        assert r1.head in Reach(r1.head);
      } else {
        assert (list[i], r.head) in r1.drops && r.head in Reach(r.head);
      }
    }
    assert list[..i + 1] == list[..i] + [list[i]];
    forall c | c in o && c in skip ensures Known(c, r1.head, r1.drops, exempt) {
      KnownGrows(c, r.head, r1.head, r.drops, r1.drops, exempt);
    }
    BeforeCurrent(o, skip, i, r1.head, r1.drops, exempt);
  }

  lemma {:induction false} PicksKeep(r: Repo, order: Commit -> seq<Commit>, ref: Commit, skip: set<Commit>, i: nat, p: Progress, fates: nat -> Fate, life: nat, exempt: set<Commit>)
    requires Underway(r, order, ref, skip, i, p, exempt)
    ensures
      var list := Select(order(ref), skip);
      var (r', out) := Picks(r, list, i, p, fates, life);
      && JournalSound(r', order, exempt)
      && Ancestor(r.head, r'.head) && r.drops <= r'.drops
      && (Honest(r, exempt) && (HonestAfterFirst(r, list, i, exempt) || r'.journal != r.journal || r'.head == r.head) ==> Honest(r', exempt))
      && (out.Finished? ==> out.base == p.base && AllKnown(list, r'.head, r'.drops, exempt))
    decreases |Select(order(ref), skip)| - i
  {
    var o := order(ref);
    var list := Select(o, skip);
    var (r', out) := Picks(r, list, i, p, fates, life);
    if i == |list| {
      assert list[..i] == list;
    } else if life > 0 {
      var fate := Effective(r.head, list[i], fates(i));
      if fate.Stops? {
        BeforeCurrent(o, skip, i, r.head, r.drops, exempt);
      } else if life == 1 {
        JournalSoundGrows(r, r', order, exempt);
      } else {
        var (r1, p1) := Advanced(r, list, i, p, fate.Lands?);
        AdvanceKeeps(r, order, ref, skip, i, p, fate.Lands?, exempt);
        PicksKeep(r1, order, ref, skip, i + 1, p1, fates, life - 2, exempt);
        ReachTransitive(r1.head, r'.head);
      }
    }
  }

  /** The window the journal leaves open: a record of a stopped pick is on
      disk, HEAD is where that record was made, and this run picks some other
      commit first. Until its first save the branch looks resolved. */
  predicate TrackAtRisk(r: Repo, ref: Commit, list: seq<Commit>) {
    && r.journal.Record? && r.journal.p.stopped.Some? && r.head == r.journal.p.onto
    && var at := ResumePoint(r, ref, list);
       at.start < |list| && list[at.start] != r.journal.p.stopped.value
  }

  /** The run died inside that window. */
  predicate LosesTrack(r: Repo, ref: Commit, list: seq<Commit>, r': Repo) {
    TrackAtRisk(r, ref, list) && r'.journal == r.journal && r'.head != r.head
  }

  /** And the commit it lost track of never landed. */
  predicate Misleads(r: Repo, ref: Commit, list: seq<Commit>, r': Repo, exempt: set<Commit>) {
    LosesTrack(r, ref, list, r') && !Known(r.journal.p.stopped.value, r'.head, r'.drops, exempt)
  }

  /** A run that has nothing to amend starts from a sound position. */
  lemma PlainStart(r: Repo, order: Commit -> seq<Commit>, ref: Commit, skip: set<Commit>, exempt: set<Commit>)
    requires JournalSound(r, order, exempt) && RangeReady(r, order(ref), skip, exempt)
    requires !Misled(r, ref, Select(order(ref), skip), exempt)
    ensures
      var list := Select(order(ref), skip);
      var at := ResumePoint(r, ref, list);
      Underway(r, order, ref, skip, at.start, StartProgress(ref, list, at, r.head), exempt)
  {
    var o := order(ref);
    var list := Select(o, skip);
    var at := ResumePoint(r, ref, list);
    ResumeSkipsOnlyKnown(r, ref, order, skip, exempt);
    if at.start > 0 {
      assert list[..at.start][..at.start - 1] == list[..at.start - 1];
      assert list[..at.start][at.start - 1] == list[at.start - 1];
      BeforeCurrent(o, skip, at.start - 1, r.head, r.drops, exempt);
    }
  }

  /** Amending a hand-finished HEAD and saving leaves a sound position too. */
  lemma HandFinishedStart(r: Repo, order: Commit -> seq<Commit>, ref: Commit, skip: set<Commit>, exempt: set<Commit>)
    requires JournalSound(r, order, exempt) && RangeReady(r, order(ref), skip, exempt)
    requires !Misled(r, ref, Select(order(ref), skip), exempt)
    requires ResumePoint(r, ref, Select(order(ref), skip)).handFinished
    ensures
      var list := Select(order(ref), skip);
      var at := ResumePoint(r, ref, list);
      var r1 := Resign(r);
      var p := StartProgress(ref, list, at, r1.head);
      && Underway(Save(r1, p), order, ref, skip, at.start, p, exempt)
      && JournalSound(r1, order, exempt) && (Honest(r, exempt) ==> Honest(r1, exempt))
      && Ancestor(at.base, r.head)
      && SameChange(r.head, r1.head) && Good(r1.head)
  {
    var o := order(ref);
    var list := Select(o, skip);
    var at := ResumePoint(r, ref, list);
    var r1 := Resign(r);
    AmendSigns(r.head);
    var p := r.journal.p;
    PlainStart(r, order, ref, skip, exempt);
    forall c | Known(c, r.head, r.drops, exempt) ensures Known(c, r1.head, r1.drops, exempt) {
      KnownSurvivesResign(c, r, exempt);
    }
    JournalSoundGrows(r, r1, order, exempt);
    assert Ancestor(at.base, r1.head) by {
      ReachTransitive(p.base, p.onto);
      assert p.onto in Reach(r.head) && p.onto != r.head;
      var q :| q in r.head.parents && p.onto in Reach(q);
      assert p.onto in Reach(r1.head);
      ReachTransitive(p.onto, r1.head);
      ReachTransitive(p.onto, r.head);
    }
    assert r1.head in Reach(r1.head);
  }

  /** What a run leaves behind. */
  ghost predicate Covers(r: Repo, order: Commit -> seq<Commit>, ref: Commit, skip: set<Commit>, r': Repo, out: Outcome, exempt: set<Commit>) {
    var list := Select(order(ref), skip);
    && JournalSound(r', order, exempt)
    && (Honest(r, exempt) && !LosesTrack(r, ref, list, r') ==> Honest(r', exempt))
    && (Ancestor(r.head, r'.head) || (ResumePoint(r, ref, list).handFinished && Ancestor(Resigned(r.head), r'.head)))
    && r.drops <= r'.drops
    && (out.Finished? ==>
          && (forall c :: c in order(ref) ==> Known(c, r'.head, r'.drops, exempt))
          && Ancestor(out.base, r.head) && Ancestor(out.base, r'.head))
  }

  lemma RangeKnown(o: seq<Commit>, skip: set<Commit>, r: Repo, r': Repo, exempt: set<Commit>)
    requires RangeReady(r, o, skip, exempt) && Ancestor(r.head, r'.head) && r.drops <= r'.drops
    requires AllKnown(Select(o, skip), r'.head, r'.drops, exempt)
    ensures forall c :: c in o ==> Known(c, r'.head, r'.drops, exempt)
  {
    forall c | c in o ensures Known(c, r'.head, r'.drops, exempt) {
      if c in skip {
        KnownGrows(c, r.head, r'.head, r.drops, r'.drops, exempt);
      } else {
        SelectMember(o, skip, c);
      }
    }
  }

  lemma PlainRunCovers(r: Repo, order: Commit -> seq<Commit>, ref: Commit, skip: set<Commit>, fates: nat -> Fate, life: nat, exempt: set<Commit>)
    requires JournalSound(r, order, exempt) && RangeReady(r, order(ref), skip, exempt)
    requires !Misled(r, ref, Select(order(ref), skip), exempt)
    requires !r.journal.Unreadable? && !ResumePoint(r, ref, Select(order(ref), skip)).handFinished
    ensures
      var (r', out) := ReplayRange(r, ref, Select(order(ref), skip), fates, life);
      Covers(r, order, ref, skip, r', out, exempt)
  {
    var list := Select(order(ref), skip);
    var (r', out) := ReplayRange(r, ref, list, fates, life);
    var at := ResumePoint(r, ref, list);
    ResumeSkipsOnlyKnown(r, ref, order, skip, exempt);
    PlainStart(r, order, ref, skip, exempt);
    PicksKeep(r, order, ref, skip, at.start, StartProgress(ref, list, at, r.head), fates, life, exempt);
    if out.Finished? {
      RangeKnown(order(ref), skip, r, r', exempt);
      ReachTransitive(r.head, r'.head);
    } else if r'.journal == r.journal && r'.head == r.head {
    }
  }

  /** The amend has been made and saved; the picks follow. */
  lemma ResignedRunCovers(r: Repo, order: Commit -> seq<Commit>, ref: Commit, skip: set<Commit>, fates: nat -> Fate, life: nat, exempt: set<Commit>)
    requires JournalSound(r, order, exempt) && RangeReady(r, order(ref), skip, exempt)
    requires !Misled(r, ref, Select(order(ref), skip), exempt)
    requires ResumePoint(r, ref, Select(order(ref), skip)).handFinished
    ensures
      var list := Select(order(ref), skip);
      var at := ResumePoint(r, ref, list);
      var p := StartProgress(ref, list, at, Resigned(r.head));
      var (r', out) := Picks(Save(Resign(r), p), list, at.start, p, fates, life);
      Covers(r, order, ref, skip, r', out, exempt)
  {
    var list := Select(order(ref), skip);
    var at := ResumePoint(r, ref, list);
    var p := StartProgress(ref, list, at, Resigned(r.head));
    var r0 := Save(Resign(r), p);
    var (r', out) := Picks(r0, list, at.start, p, fates, life);
    HandFinishedStart(r, order, ref, skip, exempt);
    PicksKeep(r0, order, ref, skip, at.start, p, fates, life, exempt);
    assert HonestAfterFirst(r0, list, at.start, exempt);
    if out.Finished? {
      RangeKnown(order(ref), skip, r0, r', exempt);
      ReachTransitive(p.base, r0.head);
      ReachTransitive(r0.head, r'.head);
    }
  }

  /** Dying before or right after the amend. */
  lemma HandDeathCovers(r: Repo, order: Commit -> seq<Commit>, ref: Commit, skip: set<Commit>, exempt: set<Commit>)
    requires JournalSound(r, order, exempt) && RangeReady(r, order(ref), skip, exempt)
    requires !Misled(r, ref, Select(order(ref), skip), exempt)
    requires ResumePoint(r, ref, Select(order(ref), skip)).handFinished
    ensures Covers(r, order, ref, skip, r, Died, exempt)
    ensures Covers(r, order, ref, skip, Resign(r), Died, exempt)
  {
    HandFinishedStart(r, order, ref, skip, exempt);
    assert r.head in Reach(r.head) && Resigned(r.head) in Reach(Resigned(r.head));
  }

  /** One run, from any state with a truthful journal, with any outcome of
      every pick and dying at any point: the journal stays truthful, the
      branch only gains commits (except that a hand-finished HEAD may be
      amended), and finishing means every commit the session has to deliver
      is accounted for on the branch. */
  lemma RunCovers(r: Repo, order: Commit -> seq<Commit>, ref: Commit, skip: set<Commit>, fates: nat -> Fate, life: nat, exempt: set<Commit>)
    requires JournalSound(r, order, exempt) && RangeReady(r, order(ref), skip, exempt)
    requires !Misled(r, ref, Select(order(ref), skip), exempt)
    ensures
      var (r', out) := ReplayRange(r, ref, Select(order(ref), skip), fates, life);
      Covers(r, order, ref, skip, r', out, exempt)
  {
    if r.journal.Unreadable? {
      assert r.head in Reach(r.head);
    } else if ResumePoint(r, ref, Select(order(ref), skip)).handFinished {
      HandDeathCovers(r, order, ref, skip, exempt);
      if life > 1 {
        ResignedRunCovers(r, order, ref, skip, fates, life - 2, exempt);
      }
    } else {
      PlainRunCovers(r, order, ref, skip, fates, life, exempt);
    }
  }

  /** Exactly when a run leaves an untrue journal: when it dies in that window
      and the stopped commit is not on the branch it leaves behind. */
  lemma TrackLostExactly(r: Repo, order: Commit -> seq<Commit>, ref: Commit, skip: set<Commit>, fates: nat -> Fate, life: nat, exempt: set<Commit>)
    requires JournalSound(r, order, exempt) && Honest(r, exempt) && RangeReady(r, order(ref), skip, exempt)
    ensures
      var list := Select(order(ref), skip);
      var r' := ReplayRange(r, ref, list, fates, life).0;
      Honest(r', exempt) <==> !Misleads(r, ref, list, r', exempt)
  {
    RunCovers(r, order, ref, skip, fates, life, exempt);
  }

  // ----- what a run adds -----

  /** `b` has nothing that `a` did not have but picks and drops of the list. */
  ghost predicate Adds(a: Repo, list: seq<Commit>, b: Repo) {
    && Ancestor(a.head, b.head) && a.drops <= b.drops
    && (forall x :: x in Reach(b.head) ==> x in Reach(a.head) || (x.what.Picked? && x.what.orig in list))
    && (forall d :: d in b.drops ==> d in a.drops || d.0 in list)
  }

  lemma AddsTransitive(a: Repo, list: seq<Commit>, b: Repo, c: Repo)
    requires Adds(a, list, b) && Adds(b, list, c)
    ensures Adds(a, list, c)
  {
    ReachTransitive(a.head, b.head);
    ReachTransitive(b.head, c.head);
  }

  lemma AdvanceAdds(r: Repo, list: seq<Commit>, i: nat, p: Progress, land: bool)
    requires i < |list|
    ensures Adds(r, list, Advanced(r, list, i, p, land).0)
  {
    assert r.head in Reach(r.head);
  }

  lemma {:induction false} PicksAdd(r: Repo, list: seq<Commit>, i: nat, p: Progress, fates: nat -> Fate, life: nat)
    requires i <= |list|
    ensures Adds(r, list, Picks(r, list, i, p, fates, life).0)
    decreases |list| - i
  {
    if i < |list| && life > 0 && !Effective(r.head, list[i], fates(i)).Stops? {
      var (r1, p1) := Advanced(r, list, i, p, Effective(r.head, list[i], fates(i)).Lands?);
      AdvanceAdds(r, list, i, p, Effective(r.head, list[i], fates(i)).Lands?);
      if life > 1 {
        PicksAdd(r1, list, i + 1, p1, fates, life - 2);
        hide Adds;
        AddsTransitive(r, list, r1, Picks(r1, list, i + 1, p1, fates, life - 2).0);
      }
    } else {
      assert r.head in Reach(r.head);
    }
  }

  /** No pick was found empty on a line of history that HEAD has left. */
  predicate Settled(r: Repo) {
    forall d :: d in r.drops ==> d.1 in Reach(r.head)
  }

  lemma AddsKnown(a: Repo, list: seq<Commit>, b: Repo, c: Commit, exempt: set<Commit>)
    requires Adds(a, list, b)
    ensures Known(c, a.head, a.drops, exempt) ==> Known(c, b.head, b.drops, exempt)
    ensures c !in list && Settled(a) && Known(c, b.head, b.drops, exempt) ==> Known(c, a.head, a.drops, exempt)
  {
    if Known(c, a.head, a.drops, exempt) {
      KnownGrows(c, a.head, b.head, a.drops, b.drops, exempt);
    }
  }

  /** The amended HEAD is a pick of what HEAD was a pick of. */
  lemma ResignAdds(r: Repo, c: Commit, exempt: set<Commit>)
    requires Settled(r) && Known(c, Resign(r).head, Resign(r).drops, exempt)
    ensures Known(c, r.head, r.drops, exempt)
  {
    assert r.head in Reach(r.head);
    if c !in exempt {
      if x :| x in Reach(Resigned(r.head)) && x.what.Picked? && x.what.orig == c {
        assert (if x == Resigned(r.head) then r.head else x) in Reach(r.head);
      }
    }
  }

  lemma ResignedAddsKnown(r: Repo, p: Progress, list: seq<Commit>, b: Repo, c: Commit, exempt: set<Commit>)
    requires Adds(Save(Resign(r), p), list, b) && c !in list && Settled(r) && Known(c, b.head, b.drops, exempt)
    ensures Known(c, r.head, r.drops, exempt)
  {
    var r0 := Save(Resign(r), p);
    if c !in exempt {
      if x :| x in Reach(b.head) && x.what.Picked? && x.what.orig == c {
        assert x in Reach(r0.head);
        ResignAdds(r, c, exempt);
      } else {
        var d :| d in b.drops && d.0 == c && d.1 in Reach(b.head);
        assert d in r0.drops;
      }
    }
  }

  /** A run accounts for nothing that is not in its list, and undoes nothing
      that was accounted for. */
  lemma RunAdds(r: Repo, ref: Commit, list: seq<Commit>, fates: nat -> Fate, life: nat, c: Commit, exempt: set<Commit>)
    ensures
      var r' := ReplayRange(r, ref, list, fates, life).0;
      && (Known(c, r.head, r.drops, exempt) ==> Known(c, r'.head, r'.drops, exempt))
      && (c !in list && Settled(r) && Known(c, r'.head, r'.drops, exempt) ==> Known(c, r.head, r.drops, exempt))
  {
    hide Known, Settled, Adds, Picks, ResumePoint, Resign;
    var at := ResumePoint(r, ref, list);
    var r' := ReplayRange(r, ref, list, fates, life).0;
    if at.handFinished && !r.journal.Unreadable? && life > 0 {
      if Known(c, r.head, r.drops, exempt) {
        KnownSurvivesResign(c, r, exempt);
      }
      if life == 1 {
        if Settled(r) && Known(c, r'.head, r'.drops, exempt) {
          ResignAdds(r, c, exempt);
        }
      } else {
        var p := StartProgress(ref, list, at, Resign(r).head);
        PicksAdd(Save(Resign(r), p), list, at.start, p, fates, life - 2);
        AddsKnown(Save(Resign(r), p), list, r', c, exempt);
        if c !in list && Settled(r) && Known(c, r'.head, r'.drops, exempt) {
          ResignedAddsKnown(r, p, list, r', c, exempt);
        }
      }
    } else if !r.journal.Unreadable? && !at.handFinished {
      PicksAdd(r, list, at.start, StartProgress(ref, list, at, r.head), fates, life);
      AddsKnown(r, list, r', c, exempt);
    }
  }
}

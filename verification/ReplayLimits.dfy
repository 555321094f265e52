/** Where the replay's guarantees end, each with a run that crosses the line. */
module ReplayLimits {
  import opened Options
  import opened Git
  import opened Replay
  import opened ReplayCoverage
  import opened ReplayOnce
  import opened Retirement
  import opened RetirementInvariant
  import opened MergeCheck
  import opened World

  const ROOT := Commit([], Authored(0, true))

  /** Two commits of a session that starts from `ROOT`. */
  const FIRST := Commit([ROOT], Authored(1, false))
  const SECOND := Commit([FIRST], Authored(2, false))

  /** A commit the user makes on the destination branch. */
  const USERS := Commit([ROOT], Authored(9, false))

  /** Exactly when reading a moved HEAD as "resolved" is right. A record that
      says a pick stopped, on a branch that has since grown, makes the run
      start after that pick; what it skips is all on the branch if and only if
      the stopped commit itself is. */
  lemma MovedHeadReadAsResolved(r: Repo, ref: Commit, order: Commit -> seq<Commit>, skip: set<Commit>, exempt: set<Commit>)
    requires JournalSound(r, order, exempt) && RangeReady(r, order(ref), skip, exempt) && OurRecord(r, ref)
    requires r.journal.p.stopped.Some? && r.journal.p.stopped.value in Select(order(ref), skip)
    requires r.head != r.journal.p.onto && Ancestor(r.journal.p.onto, r.head)
    ensures
      var list := Select(order(ref), skip);
      var at := ResumePoint(r, ref, list);
      && at.start == IndexOf(list, r.journal.p.stopped.value) + 1
      && (AllKnown(list[..at.start], r.head, r.drops, exempt) <==> Known(r.journal.p.stopped.value, r.head, r.drops, exempt))
  {
    var list := Select(order(ref), skip);
    var at := ResumePoint(r, ref, list);
    assert list[..at.start][at.start - 1] == r.journal.p.stopped.value;
    if Known(r.journal.p.stopped.value, r.head, r.drops, exempt) {
      ResumeSkipsOnlyKnown(r, ref, order, skip, exempt);
    }
  }

  /** The user aborts a stopped pick and commits something else: the next run
      skips the commit that never landed, and amends the user's own. */
  lemma CommitAfterAbortIsSkipped()
    ensures
      var r := Repo(USERS, Record(Progress(FIRST, ROOT, None, Some(FIRST), ROOT)), None, {});
      ResumePoint(r, FIRST, [FIRST]) == Resume(1, ROOT, true) && !Known(FIRST, r.head, r.drops, Reach(ROOT))
  {
    OneStep(USERS, ROOT);
    assert IndexOf([FIRST], FIRST) == 0;
  }

  /** A stopped pick for one tip is on record; a run for another tip lands its
      first commit and dies before saving: that run misleads. Should the tip go
      back, the first tip's stopped commit is skipped though it never landed. */
  lemma DyingAtRiskMisleads(fates: nat -> Fate)
    requires fates(0) == Lands
    ensures
      var r := Repo(ROOT, Record(Progress(FIRST, ROOT, None, Some(FIRST), ROOT)), None, {});
      var other := Commit([ROOT], Authored(3, false));
      var r' := ReplayRange(r, other, [other], fates, 1).0;
      && Misleads(r, other, [other], r', Reach(ROOT))
      && ResumePoint(r', FIRST, [FIRST]).start == 1
      && !Known(FIRST, r'.head, r'.drops, Reach(ROOT))
  {
    var r := Repo(ROOT, Record(Progress(FIRST, ROOT, None, Some(FIRST), ROOT)), None, {});
    var other := Commit([ROOT], Authored(3, false));
    var head := Landed(ROOT, other);
    assert ResumePoint(r, other, [other]) == Resume(0, ROOT, false);
    assert ReplayRange(r, other, [other], fates, 1).0 == r.(head := head);
    OneStep(head, ROOT);
    assert IndexOf([FIRST], FIRST) == 0;
  }

  /** Dying between a conflict and its record leaves an open pick on which
      `--continue` is not safe. */
  lemma ConflictWithoutRecord(stops: nat -> Fate, signed: bool)
    requires stops(0) == Stops(true)
    ensures
      var r := Steps(Repo(ROOT, NoFile, None, {}), [RunMerge(stops, 1)], FIRST, [FIRST]);
      r.picking.Some? && !Recorded(r, ContinuePick(signed), FIRST)
  {
    var r := Repo(ROOT, NoFile, None, {});
    assert Step(r, RunMerge(stops, 1), FIRST, [FIRST]) == r.(picking := Some(FIRST));
  }

  /** An earlier check has fetched FIRST. Now its tip is read again, then the
      agent rewinds its branch, then the fetch runs: what was read counts as
      arrived, because it is here already. The fetched range is empty, so the
      check passes with nothing replayed, and the tip it accepts is overlooked.
      Had FIRST not been here, the fetch would have been refused. */
  lemma RewoundFetchPasses(st: State, order: Commit -> seq<Commit>, rewinds: Fortune, f: Fortune)
    requires st.remote == Remote(true, FIRST, false) && st.local.repo == Repo(ROOT, NoFile, None, {})
    requires Retiring(st) && st.sess.value.retirement.value.op.Merge? && !st.sess.value.retirement.value.phase.Removing?
    requires rewinds.agent == Sets(ROOT, false) && !f.fails
    ensures
      var held := Fetched(st);
      var rewound := Drifted(held, rewinds);
      var a := Acceptance(Sha(FIRST), Sha(ROOT), Sha(ROOT));
      && Granted(held, Reads, f, order) && held.remote.tip == FIRST
      && Granted(rewound, Fetches(0, FIRST), f, order) && rewound.remote.tip == ROOT
      && Replayed(Fetched(rewound).local.repo, order, ROOT, ROOT, FIRST, f.fates, f.life) == (st.local.repo, Some(Evidence(a, {})))
      && Overlooks(Fetched(rewound), rewound.sess.value.retirement.value, a, ROOT, ROOT)
      && !Accounted(Reach(FIRST), st.local.repo, Reach(ROOT))
    ensures FIRST !in st.local.objects ==> !Granted(Drifted(st, rewinds), Fetches(0, FIRST), f, order)
  {
    OneStep(FIRST, ROOT);
    assert FIRST in Reach(FIRST);
    assert Reach(ROOT) == {ROOT};
    assert FIRST in Range(ROOT, FIRST);
  }

  // ----- a replay base older than the last verified head -----

  const LANDED := Landed(ROOT, FIRST)
  const INTERRUPTED := Repo(LANDED, Record(Progress(SECOND, ROOT, Some(FIRST), None, LANDED)), None, {})

  lemma TwoCommits(order: Commit -> seq<Commit>)
    requires order(SECOND) == [ROOT, FIRST, SECOND]
    ensures Select(order(SECOND), Reach(ROOT)) == [FIRST, SECOND] && Range(ROOT, SECOND) != {}
  {
    OneStep(FIRST, ROOT);
    OneStep(SECOND, FIRST);
    assert FIRST in Reach(FIRST) && FIRST in Reach(SECOND);
    assert SECOND !in Reach(ROOT) by {
      ReachTransitive(ROOT, FIRST);
    }
    var o, skip := order(SECOND), Reach(ROOT);
    assert ROOT in skip && FIRST !in skip;
    assert o[1..] == [FIRST, SECOND] && o[1..][1..] == [SECOND] && o[1..][1..][1..] == [];
    assert Select([SECOND], skip) == [SECOND] + Select([], skip) == [SECOND];
    assert Select([FIRST, SECOND], skip) == [FIRST] + Select([SECOND], skip);
    assert Select(o, skip) == Select(o[1..], skip);
  }

  /** A check is interrupted after its first commit; the agent takes its branch
      back, so the next check accepts an empty range on that head; the agent
      returns, and the check after that goes on from the first one's record.
      It passes, with a base older than the head verified before it. */
  lemma BaseMayPredateTheVerifiedHead(order: Commit -> seq<Commit>, fates: nat -> Fate)
    requires order(SECOND) == [ROOT, FIRST, SECOND] && forall n :: fates(n) == Lands
    ensures Replayed(Repo(ROOT, NoFile, None, {}), order, ROOT, SECOND, SECOND, fates, 2) == (INTERRUPTED, None)
    ensures
      Replayed(INTERRUPTED, order, ROOT, ROOT, ROOT, fates, 0)
      == (INTERRUPTED, Some(Evidence(Acceptance(Sha(ROOT), Sha(LANDED), Sha(LANDED)), {})))
    ensures
      var e := Replayed(INTERRUPTED, order, ROOT, SECOND, SECOND, fates, 2).1;
      e.Some? && e.value.a.replayBase == Sha(ROOT) != Sha(LANDED)
  {
    TwoCommits(order);
    Interrupted(fates);
    GoesOn(fates);
    OneStep(LANDED, ROOT);
    OneStep(Landed(LANDED, SECOND), LANDED);
    var head := Landed(LANDED, SECOND);
    assert AllGood(Range(ROOT, head)) by {
      forall c | c in Range(ROOT, head) ensures Good(c) {
        assert c in Reach(LANDED) || c == head;
      }
    }
  }

  lemma Interrupted(fates: nat -> Fate)
    requires forall n :: fates(n) == Lands
    ensures ReplayRange(Repo(ROOT, NoFile, None, {}), SECOND, [FIRST, SECOND], fates, 2) == (INTERRUPTED, Died)
  {
    var r := Repo(ROOT, NoFile, None, {});
    var p := StartProgress(SECOND, [FIRST, SECOND], Resume(0, ROOT, false), ROOT);
    assert Effective(ROOT, FIRST, fates(0)) == Lands;
    assert Picks(r, [FIRST, SECOND], 0, p, fates, 2) == Picks(INTERRUPTED, [FIRST, SECOND], 1, INTERRUPTED.journal.p, fates, 0);
  }

  lemma GoesOn(fates: nat -> Fate)
    requires forall n :: fates(n) == Lands
    ensures
      var (r, out) := ReplayRange(INTERRUPTED, SECOND, [FIRST, SECOND], fates, 2);
      r.head == Landed(LANDED, SECOND) && out == Finished(ROOT)
  {
    OneStep(LANDED, ROOT);
    OneStep(SECOND, FIRST);
    assert LANDED in Reach(LANDED);
    assert IndexOf([FIRST, SECOND], FIRST) == 0;
    assert ResumePoint(INTERRUPTED, SECOND, [FIRST, SECOND]) == Resume(1, ROOT, false);
    var p := StartProgress(SECOND, [FIRST, SECOND], Resume(1, ROOT, false), LANDED);
    assert Effective(LANDED, SECOND, fates(1)) == Lands;
    var p1 := p.(done := Some(SECOND), stopped := None, onto := Landed(LANDED, SECOND));
    assert Picks(INTERRUPTED, [FIRST, SECOND], 1, p, fates, 2)
        == Picks(Save(INTERRUPTED.(head := Landed(LANDED, SECOND)), p1), [FIRST, SECOND], 2, p1, fates, 0);
  }
}

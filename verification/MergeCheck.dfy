/** What a merge check makes of the session's new commits, as a function of
    what it found: the range it works through, the evidence it records, and
    exactly when that evidence says what it is taken to say. */
module MergeCheck {
  import opened Options
  import opened Git
  import opened Replay
  import opened ReplayCoverage
  import opened ReplayOnce
  import opened Retirement
  import opened RetirementInvariant

  datatype Evidence = Evidence(a: Acceptance, signed: set<Commit>)

  /** The range `from..ref` replayed and verified, for a tip read before `ref`
      was fetched. An empty range is not replayed at all. */
  function Replayed(r: Repo, order: Commit -> seq<Commit>, from: Commit, ref: Commit, tip: Commit, fates: nat -> Fate, life: nat): (Repo, Option<Evidence>) {
    if Range(from, ref) == {} then (r, Some(Evidence(Acceptance(Sha(tip), Sha(r.head), Sha(r.head)), {})))
    else
      var (r', out) := ReplayRange(r, ref, Select(order(ref), Reach(from)), fates, life);
      if out.Finished? && AllGood(Range(out.base, r'.head))
      then (r', Some(Evidence(Acceptance(Sha(tip), Sha(out.base), Sha(r'.head)), Range(out.base, r'.head))))
      else (r', None)
  }

  /** A passed check leaves no pick open that was not before. */
  lemma ReplayedLeavesPicking(r: Repo, order: Commit -> seq<Commit>, from: Commit, ref: Commit, tip: Commit, fates: nat -> Fate, life: nat)
    ensures var (r', e) := Replayed(r, order, from, ref, tip, fates, life); e.Some? ==> r'.picking == r.picking
  {
    hide ReplayRange;
    FinishedLeavesPicking(r, ref, Select(order(ref), Reach(from)), fates, life);
  }

  /** A check of `from..ref` would begin a run that is misled. */
  predicate Misguided(r: Repo, order: Commit -> seq<Commit>, from: Commit, ref: Commit, exempt: set<Commit>) {
    Range(from, ref) != {} && Misled(r, ref, Select(order(ref), Reach(from)), exempt)
  }

  /** What a check leaves of a commit that the fetched branch does not hold. */
  lemma BeyondRef(r: Repo, order: Commit -> seq<Commit>, from: Commit, ref: Commit, tip: Commit, fates: nat -> Fate, life: nat, c: Commit, exempt: set<Commit>)
    requires Lists(order) && c in Range(ref, tip)
    ensures
      var r' := Replayed(r, order, from, ref, tip, fates, life).0;
      && (Known(c, r.head, r.drops, exempt) ==> Known(c, r'.head, r'.drops, exempt))
      && (Settled(r) && Known(c, r'.head, r'.drops, exempt) ==> Known(c, r.head, r.drops, exempt))
  {
    hide Known, Settled, ReplayRange;
    SelectMember(order(ref), Reach(from), c);
    RunAdds(r, ref, Select(order(ref), Reach(from)), fates, life, c, exempt);
  }

  /** A passed check has accounted for everything the branch it fetched held;
      so for the tip it accepts if, and on a settled branch only if, the rest of
      that tip -- nothing, unless the agent rewound its branch meanwhile -- was
      accounted for before the check. */
  lemma TipAccountedFor(r: Repo, order: Commit -> seq<Commit>, from: Commit, ref: Commit, tip: Commit, fates: nat -> Fate, life: nat, exempt: set<Commit>)
    requires Lists(order) && JournalSound(r, order, exempt) && Accounted(Reach(from), r, exempt)
    requires !Misguided(r, order, from, ref, exempt)
    ensures
      var (r', e) := Replayed(r, order, from, ref, tip, fates, life);
      e.Some? ==>
        && Accounted(Reach(ref), r', exempt)
        && (Accounted(Range(ref, tip), r, exempt) ==> Accounted(Reach(tip), r', exempt))
        && (Settled(r) ==> (Accounted(Reach(tip), r', exempt) <==> Accounted(Range(ref, tip), r, exempt)))
        && (Ancestor(tip, ref) ==> Accounted(Range(ref, tip), r, exempt))
  {
    if Range(from, ref) == {} {
      assert Reach(ref) <= Reach(from);
    } else {
      RunCovers(r, order, ref, Reach(from), fates, life, exempt);
    }
    forall c | c in Range(ref, tip) {
      BeyondRef(r, order, from, ref, tip, fates, life, c, exempt);
    }
    if Ancestor(tip, ref) {
      ReachTransitive(tip, ref);
    }
  }

  // ----- the base a check reports -----

  /** The run goes on from a record rather than from scratch. */
  predicate Resumes(r: Repo, ref: Commit, list: seq<Commit>) {
    && OurRecord(r, ref) && Ancestor(r.journal.p.onto, r.head)
    && var last := LastKnown(r.journal.p, r.head); last.None? || last.value in list
  }

  lemma {:induction false} PicksReportBase(r: Repo, list: seq<Commit>, i: nat, p: Progress, fates: nat -> Fate, life: nat)
    requires i <= |list|
    ensures var out := Picks(r, list, i, p, fates, life).1; out.Finished? ==> out.base == p.base
    decreases |list| - i
  {
    if i < |list| && life > 1 && !Effective(r.head, list[i], fates(i)).Stops? {
      var (r1, p1) := Advanced(r, list, i, p, Effective(r.head, list[i], fates(i)).Lands?);
      PicksReportBase(r1, list, i + 1, p1, fates, life - 2);
    }
  }

  /** Exactly when the base a finished run reports is the HEAD it found. */
  lemma ReportedBase(r: Repo, ref: Commit, list: seq<Commit>, fates: nat -> Fate, life: nat)
    ensures
      var out := ReplayRange(r, ref, list, fates, life).1;
      out.Finished? ==> (out.base == r.head <==> Resumes(r, ref, list) ==> r.journal.p.base == r.head)
  {
    if !r.journal.Unreadable? {
      var at := ResumePoint(r, ref, list);
      if at.handFinished && life > 1 {
        var p := StartProgress(ref, list, at, Resigned(r.head));
        PicksReportBase(Save(Resign(r), p), list, at.start, p, fates, life - 2);
      } else if !at.handFinished {
        PicksReportBase(r, list, at.start, StartProgress(ref, list, at, r.head), fates, life);
      }
    }
  }

  /** The check goes on from a record of another replay than the one that would
      begin here. */
  predicate GoesOnElsewhere(r: Repo, order: Commit -> seq<Commit>, from: Commit, ref: Commit) {
    Range(from, ref) != {} && Resumes(r, ref, Select(order(ref), Reach(from))) && r.journal.p.base != r.head
  }

  /** Exactly when the replay base a check records is the head it found -- the
      one the last acceptance was verified on. */
  lemma RecordedBase(r: Repo, order: Commit -> seq<Commit>, from: Commit, ref: Commit, tip: Commit, fates: nat -> Fate, life: nat)
    ensures
      var e := Replayed(r, order, from, ref, tip, fates, life).1;
      e.Some? ==> (e.value.a.replayBase == Sha(r.head) <==> !GoesOnElsewhere(r, order, from, ref))
  {
    if Range(from, ref) != {} {
      ReportedBase(r, ref, Select(order(ref), Reach(from)), fates, life);
    }
  }
}

/** What holds of the record and the world together, in every state a session
    can get into, and why each kind of change keeps it. */
module RetirementInvariant {
  import opened Options
  import opened Git
  import opened Replay
  import opened ReplayCoverage
  import opened Retirement

  /** `rev-list` lists every commit reachable from a tip once, always in the
      same order. */
  ghost predicate Lists(order: Commit -> seq<Commit>) {
    forall t :: NoDuplicates(order(t)) && forall c :: c in order(t) <==> c in Reach(t)
  }

  ghost predicate Anchored(r: Repo) {
    r.journal.Record? ==> Ancestor(r.journal.p.base, r.journal.p.onto)
  }

  ghost predicate RepoOk(r: Repo, strayed: bool, base: Commit, order: Commit -> seq<Commit>) {
    && Anchored(r)
    && (!strayed ==> JournalSound(r, order, Reach(base)))
  }

  /** What the cleanup has reported done is done. */
  predicate EffectReal(key: EffectKey, remote: Remote, local: Local) {
    match key
    case RemoteCheckout => !remote.present
    case LocalWorktree => local.worktree.Gone?
    case GitRemote => !local.gitRemote
    case GitBranch => !local.gitBranch
    case ReplayJournal => local.repo.journal.NoFile?
    case _ => true
  }

  predicate AllGone(remote: Remote, local: Local) {
    !remote.present && local.worktree.Gone? && !local.gitRemote && !local.gitBranch && local.repo.journal.NoFile?
  }

  function Last(accepted: seq<Acceptance>): Acceptance
    requires accepted != []
  {
    accepted[|accepted| - 1]
  }

  /** The newest check read the tip when every attachment there is had been
      closed. */
  predicate CheckedClosed(st: State) {
    && st.sess.Some? && st.check.Some?
    && forall a :: a in st.sess.value.attachments ==> a.id in st.check.value.closed
  }

  ghost predicate IntentInv(st: State, r: Intent, base: Commit) {
    && AllGood(r.signed)
    && (r.op.Merge? ==>
          && ChainOk(r.accepted, r.signed, st.local.objects)
          && (!st.strayed ==> Delivered(r.accepted, base, st.local.repo.drops)))
    && (r.op.Delete? && !r.force && !st.strayed ==> Unneeded(r.accepted, st.local.alike))
    && (r.phase.Removing? ==>
          && r.accepted != []
          && (!r.force ==>
                && CheckedClosed(st)
                && (r.op.Merge? ==> st.check.value.tip == Last(r.accepted).tip)))
    && forall k :: IsDone(r, k) ==> EffectReal(k, st.remote, st.local)
  }

  ghost predicate Inv(st: State, base: Commit, order: Commit -> seq<Commit>) {
    && RepoOk(st.local.repo, st.strayed, base, order)
    && match st.sess
       case None => st.receipt.Some? ==> AllGone(st.remote, st.local) && AllGood(st.receipt.value.signed)
       case Some(s) => SessionOk(s) && (s.retirement.Some? ==> IntentInv(st, s.retirement.value, base))
  }

  /** Nothing of the session is lost with its checkout: a merge has every
      commit made since the session started on the user's branch or found empty
      there; a plain delete finds each of them on that branch already. */
  ghost predicate WorkIsHome(st: State, base: Commit) {
    && st.sess.Some? && st.sess.value.retirement.Some?
    && var r := st.sess.value.retirement.value;
       !r.force ==>
         && (r.op.Merge? ==> forall c :: c in Range(base, st.remote.tip) ==> Covered(c, st.local.repo.head, st.local.repo.drops))
         && (r.op.Delete? ==> AllHeld(Reach(st.remote.tip), st.local.repo.head, st.local.alike))
  }

  /** What must be true of the moment a checkout is removed from the instance.
      Unforced, its tip is the one accepted last, read after everything was
      closed, on the head the user's branch still has -- where nobody moves
      that branch during a call. A merge has every commit from the first replay
      base on well signed and the tip itself in the local object store. */
  ghost predicate SafeRemoval(st: State, base: Commit) {
    && st.sess.Some? && st.sess.value.retirement.Some?
    && (!st.strayed ==> WorkIsHome(st, base))
    && var r := st.sess.value.retirement.value;
       !r.force ==>
         && r.accepted != []
         && Last(r.accepted).tip == Sha(st.remote.tip)
         && !st.remote.dirty
         && AllClosesDone(st.sess.value)
         && CheckedClosed(st)
         && Last(r.accepted).verifiedHead == Sha(st.local.repo.head)
         && (r.op.Merge? ==>
               && st.check.value.tip == Sha(st.remote.tip)
               && st.remote.tip in st.local.objects
               && r.accepted[0].replayBase.Sha?
               && AllGood(Range(r.accepted[0].replayBase.c, st.local.repo.head)))
  }

  lemma RemovalIsSafe(st: State, base: Commit, order: Commit -> seq<Commit>)
    requires Inv(st, base, order) && st.sess.Some? && st.sess.value.retirement.Some?
    requires st.sess.value.retirement.value.phase.Removing?
    requires
      var r := st.sess.value.retirement.value;
      && r.accepted != []
      && (!r.force ==>
            && Last(r.accepted).tip == Sha(st.remote.tip) && !st.remote.dirty
            && Last(r.accepted).verifiedHead == Sha(st.local.repo.head))
    ensures SafeRemoval(st, base)
  {
    var r := st.sess.value.retirement.value;
    assert Last(r.accepted) in r.accepted;
    if !r.force && r.op.Merge? && !st.strayed {
      var n := |r.accepted| - 1;
      forall c | c in Range(base, st.remote.tip) ensures Covered(c, st.local.repo.head, st.local.repo.drops) {
        assert c in Reach(r.accepted[n].tip.c);
        assert Known(c, r.accepted[n].verifiedHead.c, st.local.repo.drops, Reach(base));
      }
    }
  }

  // ----- how a session's record may evolve -----

  /** Once anything is accepted the operation is fixed, force only rises, on a
      delete and before removing, and removing is left only by completion. */
  predicate Evolves(a: State, b: State) {
    && (a.sess.None? ==> b.sess.None? && b.receipt == a.receipt)
    && (a.sess.Some? && b.sess.None? ==> b.receipt.Some?)
    && (a.sess.Some? && a.sess.value.retirement.Some? && a.sess.value.retirement.value.accepted != [] ==>
          var r := a.sess.value.retirement.value;
          && (b.sess.None? ==> b.receipt.value.op == r.op)
          && (b.sess.Some? ==>
                && b.sess.value.retirement.Some?
                && var r' := b.sess.value.retirement.value;
                   && r'.op == r.op && r'.accepted != [] && (r.force ==> r'.force)
                   && (r'.force && !r.force ==> r.op.Delete? && !r.phase.Removing?)
                   && (r.phase.Removing? ==> r'.phase.Removing? && r'.accepted == r.accepted)))
  }

  lemma EvolvesTransitive(a: State, b: State, c: State)
    requires Evolves(a, b) && Evolves(b, c)
    ensures Evolves(a, c)
  {
  }

  // ----- changes that may come at any moment -----

  /** What others do while a retirement runs: the agent commits, rewinds or
      edits its checkout, and a client that began attaching reports that it
      did -- which takes no lock. */
  ghost predicate Drift(a: State, b: State) {
    && b == a.(remote := b.remote, sess := b.sess)
    && b.remote.present == a.remote.present
    && (a.sess.None? <==> b.sess.None?)
    && (a.sess.Some? ==>
          && b.sess.value == a.sess.value.(attachments := b.sess.value.attachments)
          && Reported(a.sess.value.attachments, b.sess.value.attachments))
  }

  predicate Reported(a: seq<Attachment>, b: seq<Attachment>) {
    |a| == |b| && forall i :: 0 <= i < |a| ==> b[i].id == a[i].id && (b[i].phase == a[i].phase || b[i].phase.Active?)
  }

  lemma DriftKeeps(a: State, b: State, base: Commit, order: Commit -> seq<Commit>)
    requires Inv(a, base, order) && Drift(a, b)
    ensures Inv(b, base, order) && Evolves(a, b)
  {
    if a.sess.Some? {
      var before, after := a.sess.value.attachments, b.sess.value.attachments;
      forall x | x in after ensures exists y :: y in before && y.id == x.id && (x.phase == y.phase || x.phase.Active?) {
        var i :| 0 <= i < |after| && after[i] == x;
        assert before[i] in before;
      }
    }
  }

  // ----- replays and the user's branch -----

  /** Changes to the user's machine that leave the record alone and undo
      nothing that is done. */
  ghost predicate LocalProgress(a: State, b: State) {
    && b == a.(local := b.local, strayed := b.strayed)
    && a.local.objects <= b.local.objects && b.local.alike == a.local.alike && a.local.repo.drops <= b.local.repo.drops
    && (a.strayed ==> b.strayed)
    && (a.local.worktree.Gone? ==> b.local.worktree.Gone?)
    && (!a.local.gitRemote ==> !b.local.gitRemote) && (!a.local.gitBranch ==> !b.local.gitBranch)
    && (a.sess.None? || (a.sess.value.retirement.Some? && IsDone(a.sess.value.retirement.value, ReplayJournal)) ==>
          b.local.repo.journal == a.local.repo.journal)
  }

  lemma LocalProgressKeeps(a: State, b: State, base: Commit, order: Commit -> seq<Commit>)
    requires Inv(a, base, order) && LocalProgress(a, b) && RepoOk(b.local.repo, b.strayed, base, order)
    ensures Inv(b, base, order) && Evolves(a, b)
  {
    hide Reach, JournalSound, Honest;
    if a.sess.Some? && a.sess.value.retirement.Some? {
      var r := a.sess.value.retirement.value;
    }
  }

  /** Every run keeps the anchors apart from everything else: what it reports
      as its base is on the branch before and after. */
  lemma {:induction false} PicksAnchored(r: Repo, list: seq<Commit>, i: nat, p: Progress, fates: nat -> Fate, life: nat)
    requires i <= |list| && Anchored(r) && Ancestor(p.base, r.head)
    ensures
      var (r', out) := Picks(r, list, i, p, fates, life);
      && Anchored(r') && Ancestor(r.head, r'.head) && r.drops <= r'.drops
      && (out.Finished? ==> out.base == p.base)
    decreases |list| - i
  {
    assert r.head in Reach(r.head);
    if i < |list| && life > 1 && !Effective(r.head, list[i], fates(i)).Stops? {
      var (r1, p1) := Advanced(r, list, i, p, Effective(r.head, list[i], fates(i)).Lands?);
      assert Ancestor(r.head, r1.head);
      ReachTransitive(p.base, r.head);
      ReachTransitive(r.head, r1.head);
      PicksAnchored(r1, list, i + 1, p1, fates, life - 2);
      ReachTransitive(r1.head, Picks(r1, list, i + 1, p1, fates, life - 2).0.head);
    }
  }

  lemma ResignAnchored(r: Repo, ref: Commit, list: seq<Commit>)
    requires Anchored(r) && ResumePoint(r, ref, list).handFinished
    ensures
      var base := ResumePoint(r, ref, list).base;
      Ancestor(base, r.head) && Ancestor(base, Resigned(r.head)) && Anchored(Resign(r)) && r.drops <= Resign(r).drops
  {
    var p := r.journal.p;
    ReachTransitive(p.base, p.onto);
    ReachTransitive(p.onto, r.head);
    if ResumePoint(r, ref, list).base == p.base {
      var q :| q in r.head.parents && p.onto in Reach(q);
      assert p.onto in Reach(Resigned(r.head));
      ReachTransitive(p.onto, Resigned(r.head));
    }
  }

  /** The picks of one run, from a base that is on the branch. */
  lemma AnchoredPicks(r: Repo, list: seq<Commit>, i: nat, p: Progress, fates: nat -> Fate, life: nat)
    requires i <= |list| && Anchored(r) && Ancestor(p.base, r.head)
    ensures
      var (r', out) := Picks(r, list, i, p, fates, life);
      && Anchored(r') && r.drops <= r'.drops
      && (out.Finished? ==> out.base == p.base && Ancestor(p.base, r'.head))
  {
    PicksAnchored(r, list, i, p, fates, life);
    ReachTransitive(p.base, r.head);
    ReachTransitive(r.head, Picks(r, list, i, p, fates, life).0.head);
  }

  lemma RunAnchored(r: Repo, ref: Commit, list: seq<Commit>, fates: nat -> Fate, life: nat)
    requires Anchored(r)
    ensures
      var (r', out) := ReplayRange(r, ref, list, fates, life);
      && Anchored(r') && r.drops <= r'.drops
      && (out.Finished? ==> Ancestor(out.base, r.head) && Ancestor(out.base, r'.head))
  {
    var at := ResumePoint(r, ref, list);
    if !r.journal.Unreadable? && at.handFinished {
      ResignAnchored(r, ref, list);
      if life > 1 {
        var p := StartProgress(ref, list, at, Resigned(r.head));
        AnchoredPicks(Save(Resign(r), p), list, at.start, p, fates, life - 2);
      }
    } else if !r.journal.Unreadable? {
      assert r.head in Reach(r.head);
      if r.journal.Record? && Ancestor(r.journal.p.onto, r.head) {
        ReachTransitive(r.journal.p.onto, r.head);
      }
      AnchoredPicks(r, list, at.start, StartProgress(ref, list, at, r.head), fates, life);
    }
  }

  /** One replay inside a check: the range `from..ref`, where everything up to
      `from` was accounted for before. */
  lemma ReplayKeeps(r: Repo, strayed: bool, base: Commit, order: Commit -> seq<Commit>, from: Commit, ref: Commit, fates: nat -> Fate, life: nat)
    requires Lists(order) && RepoOk(r, strayed, base, order)
    requires !strayed ==> Accounted(Reach(from), r, Reach(base))
    ensures
      var list := Select(order(ref), Reach(from));
      var (r', out) := ReplayRange(r, ref, list, fates, life);
      var strayed' := strayed || Misled(r, ref, list, Reach(base));
      && RepoOk(r', strayed', base, order) && r.drops <= r'.drops
      && (out.Finished? ==>
            && Ancestor(out.base, r.head) && Ancestor(out.base, r'.head)
            && (!strayed' ==> Accounted(Reach(ref), r', Reach(base))))
  {
    var list := Select(order(ref), Reach(from));
    RunAnchored(r, ref, list, fates, life);
    if !strayed && !Misled(r, ref, list, Reach(base)) {
      RunCovers(r, order, ref, Reach(from), fates, life, Reach(base));
    }
  }

  /** On an honest branch no run is misled, and it stays honest unless the run
      dies where it loses track of a stopped pick. */
  lemma HonestReplay(r: Repo, base: Commit, order: Commit -> seq<Commit>, from: Commit, ref: Commit, fates: nat -> Fate, life: nat)
    requires Lists(order) && RepoOk(r, false, base, order) && Honest(r, Reach(base)) && Accounted(Reach(from), r, Reach(base))
    ensures
      var list := Select(order(ref), Reach(from));
      var r' := ReplayRange(r, ref, list, fates, life).0;
      && !Misled(r, ref, list, Reach(base))
      && (Honest(r', Reach(base)) <==> !Misleads(r, ref, list, r', Reach(base)))
  {
    TrackLostExactly(r, order, ref, Reach(from), fates, life, Reach(base));
  }

  // ----- accepting, closing, removing -----

  /** The tip about to be accepted has a commit that the branch as it was
      fetched, `ref`, does not hold, and that is not home either. */
  predicate Overlooks(st: State, r: Intent, a: Acceptance, ref: Commit, base: Commit) {
    a.tip.Sha? &&
    if r.op.Merge? then !Accounted(Range(ref, a.tip.c), st.local.repo, Reach(base))
    else !r.force && !AllHeld(Range(ref, a.tip.c), st.local.repo.head, st.local.alike)
  }

  /** What a passed check has established, of a tip read before `ref` was
      fetched. */
  ghost predicate CheckOk(st: State, r: Intent, a: Acceptance, signed: set<Commit>, ref: Commit, base: Commit) {
    && AllGood(signed)
    && (!r.force ==> a.tip.Sha? && a.verifiedHead == Sha(st.local.repo.head))
    && (r.op.Merge? ==> Tips(r.accepted) && Follows(r.accepted, a, signed, st.local.objects))
    && (!r.force && !st.strayed && !Overlooks(st, r, a, ref, base) ==>
          if r.op.Merge? then Accounted(Reach(a.tip.c), st.local.repo, Reach(base))
          else AllHeld(Reach(a.tip.c), st.local.repo.head, st.local.alike))
  }

  function WithIntent(st: State, r: Intent): State
    requires st.sess.Some?
  {
    st.(sess := Some(st.sess.value.(retirement := Some(r))))
  }

  /** The update that records a passed check. */
  function Accepting(st: State, a: Acceptance, signed: set<Commit>, check: Option<Check>, ref: Commit, phase: Phase, base: Commit): State
    requires st.sess.Some? && st.sess.value.retirement.Some?
  {
    var r := st.sess.value.retirement.value;
    WithIntent(st, Accept(r, a, signed, phase)).(check := check, strayed := st.strayed || Overlooks(st, r, a, ref, base))
  }

  /** The newest check is recorded last, so it is the one removal relies on. */
  lemma AcceptedChain(st: State, r: Intent, a: Acceptance, signed: set<Commit>, ref: Commit, base: Commit)
    requires IntentInv(st, r, base) && CheckOk(st, r, a, signed, ref, base) && r.op.Merge? && !r.force
    ensures
      var all := AppendAcceptance(r.accepted, a);
      && ChainOk(all, r.signed + signed, st.local.objects)
      && (!st.strayed && !Overlooks(st, r, a, ref, base) ==> Delivered(all, base, st.local.repo.drops))
      && all != [] && Last(all).tip == a.tip
  {
    NewestIsLast(r.accepted, a, signed, st.local.objects);
    ChainExtends(r.accepted, a, r.signed, signed, st.local.objects);
    hide Reach, Range, Covered, Known, Overlooks;
    if !st.strayed && !Overlooks(st, r, a, ref, base) {
      DeliveredExtends(r.accepted, a, base, st.local.repo.drops, st.local.repo.drops, signed, st.local.objects);
    }
  }

  lemma AcceptedSigned(st: State, r: Intent, a: Acceptance, signed: set<Commit>, ref: Commit, base: Commit)
    requires IntentInv(st, r, base) && CheckOk(st, r, a, signed, ref, base)
    ensures AllGood(r.signed + signed)
    ensures r.op.Delete? && !r.force && !st.strayed && !Overlooks(st, r, a, ref, base) ==> Unneeded(AppendAcceptance(r.accepted, a), st.local.alike)
  {
    hide ChainOk, Delivered, AppendAcceptance, Held, Overlooks;
    AppendMembers(r.accepted, a);
  }

  /** A check that leads to removing has read the tip with all closed. */
  predicate LeadsTo(s: Session, check: Option<Check>, a: Acceptance, force: bool, phase: Phase)
    requires s.retirement.Some?
  {
    && (!force ==> check.Some? && check.value.tip == a.tip)
    && (phase == Closing
        || (phase == Removing && AllClosesDone(s)
            && (!force ==> forall x :: x in s.attachments ==> x.id in check.value.closed)))
  }

  lemma AcceptKeeps(st: State, a: Acceptance, signed: set<Commit>, check: Option<Check>, ref: Commit, phase: Phase, base: Commit, order: Commit -> seq<Commit>)
    requires Inv(st, base, order) && st.sess.Some? && st.sess.value.retirement.Some?
    requires
      var r := st.sess.value.retirement.value;
      && !r.phase.Removing? && CheckOk(st, r, a, signed, ref, base)
      && LeadsTo(st.sess.value, check, a, r.force, phase)
    ensures
      var st' := Accepting(st, a, signed, check, ref, phase, base);
      Inv(st', base, order) && Evolves(st, st')
  {
    hide ChainOk, Delivered, CheckOk, AppendAcceptance, Held, Overlooks, JournalSound;
    var r := st.sess.value.retirement.value;
    AppendNonempty(r.accepted, a);
    AcceptedSigned(st, r, a, signed, ref, base);
    if r.op.Merge? {
      AcceptedChain(st, r, a, signed, ref, base);
    }
  }

  lemma PauseKeeps(st: State, base: Commit, order: Commit -> seq<Commit>)
    requires Inv(st, base, order) && st.sess.Some? && st.sess.value.retirement.Some?
    ensures
      var st' := WithIntent(st, Pause(st.sess.value.retirement.value));
      Inv(st', base, order) && Evolves(st, st')
  {
  }

  lemma IntendAttachmentKeeps(st: State, id: nat, base: Commit, order: Commit -> seq<Commit>)
    requires Inv(st, base, order) && st.sess.Some? && st.sess.value.retirement.Some?
    requires st.sess.value.retirement.value.phase.Closing?
    ensures
      var st' := WithIntent(st, IntendEffect(st.sess.value.retirement.value, Herdr(id)));
      Inv(st', base, order) && Evolves(st, st')
  {
    IntendKeeps(st.sess.value.retirement.value, Herdr(id));
  }

  lemma CompleteAttachmentKeeps(st: State, id: nat, base: Commit, order: Commit -> seq<Commit>)
    requires Inv(st, base, order) && st.sess.Some? && st.sess.value.retirement.Some?
    requires st.sess.value.retirement.value.phase.Closing? && Herdr(id) in st.sess.value.retirement.value.effects
    ensures
      var st' := st.(sess := Some(CompleteAttachment(st.sess.value, id)));
      Inv(st', base, order) && Evolves(st, st')
  {
    DoneKeeps(st.sess.value.retirement.value, Herdr(id));
  }

  lemma ClosedAreDone(st: State, base: Commit, order: Commit -> seq<Commit>)
    requires Inv(st, base, order) && st.sess.Some? && st.sess.value.retirement.Some?
    requires st.sess.value.retirement.value.phase.Closing?
    ensures forall j :: 0 <= j < |st.sess.value.attachments| && st.sess.value.attachments[j].phase.Closed?
              ==> IsDone(st.sess.value.retirement.value, Herdr(st.sess.value.attachments[j].id))
  {
    hide RepoOk, ChainOk, Delivered;
  }

  lemma FinalCheckKeeps(st: State, base: Commit, order: Commit -> seq<Commit>)
    requires Inv(st, base, order) && st.sess.Some? && st.sess.value.retirement.Some?
    requires st.sess.value.retirement.value.phase.Closing? && AllClosesDone(st.sess.value)
    ensures
      var st' := WithIntent(st, st.sess.value.retirement.value.(phase := FinalCheck));
      Inv(st', base, order) && Evolves(st, st')
  {
  }

  lemma IntendCleanupKeeps(st: State, i: nat, base: Commit, order: Commit -> seq<Commit>)
    requires Inv(st, base, order) && st.sess.Some? && st.sess.value.retirement.Some? && i < |EFFECT_ORDER|
    requires
      var r := st.sess.value.retirement.value;
      r.phase.Removing? && (!r.force ==> forall j :: 0 <= j < i ==> IsDone(r, EFFECT_ORDER[j]))
    ensures
      var st' := WithIntent(st, IntendEffect(st.sess.value.retirement.value, EFFECT_ORDER[i]));
      Inv(st', base, order) && Evolves(st, st')
  {
    hide JournalSound, Honest, Delivered, ChainOk;
    IntendKeeps(st.sess.value.retirement.value, EFFECT_ORDER[i]);
  }

  lemma CleanupDoneKeeps(st: State, key: EffectKey, base: Commit, order: Commit -> seq<Commit>)
    requires Inv(st, base, order) && st.sess.Some? && st.sess.value.retirement.Some?
    requires
      var r := st.sess.value.retirement.value;
      r.phase.Removing? && key in r.effects && EffectReal(key, st.remote, st.local)
    ensures
      var st' := WithIntent(st, MarkDone(st.sess.value.retirement.value, key));
      Inv(st', base, order) && Evolves(st, st')
  {
    hide JournalSound, Honest, Delivered, ChainOk;
    DoneKeeps(st.sess.value.retirement.value, key);
  }

  /** Removing something never undoes what was reported done. */
  ghost predicate Cleanup(a: State, b: State) {
    && b == a.(remote := b.remote, local := b.local)
    && (b.remote.present ==> a.remote.present)
    && (b.remote == a.remote.(present := b.remote.present))
    && b.local == a.local.(repo := b.local.repo, worktree := b.local.worktree, gitRemote := b.local.gitRemote, gitBranch := b.local.gitBranch)
    && (b.local.gitRemote ==> a.local.gitRemote) && (b.local.gitBranch ==> a.local.gitBranch)
    && (b.local.worktree == a.local.worktree || b.local.worktree.Gone?)
    && (b.local.repo == a.local.repo || b.local.repo == a.local.repo.(journal := NoFile))
  }

  lemma CleanupKeeps(a: State, b: State, base: Commit, order: Commit -> seq<Commit>)
    requires Inv(a, base, order) && Cleanup(a, b)
    ensures Inv(b, base, order) && Evolves(a, b)
  {
  }

  /** A receipt means checkout, worktree, git remote, branch and journal are
      all gone. */
  lemma CompletionKeeps(st: State, base: Commit, order: Commit -> seq<Commit>)
    requires Inv(st, base, order) && st.sess.Some? && st.sess.value.retirement.Some? && EffectsDone(st.sess.value)
    ensures
      var r := st.sess.value.retirement.value;
      var st' := st.(sess := None, receipt := Some(Receipt(r.op, r.signed)));
      Inv(st', base, order) && Evolves(st, st') && AllGone(st'.remote, st'.local)
  {
    hide RepoOk, ChainOk, Delivered, Unneeded, AllGood;
    var r := st.sess.value.retirement.value;
    assert forall i :: 0 <= i < |EFFECT_ORDER| ==> EFFECT_ORDER[i] in EFFECT_ORDER;
    assert EFFECT_ORDER[0] == RemoteCheckout && EFFECT_ORDER[1] == LocalWorktree && EFFECT_ORDER[3] == GitRemote && EFFECT_ORDER[4] == GitBranch && EFFECT_ORDER[5] == ReplayJournal;
    assert forall i :: 0 <= i < |EFFECT_ORDER| ==> EffectReal(EFFECT_ORDER[i], st.remote, st.local);
  }

  /** The guard of both ways of attaching: no retirement, or a paused one. */
  predicate MayAttach(s: Session) {
    s.known && (s.retirement.Some? ==> s.retirement.value.phase.Paused?)
  }

  lemma AttachKeeps(st: State, id: nat, base: Commit, order: Commit -> seq<Commit>)
    requires Inv(st, base, order) && st.sess.Some? && MayAttach(st.sess.value)
    ensures
      var st' := st.(sess := Some(AddAttachment(st.sess.value, id)));
      Inv(st', base, order) && Evolves(st, st')
  {
    hide JournalSound, Honest, Delivered, ChainOk;
    var s := st.sess.value;
    var s' := AddAttachment(s, id);
    if s.retirement.Some? {
      var r, r' := s.retirement.value, s'.retirement.value;
      assert forall k :: k in r.effects ==> k.Herdr?;
      assert r'.effects == r.effects;
    }
  }

  function NewIntent(op: Operation, force: bool, branch: string): Intent {
    Intent(op, force, Checking, branch, [], {}, map[], false)
  }

  /** An intent on record that a call asking for `op` and `force` may neither
      replace nor raise. */
  predicate Immovable(s: Session, op: Operation, force: bool) {
    s.retirement.Some? &&
    var r := s.retirement.value;
    && (r.op != op || r.force != force)
    && !((r.phase.Checking? || r.phase.Paused?) && r.accepted == [] && r.effects == map[])
    && !(r.op.Delete? && op.Delete? && !r.force && force && !r.phase.Removing?)
  }

  lemma RaiseKeeps(st: State, base: Commit, order: Commit -> seq<Commit>)
    requires Inv(st, base, order) && st.sess.Some? && st.sess.value.retirement.Some?
    requires st.sess.value.retirement.value.op.Delete? && !st.sess.value.retirement.value.phase.Removing?
    ensures
      var st' := WithIntent(st, st.sess.value.retirement.value.(force := true));
      Inv(st', base, order) && Evolves(st, st')
  {
  }

  lemma NewIntentKeeps(st: State, op: Operation, force: bool, branch: string, base: Commit, order: Commit -> seq<Commit>)
    requires Inv(st, base, order) && st.sess.Some? && (force ==> op.Delete?)
    requires st.sess.value.retirement.Some? ==> st.sess.value.retirement.value.accepted == [] && st.sess.value.retirement.value.effects == map[]
    ensures
      var st' := WithIntent(st, NewIntent(op, force, branch));
      Inv(st', base, order) && Evolves(st, st')
  {
  }
}

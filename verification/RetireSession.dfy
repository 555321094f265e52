/** The retirement itself, as the program runs it: phases walked by durable
    updates, with the agent, other clients and crashes free to come between
    any two of them. */
module RetireSession {
  import opened Options
  import opened Git
  import opened Replay
  import opened ReplayCoverage
  import opened Retirement
  import opened RetirementInvariant
  import opened MergeCheck
  import opened World

  datatype Result =
    | InvalidOptions | NoSession | OwnershipUnknown
    | IntentFixed                    // an immutable intent of another kind is on record
    | Failed | PausedAt | Crashed    // some step failed or refused, or the process died
    | Completed | AlreadyCompleted
    | FellThrough                    // the end of the function, past every phase

  /** One turn of a history; what the agent and other clients do during a call
      needs no turn of its own. */
  datatype Turn =
    | Retire(op: Operation, force: bool)
    | UserAttaches(id: nat)
    | UserMoves(head: Commit, picking: Option<Commit>)
    | UserEdits(branch: string, tidy: bool, dirty: bool)
    | Others

  datatype Next = Onward | Return(res: Result)

  /** What a check found, if it passed: the acceptance and the signatures it
      verified, what it read on the instance, and when it fetched what. */
  datatype Checked =
    | Passed(a: Acceptance, signed: set<Commit>, check: Option<Check>, fetch: nat, ref: Commit)
    | CheckFailed | CheckCrashed

  /** How a merge check came by its evidence: again what was accepted last, or
      from the commits since `from`, replayed at moment `run`. */
  datatype How = Again | Anew(from: Commit, run: nat)

  /** What a rescue brings home. */
  datatype Rescued = Rescued(look: Check, tip: Commit, fetch: nat, ref: Commit)

  /** The record as it was, but for attachments reported active meanwhile. */
  ghost predicate Steady(a: State, b: State) {
    && (a.sess.None? <==> b.sess.None?)
    && (a.sess.Some? ==>
          && b.sess.value.known == a.sess.value.known
          && b.sess.value.retirement == a.sess.value.retirement
          && SameIds(a.sess.value.attachments, b.sess.value.attachments))
    && b.receipt == a.receipt && b.check == a.check && b.remote.present == a.remote.present
    && b.local.worktree == a.local.worktree && b.local.tidy == a.local.tidy && b.local.branch == a.local.branch
  }

  predicate SameIds(a: seq<Attachment>, b: seq<Attachment>) {
    |a| == |b| && forall i :: 0 <= i < |a| ==> b[i].id == a[i].id
  }

  lemma SteadyTransitive(a: State, b: State, c: State)
    requires Steady(a, b) && Steady(b, c)
    ensures Steady(a, c)
  {
  }

  /** More has happened, and none of it was a turn of the user's. */
  predicate Later(t: seq<Event>, t': seq<Event>) {
    t <= t' && Unattended(t', |t|)
  }

  lemma LaterStep(t: seq<Event>, e: Event)
    requires !e.act.Moves? && !e.act.Edits? && !e.act.Attaches?
    ensures Later(t, t + [e])
  {
  }

  lemma LaterTransitive(t: seq<Event>, t': seq<Event>, t'': seq<Event>)
    requires Later(t, t') && Later(t', t'')
    ensures Later(t, t'')
  {
    forall k | |t| <= k < |t''| ensures !t''[k].act.Moves? && !t''[k].act.Edits? && !t''[k].act.Attaches? {
      if k < |t'| {
        assert t''[k] == t'[k];
      }
    }
  }

  lemma SteadyEvolves(a: State, b: State)
    requires Steady(a, b)
    ensures Evolves(a, b)
  {
  }

  lemma SteadyHere(a: State)
    ensures Steady(a, a)
  {
  }

  lemma LaterHere(t: seq<Event>)
    ensures Later(t, t)
  {
  }

  lemma SteadyKeepsIntent(a: State, b: State)
    requires Steady(a, b)
    ensures (Retiring(a) <==> Retiring(b)) && b.local.worktree == a.local.worktree
    ensures Retiring(a) ==> b.sess.value.retirement == a.sess.value.retirement && ClosedIn(b) == ClosedIn(a)
  {
  }

  /** What was read, and fetched, stays on the record. */
  lemma LaterReads(t: seq<Event>, t': seq<Event>, look: Check, will: nat -> Fortune, order: Commit -> seq<Commit>)
    requires Later(t, t') && ReadAt(t, look, will, order)
    ensures ReadAt(t', look, will, order)
  {
  }

  lemma LaterFetched(t: seq<Event>, t': seq<Event>, fetch: nat, at: nat, tip: Commit, ref: Commit, will: nat -> Fortune, order: Commit -> seq<Commit>)
    requires Later(t, t') && FetchedAt(t, fetch, at, tip, ref, will, order)
    ensures FetchedAt(t', fetch, at, tip, ref, will, order)
  {
  }

  lemma SteadyCloses(a: State, b: State)
    requires Steady(a, b) && Retiring(a)
    ensures AllClosesDone(a.sess.value) ==> AllClosesDone(b.sess.value)
  {
    var before, after := a.sess.value.attachments, b.sess.value.attachments;
    forall x | x in after ensures exists y :: y in before && y.id == x.id {
      var i :| 0 <= i < |after| && after[i] == x;
      assert before[i] in before;
    }
  }

  /** An attachment that is closed has had its close done. */
  lemma AttachmentsDoneAreClosed(st: State, base: Commit, order: Commit -> seq<Commit>)
    requires Inv(st, base, order) && Retiring(st) && AttachmentsDone(st.sess.value)
    ensures AllClosesDone(st.sess.value)
  {
    hide RepoOk, IntentInv;
  }

  lemma FinalCheckClosed(st: State, base: Commit, order: Commit -> seq<Commit>)
    requires Inv(st, base, order) && Retiring(st) && st.sess.value.retirement.value.phase.FinalCheck?
    ensures AllClosesDone(st.sess.value)
  {
    hide RepoOk, IntentInv;
  }

  lemma RemovingAccepted(st: State, base: Commit, order: Commit -> seq<Commit>)
    requires Inv(st, base, order) && Retiring(st) && st.sess.value.retirement.value.phase.Removing?
    ensures st.sess.value.retirement.value.accepted != []
  {
  }

  lemma DiscardsOnlyForced(st: State, base: Commit, order: Commit -> seq<Commit>)
    requires Inv(st, base, order) && Retiring(st) && st.sess.value.retirement.value.phase.Removing?
    requires st.sess.value.retirement.value.accepted != [] && Upheld(st)
    ensures !st.sess.value.retirement.value.force ==> Last(st.sess.value.retirement.value.accepted).verifiedHead == Sha(st.local.repo.head)
  {
  }

  /** The closes were done before the cleanup began. */
  lemma EffectsAllDone(st: State, base: Commit, order: Commit -> seq<Commit>)
    requires Inv(st, base, order) && Retiring(st)
    requires st.sess.value.retirement.value.phase.Removing?
    requires forall j :: 0 <= j < |EFFECT_ORDER| ==> IsDone(st.sess.value.retirement.value, EFFECT_ORDER[j])
    ensures EffectsDone(st.sess.value)
  {
    hide RepoOk, IntentInv, IsDone;
  }

  /** What a validated destination is: what the last acceptance relied on. A
      forced delete that discards has nothing to validate. */
  predicate Upheld(st: State)
    requires Retiring(st) && st.sess.value.retirement.value.accepted != []
  {
    var r := st.sess.value.retirement.value;
    var a := Last(r.accepted);
    || (r.op.Delete? && r.force && a.tip.Discarded?)
    || (&& st.local.branch == r.branch && a.verifiedHead == Sha(st.local.repo.head)
        && (r.op.Merge? ==> a.replayBase == a.verifiedHead || SignedSince(a)))
  }

  /** What an unforced check must show of the instance: the tip it accepts was
      read, and its branch fetched, since moment `lo`. */
  ghost predicate Looked(c: Checked, lo: nat, t: seq<Event>, will: nat -> Fortune, order: Commit -> seq<Commit>)
    requires c.Passed?
  {
    && c.a.tip.Sha? && c.check.Some? && c.check.value.tip == c.a.tip
    && lo <= c.check.value.at && ReadAt(t, c.check.value, will, order)
    && FetchedAt(t, c.fetch, c.check.value.at, c.a.tip.c, c.ref, will, order)
  }

  /** The evidence, whatever it is made from: the last acceptance again, which
      still stands, or what `Replayed` makes of a new range from `before` on. */
  ghost predicate Shows(how: How, before: Repo, now: State, c: Checked, will: nat -> Fortune, order: Commit -> seq<Commit>, base: Commit)
    requires Retiring(now) && c.Passed?
  {
    var r := now.sess.value.retirement.value;
    match how
    case Again => r.accepted != [] && c.a == Last(r.accepted) && c.signed == {} && Upheld(now) && now.local.repo == before
    case Anew(from, run) =>
      && StartsFrom(r, from, before.head) && (r.accepted == [] ==> from == base)
      && c.a.tip.Sha?
      && Replayed(before, order, from, c.ref, c.a.tip.c, will(run).fates, will(run).life) == (now.local.repo, Some(Evidence(c.a, c.signed)))
  }

  /** Exactly what the evidence of a new range says: which base it records, and
      whether the tip is accounted for, by what there was before the check. */
  ghost predicate Means(how: How, before: Repo, strayed: bool, now: State, c: Checked, order: Commit -> seq<Commit>, base: Commit)
    requires c.Passed? && c.a.tip.Sha? && how.Anew?
  {
    && (c.a.replayBase == Sha(before.head) <==> !GoesOnElsewhere(before, order, how.from, c.ref))
    && now.strayed == (strayed || Misguided(before, order, how.from, c.ref, Reach(base)))
    && (!now.strayed ==> Accounted(Reach(c.ref), now.local.repo, Reach(base)))
    && (!now.strayed && Settled(before) ==>
          (Accounted(Reach(c.a.tip.c), now.local.repo, Reach(base)) <==> Accounted(Range(c.ref, c.a.tip.c), before, Reach(base))))
  }

  /** A check that passes leaves no pick open. */
  lemma ShowsPresentable(how: How, before: State, now: State, c: Checked, will: nat -> Fortune, order: Commit -> seq<Commit>, base: Commit)
    requires Retiring(now) && c.Passed? && Shows(how, before.local.repo, now, c, will, order, base)
    ensures now.local.repo.picking == before.local.repo.picking
  {
    hide Upheld, StartsFrom, Replayed;
    if how.Anew? {
      ReplayedLeavesPicking(before.local.repo, order, how.from, c.ref, c.a.tip.c, will(how.run).fates, will(how.run).life);
    }
  }

  /** The last acceptance is evidence again for the tip it accepted. */
  lemma SameAgain(st: State, ref: Commit, base: Commit, order: Commit -> seq<Commit>)
    requires Inv(st, base, order) && Retiring(st)
    requires
      var r := st.sess.value.retirement.value;
      r.op.Merge? && r.accepted != [] && Last(r.accepted).verifiedHead == Sha(st.local.repo.head)
    ensures var r := st.sess.value.retirement.value; CheckOk(st, r, Last(r.accepted), {}, ref, base)
  {
    var r := st.sess.value.retirement.value;
    var n := |r.accepted| - 1;
    assert r.accepted[n] == Last(r.accepted);
    hide Overlooks;
  }

  /** New evidence follows on from what was accepted before it. */
  lemma AnewFollows(was: State, now: State, from: Commit, a: Acceptance, signed: set<Commit>, ref: Commit, base: Commit, order: Commit -> seq<Commit>)
    requires Inv(now, base, order) && Retiring(now) && now.sess.value.retirement.value.op.Merge?
    requires a.tip.Sha? && a.replayBase.Sha? && a.verifiedHead == Sha(now.local.repo.head) && a.tip.c in now.local.objects
    requires Ancestor(a.replayBase.c, was.local.repo.head) && Range(a.replayBase.c, now.local.repo.head) <= signed && AllGood(signed)
    requires
      var r := now.sess.value.retirement.value;
      StartsFrom(r, from, was.local.repo.head) && (r.accepted != [] ==> from != a.tip.c && Ancestor(from, a.tip.c))
    requires !now.strayed ==> Accounted(Reach(ref), now.local.repo, Reach(base))
    ensures CheckOk(now, now.sess.value.retirement.value, a, signed, ref, base)
  {
    hide Reach, Known, RepoOk, Delivered;
  }

  /** What a finished replay of a new range means. */
  lemma AnewMeans(was: State, now: State, how: How, c: Checked, will: nat -> Fortune, base: Commit, order: Commit -> seq<Commit>)
    requires Lists(order) && Inv(was, base, order) && Retiring(now) && c.Passed? && how.Anew?
    requires Shows(how, was.local.repo, now, c, will, order, base)
    requires !was.strayed ==> Accounted(Reach(how.from), was.local.repo, Reach(base))
    requires now.strayed == (was.strayed || Misguided(was.local.repo, order, how.from, c.ref, Reach(base)))
    ensures Means(how, was.local.repo, was.strayed, now, c, order, base)
  {
    hide Replayed, GoesOnElsewhere, Misguided, Accounted, Settled, Reach, Range, StartsFrom;
    var fates, life := will(how.run).fates, will(how.run).life;
    RecordedBase(was.local.repo, order, how.from, c.ref, c.a.tip.c, fates, life);
    if !now.strayed {
      TipAccountedFor(was.local.repo, order, how.from, c.ref, c.a.tip.c, fates, life, Reach(base));
    }
  }

  /** The accepted tip was accounted for on the head it was verified on. */
  lemma PriorAccounted(st: State, base: Commit, order: Commit -> seq<Commit>)
    requires Inv(st, base, order) && Retiring(st) && !st.strayed
    requires
      var r := st.sess.value.retirement.value;
      r.op.Merge? && r.accepted != [] && Last(r.accepted).verifiedHead == Sha(st.local.repo.head)
    ensures
      var r := st.sess.value.retirement.value;
      Last(r.accepted).tip.Sha? && Accounted(Reach(Last(r.accepted).tip.c), st.local.repo, Reach(base))
  {
    var r := st.sess.value.retirement.value;
    var n := |r.accepted| - 1;
    assert r.accepted[n] == Last(r.accepted);
  }

  /** What `git cherry` finds nothing of is on the branch; the rest of the tip
      decides. */
  lemma NothingMissingHeld(ref: Commit, tip: Commit, head: Commit, alike: set<(Commit, Commit)>)
    requires NothingMissing(head, ref, alike)
    ensures AllHeld(Reach(ref), head, alike)
    ensures AllHeld(Reach(tip), head, alike) <==> AllHeld(Range(ref, tip), head, alike)
  {
    forall c | c in Reach(ref) ensures Held(c, head, alike) {
      if c !in Reach(head) && |c.parents| <= 1 {
        assert c in Range(head, ref);
      }
    }
  }

  lemma BaseAccounted(r: Repo, base: Commit)
    ensures Accounted(Reach(base), r, Reach(base))
  {
  }

  lemma NeverForced(st: State, base: Commit, order: Commit -> seq<Commit>)
    requires Inv(st, base, order) && Retiring(st) && st.sess.value.retirement.value.op.Merge?
    ensures !st.sess.value.retirement.value.force
  {
  }

  lemma PriorTip(st: State, base: Commit, order: Commit -> seq<Commit>)
    requires Inv(st, base, order) && Retiring(st)
    requires st.sess.value.retirement.value.op.Merge? && st.sess.value.retirement.value.accepted != []
    ensures Last(st.sess.value.retirement.value.accepted).tip.Sha?
  {
    var r := st.sess.value.retirement.value;
    var n := |r.accepted| - 1;
    assert r.accepted[n] == Last(r.accepted);
  }

  class Machine {
    const base: Commit
    const order: Commit -> seq<Commit>

    /** What each moment has in store. */
    const will: nat -> Fortune

    ghost const origin: State

    var st: State
    var clock: nat

    /** All that has happened, an event for each moment. */
    ghost var trace: seq<Event>

    /** One past the last moment at which a step failed or refused. */
    ghost var blamed: nat

    ghost predicate Told()
      reads this
    {
      && Lists(order) && clock == |trace| && !origin.strayed
      && (blamed > 0 ==> StopsAt(trace, blamed - 1, will, order))
    }

    ghost predicate Valid()
      reads this
    {
      Told() && Inv(st, base, order) && Chronicle(trace, origin, st, will, base, order)
    }

    /** Time has passed since, without a turn of the user's. */
    ghost predicate Since(t: seq<Event>, b: nat)
      reads this
    {
      Later(t, trace) && |t| <= |trace| && b <= blamed
    }

    /** A started session, with nothing of its retirement on record. */
    constructor (base: Commit, order: Commit -> seq<Commit>, will: nat -> Fortune, tip: Commit, dirty: bool, head: Commit, local: Local, ids: seq<nat>)
      requires Lists(order) && local.repo == Repo(head, NoFile, None, {})
      ensures Valid() && this.base == base && this.order == order && this.will == will && trace == [] && st == origin
      ensures st.sess == Some(Session(true, seq(|ids|, i requires 0 <= i < |ids| => Attachment(ids[i], Active)), None))
      ensures st.remote == Remote(true, tip, dirty) && st.local == local
    {
      var start := State(Some(Session(true, seq(|ids|, i requires 0 <= i < |ids| => Attachment(ids[i], Active)), None)),
                         None, Remote(true, tip, dirty), local, None, false);
      this.base, this.order, this.will, origin, st, clock, trace, blamed := base, order, will, start, start, 0, [], 0;
    }

    /** Since moment `lo`, when the record was as in `was`, the tip was read and
        then the branch was fetched, and both are here. */
    ghost predicate Brought(w: Rescued, lo: nat, was: State)
      reads this
    {
      && lo <= w.look.at && w.look.tip == Sha(w.tip) && ReadAt(trace, w.look, will, order)
      && FetchedAt(trace, w.fetch, w.look.at, w.tip, w.ref, will, order)
      && w.look.closed == ClosedIn(was)
      && w.tip in st.local.objects && Reach(w.ref) <= st.local.objects
    }

    // ----- single events -----

    /** Writes down what has just been done. */
    ghost method Log(before: State, act: Act)
      requires Lists(order) && clock == |trace| + 1 && !origin.strayed
      requires blamed > 0 ==> StopsAt(trace, blamed - 1, will, order)
      requires Inv(before, base, order) && Inv(st, base, order) && Chronicle(trace, origin, before, will, base, order)
      requires Legit(trace, before, act, will, base, order) && st == Effect(before, act, will(|trace|), base, order)
      requires act.Replays? && !before.strayed ==> Accounted(Reach(act.from), before.local.repo, Reach(base))
      requires act == Removes(RemoteCheckout) && before.remote.present && !st.remote.present ==> SafeRemoval(before, base)
      modifies this`trace, this`blamed
      ensures Valid() && trace == old(trace) + [Event(before, act)]
      ensures blamed == if Granted(before, act, will(old(|trace|)), order) then old(blamed) else clock
    {
      hide Inv, Chronicle, SafeRemoval, Effect, Granted, Fits, Accounted;
      ChronicleExtends(trace, origin, before, act, st, will, base, order);
      var ok := Granted(before, act, will(|trace|), order);
      trace := trace + [Event(before, act)];
      blamed := if ok then blamed else clock;
    }

    /** Whatever the agent and other clients do before the next step. */
    method Meanwhile()
      requires Valid()
      modifies this
      ensures Valid() && Steady(old(st), st) && Evolves(old(st), st) && st.local == old(st.local) && st.strayed == old(st.strayed)
      ensures Since(old(trace), old(blamed)) && trace == old(trace) + [Event(old(st), Waits)]
    {
      ghost var before := st;
      hide Inv, Chronicle;
      var f := will(clock);
      if f.agent.Sets? && st.remote.present {
        st := st.(remote := st.remote.(tip := f.agent.tip, dirty := f.agent.dirty));
      }
      if f.client.Some? && st.sess.Some? {
        st := st.(sess := Some(st.sess.value.(attachments := WithPhase(st.sess.value.attachments, f.client.value, Active))));
      }
      clock := clock + 1;
      EffectKeeps(before, Waits, f, base, order);
      Log(before, Waits);
    }

    /** One step that only asks: it may fail, or answer no. */
    method Ask(q: Question) returns (ok: bool)
      requires Valid() && Legit(trace, st, Asks(q), will, base, order)
      modifies this`clock, this`trace, this`blamed
      ensures Valid() && Since(old(trace), old(blamed)) && trace == old(trace) + [Event(st, Asks(q))]
      ensures ok == (!will(old(clock)).fails && Answer(st, q))
      ensures !ok ==> blamed > old(clock)
    {
      hide Inv, Chronicle, Answer, Effect, Granted;
      AsksEffect(st, q, will(clock), base, order);
      ok := !will(clock).fails && Answer(st, q);
      clock := clock + 1;
      Log(st, Asks(q));
    }

    /** One update of the store. */
    method Record(sess: Option<Session>, receipt: Option<Receipt>) returns (saved: bool)
      requires Valid() && Inv(st.(sess := sess, receipt := receipt), base, order)
      requires if sess.None? then st.sess.Some? ==> AllHaveClosed(trace, st.sess.value, will)
               else sess.value.retirement.Some? ==> ClosesHappened(trace, sess.value.retirement.value, will)
      modifies this
      ensures Valid() && Since(old(trace), old(blamed)) && trace == old(trace) + [Event(old(st), Records(sess, receipt))]
      ensures st == if saved then old(st).(sess := sess, receipt := receipt) else old(st)
      ensures saved == !will(old(clock)).fails
      ensures !saved ==> blamed > old(clock)
    {
      ghost var before := st;
      hide Inv, Chronicle, ClosesHappened, AllHaveClosed;
      saved := !will(clock).fails;
      if saved {
        st := st.(sess := sess, receipt := receipt);
      }
      clock := clock + 1;
      Log(before, Records(sess, receipt));
    }

    /** Commits on the instance whatever the agent left uncommitted. */
    method Checkpoint() returns (ok: bool)
      requires Valid()
      modifies this
      ensures Valid() && Steady(old(st), st) && st.local == old(st.local) && st.strayed == old(st.strayed)
      ensures Since(old(trace), old(blamed)) && trace == old(trace) + [Event(old(st), Checkpoints)]
      ensures ok ==> st.remote.present && !st.remote.dirty && Ancestor(old(st.remote.tip), st.remote.tip)
      ensures if ok && old(st.remote.dirty) then st.remote.tip.parents == [old(st.remote.tip)] else st.remote == old(st.remote)
      ensures !ok ==> blamed > old(clock)
    {
      ghost var before := st;
      hide Inv, Chronicle;
      ok := !will(clock).fails && st.remote.present;
      if ok && st.remote.dirty {
        st := st.(remote := st.remote.(tip := Commit([st.remote.tip], Authored(0, false)), dirty := false));
      }
      assert before.remote.tip in Reach(before.remote.tip);
      EffectKeeps(before, Checkpoints, will(clock), base, order);
      clock := clock + 1;
      Log(before, Checkpoints);
    }

    /** Reads the tip of the session's branch on the instance. */
    method ReadTip() returns (ok: bool, look: Check)
      requires Valid()
      modifies this`clock, this`trace, this`blamed
      ensures Valid() && Since(old(trace), old(blamed)) && trace == old(trace) + [Event(st, Reads)]
      ensures ok ==> ReadAt(trace, look, will, order) && look == Check(Sha(st.remote.tip), old(clock), ClosedIn(st))
      ensures !ok ==> blamed > old(clock)
    {
      hide Inv, Chronicle;
      ok := !will(clock).fails && st.remote.present;
      look := Check(Sha(st.remote.tip), clock, ClosedIn(st));
      clock := clock + 1;
      Log(st, Reads);
    }

    /** Fetches the session branch as it is now, and verifies that `tip`, read
        a moment ago, arrived. */
    method Fetch(look: Check, tip: Commit) returns (ok: bool, ref: Commit)
      requires Valid() && Retiring(st) && !st.sess.value.retirement.value.phase.Removing?
      requires look.tip == Sha(tip) && ReadAt(trace, look, will, order)
      modifies this
      ensures Valid() && Steady(old(st), st) && st.strayed == old(st.strayed) && st.local == old(st.local).(objects := st.local.objects)
      ensures Since(old(trace), old(blamed)) && trace == old(trace) + [Event(old(st), Fetches(look.at, tip))]
      ensures ok ==> tip in st.local.objects && Reach(ref) <= st.local.objects
      ensures ok ==> FetchedAt(trace, old(clock), look.at, tip, ref, will, order)
      ensures !ok ==> blamed > old(clock)
    {
      ghost var before := st;
      hide Inv, Chronicle, Reach, Granted;
      ref := st.remote.tip;
      ok := !will(clock).fails;
      if ok {
        st := st.(local := st.local.(objects := st.local.objects + Reach(ref)));
        ok := tip in st.local.objects;
      }
      FetchAct(before, look, tip, ok);
      EffectKeeps(before, Fetches(look.at, tip), will(clock), base, order);
      clock := clock + 1;
      Log(before, Fetches(look.at, tip));
    }

    lemma FetchAct(before: State, look: Check, tip: Commit, ok: bool)
      requires Retiring(before) && !before.sess.value.retirement.value.phase.Removing?
      requires look.tip == Sha(tip) && ReadAt(trace, look, will, order)
      requires ok == (!will(clock).fails && tip in Fetched(before).local.objects)
      ensures Legit(trace, before, Fetches(look.at, tip), will, base, order)
      ensures ok == Granted(before, Fetches(look.at, tip), will(clock), order)
    {
    }

    /** Makes the session's work durable on this machine. The agent may move
        its branch between the read of the tip and the fetch. */
    method Rescue() returns (ok: bool, w: Rescued)
      requires Valid() && Retiring(st) && !st.sess.value.retirement.value.phase.Removing?
      modifies this
      ensures Valid() && Steady(old(st), st) && st.strayed == old(st.strayed) && st.local == old(st.local).(objects := st.local.objects)
      ensures Since(old(trace), old(blamed))
      ensures ok ==> Brought(w, old(clock), old(st))
      ensures !ok ==> blamed > old(clock)
    {
      hide Inv, Lists, Chronicle, ReadAt, FetchedAt, Reach, Steady, Later;
      w := Rescued(Check(Discarded, 0, {}), base, 0, base);
      ghost var s0, t0 := st, trace;
      Meanwhile();
      ghost var s1, t1 := st, trace;
      ok := Checkpoint();
      SteadyTransitive(s0, s1, st);
      LaterTransitive(t0, t1, trace);
      if ok {
        ghost var s2, t2 := st, trace;
        SteadyKeepsIntent(s0, s2);
        ok, w := ReadAndFetch();
        SteadyTransitive(s0, s2, st);
        LaterTransitive(t0, t2, trace);
      }
    }

    /** Reads the tip, and then fetches the branch. */
    method ReadAndFetch() returns (ok: bool, w: Rescued)
      requires Valid() && Retiring(st) && !st.sess.value.retirement.value.phase.Removing?
      modifies this
      ensures Valid() && Steady(old(st), st) && st.strayed == old(st.strayed) && st.local == old(st.local).(objects := st.local.objects)
      ensures Since(old(trace), old(blamed))
      ensures ok ==> Brought(w, old(clock), old(st))
      ensures !ok ==> blamed > old(clock)
    {
      hide Inv, Lists, Chronicle, ReadAt, FetchedAt, Reach, Steady, Later;
      w := Rescued(Check(Discarded, 0, {}), base, 0, base);
      ghost var s0, t0 := st, trace;
      Meanwhile();
      ghost var s1, t1 := st, trace;
      SteadyKeepsIntent(s0, s1);
      var look;
      ok, look := ReadTip();
      LaterTransitive(t0, t1, trace);
      var tip := st.remote.tip;
      if ok {
        ghost var t2 := trace;
        Meanwhile();
        ghost var s3, t3 := st, trace;
        SteadyTransitive(s0, s1, s3);
        SteadyKeepsIntent(s0, s3);
        LaterTransitive(t0, t2, t3);
        LaterReads(t2, t3, look, will, order);
        w := Rescued(look, tip, clock, base);
        var ref;
        ok, ref := Fetch(look, tip);
        w := w.(ref := ref);
        SteadyTransitive(s0, s3, st);
        LaterTransitive(t0, t3, trace);
        LaterReads(t3, trace, look, will, order);
      }
    }

    /** The destination is still the branch, and at the commit, that the last
        acceptance was made on, and a merge's commits since its replay base are
        signed. */
    method Validate() returns (ok: bool)
      requires Valid() && Retiring(st) && st.sess.value.retirement.value.accepted != []
      modifies this`clock, this`trace, this`blamed
      ensures Valid() && Since(old(trace), old(blamed))
      ensures ok ==> Upheld(st)
      ensures !ok ==> blamed > old(clock)
    {
      hide Inv, Chronicle;
      var r := st.sess.value.retirement.value;
      if r.op.Delete? && r.force && Last(r.accepted).tip.Discarded? {
        return true;
      }
      ok := Ask(OnBranch);
      if ok {
        ok := Ask(AtHead);
      }
      if ok && r.op.Merge? && Last(r.accepted).replayBase != Last(r.accepted).verifiedHead {
        ok := Ask(StillSigned);
      }
    }

    // ----- the checks -----

    /** Where a merge check starts from, once what it follows on from holds. */
    method Prior() returns (ok: bool, from: Commit)
      requires Valid() && Retiring(st) && st.sess.value.retirement.value.op.Merge? && !st.sess.value.retirement.value.phase.Removing?
      modifies this`clock, this`trace, this`blamed
      ensures Valid() && Since(old(trace), old(blamed))
      ensures ok ==> Founded(from)
      ensures !ok ==> blamed > old(clock)
    {
      hide Inv, Chronicle, Later, Accounted;
      ok, from := true, base;
      LaterHere(trace);
      if st.sess.value.retirement.value.accepted != [] {
        PriorTip(st, base, order);
        ok := Validate();
        from := Last(st.sess.value.retirement.value.accepted).tip.c;
        if ok && !st.strayed {
          PriorAccounted(st, base, order);
        }
      } else {
        BaseAccounted(st.local.repo, base);
      }
    }

    /** A check may start from `from`: everything up to it is accounted for. */
    ghost predicate Founded(from: Commit)
      requires Retiring(st)
      reads this
    {
      var r := st.sess.value.retirement.value;
      && StartsFrom(r, from, st.local.repo.head)
      && (if r.accepted == [] then from == base else Upheld(st))
      && (!st.strayed ==> Accounted(Reach(from), st.local.repo, Reach(base)))
    }

    /** Before a merge check looks at any commit: nothing is open or dirty, the
        session's work is fetched, its issues are home, the branch is right. */
    method MergeReady() returns (ok: bool, w: Rescued)
      requires Valid() && Retiring(st) && st.sess.value.retirement.value.op.Merge? && !st.sess.value.retirement.value.phase.Removing?
      modifies this
      ensures Valid() && Steady(old(st), st) && st.strayed == old(st.strayed) && st.local == old(st.local).(objects := st.local.objects)
      ensures Since(old(trace), old(blamed))
      ensures ok ==>
                && Brought(w, old(clock), old(st))
                && Presentable(st.local) && st.local.branch == st.sess.value.retirement.value.branch
      ensures !ok ==> blamed > old(clock)
    {
      hide Inv, Lists, Chronicle, Steady, Later, ReadAt, FetchedAt, Reach;
      w := Rescued(Check(Discarded, 0, {}), base, 0, base);
      ghost var s0, t0 := st, trace;
      SteadyHere(st);
      NeverForced(st, base, order);
      ok := Ask(Works);
      if ok {
        ghost var t1 := trace;
        ok := Ask(TreesClean);
        LaterTransitive(t0, t1, trace);
      }
      if ok {
        ghost var t2 := trace;
        assert Presentable(st.local);
        ok, w := Rescue();
        LaterTransitive(t0, t2, trace);
        SteadyKeepsIntent(s0, st);
      }
      if ok {
        ghost var t3 := trace;
        ok := IssuesHome();
        LaterTransitive(t0, t3, trace);
        BroughtLater(w, t3);
      }
    }

    /** The session's issues are pulled, and the branch is the right one. */
    method IssuesHome() returns (ok: bool)
      requires Valid() && Retiring(st) && st.sess.value.retirement.value.op.Merge?
      modifies this`clock, this`trace, this`blamed
      ensures Valid() && Since(old(trace), old(blamed))
      ensures ok ==> st.local.branch == st.sess.value.retirement.value.branch
      ensures !ok ==> blamed > old(clock)
    {
      hide Inv, Lists, Chronicle, Later;
      ghost var t0 := trace;
      ok := Ask(Works);
      if ok {
        ghost var t1 := trace;
        ok := Ask(OnBranch);
        LaterTransitive(t0, t1, trace);
      }
    }

    lemma BroughtLater(w: Rescued, t: seq<Event>)
      requires Later(t, trace) && ReadAt(t, w.look, will, order) && FetchedAt(t, w.fetch, w.look.at, w.tip, w.ref, will, order)
      ensures ReadAt(trace, w.look, will, order) && FetchedAt(trace, w.fetch, w.look.at, w.tip, w.ref, will, order)
    {
      LaterReads(t, trace, w.look, will, order);
      LaterFetched(t, trace, w.fetch, w.look.at, w.tip, w.ref, will, order);
    }

    lemma ReplayAct(at: nat, tip: Commit, fetch: nat, from: Commit, ref: Commit)
      requires Retiring(st) && Founded(from) && FetchedAt(trace, fetch, at, tip, ref, will, order)
      ensures Legit(trace, st, Replays(fetch, from, ref), will, base, order)
      ensures
        var f := will(clock);
        var list := Select(order(ref), Reach(from));
        var (repo, out) := ReplayRange(st.local.repo, ref, list, f.fates, f.life);
        && Granted(st, Replays(fetch, from, ref), f, order) == out.Finished?
        && Effect(st, Replays(fetch, from, ref), f, base, order)
           == st.(local := st.local.(repo := repo), strayed := st.strayed || Misled(st.local.repo, ref, list, Reach(base)))
    {
      hide ReplayRange, Misled, Accounted, FetchedAt, Upheld;
    }

    /** One run of the replay over `from..ref`. */
    method Replay(at: nat, tip: Commit, fetch: nat, from: Commit, ref: Commit) returns (o: Outcome)
      requires Valid() && Retiring(st) && Founded(from) && FetchedAt(trace, fetch, at, tip, ref, will, order)
      modifies this
      ensures Valid() && Steady(old(st), st) && st.local == old(st.local).(repo := st.local.repo)
      ensures Since(old(trace), old(blamed)) && trace == old(trace) + [Event(old(st), Replays(fetch, from, ref))]
      ensures
        var list := Select(order(ref), Reach(from));
        && (st.local.repo, o) == ReplayRange(old(st.local.repo), ref, list, will(old(clock)).fates, will(old(clock)).life)
        && st.strayed == (old(st.strayed) || Misled(old(st.local.repo), ref, list, Reach(base)))
      ensures o.Finished? ==> Ancestor(o.base, old(st.local.repo.head)) && (!st.strayed ==> Accounted(Reach(ref), st.local.repo, Reach(base)))
      ensures !o.Finished? ==> blamed > old(clock)
    {
      hide Inv, Chronicle, Reach, Accounted, Misled, FetchedAt, Later, Legit, Effect, Granted, ReplayRange, AddsOnlyGood, Stands, FinishedByHand, Select;
      ghost var before := st;
      ReplayAct(at, tip, fetch, from, ref);
      var list := Select(order(ref), Reach(from));
      var checkout := new Checkout(st.local.repo);
      o := checkout.ReplaySignedRange(ref, list, will(clock).fates, will(clock).life);
      st := st.(local := st.local.(repo := checkout.repo), strayed := st.strayed || Misled(st.local.repo, ref, list, Reach(base)));
      ReplayEffect(before, from, ref, will(clock), base, order);
      LaterStep(trace, Event(before, Replays(fetch, from, ref)));
      clock := clock + 1;
      Log(before, Replays(fetch, from, ref));
    }

    /** Replays `from..ref` and verifies every signature it is responsible for. */
    method ReplayAndVerify(at: nat, tip: Commit, fetch: nat, from: Commit, ref: Commit) returns (o: Outcome, signed: set<Commit>)
      requires Valid() && Retiring(st) && Founded(from) && FetchedAt(trace, fetch, at, tip, ref, will, order)
      modifies this
      ensures Valid() && Steady(old(st), st) && st.local == old(st.local).(repo := st.local.repo)
      ensures Since(old(trace), old(blamed))
      ensures
        var list := Select(order(ref), Reach(from));
        var (repo, out) := ReplayRange(old(st.local.repo), ref, list, will(old(clock)).fates, will(old(clock)).life);
        && st.local.repo == repo
        && st.strayed == (old(st.strayed) || Misled(old(st.local.repo), ref, list, Reach(base)))
        && (o.Finished? ==>
              && out == o && Ancestor(o.base, old(st.local.repo.head))
              && signed == Range(o.base, st.local.repo.head) && AllGood(signed)
              && (!st.strayed ==> Accounted(Reach(ref), st.local.repo, Reach(base))))
      ensures !o.Finished? ==> blamed > old(clock)
    {
      hide Inv, Chronicle, Reach, Accounted, Misled, FetchedAt, Later, ReplayRange, Upheld, Steady;
      ghost var s0, t0 := st, trace;
      var run := clock;
      o := Replay(at, tip, fetch, from, ref);
      SteadyKeepsIntent(s0, st);
      signed := {};
      if o.Finished? {
        signed := Range(o.base, st.local.repo.head);
        if st.local.repo.head != o.base {
          ghost var t1 := trace;
          var verified := VerifyNew(run, fetch, from, ref, o.base);
          LaterTransitive(t0, t1, trace);
          if !verified {
            o := Stopped;
          }
        }
      }
    }

    /** Verifies the signatures of what the run just made. */
    method VerifyNew(run: nat, fetch: nat, from: Commit, ref: Commit, replayBase: Commit) returns (ok: bool)
      requires Valid() && Retiring(st) && st.sess.value.retirement.value.op.Merge? && !st.sess.value.retirement.value.phase.Removing?
      requires run + 1 == clock && trace[run].act == Replays(fetch, from, ref) && Fits(trace[run].was, trace[run].act)
      requires ReplayRange(trace[run].was.local.repo, ref, Select(order(ref), Reach(from)), will(run).fates, will(run).life)
               == (st.local.repo, Finished(replayBase))
      modifies this`clock, this`trace, this`blamed
      ensures Valid() && Since(old(trace), old(blamed))
      ensures ok ==> AllGood(Range(replayBase, st.local.repo.head))
      ensures !ok ==> blamed > old(clock)
    {
      hide Inv, Chronicle, Reach, Later, ReplayRange, ReadAt, FetchedAt, Select;
      ok := Ask(NewlySigned(run, replayBase));
    }

    /** Replays and verifies `from..ref`, unless there is nothing in it. */
    method ReplayNew(w: Rescued, from: Commit) returns (o: Outcome, replayBase: Commit, signed: set<Commit>)
      requires Valid() && Retiring(st) && Founded(from)
      requires FetchedAt(trace, w.fetch, w.look.at, w.tip, w.ref, will, order)
      modifies this
      ensures Valid() && Steady(old(st), st) && st.local == old(st.local).(repo := st.local.repo)
      ensures Since(old(trace), old(blamed))
      ensures st.strayed == (old(st.strayed) || Misguided(old(st.local.repo), order, from, w.ref, Reach(base)))
      ensures o.Finished? ==>
                && Replayed(old(st.local.repo), order, from, w.ref, w.tip, will(old(clock)).fates, will(old(clock)).life)
                   == (st.local.repo, Some(Evidence(Acceptance(Sha(w.tip), Sha(replayBase), Sha(st.local.repo.head)), signed)))
                && Ancestor(replayBase, old(st.local.repo.head)) && Range(replayBase, st.local.repo.head) <= signed && AllGood(signed)
                && (!st.strayed ==> Accounted(Reach(w.ref), st.local.repo, Reach(base)))
      ensures !o.Finished? ==> blamed > old(clock)
    {
      hide Inv, Chronicle, ReplayRange, Misled, Known, Later, FetchedAt;
      LaterHere(trace);
      if Range(from, w.ref) == {} {
        replayBase, signed := st.local.repo.head, {};
        assert replayBase in Reach(replayBase);
        return Finished(replayBase), replayBase, {};
      }
      o, signed := ReplayAndVerify(w.look.at, w.tip, w.fetch, from, w.ref);
      replayBase := if o.Finished? then o.base else from;
    }

    /** A merge check: of a tip read, and a branch fetched, in this call. It
        passes on the last acceptance again, which must still stand, or on a
        range of new commits replayed on the head that one was verified on. */
    method CheckMerge() returns (c: Checked, ghost how: How)
      requires Valid() && Retiring(st) && !st.sess.value.retirement.value.phase.Removing? && st.sess.value.retirement.value.op.Merge?
      modifies this
      ensures Valid() && Steady(old(st), st) && Since(old(trace), old(blamed))
      ensures c.Passed? ==>
                && CheckOk(st, st.sess.value.retirement.value, c.a, c.signed, c.ref, base)
                && Looked(c, old(clock), trace, will, order) && c.check.value.closed == ClosedIn(old(st))
                && c.a.tip.c in st.local.objects && Reach(c.ref) <= st.local.objects
                && Presentable(st.local) && st.local.branch == st.sess.value.retirement.value.branch
                && Shows(how, old(st.local.repo), st, c, will, order, base)
                && (if how.Again? then st.strayed == old(st.strayed) else Means(how, old(st.local.repo), old(st.strayed), st, c, order, base))
      ensures !c.Passed? ==> blamed > old(clock)
    {
      hide Inv, Lists, Chronicle, Steady, Later, Founded, CheckOk, Shows, Means, ReadAt, FetchedAt, Reach, Answer;
      how := Again;
      ghost var s0, t0 := st, trace;
      var ok, w := MergeReady();
      if !ok {
        return CheckFailed, how;
      }
      ghost var s1, t1 := st, trace;
      SteadyKeepsIntent(s0, s1);
      var from;
      ok, from := Prior();
      LaterTransitive(t0, t1, trace);
      if !ok {
        return CheckFailed, how;
      }
      BroughtLater(w, t1);
      ghost var t2 := trace;
      c, how := JudgeTip(w, from);
      SteadyTransitive(s0, s1, st);
      SteadyKeepsIntent(s1, st);
      if c.Passed? {
        ShowsPresentable(how, s1, st, c, will, order, base);
      }
      LaterTransitive(t0, t2, trace);
      BroughtLater(w, t2);
    }

    lemma DescendsAct(w: Rescued)
      requires Retiring(st) && Asked(st.sess.value.retirement.value, Descends(w.look.at, w.tip))
      requires w.look.tip == Sha(w.tip) && ReadAt(trace, w.look, will, order)
      ensures Legit(trace, st, Asks(Descends(w.look.at, w.tip)), will, base, order)
    {
    }

    /** The tip is the one accepted last, or descends from it. */
    method JudgeTip(w: Rescued, from: Commit) returns (c: Checked, ghost how: How)
      requires Valid() && Retiring(st) && st.sess.value.retirement.value.op.Merge? && Founded(from)
      requires w.look.tip == Sha(w.tip) && ReadAt(trace, w.look, will, order)
      requires FetchedAt(trace, w.fetch, w.look.at, w.tip, w.ref, will, order)
      requires w.tip in st.local.objects
      modifies this
      ensures Valid() && Steady(old(st), st) && Since(old(trace), old(blamed))
      ensures st.local == old(st.local).(repo := st.local.repo)
      ensures c.Passed? ==>
                && c.a.tip == Sha(w.tip) && c.check == Some(w.look) && c.fetch == w.fetch && c.ref == w.ref
                && CheckOk(st, st.sess.value.retirement.value, c.a, c.signed, c.ref, base)
                && Shows(how, old(st.local.repo), st, c, will, order, base)
                && (if how.Again? then st.strayed == old(st.strayed) else Means(how, old(st.local.repo), old(st.strayed), st, c, order, base))
      ensures !c.Passed? ==> blamed > old(clock)
    {
      hide Inv, Lists, Chronicle, Steady, Later, CheckOk, Means, ReadAt, FetchedAt, Reach, Replayed, Accounted;
      how := Again;
      ghost var s0, t0 := st, trace;
      SteadyHere(s0);
      LaterHere(t0);
      var accepted := st.sess.value.retirement.value.accepted;
      if accepted != [] {
        if from == w.tip {
          SameAgain(st, w.ref, base, order);
          return Passed(Last(accepted), {}, Some(w.look), w.fetch, w.ref), how;
        }
        DescendsAct(w);
        var ok := Ask(Descends(w.look.at, w.tip));
        if !ok {
          return CheckFailed, how;
        }
        BroughtLater(w, t0);
      }
      ghost var t1 := trace;
      c, how := ReplayedCheck(w, from);
      LaterTransitive(t0, t1, trace);
    }

    /** The rest of a merge check: replay what is new and make the evidence. */
    method ReplayedCheck(w: Rescued, from: Commit) returns (c: Checked, ghost how: How)
      requires Valid() && Retiring(st) && st.sess.value.retirement.value.op.Merge? && Founded(from)
      requires FetchedAt(trace, w.fetch, w.look.at, w.tip, w.ref, will, order)
      requires w.tip in st.local.objects
      requires st.sess.value.retirement.value.accepted != [] ==> from != w.tip && Ancestor(from, w.tip)
      modifies this
      ensures Valid() && Steady(old(st), st) && Since(old(trace), old(blamed))
      ensures st.local == old(st.local).(repo := st.local.repo)
      ensures c.Passed? ==>
                && c.a.tip == Sha(w.tip) && c.check == Some(w.look) && c.fetch == w.fetch && c.ref == w.ref
                && CheckOk(st, st.sess.value.retirement.value, c.a, c.signed, c.ref, base)
                && how.Anew? && Shows(how, old(st.local.repo), st, c, will, order, base)
                && Means(how, old(st.local.repo), old(st.strayed), st, c, order, base)
      ensures !c.Passed? ==> blamed > old(clock)
    {
      hide Inv, Lists, Chronicle, Steady, Later, CheckOk, Means, FetchedAt, Reach, Replayed, Accounted, Misguided, AllGood, Range;
      ghost var s0 := st;
      how := Anew(from, clock);
      var o, replayBase, signed := ReplayNew(w, from);
      SteadyKeepsIntent(s0, st);
      if !o.Finished? {
        return if o.Died? then CheckCrashed else CheckFailed, how;
      }
      c := Passed(Acceptance(Sha(w.tip), Sha(replayBase), Sha(st.local.repo.head)), signed, Some(w.look), w.fetch, w.ref);
      AnewFollows(s0, st, from, c.a, signed, w.ref, base, order);
      AnewMeans(s0, st, how, c, will, base, order);
    }

    /** A delete's check. Unforced, of a tip read and a branch fetched in this
        call, no commit of which is missing from the user's branch; so none of
        the tip's is, exactly if none is of the rest of it. */
    method CheckDelete() returns (c: Checked)
      requires Valid() && Retiring(st) && !st.sess.value.retirement.value.phase.Removing? && st.sess.value.retirement.value.op.Delete?
      modifies this
      ensures Valid() && Steady(old(st), st) && Since(old(trace), old(blamed))
      ensures st.strayed == old(st.strayed) && st.local == old(st.local).(objects := st.local.objects)
      ensures c.Passed? ==>
                && CheckOk(st, st.sess.value.retirement.value, c.a, c.signed, c.ref, base) && c.signed == {}
                && if st.sess.value.retirement.value.force then c.a.tip.Discarded? && c.check.None?
                   else
                     && Presentable(st.local)
                     && Looked(c, old(clock), trace, will, order) && c.check.value.closed == ClosedIn(old(st))
                     && c.a.tip.c in st.local.objects && Reach(c.ref) <= st.local.objects
                     && c.a.verifiedHead == c.a.replayBase == Sha(st.local.repo.head)
                     && NothingMissing(st.local.repo.head, c.ref, st.local.alike)
                     && (AllHeld(Reach(c.a.tip.c), st.local.repo.head, st.local.alike) <==> AllHeld(Range(c.ref, c.a.tip.c), st.local.repo.head, st.local.alike))
      ensures !c.Passed? ==> blamed > old(clock)
    {
      hide Inv, Lists, Chronicle, Steady, Later, ReadAt, FetchedAt, Reach, AllHeld, NothingMissing;
      ghost var s0, t0 := st, trace;
      SteadyHere(s0);
      LaterHere(t0);
      if st.sess.value.retirement.value.force {
        var readable := Peek();
        var head := if readable then Sha(st.local.repo.head) else Discarded;
        return Passed(Acceptance(Discarded, head, head), {}, None, 0, base);
      }
      var ok := Ask(TreesClean);
      if !ok {
        return CheckFailed;
      }
      ghost var t1 := trace;
      assert Presentable(st.local);
      var w;
      ok, w := Rescue();
      LaterTransitive(t0, t1, trace);
      SteadyKeepsIntent(s0, st);
      if !ok {
        return CheckFailed;
      }
      ghost var t2 := trace;
      ok := NothingUnmerged(w);
      LaterTransitive(t0, t2, trace);
      if !ok {
        return CheckFailed;
      }
      BroughtLater(w, t2);
      NothingMissingHeld(w.ref, w.tip, st.local.repo.head, st.local.alike);
      return Passed(Acceptance(Sha(w.tip), Sha(st.local.repo.head), Sha(st.local.repo.head)), {}, Some(w.look), w.fetch, w.ref);
    }

    /** Whether HEAD can be read; a forced delete does without. */
    method Peek() returns (readable: bool)
      requires Valid()
      modifies this`clock, this`trace, this`blamed
      ensures Valid() && Since(old(trace), old(blamed)) && trace == old(trace) + [Event(st, Peeks)]
    {
      hide Inv, Chronicle;
      readable := will(clock).readable;
      clock := clock + 1;
      Log(st, Peeks);
    }

    /** `git cherry` finds nothing of the fetched branch missing, nor of the
        local one, and the session's issues have landed. */
    method NothingUnmerged(w: Rescued) returns (ok: bool)
      requires Valid() && Retiring(st) && Asked(st.sess.value.retirement.value, AllMerged(w.fetch, w.ref))
      requires FetchedAt(trace, w.fetch, w.look.at, w.tip, w.ref, will, order)
      modifies this`clock, this`trace, this`blamed
      ensures Valid() && Since(old(trace), old(blamed))
      ensures ok ==> NothingMissing(st.local.repo.head, w.ref, st.local.alike)
      ensures !ok ==> blamed > old(clock)
    {
      hide Inv, Chronicle, FetchedAt, Later, NothingMissing;
      ghost var t0 := trace;
      ok := Ask(AllMerged(w.fetch, w.ref));
      if ok {
        ghost var t1 := trace;
        ok := Ask(Works);
        LaterTransitive(t0, t1, trace);
      }
      if ok {
        ghost var t2 := trace;
        ok := Ask(Works);
        LaterTransitive(t0, t2, trace);
      }
    }

    method CheckWork() returns (c: Checked)
      requires Valid() && Retiring(st) && !st.sess.value.retirement.value.phase.Removing?
      modifies this
      ensures Valid() && Steady(old(st), st) && Since(old(trace), old(blamed))
      ensures c.Passed? ==>
                && CheckOk(st, st.sess.value.retirement.value, c.a, c.signed, c.ref, base)
                && if st.sess.value.retirement.value.force then c.a.tip.Discarded? && c.check.None?
                   else Looked(c, old(clock), trace, will, order) && c.check.value.closed == ClosedIn(old(st)) && Presentable(st.local)
      ensures !c.Passed? ==> blamed > old(clock)
    {
      hide Inv, Chronicle, Later, CheckOk, Shows, Means, ReadAt, FetchedAt, AllHeld, NothingMissing, Reach;
      if st.sess.value.retirement.value.op.Merge? {
        NeverForced(st, base, order);
        ghost var how;
        c, how := CheckMerge();
      } else {
        c := CheckDelete();
      }
    }

    /** The session's worktree is as it was, or it is gone and that was allowed:
        forced, or nothing in it was uncommitted. */
    ghost predicate TreeSpared(was: Tree, force: bool)
      reads this
    {
      st.local.worktree == was || (st.local.worktree.Gone? && (force || !was.Dirty?))
    }

    // ----- walking the phases -----

    /** The stored intent, its phase named. */
    ghost predicate In(op: Operation, force: bool, phase: Phase)
      reads this
    {
      && Retiring(st)
      && st.sess.value.retirement.value.op == op && st.sess.value.retirement.value.force == force
      && st.sess.value.retirement.value.phase == phase
    }

    /** One update of the intent. */
    method SaveIntent(r: Intent) returns (saved: bool)
      requires Valid() && st.sess.Some? && Inv(WithIntent(st, r), base, order)
      requires forall id :: IsDone(r, Herdr(id)) ==> Retiring(st) && IsDone(st.sess.value.retirement.value, Herdr(id))
      modifies this
      ensures Valid() && Since(old(trace), old(blamed))
      ensures st == if saved then WithIntent(old(st), r) else old(st)
      ensures !saved ==> blamed > old(clock)
    {
      hide Inv;
      assert ClosesHappened(trace, r, will);
      hide Chronicle;
      saved := Record(Some(st.sess.value.(retirement := Some(r))), st.receipt);
    }

    /** Records why the run stopped. */
    method PauseRetirement() returns (res: Result)
      requires Valid() && Retiring(st)
      modifies this
      ensures Valid() && Evolves(old(st), st) && Since(old(trace), old(blamed))
      ensures res.PausedAt? || res.Crashed?
      ensures st == if res.PausedAt? then WithIntent(old(st), Pause(old(st.sess.value.retirement.value))) else old(st)
    {
      PauseKeeps(st, base, order);
      hide Inv, Chronicle, Later;
      var saved := SaveIntent(Pause(st.sess.value.retirement.value));
      return if saved then PausedAt else Crashed;
    }

    /** Records the intent asked for, raises force on the same delete, or
        refuses when an immutable intent says otherwise. */
    method SettleIntent(op: Operation, force: bool) returns (n: Next)
      requires Valid() && st.sess.Some? && (force ==> op.Delete?)
      modifies this
      ensures Valid() && Evolves(old(st), st) && Since(old(trace), old(blamed))
      ensures n.Onward? ==> Retiring(st) && st.sess.value.retirement.value.op == op && st.sess.value.retirement.value.force == force
      ensures n.Return? ==> st == old(st) && ((n.res.IntentFixed? && Immovable(old(st.sess.value), op, force)) || (n.res.Failed? && blamed > old(clock)))
      ensures Immovable(old(st.sess.value), op, force) ==> n == Return(IntentFixed)
      ensures st.local.worktree == old(st.local.worktree)
    {
      hide Inv, Chronicle, Later;
      LaterHere(trace);
      var intent := st.sess.value.retirement;
      if intent.Some? && (intent.value.op != op || intent.value.force != force)
         && (intent.value.phase.Checking? || intent.value.phase.Paused?)
         && intent.value.accepted == [] && intent.value.effects == map[] {
        intent := None;
      }
      if intent.Some? && intent.value.op.Delete? && op.Delete? && !intent.value.force && force && !intent.value.phase.Removing? {
        var saved := RaiseForce();
        return if saved then Onward else Return(Failed);
      }
      if intent.None? {
        var saved := MakeIntent(op, force);
        return if saved then Onward else Return(Failed);
      }
      if intent.value.op != op || intent.value.force != force {
        return Return(IntentFixed);
      }
      return Onward;
    }

    method RaiseForce() returns (saved: bool)
      requires Valid() && Retiring(st)
      requires st.sess.value.retirement.value.op.Delete? && !st.sess.value.retirement.value.phase.Removing?
      modifies this
      ensures Valid() && Evolves(old(st), st) && Since(old(trace), old(blamed))
      ensures st == if saved then WithIntent(old(st), old(st.sess.value.retirement.value).(force := true)) else old(st)
      ensures !saved ==> blamed > old(clock)
    {
      RaiseKeeps(st, base, order);
      hide Inv, Chronicle, Later;
      saved := SaveIntent(st.sess.value.retirement.value.(force := true));
    }

    /** Reads which branch the user is on, and records the intent for it. */
    method MakeIntent(op: Operation, force: bool) returns (saved: bool)
      requires Valid() && st.sess.Some? && (force ==> op.Delete?)
      requires st.sess.value.retirement.Some? ==> st.sess.value.retirement.value.accepted == [] && st.sess.value.retirement.value.effects == map[]
      modifies this
      ensures Valid() && Evolves(old(st), st) && Since(old(trace), old(blamed))
      ensures st == if saved then WithIntent(old(st), Intent(op, force, Checking, old(st.local.branch), [], {}, map[], false)) else old(st)
      ensures !saved ==> blamed > old(clock)
    {
      NewIntentKeeps(st, op, force, st.local.branch, base, order);
      hide Inv, Chronicle, Later;
      ghost var t0 := trace;
      saved := Ask(Works);
      if saved {
        ghost var t1 := trace;
        saved := SaveIntent(NewIntent(op, force, st.local.branch));
        LaterTransitive(t0, t1, trace);
      }
    }

    /** The evidence is on record beside all there was, and nothing has failed. */
    predicate Recorded(r: Intent, now: Intent, c: Checked) {
      && c.Passed? && c.a in now.accepted && now.signed == r.signed + c.signed && !now.failed
      && now.effects == r.effects && now.branch == r.branch
    }

    /** Records a passed check and moves on. */
    method RecordCheck(c: Checked, phase: Phase) returns (n: Next)
      requires Valid() && Retiring(st) && !st.sess.value.retirement.value.phase.Removing?
      requires c.Passed? ==>
                 && CheckOk(st, st.sess.value.retirement.value, c.a, c.signed, c.ref, base)
                 && LeadsTo(st.sess.value, c.check, c.a, st.sess.value.retirement.value.force, phase)
                 && (if c.check.None? then c.a.tip.Discarded? && st.sess.value.retirement.value.force
                     else Looked(c, 0, trace, will, order) && Presentable(st.local))
      modifies this
      ensures Valid() && Evolves(old(st), st) && Since(old(trace), old(blamed))
      ensures n.Return? ==> (n.res.PausedAt? || n.res.Crashed?) && (c.Passed? ==> blamed > old(clock))
      ensures n.Onward? ==> c.Passed? && st.check == c.check
      ensures n.Onward? ==> In(old(st.sess.value.retirement.value.op), old(st.sess.value.retirement.value.force), phase)
      ensures n.Onward? ==> Retiring(st) && Recorded(old(st.sess.value.retirement.value), st.sess.value.retirement.value, c)
      ensures st.local.worktree == old(st.local.worktree)
    {
      hide Inv, Chronicle, Later, CheckOk, ReadAt, FetchedAt, Overlooks, AppendAcceptance;
      if c.CheckCrashed? {
        LaterHere(trace);
        return Return(Crashed);
      }
      if c.CheckFailed? {
        var res := PauseRetirement();
        return Return(res);
      }
      ghost var before := st;
      ghost var act := Accepts(c.a, c.signed, c.check, c.fetch, c.ref, phase);
      AcceptKeeps(st, c.a, c.signed, c.check, c.ref, phase, base, order);
      AppendNonempty(st.sess.value.retirement.value.accepted, c.a);
      var saved := !will(clock).fails;
      if saved {
        st := Accepting(st, c.a, c.signed, c.check, c.ref, phase, base);
      }
      clock := clock + 1;
      LaterStep(trace, Event(before, act));
      Log(before, act);
      return if saved then Onward else Return(Crashed);
    }

    /** The first check: of a retirement that is checking or was paused. */
    method EarlyCheck(op: Operation, force: bool) returns (n: Next)
      requires Valid() && (In(op, force, Checking) || In(op, force, Paused))
      modifies this
      ensures Valid() && Evolves(old(st), st) && Since(old(trace), old(blamed))
      ensures n.Return? ==> blamed > old(clock) && (n.res.PausedAt? || n.res.Crashed?)
      ensures n.Onward? ==> (In(op, force, Closing) || In(op, force, Removing)) && ReadSince(old(clock), force)
      ensures st.local.worktree == old(st.local.worktree)
    {
      ghost var s0 := st;
      var closed := AttachmentsDone(st.sess.value);
      if closed {
        AttachmentsDoneAreClosed(st, base, order);
      }
      n := CheckAndRecord(if closed then Removing else Closing);
    }

    /** Unforced, the check on record read the tip since moment `lo`. */
    ghost predicate ReadSince(lo: nat, force: bool)
      reads this
    {
      !force ==> st.check.Some? && lo <= st.check.value.at && ReadAt(trace, st.check.value, will, order)
    }

    /** A check, and the update that records it. */
    method CheckAndRecord(phase: Phase) returns (n: Next)
      requires Valid() && Retiring(st) && !st.sess.value.retirement.value.phase.Removing?
      requires phase == Closing || (phase == Removing && AllClosesDone(st.sess.value))
      modifies this
      ensures Valid() && Evolves(old(st), st) && Since(old(trace), old(blamed))
      ensures n.Return? ==> blamed > old(clock) && (n.res.PausedAt? || n.res.Crashed?)
      ensures n.Onward? ==> In(old(st.sess.value.retirement.value.op), old(st.sess.value.retirement.value.force), phase)
      ensures n.Onward? ==> ReadSince(old(clock), old(st.sess.value.retirement.value.force))
      ensures st.local.worktree == old(st.local.worktree)
    {
      hide Inv, Lists, Chronicle, Later, CheckOk, ReadAt, FetchedAt, Evolves, Steady;
      ghost var s0, t0 := st, trace;
      var c := CheckWork();
      SteadyEvolves(s0, st);
      SteadyKeepsIntent(s0, st);
      SteadyCloses(s0, st);
      ghost var s1, t1 := st, trace;
      n := RecordCheck(c, phase);
      EvolvesTransitive(s0, s1, st);
      LaterTransitive(t0, t1, trace);
      if n.Onward? && c.check.Some? {
        LaterReads(t1, trace, c.check.value, will, order);
      }
    }

    /** The final check, made with every attachment closed: it reads the tip
        again. */
    method FinalCheckWork(op: Operation, force: bool) returns (n: Next)
      requires Valid() && In(op, force, FinalCheck)
      modifies this
      ensures Valid() && Evolves(old(st), st) && Since(old(trace), old(blamed))
      ensures n.Return? ==> blamed > old(clock) && (n.res.PausedAt? || n.res.Crashed?)
      ensures n.Onward? ==> In(op, force, Removing) && ReadSince(old(clock), force)
      ensures st.local.worktree == old(st.local.worktree)
    {
      FinalCheckClosed(st, base, order);
      n := CheckAndRecord(Removing);
    }

    // ----- closing the attachments -----

    /** The store's update once the attachment's workspace is closed. */
    method RecordClosed(op: Operation, force: bool, id: nat) returns (saved: bool)
      requires Valid() && In(op, force, Closing) && Herdr(id) in st.sess.value.retirement.value.effects && HasClosed(trace, id, will)
      modifies this
      ensures Valid() && Evolves(old(st), st) && In(op, force, Closing) && Since(old(trace), old(blamed))
      ensures SameIds(old(st.sess.value.attachments), st.sess.value.attachments)
      ensures forall k :: IsDone(old(st.sess.value.retirement.value), k) ==> IsDone(st.sess.value.retirement.value, k)
      ensures saved ==> IsDone(st.sess.value.retirement.value, Herdr(id))
      ensures !saved ==> blamed > old(clock)
      ensures st.local.worktree == old(st.local.worktree)
    {
      CompleteAttachmentKeeps(st, id, base, order);
      hide Inv, Lists, Later, HasClosed;
      assert ClosesHappened(trace, MarkDone(st.sess.value.retirement.value, Herdr(id)), will);
      hide Chronicle;
      saved := Record(Some(CompleteAttachment(st.sess.value, id)), st.receipt);
    }

    /** Asks Herdr to close the workspace. Force steps over one that can no
        longer be shown to be the session's, and over nothing else. */
    method CloseWorkspace(op: Operation, force: bool, id: nat) returns (ok: bool)
      requires Valid() && In(op, force, Closing)
      modifies this`clock, this`trace, this`blamed
      ensures Valid() && Since(old(trace), old(blamed)) && trace == old(trace) + [Event(st, Closes(id))]
      ensures ok == var close := will(old(clock)).close; close.None? || (force && close.value.Unproven?)
      ensures ok ==> HasClosed(trace, id, will)
      ensures !ok ==> blamed > old(clock)
    {
      hide Inv, Chronicle;
      var failure := will(clock).close;
      ok := !(failure.Some? && (!force || failure.value.OtherFailure?));
      clock := clock + 1;
      Log(st, Closes(id));
      assert ok ==> ClosedAt(trace, old(clock), id, will);
    }

    /** Closes one attachment: intends, closes, records. */
    method CloseOne(op: Operation, force: bool, id: nat) returns (n: Next)
      requires Valid() && In(op, force, Closing)
      modifies this
      ensures Valid() && Evolves(old(st), st) && Since(old(trace), old(blamed))
      ensures n.Return? ==> blamed > old(clock) && (n.res.PausedAt? || n.res.Crashed?)
      ensures n.Onward? ==>
                && In(op, force, Closing)
                && SameIds(old(st.sess.value.attachments), st.sess.value.attachments)
                && IsDone(st.sess.value.retirement.value, Herdr(id))
                && forall k :: IsDone(old(st.sess.value.retirement.value), k) ==> IsDone(st.sess.value.retirement.value, k)
      ensures st.local.worktree == old(st.local.worktree)
    {
      IntendAttachmentKeeps(st, id, base, order);
      hide Inv, Lists, Chronicle, Later, Evolves, IsDone;
      ghost var s0, t0 := st, trace;
      var saved := Intend(Herdr(id));
      if !saved {
        return Return(Crashed);
      }
      ghost var s1, t1 := st, trace;
      n := CloseIntended(op, force, id);
      EvolvesTransitive(s0, s1, st);
      LaterTransitive(t0, t1, trace);
    }

    /** Records that an effect is about to be applied; then others have their
        turn before it is. */
    method Intend(key: EffectKey) returns (saved: bool)
      requires Valid() && Retiring(st)
      requires var st' := WithIntent(st, IntendEffect(st.sess.value.retirement.value, key)); Inv(st', base, order) && Evolves(st, st')
      modifies this
      ensures Valid() && Evolves(old(st), st) && Since(old(trace), old(blamed))
      ensures saved ==>
                && Retiring(st) && st.sess.value.retirement.value == IntendEffect(old(st.sess.value.retirement.value), key)
                && st.local == old(st.local) && SameIds(old(st.sess.value.attachments), st.sess.value.attachments)
                && key in st.sess.value.retirement.value.effects
                && forall k :: IsDone(old(st.sess.value.retirement.value), k) ==> IsDone(st.sess.value.retirement.value, k)
      ensures !saved ==> st == old(st) && blamed > old(clock)
      ensures st.local.worktree == old(st.local.worktree)
    {
      hide Inv, Chronicle, Later, Evolves;
      ghost var s0, t0 := st, trace;
      SteadyEvolves(s0, s0);
      saved := SaveIntent(IntendEffect(st.sess.value.retirement.value, key));
      if saved {
        ghost var s1, t1 := st, trace;
        Meanwhile();
        EvolvesTransitive(s0, s1, st);
        LaterTransitive(t0, t1, trace);
      }
    }

    method CloseIntended(op: Operation, force: bool, id: nat) returns (n: Next)
      requires Valid() && In(op, force, Closing) && Herdr(id) in st.sess.value.retirement.value.effects
      modifies this
      ensures Valid() && Evolves(old(st), st) && Since(old(trace), old(blamed))
      ensures n.Return? ==> blamed > old(clock) && (n.res.PausedAt? || n.res.Crashed?)
      ensures n.Onward? ==>
                && In(op, force, Closing)
                && SameIds(old(st.sess.value.attachments), st.sess.value.attachments)
                && IsDone(st.sess.value.retirement.value, Herdr(id))
                && forall k :: IsDone(old(st.sess.value.retirement.value), k) ==> IsDone(st.sess.value.retirement.value, k)
      ensures st.local.worktree == old(st.local.worktree)
    {
      hide Inv, Lists, Chronicle, Later, Evolves;
      ghost var t0 := trace;
      var closed := CloseWorkspace(op, force, id);
      ghost var t1 := trace;
      if !closed {
        var res := PauseRetirement();
        LaterTransitive(t0, t1, trace);
        return Return(res);
      }
      var saved := RecordClosed(op, force, id);
      LaterTransitive(t0, t1, trace);
      return if saved then Onward else Return(Crashed);
    }

    /** Closes each attachment of the list read at the start that was not
        closed then. */
    method CloseEach(op: Operation, force: bool, attachments: seq<Attachment>) returns (n: Next)
      requires Valid() && In(op, force, Closing) && attachments == st.sess.value.attachments
      requires forall j :: 0 <= j < |attachments| && attachments[j].phase.Closed? ==> IsDone(st.sess.value.retirement.value, Herdr(attachments[j].id))
      modifies this
      ensures Valid() && Evolves(old(st), st) && Since(old(trace), old(blamed))
      ensures n.Return? ==> blamed > old(clock) && (n.res.PausedAt? || n.res.Crashed?)
      ensures n.Onward? ==> In(op, force, Closing) && SameIds(attachments, st.sess.value.attachments)
      ensures n.Onward? ==> forall j :: 0 <= j < |attachments| ==> IsDone(st.sess.value.retirement.value, Herdr(attachments[j].id))
      ensures st.local.worktree == old(st.local.worktree)
    {
      hide Inv, Chronicle, Later, Evolves, IsDone;
      ghost var s0, t0 := st, trace;
      SteadyEvolves(s0, s0);
      LaterHere(t0);
      var i := 0;
      while i < |attachments|
        invariant 0 <= i <= |attachments|
        invariant Valid() && In(op, force, Closing) && Evolves(s0, st) && Since(t0, old(blamed))
        invariant SameIds(attachments, st.sess.value.attachments) && st.local.worktree == old(st.local.worktree)
        invariant forall j :: 0 <= j < |attachments| && (j < i || attachments[j].phase.Closed?) ==> IsDone(st.sess.value.retirement.value, Herdr(attachments[j].id))
      {
        if !attachments[i].phase.Closed? {
          ghost var s1, t1 := st, trace;
          n := CloseOne(op, force, attachments[i].id);
          EvolvesTransitive(s0, s1, st);
          LaterTransitive(t0, t1, trace);
          if n.Return? {
            return;
          }
        }
        i := i + 1;
      }
      return Onward;
    }

    /** Closes every attachment not closed yet, then moves to the final check. */
    method CloseAttachments(op: Operation, force: bool) returns (n: Next)
      requires Valid() && In(op, force, Closing)
      modifies this
      ensures Valid() && Evolves(old(st), st) && Since(old(trace), old(blamed))
      ensures n.Return? ==> blamed > old(clock) && (n.res.PausedAt? || n.res.Crashed?)
      ensures n.Onward? ==> In(op, force, FinalCheck)
      ensures st.local.worktree == old(st.local.worktree)
    {
      hide Inv, Lists, Chronicle, Later;
      ghost var s0, t0 := st, trace;
      var attachments := st.sess.value.attachments;
      ClosedAreDone(st, base, order);
      n := CloseEach(op, force, attachments);
      if n.Return? {
        return;
      }
      ghost var s1, t1 := st, trace;
      FinalCheckKeeps(st, base, order);
      var saved := SaveIntent(st.sess.value.retirement.value.(phase := FinalCheck));
      EvolvesTransitive(s0, s1, st);
      LaterTransitive(t0, t1, trace);
      return if saved then Onward else Return(Crashed);
    }

    // ----- removing -----

    /** The user's branch is where the last acceptance was verified. */
    ghost predicate Validated(force: bool)
      requires Retiring(st)
      reads this
    {
      var accepted := st.sess.value.retirement.value.accepted;
      !force ==> accepted != [] && Last(accepted).verifiedHead == Sha(st.local.repo.head)
    }

    /** The check-and-remove script on the instance: one step. Without force it
        asks for the accepted tip and a clean tree; its reply may be lost. */
    method RemoveRemoteCheckout(op: Operation, force: bool, expected: Name) returns (ok: bool)
      requires Valid() && In(op, force, Removing) && Validated(force)
      requires st.sess.value.retirement.value.accepted != [] && Last(st.sess.value.retirement.value.accepted).tip == expected
      modifies this
      ensures Valid() && Evolves(old(st), st) && Since(old(trace), old(blamed)) && trace == old(trace) + [Event(old(st), Removes(RemoteCheckout))]
      ensures st == old(st).(remote := old(st.remote).(present := st.remote.present))
      ensures ok ==> !st.remote.present
      ensures old(st.remote.present) && !st.remote.present ==> SafeRemoval(old(st), base)
      ensures !ok ==> blamed > old(clock)
    {
      hide Inv, Lists, Chronicle, SafeRemoval, Effect, Granted, Legit, Evolves, EffectReal;
      ghost var before := st;
      var f := will(clock);
      RemovesEffect(trace, st, RemoteCheckout, will, base, order);
      ok := !st.remote.present || force || (expected == Sha(st.remote.tip) && !st.remote.dirty);
      if st.remote.present && ok && (!f.fails || f.applied) {
        RemovalIsSafe(st, base, order);
        st := st.(remote := st.remote.(present := false));
      }
      ok := ok && !f.fails;
      EffectKeeps(before, Removes(RemoteCheckout), f, base, order);
      clock := clock + 1;
      Log(before, Removes(RemoteCheckout));
    }

    /** Every other cleanup: refuses, fails, or leaves the thing gone. */
    method RemoveLocally(op: Operation, force: bool, key: EffectKey) returns (ok: bool)
      requires Valid() && In(op, force, Removing) && !key.RemoteCheckout? && st.sess.value.retirement.value.accepted != []
      modifies this
      ensures Valid() && Evolves(old(st), st) && Since(old(trace), old(blamed)) && trace == old(trace) + [Event(old(st), Removes(key))]
      ensures st.local == old(st.local) || st.local == Without(old(st.local), key)
      ensures st == old(st).(local := st.local)
      ensures ok ==> EffectReal(key, st.remote, st.local)
      ensures !ok ==> blamed > old(clock)
      ensures TreeSpared(old(st.local.worktree), force)
      ensures key.LocalWorktree? && !force && old(st.local.worktree.Dirty?) ==> !ok && st == old(st)
    {
      hide Inv, Lists, Chronicle, SafeRemoval, EffectReal, Effect, Granted, Legit, Evolves;
      ghost var before := st;
      var f := will(clock);
      RemovesEffect(trace, st, key, will, base, order);
      ok := !key.LocalWorktree? || force || !st.local.worktree.Dirty?;
      RemoveEffect(st, key, base, order);
      if ok && (!f.fails || f.applied) {
        st := st.(local := Without(st.local, key));
      }
      ok := ok && !f.fails;
      EffectKeeps(before, Removes(key), f, base, order);
      clock := clock + 1;
      Log(before, Removes(key));
    }

    method ApplyEffect(op: Operation, force: bool, key: EffectKey) returns (ok: bool)
      requires Valid() && In(op, force, Removing) && st.sess.value.retirement.value.accepted != [] && Validated(force)
      modifies this
      ensures Valid() && Evolves(old(st), st) && Since(old(trace), old(blamed))
      ensures st.sess == old(st.sess) && st.local.repo.head == old(st.local.repo.head)
      ensures ok ==> EffectReal(key, st.remote, st.local)
      ensures !ok ==> blamed > old(clock)
      ensures TreeSpared(old(st.local.worktree), force)
    {
      hide Inv, Chronicle, Later, Evolves, SafeRemoval;
      if key.RemoteCheckout? {
        ok := RemoveRemoteCheckout(op, force, Last(st.sess.value.retirement.value.accepted).tip);
      } else {
        ok := RemoveLocally(op, force, key);
      }
    }

    method RecordDone(key: EffectKey) returns (saved: bool)
      requires Valid() && Retiring(st) && st.sess.value.retirement.value.phase.Removing?
      requires !key.Herdr? && key in st.sess.value.retirement.value.effects && EffectReal(key, st.remote, st.local)
      modifies this
      ensures Valid() && Evolves(old(st), st) && Since(old(trace), old(blamed))
      ensures st == if saved then WithIntent(old(st), MarkDone(old(st.sess.value.retirement.value), key)) else old(st)
      ensures !saved ==> blamed > old(clock)
    {
      CleanupDoneKeeps(st, key, base, order);
      hide Inv, Chronicle, Later;
      saved := SaveIntent(MarkDone(st.sess.value.retirement.value, key));
    }

    /** Applies an intended effect and records it done; None is a crash. */
    method ApplyAndRecord(op: Operation, force: bool, key: EffectKey) returns (n: Option<bool>)
      requires Valid() && In(op, force, Removing) && Validated(force)
      requires !key.Herdr? && key in st.sess.value.retirement.value.effects && st.sess.value.retirement.value.accepted != []
      modifies this
      ensures Valid() && Evolves(old(st), st) && Since(old(trace), old(blamed)) && In(op, force, Removing) && Validated(force)
      ensures st.sess.value.attachments == old(st.sess.value.attachments)
      ensures n == Some(true) ==> IsDone(st.sess.value.retirement.value, key)
      ensures n != Some(true) ==> blamed > old(clock)
      ensures forall k :: IsDone(old(st.sess.value.retirement.value), k) ==> IsDone(st.sess.value.retirement.value, k)
      ensures TreeSpared(old(st.local.worktree), force)
    {
      hide Inv, Chronicle, Later, Evolves, EffectReal;
      ghost var s0, t0 := st, trace;
      var ok := ApplyEffect(op, force, key);
      ghost var s1, t1 := st, trace;
      if !ok {
        return Some(false);
      }
      var saved := RecordDone(key);
      EvolvesTransitive(s0, s1, st);
      LaterTransitive(t0, t1, trace);
      return if saved then Some(true) else None;
    }

    /** One cleanup effect: intended, applied, recorded. */
    method RunEffect(op: Operation, force: bool, i: nat) returns (n: Option<bool>)
      requires Valid() && In(op, force, Removing) && Validated(force) && i < |EFFECT_ORDER|
      requires !force ==> forall j :: 0 <= j < i ==> IsDone(st.sess.value.retirement.value, EFFECT_ORDER[j])
      modifies this
      ensures Valid() && Evolves(old(st), st) && Since(old(trace), old(blamed)) && In(op, force, Removing) && Validated(force)
      ensures SameIds(old(st.sess.value.attachments), st.sess.value.attachments)
      ensures n == Some(true) ==> IsDone(st.sess.value.retirement.value, EFFECT_ORDER[i])
      ensures n != Some(true) ==> blamed > old(clock)
      ensures forall k :: IsDone(old(st.sess.value.retirement.value), k) ==> IsDone(st.sess.value.retirement.value, k)
      ensures TreeSpared(old(st.local.worktree), force)
    {
      hide Inv, Lists, Chronicle, Later, Evolves, IsDone;
      ghost var s0, t0 := st, trace;
      SteadyEvolves(s0, s0);
      LaterHere(t0);
      if IsDone(st.sess.value.retirement.value, EFFECT_ORDER[i]) {
        return Some(true);
      }
      RemovingAccepted(st, base, order);
      IntendCleanupKeeps(st, i, base, order);
      var saved := Intend(EFFECT_ORDER[i]);
      if !saved {
        return None;
      }
      ghost var s1, t1 := st, trace;
      n := ApplyAndRecord(op, force, EFFECT_ORDER[i]);
      EvolvesTransitive(s0, s1, st);
      LaterTransitive(t0, t1, trace);
    }

    /** The cleanup in its fixed order. Unforced it stops at the first failure;
        forced it goes on, and reports the failures at the end. */
    method RunRetirementEffects(op: Operation, force: bool) returns (n: Next)
      requires Valid() && In(op, force, Removing) && Validated(force)
      modifies this
      ensures Valid() && Evolves(old(st), st) && Since(old(trace), old(blamed)) && In(op, force, Removing)
      ensures n.Return? ==> blamed > old(clock)
      ensures n.Onward? ==> EffectsDone(st.sess.value)
      ensures TreeSpared(old(st.local.worktree), force)
    {
      hide Inv, Lists, Chronicle, Later, Evolves, EffectsDone, IsDone;
      ghost var s0, t0 := st, trace;
      SteadyEvolves(s0, s0);
      LaterHere(t0);
      var failures := false;
      var i := 0;
      while i < |EFFECT_ORDER|
        invariant 0 <= i <= |EFFECT_ORDER|
        invariant Valid() && In(op, force, Removing) && Evolves(s0, st) && Since(t0, old(blamed)) && Validated(force)
        invariant TreeSpared(old(st.local.worktree), force)
        invariant failures ==> force && blamed > old(clock)
        invariant !failures ==> forall j :: 0 <= j < i ==> IsDone(st.sess.value.retirement.value, EFFECT_ORDER[j])
      {
        ghost var s1, t1 := st, trace;
        var done := RunEffect(op, force, i);
        EvolvesTransitive(s0, s1, st);
        LaterTransitive(t0, t1, trace);
        if done.None? {
          return Return(Crashed);
        }
        if !done.value {
          failures := true;
          if !force {
            return Return(Failed);
          }
        }
        i := i + 1;
      }
      if failures {
        return Return(Failed);
      }
      EffectsAllDone(st, base, order);
      return Onward;
    }

    /** The last phase, up to the receipt. */
    method Remove(op: Operation, force: bool) returns (res: Result)
      requires Valid() && In(op, force, Removing)
      modifies this
      ensures Valid() && Evolves(old(st), st) && Since(old(trace), old(blamed))
      ensures res.Completed? || ((res.PausedAt? || res.Crashed?) && blamed > old(clock))
      ensures res.Completed? ==> st.sess.None? && st.receipt.Some? && st.receipt.value.op == op && AllGone(st.remote, st.local)
      ensures TreeSpared(old(st.local.worktree), force)
    {
      RemovingAccepted(st, base, order);
      hide Inv, Lists, Chronicle, Later, EffectsDone, Evolves, AllGone;
      ghost var s0, t0 := st, trace;
      if st.sess.value.retirement.value.accepted == [] {
        assert false;
      }
      var valid := Validate();
      ghost var t1 := trace;
      if !valid {
        res := PauseRetirement();
        LaterTransitive(t0, t1, trace);
        return;
      }
      DiscardsOnlyForced(st, base, order);
      var n := RunRetirementEffects(op, force);
      LaterTransitive(t0, t1, trace);
      ghost var s2, t2 := st, trace;
      if n.Return? {
        if n.res.Crashed? {
          return Crashed;
        }
        res := PauseRetirement();
        EvolvesTransitive(s0, s2, st);
        LaterTransitive(t0, t2, trace);
        return;
      }
      if !EffectsDone(st.sess.value) {
        assert false;
      }
      var saved := Complete(op);
      EvolvesTransitive(s0, s2, st);
      LaterTransitive(t0, t2, trace);
      return if saved then Completed else Crashed;
    }

    /** The session is dropped and its receipt kept, in one update. */
    method Complete(op: Operation) returns (saved: bool)
      requires Valid() && Retiring(st) && st.sess.value.retirement.value.op == op && EffectsDone(st.sess.value)
      modifies this
      ensures Valid() && Evolves(old(st), st) && Since(old(trace), old(blamed))
      ensures st == if saved then old(st).(sess := None, receipt := Some(Receipt(op, old(st.sess.value.retirement.value.signed)))) else old(st)
      ensures saved ==> AllGone(st.remote, st.local)
      ensures !saved ==> blamed > old(clock)
    {
      CompletionKeeps(st, base, order);
      hide Inv, Lists, Later, HasClosed;
      var r := st.sess.value.retirement.value;
      assert ClosesHappened(trace, r, will) && AllClosesDone(st.sess.value);
      hide Chronicle;
      saved := Record(None, Some(Receipt(r.op, r.signed)));
    }

    // ----- the whole call -----

    /** Retires the session, from whatever state an earlier call, a crash or a
        re-attach left it in: it completes, or says what excludes it, or some
        step of this very call failed or refused. It never runs off its end. */
    method RetireSession(op: Operation, force: bool) returns (res: Result)
      requires Valid()
      modifies this
      ensures Valid() && Evolves(old(st), st) && Since(old(trace), old(blamed))
      ensures
        if force && op.Merge? then res.InvalidOptions? && st == old(st)
        else if old(st.sess.None?) then
          res == (if old(st.receipt.Some? && st.receipt.value.op == op) then AlreadyCompleted else NoSession) && st == old(st)
        else if !old(st.sess.value.known) then res.OwnershipUnknown? && st == old(st)
        else if var r := old(st.sess.value.retirement);
                r.Some? && (r.value.op != op || (r.value.force != force && (r.value.force || r.value.phase.Removing?)))
                && (r.value.accepted != [] || r.value.effects != map[] || !(r.value.phase.Checking? || r.value.phase.Paused?))
        then res.IntentFixed? && st == old(st)
        else
          || res.Completed?
          || ((res.Failed? || res.PausedAt? || res.Crashed?) && exists k: nat :: old(clock) <= k && ObstructedAt(trace, k, will, order))
      ensures res.Completed? ==> st.sess.None? && st.receipt.Some? && st.receipt.value.op == op && AllGone(st.remote, st.local)
      ensures TreeSpared(old(st.local.worktree), force)
      ensures !force && old(st.local.worktree.Dirty?) ==> st.local.worktree.Dirty? && !res.Completed?
    {
      hide Inv, Lists, Chronicle, Later, Evolves, StopsAt, ObstructedAt;
      SteadyEvolves(st, st);
      LaterHere(trace);
      if force && op.Merge? {
        return InvalidOptions;
      }
      if st.sess.None? {
        return if st.receipt.Some? && st.receipt.value.op == op then AlreadyCompleted else NoSession;
      }
      if !st.sess.value.known {
        return OwnershipUnknown;
      }
      ghost var s0, t0 := st, trace;
      var n := SettleIntent(op, force);
      if n.Return? {
        Blamed();
        return n.res;
      }
      ghost var s1, t1 := st, trace;
      res := WalkPhases(op, force);
      EvolvesTransitive(s0, s1, st);
      LaterTransitive(t0, t1, trace);
      Blamed();
    }

    lemma Blamed()
      requires Valid()
      ensures blamed > 0 ==> ObstructedAt(trace, blamed - 1, will, order)
    {
      hide Inv, Chronicle;
      if blamed > 0 {
        StopsObstructed(trace, blamed - 1, will, order);
      }
    }

    /** The phases in order, each entered if the record says so. */
    method WalkPhases(op: Operation, force: bool) returns (res: Result)
      requires Valid() && Retiring(st) && st.sess.value.retirement.value.op == op && st.sess.value.retirement.value.force == force
      modifies this
      ensures Valid() && Evolves(old(st), st) && Since(old(trace), old(blamed))
      ensures res.Completed? || ((res.PausedAt? || res.Crashed?) && blamed > old(clock))
      ensures res.Completed? ==> st.sess.None? && st.receipt.Some? && st.receipt.value.op == op && AllGone(st.remote, st.local)
      ensures TreeSpared(old(st.local.worktree), force)
    {
      hide Inv, Lists, Chronicle, Later, Evolves, AllGone, StopsAt, ReadSince;
      ghost var s0, t0 := st, trace;
      SteadyEvolves(s0, s0);
      LaterHere(t0);
      var n;
      if st.sess.value.retirement.value.phase.Checking? || st.sess.value.retirement.value.phase.Paused? {
        n := EarlyCheck(op, force);
        if n.Return? {
          return n.res;
        }
      }
      ghost var s2, t2 := st, trace;
      if st.sess.value.retirement.value.phase.Closing? {
        n := CloseAttachments(op, force);
        EvolvesTransitive(s0, s2, st);
        LaterTransitive(t0, t2, trace);
        if n.Return? {
          return n.res;
        }
      }
      ghost var s3, t3 := st, trace;
      res := LastPhases(op, force);
      EvolvesTransitive(s0, s3, st);
      LaterTransitive(t0, t3, trace);
    }

    method LastPhases(op: Operation, force: bool) returns (res: Result)
      requires Valid() && (In(op, force, FinalCheck) || In(op, force, Removing))
      modifies this
      ensures Valid() && Evolves(old(st), st) && Since(old(trace), old(blamed))
      ensures res.Completed? || ((res.PausedAt? || res.Crashed?) && blamed > old(clock))
      ensures res.Completed? ==> st.sess.None? && st.receipt.Some? && st.receipt.value.op == op && AllGone(st.remote, st.local)
      ensures TreeSpared(old(st.local.worktree), force)
    {
      hide Inv, Lists, Chronicle, Later, Evolves, AllGone, ReadSince;
      ghost var s0, t0 := st, trace;
      SteadyEvolves(s0, s0);
      LaterHere(t0);
      if st.sess.value.retirement.value.phase.FinalCheck? {
        var n := FinalCheckWork(op, force);
        if n.Return? {
          return n.res;
        }
      }
      ghost var s1, t1 := st, trace;
      if st.sess.value.retirement.value.phase.Removing? {
        res := Remove(op, force);
        EvolvesTransitive(s0, s1, st);
        LaterTransitive(t0, t1, trace);
        return;
      }
      return FellThrough;
    }

    // ----- what may come between two calls -----

    /** Back to checking, with what was accepted and what was closed, and with
        nothing else that was begun. */
    ghost predicate VoidsFinalEvidence(r: Intent, r': Intent) {
      && r'.phase == Checking && !r'.failed
      && r'.op == r.op && r'.force == r.force && r'.branch == r.branch && r'.accepted == r.accepted && r'.signed == r.signed
      && forall k :: (k in r'.effects <==> k in r.effects && k.Herdr?) && (k in r'.effects ==> r'.effects[k] == r.effects[k])
    }

    /** A client asks to attach: refused while a retirement is past its first
        check and not paused. */
    method Attach(id: nat)
      requires Valid()
      modifies this
      ensures Valid() && Evolves(old(st), st) && trace == old(trace) + [Event(old(st), Attaches(id))]
      ensures st == old(st).(sess := st.sess)
      ensures
        var was := old(st.sess);
        if was.None? || !was.value.known || (was.value.retirement.Some? && was.value.retirement.value.phase != Paused) then st.sess == was
        else
          && st.sess.Some? && st.sess.value.known && st.sess.value.attachments == was.value.attachments + [Attachment(id, Creating)]
          && (st.sess.value.retirement.Some? <==> was.value.retirement.Some?)
          && (was.value.retirement.Some? ==> VoidsFinalEvidence(was.value.retirement.value, st.sess.value.retirement.value))
    {
      hide Inv, Chronicle;
      ghost var before := st;
      if st.sess.Some? && MayAttach(st.sess.value) {
        st := st.(sess := Some(AddAttachment(st.sess.value, id)));
      }
      EffectKeeps(before, Attaches(id), will(clock), base, order);
      clock := clock + 1;
      Log(before, Attaches(id));
    }

    /** The user moves the destination branch anywhere, or ends a pick. */
    method MoveBranch(head: Commit, picking: Option<Commit>)
      requires Valid()
      modifies this
      ensures Valid() && Evolves(old(st), st) && trace == old(trace) + [Event(old(st), Moves(head, picking))]
      ensures st == old(st).(local := old(st.local).(repo := old(st.local.repo).(head := head, picking := picking)))
    {
      hide Inv, Chronicle;
      ghost var before := st;
      st := st.(local := st.local.(repo := st.local.repo.(head := head, picking := picking)));
      EffectKeeps(before, Moves(head, picking), will(clock), base, order);
      clock := clock + 1;
      Log(before, Moves(head, picking));
    }

    /** The user checks out another branch, or edits either worktree. */
    method EditTrees(branch: string, tidy: bool, dirty: bool)
      requires Valid()
      modifies this
      ensures Valid() && Evolves(old(st), st) && trace == old(trace) + [Event(old(st), Edits(branch, tidy, dirty))]
      ensures st == old(st).(local := old(st.local).(branch := branch, tidy := tidy, worktree := st.local.worktree))
    {
      hide Inv, Chronicle;
      ghost var before := st;
      var worktree := if st.local.worktree.Gone? then Gone else if dirty then Dirty else Clean;
      st := st.(local := st.local.(branch := branch, tidy := tidy, worktree := worktree));
      EffectKeeps(before, Edits(branch, tidy, dirty), will(clock), base, order);
      clock := clock + 1;
      Log(before, Edits(branch, tidy, dirty));
    }

    /** Over every run of calls, crashes, resumes, agent commits, re-attaches
        and moves of the user's branch: a checkout that is gone was removed at a
        moment when that was safe, with the tip and the tree it then had, and
        the work in it was home unless one of the named harms was done before --
        which in a benign history none is. */
    method AnyHistory(script: seq<Turn>)
      requires Valid()
      modifies this
      ensures Valid() && Evolves(old(st), st) && old(trace) <= trace
      ensures !st.remote.present ==>
                exists k: nat ::
                  && RemovedAt(trace, k, st.remote, will, base, order)
                  && (Harmless(trace[..k], will, base, order) || Benign(trace, will, base, order) ==> WorkIsHome(trace[k].was, base))
      ensures forall k: nat :: WorktreeTaken(trace, k, st) ==>
                Retiring(trace[k].was) && (trace[k].was.sess.value.retirement.value.force || !trace[k].was.local.worktree.Dirty?)
      ensures forall k: nat :: k < |trace| && trace[k].act.Accepts? ==>
                Retiring(trace[k].was) && (trace[k].was.sess.value.retirement.value.force || Presentable(trace[k].was.local))
      ensures forall k: nat :: k < |trace| && trace[k].was.sess.Some? && StateAt(trace, k + 1, st).sess.None? ==>
                AllHaveClosed(trace[..k], trace[k].was.sess.value, will)
      ensures st.strayed <==> exists k: nat :: HarmAt(trace, k, will, base, order)
      ensures st.sess.None? && st.receipt.Some? ==> AllGone(st.remote, st.local) && AllGood(st.receipt.value.signed)
    {
      ghost var s0 := st;
      PlayScript(script);
      StrayedExactly(trace, origin, st, will, base, order);
      forall k: nat | WorktreeTaken(trace, k, st)
        ensures Retiring(trace[k].was) && (trace[k].was.sess.value.retirement.value.force || !trace[k].was.local.worktree.Dirty?)
      {
        WorktreeSpared(trace, origin, st, k, will, base, order);
      }
      forall k: nat | k < |trace| && trace[k].act.Accepts?
        ensures Retiring(trace[k].was) && (trace[k].was.sess.value.retirement.value.force || Presentable(trace[k].was.local))
      {
        AcceptedPresentable(trace, origin, st, k, will, base, order);
      }
      forall k: nat | k < |trace| && trace[k].was.sess.Some? && StateAt(trace, k + 1, st).sess.None?
        ensures AllHaveClosed(trace[..k], trace[k].was.sess.value, will)
      {
        DroppedClosed(trace, origin, st, k, will, base, order);
      }
      if !st.remote.present {
        ghost var k: nat :| RemovedAt(trace, k, st.remote, will, base, order);
        RemovedWorkIsHome(trace, origin, st, k, will, base, order);
      }
    }

    method PlayScript(script: seq<Turn>)
      requires Valid()
      modifies this
      ensures Valid() && Evolves(old(st), st) && old(trace) <= trace
    {
      hide Inv, Chronicle, Evolves, Lists;
      ghost var s0, t0 := st, trace;
      SteadyEvolves(s0, s0);
      for i := 0 to |script|
        invariant Valid() && Evolves(s0, st) && t0 <= trace
      {
        ghost var s1, t1 := st, trace;
        match script[i] {
          case Retire(op, force) =>
            var res := RetireSession(op, force);
          case UserAttaches(id) =>
            Attach(id);
          case UserMoves(head, picking) =>
            MoveBranch(head, picking);
          case UserEdits(branch, tidy, dirty) =>
            EditTrees(branch, tidy, dirty);
          case Others =>
            Meanwhile();
        }
        EvolvesTransitive(s0, s1, st);
      }
    }
  }
}

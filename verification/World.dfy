/** Everything that happens to one session, event by event: what the program
    does, what the world makes of it, and what the user does in between. */
module World {
  import opened Options
  import opened Git
  import opened Replay
  import opened ReplayCoverage
  import opened Retirement
  import opened RetirementInvariant

  datatype CloseFailure = Unproven | OtherFailure

  datatype Agent = Idle | Sets(tip: Commit, dirty: bool)

  /** What one moment has in store for whatever is done then: whether a step
      fails, and if so whether it took effect all the same; what the agent and
      other clients do if they get their turn; how a close ends; whether HEAD
      can be read; what becomes of each pick of a replay, and after how many
      writes it dies. */
  datatype Fortune = Fortune(
    fails: bool, applied: bool, agent: Agent, client: Option<nat>, close: Option<CloseFailure>,
    readable: bool, fates: nat -> Fate, life: nat)

  /** What the program asks, and a run stops where the answer is no. */
  datatype Question =
    | Works                                   // the step has only failing to refuse with
    | TreesClean
    | OnBranch                                // on the branch the intent was recorded on
    | AtHead                                  // at the head the last acceptance was verified on
    | StillSigned                             // its commits since the replay base
    | Descends(at: nat, tip: Commit)          // the tip just read, from the one accepted last
    | AllMerged(fetch: nat, ref: Commit)      // the branch just fetched
    | NewlySigned(run: nat, from: Commit)     // what the run just made

  datatype Act =
    | Waits | Peeks | Asks(q: Question)
    | Checkpoints | Reads
    | Fetches(at: nat, tip: Commit)
    | Replays(fetch: nat, from: Commit, ref: Commit)
    | Records(sess: Option<Session>, receipt: Option<Receipt>)
    | Accepts(a: Acceptance, signed: set<Commit>, check: Option<Check>, fetch: nat, ref: Commit, phase: Phase)
    | Closes(id: nat)
    | Removes(key: EffectKey)
    | Moves(head: Commit, picking: Option<Commit>)
    | Edits(branch: string, tidy: bool, dirty: bool)
    | Attaches(id: nat)

  /** An act, and the state it was done in. */
  datatype Event = Event(was: State, act: Act)

  // ----- one event -----

  predicate Retiring(st: State) {
    st.sess.Some? && st.sess.value.retirement.Some?
  }

  /** What `verifySignatures` asks of an acceptance's range. */
  predicate SignedSince(a: Acceptance) {
    a.replayBase.Sha? && a.verifiedHead.Sha? && AllGood(Range(a.replayBase.c, a.verifiedHead.c))
  }

  predicate Answer(st: State, q: Question)
    requires q.Works? || Retiring(st)
    requires q.AtHead? || q.StillSigned? || q.Descends? ==> st.sess.value.retirement.value.accepted != []
  {
    match q
    case Works => true
    case TreesClean => st.local.repo.picking.None? && st.local.tidy && !st.local.worktree.Dirty?
    case OnBranch => st.local.branch == st.sess.value.retirement.value.branch
    case AtHead => Last(st.sess.value.retirement.value.accepted).verifiedHead == Sha(st.local.repo.head)
    case StillSigned => SignedSince(Last(st.sess.value.retirement.value.accepted))
    case Descends(_, tip) =>
      var prior := Last(st.sess.value.retirement.value.accepted).tip;
      prior.Sha? && Ancestor(prior.c, tip)
    case AllMerged(_, ref) => NothingMissing(st.local.repo.head, ref, st.local.alike)
    case NewlySigned(_, from) => AllGood(Range(from, st.local.repo.head))
  }

  /** What the cleanup refuses to do without force: remove a checkout that has
      moved on or is dirty, or a dirty worktree. */
  predicate Allowed(st: State, key: EffectKey)
    requires Retiring(st) && st.sess.value.retirement.value.accepted != []
  {
    var r := st.sess.value.retirement.value;
    match key
    case RemoteCheckout => !st.remote.present || r.force || (Last(r.accepted).tip == Sha(st.remote.tip) && !st.remote.dirty)
    case LocalWorktree => r.force || !st.local.worktree.Dirty?
    case _ => true
  }

  /** The user's machine without what this cleanup removes from it. */
  function Without(l: Local, key: EffectKey): Local {
    match key
    case LocalWorktree => l.(worktree := Gone)
    case GitRemote => l.(gitRemote := false)
    case GitBranch => l.(gitBranch := false)
    case ReplayJournal => l.(repo := l.repo.(journal := NoFile))
    case _ => l
  }

  function Taken(st: State, key: EffectKey): State {
    if key.RemoteCheckout? then st.(remote := st.remote.(present := false)) else st.(local := Without(st.local, key))
  }

  /** The agent's turn, and another client's. */
  function Drifted(st: State, f: Fortune): State {
    var st := if f.agent.Sets? && st.remote.present then st.(remote := st.remote.(tip := f.agent.tip, dirty := f.agent.dirty)) else st;
    if f.client.Some? && st.sess.Some?
    then st.(sess := Some(st.sess.value.(attachments := WithPhase(st.sess.value.attachments, f.client.value, Active))))
    else st
  }

  function Checkpointed(st: State): State {
    if st.remote.dirty then st.(remote := st.remote.(tip := Commit([st.remote.tip], Authored(0, false)), dirty := false)) else st
  }

  function Fetched(st: State): State {
    st.(local := st.local.(objects := st.local.objects + Reach(st.remote.tip)))
  }

  function AfterRun(st: State, from: Commit, ref: Commit, f: Fortune, order: Commit -> seq<Commit>): (State, Outcome) {
    var (repo, out) := ReplayRange(st.local.repo, ref, Select(order(ref), Reach(from)), f.fates, f.life);
    (st.(local := st.local.(repo := repo)), out)
  }

  function Moved(st: State, head: Commit, picking: Option<Commit>): State {
    st.(local := st.local.(repo := st.local.repo.(head := head, picking := picking)))
  }

  function Edited(st: State, branch: string, tidy: bool, dirty: bool): State {
    var worktree := if st.local.worktree.Gone? then Gone else if dirty then Dirty else Clean;
    st.(local := st.local.(branch := branch, tidy := tidy, worktree := worktree))
  }

  function Attached(st: State, id: nat): State {
    if st.sess.Some? && MayAttach(st.sess.value) then st.(sess := Some(AddAttachment(st.sess.value, id))) else st
  }

  /** What each kind of act needs of the state it is done in. */
  predicate Fits(st: State, act: Act) {
    match act
    case Asks(q) => q.Works? || (Retiring(st) && Asked(st.sess.value.retirement.value, q))
    case Fetches(_, _) => Retiring(st) && !st.sess.value.retirement.value.phase.Removing?
    case Replays(_, from, _) => Retiring(st) && StartsFrom(st.sess.value.retirement.value, from, st.local.repo.head)
    case Accepts(_, _, _, _, _, _) => Retiring(st) && !st.sess.value.retirement.value.phase.Removing?
    case Closes(_) => Retiring(st) && st.sess.value.retirement.value.phase.Closing?
    case Removes(_) => Retiring(st) && st.sess.value.retirement.value.phase.Removing? && st.sess.value.retirement.value.accepted != []
    case _ => true
  }

  /** Which questions an intent gives cause for. */
  predicate Asked(r: Intent, q: Question) {
    match q
    case Works => true
    case TreesClean => !r.force && !r.phase.Removing?
    case OnBranch => r.op.Merge? || (r.accepted != [] && !(r.force && Last(r.accepted).tip.Discarded?))
    case AtHead => r.accepted != [] && !(r.op.Delete? && r.force && Last(r.accepted).tip.Discarded?)
    case StillSigned => r.op.Merge? && r.accepted != []
    case Descends(_, _) => r.op.Merge? && r.accepted != [] && !r.phase.Removing?
    case AllMerged(_, _) => r.op.Delete? && !r.force && !r.phase.Removing?
    case NewlySigned(_, _) => r.op.Merge? && !r.phase.Removing?
  }

  /** Where a merge check starts from: at the tip accepted last, on the head it
      was verified on -- or where the session started, which is given. */
  predicate StartsFrom(r: Intent, from: Commit, head: Commit) {
    && r.op.Merge? && !r.phase.Removing?
    && (r.accepted != [] ==> Last(r.accepted).tip == Sha(from) && Last(r.accepted).verifiedHead == Sha(head))
  }

  /** The act was done, and nothing failed or was refused. */
  ghost predicate Granted(st: State, act: Act, f: Fortune, order: Commit -> seq<Commit>)
    requires Fits(st, act)
  {
    match act
    case Asks(q) => !f.fails && Answer(st, q)
    case Checkpoints => !f.fails && st.remote.present
    case Reads => !f.fails && st.remote.present
    case Fetches(_, tip) => !f.fails && tip in Fetched(st).local.objects
    case Replays(_, from, ref) => AfterRun(st, from, ref, f, order).1.Finished?
    case Records(_, _) => !f.fails
    case Accepts(_, _, _, _, _, _) => !f.fails
    case Closes(_) => f.close.None? || (st.sess.value.retirement.value.force && f.close.value.Unproven?)
    case Removes(key) => !f.fails && Allowed(st, key)
    case _ => true
  }

  /** This event makes the session stray. */
  ghost predicate Harms(st: State, act: Act, f: Fortune, base: Commit, order: Commit -> seq<Commit>)
    requires Fits(st, act)
  {
    match act
    case Replays(_, from, ref) => Misled(st.local.repo, ref, Select(order(ref), Reach(from)), Reach(base))
    case Accepts(a, _, _, _, ref, _) => !f.fails && Overlooks(st, st.sess.value.retirement.value, a, ref, base)
    case _ => false
  }

  /** The state after the event. */
  ghost function Effect(st: State, act: Act, f: Fortune, base: Commit, order: Commit -> seq<Commit>): State
    requires Fits(st, act)
  {
    match act
    case Waits => Drifted(st, f)
    case Checkpoints => if Granted(st, act, f, order) then Checkpointed(st) else st
    case Fetches(_, _) => if f.fails then st else Fetched(st)
    case Replays(_, from, ref) =>
      AfterRun(st, from, ref, f, order).0.(strayed := st.strayed || Misled(st.local.repo, ref, Select(order(ref), Reach(from)), Reach(base)))
    case Records(sess, receipt) => if f.fails then st else st.(sess := sess, receipt := receipt)
    case Accepts(a, signed, check, _, ref, phase) => if f.fails then st else Accepting(st, a, signed, check, ref, phase, base)
    case Removes(key) => if Allowed(st, key) && (!f.fails || f.applied) then Taken(st, key) else st
    case Moves(head, picking) => Moved(st, head, picking)
    case Edits(branch, tidy, dirty) => Edited(st, branch, tidy, dirty)
    case Attaches(id) => Attached(st, id)
    case _ => st
  }

  /** What the world is counted on for, where it is: between the read of a tip
      and its fetch the agent only adds commits, no replay dies where it loses
      track of a stopped pick, and the user never takes the branch past one
      without finishing it. */
  ghost predicate Gentle(st: State, act: Act, f: Fortune, base: Commit, order: Commit -> seq<Commit>) {
    match act
    case Fetches(_, tip) => Ancestor(tip, st.remote.tip)
    case Replays(_, from, ref) =>
      !Misleads(st.local.repo, ref, Select(order(ref), Reach(from)), AfterRun(st, from, ref, f, order).0.local.repo, Reach(base))
    case Moves(head, picking) => Honest(Moved(st, head, picking).local.repo, Reach(base))
    case _ => true
  }

  // ----- what has happened so far -----

  /** The state after the first `k` events, the last of which led to `st`. */
  function StateAt(t: seq<Event>, k: nat, st: State): State
    requires k <= |t|
  {
    if k < |t| then t[k].was else st
  }

  /** The attachments whose close has been done. */
  function ClosedIn(st: State): set<nat> {
    if Retiring(st)
    then set k | k in st.sess.value.retirement.value.effects && k.Herdr? && IsDone(st.sess.value.retirement.value, k) :: k.id
    else {}
  }

  /** At moment `at` the tip on the instance was read: what `check` says. */
  ghost predicate ReadAt(t: seq<Event>, check: Check, will: nat -> Fortune, order: Commit -> seq<Commit>) {
    && check.at < |t| && t[check.at].act.Reads?
    && Granted(t[check.at].was, Reads, will(check.at), order)
    && check.tip == Sha(t[check.at].was.remote.tip)
    && check.closed == ClosedIn(t[check.at].was)
  }

  /** At moment `fetch` the branch was fetched, at `ref`, for a tip read at
      moment `at`, which arrived. */
  ghost predicate FetchedAt(t: seq<Event>, fetch: nat, at: nat, tip: Commit, ref: Commit, will: nat -> Fortune, order: Commit -> seq<Commit>) {
    && at < fetch < |t| && t[fetch].act == Fetches(at, tip)
    && Fits(t[fetch].was, t[fetch].act) && Granted(t[fetch].was, t[fetch].act, will(fetch), order)
    && ref == t[fetch].was.remote.tip
  }

  /** Nothing is open or uncommitted in the destination, nor in the session's
      worktree. */
  predicate Presentable(l: Local) {
    l.repo.picking.None? && l.tidy && !l.worktree.Dirty?
  }

  /** At moment `k` the attachment's workspace was closed -- or, in a forced
      retirement, could no longer be shown to be the session's. */
  predicate ClosedAt(t: seq<Event>, k: nat, id: nat, will: nat -> Fortune) {
    && k < |t| && t[k].act == Closes(id) && Retiring(t[k].was)
    && (will(k).close.None? || (will(k).close.value.Unproven? && t[k].was.sess.value.retirement.value.force))
  }

  ghost predicate HasClosed(t: seq<Event>, id: nat, will: nat -> Fortune) {
    exists k: nat :: ClosedAt(t, k, id, will)
  }

  /** What is recorded of closes did happen. */
  ghost predicate ClosesHappened(t: seq<Event>, r: Intent, will: nat -> Fortune) {
    forall id :: IsDone(r, Herdr(id)) ==> HasClosed(t, id, will)
  }

  ghost predicate AllHaveClosed(t: seq<Event>, s: Session, will: nat -> Fortune) {
    forall a :: a in s.attachments ==> HasClosed(t, a.id, will)
  }

  /** What an act refers back to did happen. */
  ghost predicate Legit(t: seq<Event>, st: State, act: Act, will: nat -> Fortune, base: Commit, order: Commit -> seq<Commit>) {
    && Fits(st, act)
    && match act
       case Fetches(at, tip) => at < |t| && ReadAt(t, Check(Sha(tip), at, ClosedIn(t[at].was)), will, order)
       case Replays(fetch, from, ref) =>
         && (exists at, tip :: FetchedAt(t, fetch, at, tip, ref, will, order))
         && (st.sess.value.retirement.value.accepted == [] ==> from == base)
       case Records(sess, _) =>
         if sess.None? then st.sess.Some? ==> AllHaveClosed(t, st.sess.value, will)
         else sess.value.retirement.Some? ==> ClosesHappened(t, sess.value.retirement.value, will)
       case Accepts(a, _, check, fetch, ref, _) =>
         if check.None? then a.tip.Discarded? && st.sess.value.retirement.value.force
         else Presentable(st.local) && a.tip.Sha? && a.tip == check.value.tip && ReadAt(t, check.value, will, order)
              && FetchedAt(t, fetch, check.value.at, a.tip.c, ref, will, order)
       case Asks(Descends(at, tip)) => at < |t| && ReadAt(t, Check(Sha(tip), at, ClosedIn(t[at].was)), will, order)
       case Asks(AllMerged(fetch, ref)) => exists at, tip :: FetchedAt(t, fetch, at, tip, ref, will, order)
       case Asks(NewlySigned(run, from)) =>
         && run < |t| && t[run].act.Replays? && Fits(t[run].was, t[run].act)
         && var (after, out) := AfterRun(t[run].was, t[run].act.from, t[run].act.ref, will(run), order);
            out == Finished(from) && after.local.repo == st.local.repo
       case _ => true
  }

  /** Event `k` was in order, and led to the state the next one began in. */
  ghost predicate StepAt(t: seq<Event>, k: nat, st: State, will: nat -> Fortune, base: Commit, order: Commit -> seq<Commit>)
    requires k < |t|
  {
    && Legit(t[..k], t[k].was, t[k].act, will, base, order)
    && Effect(t[k].was, t[k].act, will(k), base, order) == StateAt(t, k + 1, st)
  }

  ghost predicate History(t: seq<Event>, origin: State, st: State, will: nat -> Fortune, base: Commit, order: Commit -> seq<Commit>) {
    StateAt(t, 0, st) == origin && forall k :: 0 <= k < |t| ==> StepAt(t, k, st, will, base, order)
  }

  /** Moment `k` is a reason to stop: a step failed, or refused. */
  ghost predicate StopsAt(t: seq<Event>, k: nat, will: nat -> Fortune, order: Commit -> seq<Commit>) {
    k < |t| && Fits(t[k].was, t[k].act) && !Granted(t[k].was, t[k].act, will(k), order)
  }

  /** Why each question is answered no, in so many words. */
  ghost predicate Refused(st: State, q: Question)
    requires q.Works? || (Retiring(st) && Asked(st.sess.value.retirement.value, q))
  {
    var head := st.local.repo.head;
    match q
    case Works => false
    case TreesClean => st.local.repo.picking.Some? || !st.local.tidy || st.local.worktree == Dirty
    case OnBranch => st.local.branch != st.sess.value.retirement.value.branch
    case AtHead => LastAccepted(st).verifiedHead != Sha(head)
    case StillSigned =>
      var a := LastAccepted(st);
      a.replayBase == Discarded || a.verifiedHead == Discarded || SomeBad(a.replayBase.c, a.verifiedHead.c)
    case Descends(_, tip) => LastAccepted(st).tip == Discarded || !Ancestor(LastAccepted(st).tip.c, tip)
    case AllMerged(_, ref) => SomeMissing(head, ref, st.local.alike)
    case NewlySigned(_, from) => SomeBad(from, head)
  }

  /** What stands in the way of each act. */
  ghost predicate Obstructed(st: State, act: Act, f: Fortune, order: Commit -> seq<Commit>)
    requires Fits(st, act)
  {
    match act
    case Asks(q) => f.fails || Refused(st, q)
    case Checkpoints => f.fails || !st.remote.present
    case Reads => f.fails || !st.remote.present
    case Fetches(_, tip) => f.fails || (tip !in st.local.objects && !Ancestor(tip, st.remote.tip))
    case Replays(_, from, ref) => !ReplayRange(st.local.repo, ref, Select(order(ref), Reach(from)), f.fates, f.life).1.Finished?
    case Records(_, _) => f.fails
    case Accepts(_, _, _, _, _, _) => f.fails
    case Closes(_) => f.close.Some? && (f.close.value.OtherFailure? || !st.sess.value.retirement.value.force)
    case Removes(key) => f.fails || (!st.sess.value.retirement.value.force && Protected(st, key))
    case _ => false
  }

  /** Removing it would lose something: the checkout has moved on from the tip
      accepted, or something is uncommitted in it or in the worktree. */
  predicate Protected(st: State, key: EffectKey)
    requires Retiring(st) && st.sess.value.retirement.value.accepted != []
  {
    || (key == RemoteCheckout && st.remote.present && (st.remote.dirty || LastAccepted(st).tip != Sha(st.remote.tip)))
    || (key == LocalWorktree && st.local.worktree == Dirty)
  }

  function LastAccepted(st: State): Acceptance
    requires Retiring(st) && st.sess.value.retirement.value.accepted != []
  {
    Last(st.sess.value.retirement.value.accepted)
  }

  ghost predicate SomeBad(from: Commit, to: Commit) {
    exists c :: c in Reach(to) && c !in Reach(from) && !Good(c)
  }

  /** Some commit of `ref`'s own, no merge, is neither on the branch nor like
      one that is there and not under `ref`. */
  ghost predicate SomeMissing(head: Commit, ref: Commit, alike: set<(Commit, Commit)>) {
    exists c :: c in Reach(ref) && c !in Reach(head) && |c.parents| <= 1
                && forall x :: x in Reach(head) && x !in Reach(ref) && |x.parents| <= 1 ==> (c, x) !in alike
  }

  ghost predicate ObstructedAt(t: seq<Event>, k: nat, will: nat -> Fortune, order: Commit -> seq<Commit>) {
    k < |t| && Fits(t[k].was, t[k].act) && Obstructed(t[k].was, t[k].act, will(k), order)
  }

  lemma StopsObstructed(t: seq<Event>, k: nat, will: nat -> Fortune, order: Commit -> seq<Commit>)
    requires StopsAt(t, k, will, order)
    ensures ObstructedAt(t, k, will, order)
  {
    hide Granted, Obstructed, Fits;
    StopsExactly(t[k].was, t[k].act, will(k), order);
  }

  lemma BadOrGood(from: Commit, to: Commit)
    ensures SomeBad(from, to) <==> !AllGood(Range(from, to))
  {
  }

  lemma MissingOrNot(head: Commit, ref: Commit, alike: set<(Commit, Commit)>)
    ensures SomeMissing(head, ref, alike) <==> !NothingMissing(head, ref, alike)
  {
  }

  lemma AnswersExactly(st: State, q: Question)
    requires q.Works? || (Retiring(st) && Asked(st.sess.value.retirement.value, q))
    ensures Answer(st, q) <==> !Refused(st, q)
  {
    hide SomeBad, SomeMissing, AllGood, NothingMissing, Reach;
    match q {
      case StillSigned =>
        var a := LastAccepted(st);
        if a.replayBase.Sha? && a.verifiedHead.Sha? {
          BadOrGood(a.replayBase.c, a.verifiedHead.c);
        }
      case AllMerged(_, ref) => MissingOrNot(st.local.repo.head, ref, st.local.alike);
      case NewlySigned(_, from) => BadOrGood(from, st.local.repo.head);
      case _ =>
    }
  }

  /** A run stops at exactly these. */
  lemma StopsExactly(st: State, act: Act, f: Fortune, order: Commit -> seq<Commit>)
    requires Fits(st, act)
    ensures !Granted(st, act, f, order) <==> Obstructed(st, act, f, order)
  {
    hide ReplayRange, Answer, Refused;
    match act {
      case Asks(q) => AnswersExactly(st, q);
      case Fetches(_, tip) => assert Granted(st, act, f, order) <==> !f.fails && (tip in st.local.objects || Ancestor(tip, st.remote.tip));
      case _ =>
    }
  }

  /** Moment `k` made the session stray. */
  ghost predicate HarmAt(t: seq<Event>, k: nat, will: nat -> Fortune, base: Commit, order: Commit -> seq<Commit>) {
    k < |t| && Fits(t[k].was, t[k].act) && Harms(t[k].was, t[k].act, will(k), base, order)
  }

  ghost predicate Harmless(t: seq<Event>, will: nat -> Fortune, base: Commit, order: Commit -> seq<Commit>) {
    forall k :: 0 <= k < |t| ==> !HarmAt(t, k, will, base, order)
  }

  ghost predicate Benign(t: seq<Event>, will: nat -> Fortune, base: Commit, order: Commit -> seq<Commit>) {
    forall k :: 0 <= k < |t| ==> Gentle(t[k].was, t[k].act, will(k), base, order)
  }

  /** None of the events from moment `lo` on was the user's. */
  predicate Unattended(t: seq<Event>, lo: nat) {
    forall k :: lo <= k < |t| ==> !t[k].act.Moves? && !t[k].act.Edits? && !t[k].act.Attaches?
  }

  /** At moment `k` the checkout that is gone now was removed, safely, and with
      the tip and the tree it then had. */
  ghost predicate RemovedAt(t: seq<Event>, k: nat, remote: Remote, will: nat -> Fortune, base: Commit, order: Commit -> seq<Commit>) {
    && k < |t| && t[k].act == Removes(RemoteCheckout)
    && t[k].was.remote == remote.(present := true)
    && SafeRemoval(t[k].was, base)
    && (t[k].was.check.Some? ==> ReadAt(t[..k], t[k].was.check.value, will, order))
  }

  /** What holds of every history, whatever the world does. */
  ghost predicate Chronicle(t: seq<Event>, origin: State, st: State, will: nat -> Fortune, base: Commit, order: Commit -> seq<Commit>) {
    && History(t, origin, st, will, base, order)
    && (st.check.Some? ==> ReadAt(t, st.check.value, will, order))
    && (!st.remote.present ==> exists k: nat :: RemovedAt(t, k, st.remote, will, base, order))
    && (Benign(t, will, base, order) ==> !st.strayed && Honest(st.local.repo, Reach(base)))
    && (Retiring(st) ==> ClosesHappened(t, st.sess.value.retirement.value, will))
  }

  lemma HistoryExtends(t: seq<Event>, origin: State, st: State, act: Act, st': State, will: nat -> Fortune, base: Commit, order: Commit -> seq<Commit>)
    requires History(t, origin, st, will, base, order) && Legit(t, st, act, will, base, order)
    requires st' == Effect(st, act, will(|t|), base, order)
    ensures History(t + [Event(st, act)], origin, st', will, base, order)
  {
    var t' := t + [Event(st, act)];
    forall k | 0 <= k < |t'| ensures StepAt(t', k, st', will, base, order) {
      if k < |t| {
        StepExtends(t, k, st, t', st', will, base, order);
      } else {
        assert t'[..k] == t;
      }
    }
  }

  lemma StepExtends(t: seq<Event>, k: nat, st: State, t': seq<Event>, st': State, will: nat -> Fortune, base: Commit, order: Commit -> seq<Commit>)
    requires k < |t| <= |t'| && t'[..|t|] == t && StateAt(t', |t|, st') == st && StepAt(t, k, st, will, base, order)
    ensures StepAt(t', k, st', will, base, order)
  {
    hide Legit, Effect;
    assert t'[k] == t[k];
    assert t'[..k] == t'[..|t|][..k] == t[..k];
    assert StateAt(t', k + 1, st') == StateAt(t, k + 1, st);
  }

  lemma HistoryPrefix(t: seq<Event>, k: nat, origin: State, st: State, will: nat -> Fortune, base: Commit, order: Commit -> seq<Commit>)
    requires History(t, origin, st, will, base, order) && k <= |t|
    ensures History(t[..k], origin, StateAt(t, k, st), will, base, order)
  {
    hide StepAt;
    forall i | 0 <= i < k ensures StepAt(t[..k], i, StateAt(t, k, st), will, base, order) {
      StepPrefix(t, k, i, st, will, base, order);
    }
  }

  lemma StepPrefix(t: seq<Event>, k: nat, i: nat, st: State, will: nat -> Fortune, base: Commit, order: Commit -> seq<Commit>)
    requires i < k <= |t| && StepAt(t, i, st, will, base, order)
    ensures StepAt(t[..k], i, StateAt(t, k, st), will, base, order)
  {
    hide Legit, Effect;
    assert t[..k][..i] == t[..i];
    assert t[..k][i] == t[i];
  }

  lemma EffectStrays(st: State, act: Act, f: Fortune, base: Commit, order: Commit -> seq<Commit>)
    requires Fits(st, act)
    ensures Effect(st, act, f, base, order).strayed == (st.strayed || Harms(st, act, f, base, order))
  {
    hide Misled, Overlooks, AppendAcceptance, ReplayRange;
  }

  /** The session has strayed exactly if some event made it. */
  lemma {:induction false} StrayedExactly(t: seq<Event>, origin: State, st: State, will: nat -> Fortune, base: Commit, order: Commit -> seq<Commit>)
    requires History(t, origin, st, will, base, order)
    ensures st.strayed <==> origin.strayed || exists k: nat :: HarmAt(t, k, will, base, order)
    decreases |t|
  {
    hide Harms, Effect, Granted, ReadAt, FetchedAt, Fits;
    if t != [] {
      var n := |t| - 1;
      HistoryPrefix(t, n, origin, st, will, base, order);
      StrayedExactly(t[..n], origin, t[n].was, will, base, order);
      assert StepAt(t, n, st, will, base, order);
      EffectStrays(t[n].was, t[n].act, will(n), base, order);
      assert forall k :: 0 <= k < n ==> t[..n][k] == t[k];
      assert forall k: nat :: HarmAt(t, k, will, base, order) <==> HarmAt(t[..n], k, will, base, order) || (k == n && Harms(t[n].was, t[n].act, will(n), base, order));
      assert HarmAt(t, n, will, base, order) <==> Harms(t[n].was, t[n].act, will(n), base, order);
    }
  }

  // ----- every event keeps what is relied on -----

  /** The acts that are not updates of the store keep the invariant. */
  lemma EffectKeeps(st: State, act: Act, f: Fortune, base: Commit, order: Commit -> seq<Commit>)
    requires Lists(order) && Inv(st, base, order) && Fits(st, act) && !act.Records? && !act.Accepts?
    requires act.Replays? && !st.strayed ==> Accounted(Reach(act.from), st.local.repo, Reach(base))
    ensures
      var st' := Effect(st, act, f, base, order);
      Inv(st', base, order) && Evolves(st, st')
  {
    var st' := Effect(st, act, f, base, order);
    match act {
      case Waits => DriftEffect(st, f, base, order);
      case Checkpoints => CheckpointEffect(st, base, order);
      case Fetches(_, _) => FetchEffect(st, base, order);
      case Replays(_, from, ref) => ReplayEffect(st, from, ref, f, base, order);
      case Removes(key) => RemoveEffect(st, key, base, order);
      case Moves(head, picking) => MoveEffect(st, head, picking, base, order);
      case Edits(branch, tidy, dirty) => EditEffect(st, branch, tidy, dirty, base, order);
      case Attaches(id) => AttachEffect(st, id, base, order);
      case _ =>
    }
  }

  lemma DriftEffect(st: State, f: Fortune, base: Commit, order: Commit -> seq<Commit>)
    requires Inv(st, base, order)
    ensures Inv(Drifted(st, f), base, order) && Evolves(st, Drifted(st, f))
  {
    DriftKeeps(st, Drifted(st, f), base, order);
  }

  lemma CheckpointEffect(st: State, base: Commit, order: Commit -> seq<Commit>)
    requires Inv(st, base, order)
    ensures Inv(Checkpointed(st), base, order) && Evolves(st, Checkpointed(st))
  {
    DriftKeeps(st, Checkpointed(st), base, order);
  }

  lemma FetchEffect(st: State, base: Commit, order: Commit -> seq<Commit>)
    requires Inv(st, base, order)
    ensures Inv(Fetched(st), base, order) && Evolves(st, Fetched(st))
  {
    hide JournalSound, Delivered, ChainOk, Unneeded;
    LocalProgressKeeps(st, Fetched(st), base, order);
  }

  lemma ReplayEffect(st: State, from: Commit, ref: Commit, f: Fortune, base: Commit, order: Commit -> seq<Commit>)
    requires Lists(order) && Inv(st, base, order) && Retiring(st) && !st.sess.value.retirement.value.phase.Removing?
    requires !st.strayed ==> Accounted(Reach(from), st.local.repo, Reach(base))
    ensures
      var list := Select(order(ref), Reach(from));
      var (after, out) := AfterRun(st, from, ref, f, order);
      var st' := after.(strayed := st.strayed || Misled(st.local.repo, ref, list, Reach(base)));
      && Inv(st', base, order) && Evolves(st, st')
      && (out.Finished? ==> Ancestor(out.base, st.local.repo.head) && (!st'.strayed ==> Accounted(Reach(ref), st'.local.repo, Reach(base))))
  {
    hide JournalSound, Delivered, ChainOk, Unneeded, ReplayRange, Misled, Accounted;
    var list := Select(order(ref), Reach(from));
    var st' := AfterRun(st, from, ref, f, order).0.(strayed := st.strayed || Misled(st.local.repo, ref, list, Reach(base)));
    ReplayKeeps(st.local.repo, st.strayed, base, order, from, ref, f.fates, f.life);
    LocalProgressKeeps(st, st', base, order);
  }

  lemma RemoveEffect(st: State, key: EffectKey, base: Commit, order: Commit -> seq<Commit>)
    requires Inv(st, base, order)
    ensures Inv(Taken(st, key), base, order) && Evolves(st, Taken(st, key))
    ensures EffectReal(key, Taken(st, key).remote, Taken(st, key).local)
  {
    CleanupKeeps(st, Taken(st, key), base, order);
  }

  lemma MoveEffect(st: State, head: Commit, picking: Option<Commit>, base: Commit, order: Commit -> seq<Commit>)
    requires Inv(st, base, order)
    ensures Inv(Moved(st, head, picking), base, order) && Evolves(st, Moved(st, head, picking))
  {
    var st' := Moved(st, head, picking);
    if !st.strayed {
      JournalSoundGrows(st.local.repo, st'.local.repo, order, Reach(base));
    }
    hide JournalSound, Delivered, ChainOk, Unneeded;
    LocalProgressKeeps(st, st', base, order);
  }

  lemma EditEffect(st: State, branch: string, tidy: bool, dirty: bool, base: Commit, order: Commit -> seq<Commit>)
    requires Inv(st, base, order)
    ensures Inv(Edited(st, branch, tidy, dirty), base, order) && Evolves(st, Edited(st, branch, tidy, dirty))
  {
    hide JournalSound, Delivered, ChainOk, Unneeded;
    LocalProgressKeeps(st, Edited(st, branch, tidy, dirty), base, order);
  }

  lemma AttachEffect(st: State, id: nat, base: Commit, order: Commit -> seq<Commit>)
    requires Inv(st, base, order)
    ensures Inv(Attached(st, id), base, order) && Evolves(st, Attached(st, id))
  {
    if st.sess.Some? && MayAttach(st.sess.value) {
      AttachKeeps(st, id, base, order);
    }
  }

  lemma AsksEffect(st: State, q: Question, f: Fortune, base: Commit, order: Commit -> seq<Commit>)
    requires Fits(st, Asks(q))
    ensures Effect(st, Asks(q), f, base, order) == st
    ensures Granted(st, Asks(q), f, order) == (!f.fails && Answer(st, q))
  {
    hide Answer;
  }

  /** A removal takes its object away where it is allowed and happens at all. */
  lemma RemovesEffect(t: seq<Event>, st: State, key: EffectKey, will: nat -> Fortune, base: Commit, order: Commit -> seq<Commit>)
    requires Fits(st, Removes(key))
    ensures Legit(t, st, Removes(key), will, base, order)
    ensures
      var f := will(|t|);
      && Effect(st, Removes(key), f, base, order) == (if Allowed(st, key) && (!f.fails || f.applied) then Taken(st, key) else st)
      && Granted(st, Removes(key), f, order) == (!f.fails && Allowed(st, key))
  {
  }

  /** Only the removal itself takes the checkout away; nothing brings it back
      or changes it after. */
  lemma EffectPresent(st: State, act: Act, f: Fortune, base: Commit, order: Commit -> seq<Commit>)
    requires Fits(st, act)
    ensures
      var st' := Effect(st, act, f, base, order);
      if st.remote.present then st'.remote.present || (act == Removes(RemoteCheckout) && st.remote == st'.remote.(present := true))
      else st'.remote == st.remote
  {
  }

  /** In a benign history the branch stays honest and no event does harm. */
  lemma BenignKeeps(t: seq<Event>, st: State, act: Act, will: nat -> Fortune, base: Commit, order: Commit -> seq<Commit>)
    requires Lists(order) && Inv(st, base, order) && Legit(t, st, act, will, base, order)
    requires Benign(t, will, base, order) && Gentle(st, act, will(|t|), base, order)
    requires !st.strayed && Honest(st.local.repo, Reach(base))
    requires act.Replays? ==> Accounted(Reach(act.from), st.local.repo, Reach(base))
    ensures
      var st' := Effect(st, act, will(|t|), base, order);
      !st'.strayed && Honest(st'.local.repo, Reach(base))
  {
    hide JournalSound, Inv, Honest, ReplayRange, AppendAcceptance, Misleads;
    var f := will(|t|);
    if act.Replays? {
      assert RepoOk(st.local.repo, false, base, order) by {
        InvRepo(st, base, order);
      }
      HonestReplay(st.local.repo, base, order, act.from, act.ref, f.fates, f.life);
    } else if act.Accepts? {
      BenignAccepts(t, st, act, will, base, order);
    } else if act.Removes? {
      NoJournalHonest(st.local.repo, Reach(base));
    }
  }

  lemma InvRepo(st: State, base: Commit, order: Commit -> seq<Commit>)
    requires Inv(st, base, order)
    ensures RepoOk(st.local.repo, st.strayed, base, order)
  {
  }

  lemma NoJournalHonest(r: Repo, exempt: set<Commit>)
    ensures Honest(r.(journal := NoFile), exempt)
  {
  }

  /** Where the agent only added commits, the fetched branch holds the tip. */
  lemma BenignAccepts(t: seq<Event>, st: State, act: Act, will: nat -> Fortune, base: Commit, order: Commit -> seq<Commit>)
    requires Legit(t, st, act, will, base, order) && act.Accepts? && Benign(t, will, base, order)
    ensures !Overlooks(st, st.sess.value.retirement.value, act.a, act.ref, base)
  {
    if act.a.tip.Sha? {
      assert Gentle(t[act.fetch].was, t[act.fetch].act, will(act.fetch), base, order);
      ReachTransitive(act.a.tip.c, act.ref);
      assert Range(act.ref, act.a.tip.c) == {};
    }
  }

  /** A removal is remembered, and the checkout stays gone. */
  lemma RemovalExtends(t: seq<Event>, st: State, act: Act, st': State, will: nat -> Fortune, base: Commit, order: Commit -> seq<Commit>)
    requires Fits(st, act) && st' == Effect(st, act, will(|t|), base, order)
    requires !st.remote.present ==> exists k: nat :: RemovedAt(t, k, st.remote, will, base, order)
    requires st.check.Some? ==> ReadAt(t, st.check.value, will, order)
    requires act == Removes(RemoteCheckout) && st.remote.present && !st'.remote.present ==> SafeRemoval(st, base)
    ensures !st'.remote.present ==> exists k: nat :: RemovedAt(t + [Event(st, act)], k, st'.remote, will, base, order)
  {
    hide SafeRemoval, ReadAt;
    var t' := t + [Event(st, act)];
    EffectPresent(st, act, will(|t|), base, order);
    hide Effect, Fits;
    if !st'.remote.present {
      if st.remote.present {
        assert t'[..|t|] == t;
        assert RemovedAt(t', |t|, st'.remote, will, base, order);
      } else {
        var k: nat :| RemovedAt(t, k, st.remote, will, base, order);
        assert t'[..k] == t[..k];
        assert RemovedAt(t', k, st'.remote, will, base, order);
      }
    }
  }

  /** A check on record is one that was made: what it read was read. */
  lemma CheckExtends(t: seq<Event>, st: State, act: Act, will: nat -> Fortune, base: Commit, order: Commit -> seq<Commit>)
    requires Legit(t, st, act, will, base, order)
    requires st.check.Some? ==> ReadAt(t, st.check.value, will, order)
    ensures
      var st' := Effect(st, act, will(|t|), base, order);
      st'.check.Some? ==> ReadAt(t + [Event(st, act)], st'.check.value, will, order)
  {
  }

  /** A close that was done stays done, and no other event records one. */
  lemma ClosesExtend(t: seq<Event>, st: State, act: Act, will: nat -> Fortune, base: Commit, order: Commit -> seq<Commit>)
    requires Legit(t, st, act, will, base, order)
    requires Retiring(st) ==> ClosesHappened(t, st.sess.value.retirement.value, will)
    ensures
      var st' := Effect(st, act, will(|t|), base, order);
      Retiring(st') ==> ClosesHappened(t + [Event(st, act)], st'.sess.value.retirement.value, will)
  {
    var st' := Effect(st, act, will(|t|), base, order);
    if Retiring(st') {
      assert ClosesHappened(t, st'.sess.value.retirement.value, will) by {
        if !act.Records? || will(|t|).fails {
          DoneAlready(st, act, will(|t|), base, order);
        }
      }
      ClosesLater(t, [Event(st, act)], st'.sess.value.retirement.value, will);
    }
  }

  lemma DoneAlready(st: State, act: Act, f: Fortune, base: Commit, order: Commit -> seq<Commit>)
    requires Fits(st, act) && Retiring(Effect(st, act, f, base, order)) && (act.Records? ==> f.fails)
    ensures Retiring(st)
    ensures forall id :: IsDone(Effect(st, act, f, base, order).sess.value.retirement.value, Herdr(id)) ==> IsDone(st.sess.value.retirement.value, Herdr(id))
  {
    hide Misled, Overlooks, AppendAcceptance, ReplayRange;
  }

  lemma ClosesLater(t: seq<Event>, more: seq<Event>, r: Intent, will: nat -> Fortune)
    requires ClosesHappened(t, r, will)
    ensures ClosesHappened(t + more, r, will)
  {
    forall id | IsDone(r, Herdr(id)) ensures HasClosed(t + more, id, will) {
      HasClosedLater(t, t + more, id, will);
    }
  }

  lemma HasClosedLater(t: seq<Event>, t': seq<Event>, id: nat, will: nat -> Fortune)
    requires HasClosed(t, id, will) && t <= t'
    ensures HasClosed(t', id, will)
  {
    var k: nat :| ClosedAt(t, k, id, will);
    assert ClosedAt(t', k, id, will);
  }

  lemma ChronicleExtends(t: seq<Event>, origin: State, st: State, act: Act, st': State, will: nat -> Fortune, base: Commit, order: Commit -> seq<Commit>)
    requires Lists(order) && Inv(st, base, order) && Chronicle(t, origin, st, will, base, order) && Legit(t, st, act, will, base, order)
    requires st' == Effect(st, act, will(|t|), base, order)
    requires act.Replays? && !st.strayed ==> Accounted(Reach(act.from), st.local.repo, Reach(base))
    requires act == Removes(RemoteCheckout) && st.remote.present && !st'.remote.present ==> SafeRemoval(st, base)
    ensures Chronicle(t + [Event(st, act)], origin, st', will, base, order)
  {
    hide Inv, History, SafeRemoval, Gentle, Honest, Accounted, ReadAt, RemovedAt, Effect, ClosesHappened;
    var t' := t + [Event(st, act)];
    HistoryExtends(t, origin, st, act, st', will, base, order);
    RemovalExtends(t, st, act, st', will, base, order);
    CheckExtends(t, st, act, will, base, order);
    ClosesExtend(t, st, act, will, base, order);
    if Benign(t', will, base, order) {
      assert forall k :: 0 <= k < |t| ==> t'[k] == t[k];
      assert t'[|t|] == Event(st, act);
      BenignKeeps(t, st, act, will, base, order);
    }
  }

  /** Over every history: if nothing harmful happened before a checkout was
      removed -- and in a benign one nothing harmful ever does -- the work in it
      was home. */
  lemma RemovedWorkIsHome(t: seq<Event>, origin: State, st: State, k: nat, will: nat -> Fortune, base: Commit, order: Commit -> seq<Commit>)
    requires Chronicle(t, origin, st, will, base, order) && !origin.strayed && RemovedAt(t, k, st.remote, will, base, order)
    ensures Harmless(t[..k], will, base, order) || Benign(t, will, base, order) ==> WorkIsHome(t[k].was, base)
  {
    hide Legit, Effect, WorkIsHome, Honest, Gentle, HarmAt;
    HistoryPrefix(t, k, origin, st, will, base, order);
    StrayedExactly(t[..k], origin, t[k].was, will, base, order);
    StrayedExactly(t, origin, st, will, base, order);
    if t[k].was.strayed {
      var i: nat :| HarmAt(t[..k], i, will, base, order);
      HarmPrefix(t, k, i, will, base, order);
    }
  }

  /** At moment `k` the session's worktree went. */
  ghost predicate WorktreeTaken(t: seq<Event>, k: nat, st: State) {
    k < |t| && !t[k].was.local.worktree.Gone? && StateAt(t, k + 1, st).local.worktree.Gone?
  }

  /** Over every history: whenever the worktree goes, its retirement is forced or
      nothing in it was uncommitted. */
  lemma WorktreeSpared(t: seq<Event>, origin: State, st: State, k: nat, will: nat -> Fortune, base: Commit, order: Commit -> seq<Commit>)
    requires History(t, origin, st, will, base, order) && WorktreeTaken(t, k, st)
    ensures Retiring(t[k].was) && (t[k].was.sess.value.retirement.value.force || !t[k].was.local.worktree.Dirty?)
  {
    hide Effect, ReadAt, FetchedAt, Fits;
    assert StepAt(t, k, st, will, base, order);
    WorktreeGoes(t[k].was, t[k].act, will(k), base, order);
  }

  /** Over every history: whenever a check is recorded as passed without force,
      the trees are presentable. */
  lemma AcceptedPresentable(t: seq<Event>, origin: State, st: State, k: nat, will: nat -> Fortune, base: Commit, order: Commit -> seq<Commit>)
    requires History(t, origin, st, will, base, order) && k < |t| && t[k].act.Accepts?
    ensures Retiring(t[k].was) && (t[k].was.sess.value.retirement.value.force || Presentable(t[k].was.local))
  {
    hide Effect, ReadAt, FetchedAt;
    assert StepAt(t, k, st, will, base, order);
  }

  /** Over every history: when a session is dropped for its receipt, the
      workspace of each of its attachments has been closed. */
  lemma DroppedClosed(t: seq<Event>, origin: State, st: State, k: nat, will: nat -> Fortune, base: Commit, order: Commit -> seq<Commit>)
    requires History(t, origin, st, will, base, order) && k < |t| && t[k].was.sess.Some? && StateAt(t, k + 1, st).sess.None?
    ensures AllHaveClosed(t[..k], t[k].was.sess.value, will)
  {
    hide ReadAt, FetchedAt;
    assert StepAt(t, k, st, will, base, order);
    DropsRecord(t[k].was, t[k].act, will(k), base, order);
  }

  lemma DropsRecord(st: State, act: Act, f: Fortune, base: Commit, order: Commit -> seq<Commit>)
    requires Fits(st, act) && st.sess.Some? && Effect(st, act, f, base, order).sess.None?
    ensures act.Records? && act.sess.None?
  {
    hide Misled, Overlooks, AppendAcceptance, ReplayRange;
  }

  lemma WorktreeGoes(st: State, act: Act, f: Fortune, base: Commit, order: Commit -> seq<Commit>)
    requires Fits(st, act) && !st.local.worktree.Gone? && Effect(st, act, f, base, order).local.worktree.Gone?
    ensures Retiring(st) && (st.sess.value.retirement.value.force || !st.local.worktree.Dirty?)
  {
  }

  lemma HarmPrefix(t: seq<Event>, k: nat, i: nat, will: nat -> Fortune, base: Commit, order: Commit -> seq<Commit>)
    requires k <= |t| && HarmAt(t[..k], i, will, base, order)
    ensures i < k && HarmAt(t, i, will, base, order)
  {
    hide Harms;
  }
}

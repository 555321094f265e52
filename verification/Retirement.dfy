/** The durable record of a session's retirement, the world it acts on, and
    what every store update keeps. */
module Retirement {
  import opened Options
  import opened Git
  import opened Replay
  import opened ReplayCoverage

  datatype Operation = Merge | Delete

  datatype Phase = Checking | Paused | Closing | FinalCheck | Removing

  datatype AttachmentPhase = Creating | Active | Closed

  datatype Attachment = Attachment(id: nat, phase: AttachmentPhase)

  datatype EffectKey = Herdr(id: nat) | RemoteCheckout | LocalWorktree | BeadsRemote | GitRemote | GitBranch | ReplayJournal

  datatype EffectStatus = Intended | Done

  const EFFECT_ORDER: seq<EffectKey> := [RemoteCheckout, LocalWorktree, BeadsRemote, GitRemote, GitBranch, ReplayJournal]

  /** A commit's name, or the word a forced delete records instead of one. */
  datatype Name = Discarded | Sha(c: Commit)

  datatype Acceptance = Acceptance(tip: Name, replayBase: Name, verifiedHead: Name)

  datatype Intent = Intent(
    op: Operation, force: bool, phase: Phase, branch: string,
    accepted: seq<Acceptance>, signed: set<Commit>, effects: map<EffectKey, EffectStatus>, failed: bool)

  datatype Session = Session(known: bool, attachments: seq<Attachment>, retirement: Option<Intent>)

  datatype Receipt = Receipt(op: Operation, signed: set<Commit>)

  /** The session's checkout on the instance; its branch is the agent's. */
  datatype Remote = Remote(present: bool, tip: Commit, dirty: bool)

  datatype Tree = Gone | Clean | Dirty

  /** The user's machine. `objects` holds the session commits fetched so far,
      `tidy` says whether the destination checkout has nothing uncommitted,
      `alike` holds the pairs of commits git takes for the same change. */
  datatype Local = Local(
    repo: Repo, branch: string, tidy: bool, objects: set<Commit>, alike: set<(Commit, Commit)>,
    worktree: Tree, gitRemote: bool, gitBranch: bool)

  /** What the newest accepted check read on the instance: the tip, the moment
      it was read at, and the attachments whose close had been done by then. */
  datatype Check = Check(tip: Name, at: nat, closed: set<nat>)

  /** `strayed` remembers that one of two narrow things has happened: a check
      was recorded whose tip the branch it fetched no longer held, with a commit
      nobody accounted for; a replay began from a record that makes it skip a
      stopped pick which never landed. */
  datatype State = State(sess: Option<Session>, receipt: Option<Receipt>, remote: Remote, local: Local, check: Option<Check>, strayed: bool)

  // ----- the store updates -----

  /** A check of a tip accepted before replaces that acceptance in place. */
  function AppendAcceptance(accepted: seq<Acceptance>, a: Acceptance): seq<Acceptance> {
    if accepted == [] then [a]
    else if accepted[0].tip == a.tip then [a] + accepted[1..]
    else [accepted[0]] + AppendAcceptance(accepted[1..], a)
  }

  function Accept(r: Intent, a: Acceptance, signed: set<Commit>, phase: Phase): Intent {
    r.(accepted := AppendAcceptance(r.accepted, a), signed := r.signed + signed, phase := phase, failed := false)
  }

  function Status(r: Intent, key: EffectKey): Option<EffectStatus> {
    if key in r.effects then Some(r.effects[key]) else None
  }

  predicate IsDone(r: Intent, key: EffectKey) {
    Status(r, key) == Some(Done)
  }

  function IntendEffect(r: Intent, key: EffectKey): Intent {
    if IsDone(r, key) then r else r.(effects := r.effects[key := Intended])
  }

  function MarkDone(r: Intent, key: EffectKey): Intent {
    r.(effects := r.effects[key := Done])
  }

  function WithPhase(attachments: seq<Attachment>, id: nat, phase: AttachmentPhase): seq<Attachment> {
    seq(|attachments|, i requires 0 <= i < |attachments| =>
      if attachments[i].id == id then attachments[i].(phase := phase) else attachments[i])
  }

  /** Closing one attachment: its phase and its effect in one update. */
  function CompleteAttachment(s: Session, id: nat): Session
    requires s.retirement.Some?
  {
    s.(attachments := WithPhase(s.attachments, id, Closed), retirement := Some(MarkDone(s.retirement.value, Herdr(id))))
  }

  function Pause(r: Intent): Intent {
    r.(phase := if r.phase.Removing? then Removing else Paused, failed := true)
  }

  /** A new attachment voids the final evidence: back to checking, and only
      the attachment effects are kept. */
  function InvalidateFinalEvidence(s: Session): Session {
    if s.retirement.None? then s else
    var r := s.retirement.value;
    s.(retirement := Some(r.(phase := Checking, failed := false, effects := map k | k in r.effects && k.Herdr? :: r.effects[k])))
  }

  function AddAttachment(s: Session, id: nat): Session {
    InvalidateFinalEvidence(s.(attachments := s.attachments + [Attachment(id, Creating)]))
  }

  predicate AttachmentsDone(s: Session) {
    s.retirement.Some? && s.retirement.value.accepted != [] && forall a :: a in s.attachments ==> a.phase == Closed
  }

  predicate EffectsDone(s: Session)
    requires s.retirement.Some?
  {
    && (forall a :: a in s.attachments ==> IsDone(s.retirement.value, Herdr(a.id)))
    && (forall k :: k in EFFECT_ORDER ==> IsDone(s.retirement.value, k))
  }

  // ----- the invariant of the record -----

  predicate PastChecking(p: Phase) {
    p.Closing? || p.FinalCheck? || p.Removing?
  }

  predicate AllClosesDone(s: Session)
    requires s.retirement.Some?
  {
    forall a :: a in s.attachments ==> IsDone(s.retirement.value, Herdr(a.id))
  }

  /** The done effects are a prefix of the order, with at most one more begun. */
  predicate InOrder(effects: map<EffectKey, EffectStatus>) {
    forall i, j :: 0 <= i < j < |EFFECT_ORDER| && EFFECT_ORDER[j] in effects ==>
      EFFECT_ORDER[i] in effects && effects[EFFECT_ORDER[i]] == Done
  }

  predicate IntentOk(r: Intent) {
    && (r.effects != map[] ==> r.accepted != [])
    && (forall k :: k in r.effects && !k.Herdr? ==> r.phase.Removing?)
    && (PastChecking(r.phase) ==> r.accepted != [])
    && (r.force ==> r.op.Delete?)
    && (!r.force ==> InOrder(r.effects))
  }

  predicate SessionOk(s: Session) {
    match s.retirement
    case None => forall a :: a in s.attachments ==> a.phase != Closed
    case Some(r) =>
      && IntentOk(r)
      && (forall a :: a in s.attachments && a.phase == Closed ==> IsDone(r, Herdr(a.id)))
      && (r.phase.FinalCheck? || r.phase.Removing? ==> AllClosesDone(s))
  }

  lemma IntendKeeps(r: Intent, key: EffectKey)
    requires IntentOk(r) && r.accepted != []
    requires key.Herdr? || r.phase.Removing?
    requires !key.Herdr? && !r.force ==> forall i, j :: 0 <= i < j < |EFFECT_ORDER| && EFFECT_ORDER[j] == key ==> IsDone(r, EFFECT_ORDER[i])
    ensures IntentOk(IntendEffect(r, key)) && IntendEffect(r, key).accepted == r.accepted
    ensures forall k :: IsDone(r, k) ==> IsDone(IntendEffect(r, key), k)
  {
  }

  lemma DoneKeeps(r: Intent, key: EffectKey)
    requires IntentOk(r) && key in r.effects
    ensures IntentOk(MarkDone(r, key))
    ensures forall k :: IsDone(r, k) || k == key ==> IsDone(MarkDone(r, key), k)
  {
  }

  // ----- the chain of acceptances -----

  predicate Tips(accepted: seq<Acceptance>) {
    forall i :: 0 <= i < |accepted| ==> accepted[i].tip.Sha? && accepted[i].replayBase.Sha? && accepted[i].verifiedHead.Sha?
  }

  /** Source tips strictly increase by ancestry. */
  predicate Increasing(accepted: seq<Acceptance>)
    requires Tips(accepted)
  {
    forall i, j :: 0 <= i < j < |accepted| ==> Ancestor(accepted[i].tip.c, accepted[j].tip.c) && accepted[i].tip != accepted[j].tip
  }

  /** Git verifies the signature of each. */
  predicate AllGood(s: set<Commit>) {
    forall c :: c in s ==> Good(c)
  }

  /** Each replay is anchored on history the one before had verified, and
      every commit from the first anchor on has been reported good. */
  predicate Linked(accepted: seq<Acceptance>, signed: set<Commit>)
    requires Tips(accepted)
  {
    && AllGood(signed)
    && (forall i :: 0 <= i < |accepted| ==> Range(accepted[0].replayBase.c, accepted[i].verifiedHead.c) <= signed)
    && (forall i :: 0 < i < |accepted| ==> Ancestor(accepted[i].replayBase.c, accepted[i - 1].verifiedHead.c))
  }

  predicate ChainOk(accepted: seq<Acceptance>, signed: set<Commit>, objects: set<Commit>) {
    && Tips(accepted) && Increasing(accepted) && Linked(accepted, signed)
    && forall i :: 0 <= i < |accepted| ==> accepted[i].tip.c in objects
  }

  /** Everything the session made up to each accepted tip was accounted for on
      the head that was verified with it. */
  ghost predicate Delivered(accepted: seq<Acceptance>, base: Commit, drops: set<(Commit, Commit)>)
    requires Tips(accepted)
  {
    forall i, c :: 0 <= i < |accepted| && c in Reach(accepted[i].tip.c) ==> Known(c, accepted[i].verifiedHead.c, drops, Reach(base))
  }

  lemma {:induction false} AppendAtEnd(accepted: seq<Acceptance>, a: Acceptance)
    requires forall i :: 0 <= i < |accepted| ==> accepted[i].tip != a.tip
    ensures AppendAcceptance(accepted, a) == accepted + [a]
  {
    if accepted != [] {
      AppendAtEnd(accepted[1..], a);
    }
  }

  lemma {:induction false} AppendReplacesLast(accepted: seq<Acceptance>, a: Acceptance)
    requires accepted != [] && accepted[|accepted| - 1].tip == a.tip
    requires forall i :: 0 <= i < |accepted| - 1 ==> accepted[i].tip != a.tip
    ensures AppendAcceptance(accepted, a) == accepted[..|accepted| - 1] + [a]
  {
    if |accepted| > 1 {
      assert accepted[1..][|accepted| - 2] == accepted[|accepted| - 1];
      AppendReplacesLast(accepted[1..], a);
    }
  }

  lemma {:induction false} AppendNonempty(accepted: seq<Acceptance>, a: Acceptance)
    ensures AppendAcceptance(accepted, a) != [] && a in AppendAcceptance(accepted, a)
  {
    if accepted != [] && accepted[0].tip != a.tip {
      AppendNonempty(accepted[1..], a);
    }
  }

  /** What the newest merge check establishes about its acceptance, given the
      one before it. */
  ghost predicate Follows(accepted: seq<Acceptance>, a: Acceptance, signed: set<Commit>, objects: set<Commit>)
    requires Tips(accepted)
  {
    && a.tip.Sha? && a.replayBase.Sha? && a.verifiedHead.Sha?
    && a.tip.c in objects && AllGood(signed)
    && if accepted == [] then Range(a.replayBase.c, a.verifiedHead.c) <= signed else
       var prior := accepted[|accepted| - 1];
       || a == prior
       || (&& a.tip != prior.tip && Ancestor(prior.tip.c, a.tip.c)
           && Ancestor(a.replayBase.c, prior.verifiedHead.c)
           && Range(a.replayBase.c, a.verifiedHead.c) <= signed)
  }

  /** For a merge the last entry is always the newest check, although an
      acceptance can be replaced in place. */
  lemma NewestIsLast(accepted: seq<Acceptance>, a: Acceptance, signed: set<Commit>, objects: set<Commit>)
    requires Tips(accepted) && Increasing(accepted) && Follows(accepted, a, signed, objects)
    ensures AppendAcceptance(accepted, a) == if accepted != [] && a == accepted[|accepted| - 1] then accepted else accepted + [a]
  {
    if accepted != [] {
      var prior := accepted[|accepted| - 1];
      if a == prior {
        AppendReplacesLast(accepted, a);
      } else {
        forall i | 0 <= i < |accepted| ensures accepted[i].tip != a.tip {
          if accepted[i].tip == a.tip {
            assert i < |accepted| - 1;
            AncestorAntisymmetric(accepted[i].tip.c, prior.tip.c);
          }
        }
        AppendAtEnd(accepted, a);
      }
    }
  }

  lemma RangeSplits(from: Commit, mid: Commit, anchor: Commit, to: Commit)
    requires Ancestor(anchor, mid)
    ensures Range(from, to) <= Range(from, mid) + Range(anchor, to)
  {
    ReachTransitive(anchor, mid);
  }

  lemma IncreasingExtends(accepted: seq<Acceptance>, a: Acceptance)
    requires Tips(accepted) && Increasing(accepted) && accepted != [] && a.tip.Sha? && a.replayBase.Sha? && a.verifiedHead.Sha?
    requires Ancestor(accepted[|accepted| - 1].tip.c, a.tip.c) && a.tip != accepted[|accepted| - 1].tip
    ensures Tips(accepted + [a]) && Increasing(accepted + [a])
  {
    var all, n := accepted + [a], |accepted|;
    var prior := accepted[n - 1];
    forall i, j | 0 <= i < j < |all| ensures Ancestor(all[i].tip.c, all[j].tip.c) && all[i].tip != all[j].tip {
      if j == n && i < n - 1 {
        assert Ancestor(accepted[i].tip.c, prior.tip.c);
        ReachTransitive(prior.tip.c, a.tip.c);
        if all[i].tip == a.tip {
          AncestorAntisymmetric(prior.tip.c, a.tip.c);
        }
      }
    }
  }

  lemma LinkedExtends(accepted: seq<Acceptance>, a: Acceptance, signed: set<Commit>, more: set<Commit>)
    requires Tips(accepted) && Linked(accepted, signed) && accepted != [] && a.tip.Sha? && a.replayBase.Sha? && a.verifiedHead.Sha?
    requires Ancestor(a.replayBase.c, accepted[|accepted| - 1].verifiedHead.c) && Range(a.replayBase.c, a.verifiedHead.c) <= more && AllGood(more)
    ensures Tips(accepted + [a]) && Linked(accepted + [a], signed + more)
  {
    hide Range, Reach;
    var all := accepted + [a];
    assert forall i :: 0 <= i < |accepted| ==> all[i] == accepted[i];
    assert all[|accepted|] == a;
    RangeSplits(accepted[0].replayBase.c, accepted[|accepted| - 1].verifiedHead.c, a.replayBase.c, a.verifiedHead.c);
  }

  lemma FirstLink(a: Acceptance, signed: set<Commit>, more: set<Commit>)
    requires a.tip.Sha? && a.replayBase.Sha? && a.verifiedHead.Sha? && Range(a.replayBase.c, a.verifiedHead.c) <= more
    requires Linked([], signed) && AllGood(more)
    ensures Tips([a]) && Increasing([a]) && Linked([a], signed + more)
  {
    hide Range;
  }

  lemma LinkedGrows(accepted: seq<Acceptance>, signed: set<Commit>, more: set<Commit>)
    requires Tips(accepted) && Linked(accepted, signed) && AllGood(more)
    ensures Linked(accepted, signed + more)
  {
    hide Range, Reach;
  }

  lemma ChainExtends(accepted: seq<Acceptance>, a: Acceptance, signed: set<Commit>, more: set<Commit>, objects: set<Commit>)
    requires ChainOk(accepted, signed, objects) && Follows(accepted, a, more, objects)
    ensures ChainOk(AppendAcceptance(accepted, a), signed + more, objects)
  {
    hide Range, Reach, AppendAcceptance, Increasing, Linked;
    NewestIsLast(accepted, a, more, objects);
    if accepted == [] {
      FirstLink(a, signed, more);
      assert accepted + [a] == [a];
    } else if a == accepted[|accepted| - 1] {
      LinkedGrows(accepted, signed, more);
    }
    if accepted != [] && a != accepted[|accepted| - 1] {
      IncreasingExtends(accepted, a);
      LinkedExtends(accepted, a, signed, more);
    }
  }

  lemma DeliveredExtends(accepted: seq<Acceptance>, a: Acceptance, base: Commit, drops: set<(Commit, Commit)>, drops': set<(Commit, Commit)>, signed: set<Commit>, objects: set<Commit>)
    requires Tips(accepted) && Increasing(accepted) && Follows(accepted, a, signed, objects)
    requires Delivered(accepted, base, drops) && drops <= drops'
    requires forall c :: c in Reach(a.tip.c) ==> Known(c, a.verifiedHead.c, drops', Reach(base))
    ensures Tips(AppendAcceptance(accepted, a)) && Delivered(AppendAcceptance(accepted, a), base, drops')
  {
    NewestIsLast(accepted, a, signed, objects);
    var all := AppendAcceptance(accepted, a);
    forall i, c | 0 <= i < |all| && c in Reach(all[i].tip.c) ensures Known(c, all[i].verifiedHead.c, drops', Reach(base)) {
      if i < |accepted| {
        var h := all[i].verifiedHead.c;
        assert all[i] == accepted[i] && h in Reach(h);
        KnownGrows(c, h, h, drops, drops', Reach(base));
      }
    }
  }

  /** `git cherry` from `head` on `ref` lists nothing as missing: each commit of
      `head..ref` that is no merge has its like among those of `ref..head`. */
  predicate NothingMissing(head: Commit, ref: Commit, alike: set<(Commit, Commit)>) {
    forall c :: c in Range(head, ref) && |c.parents| <= 1 ==>
      exists x :: x in Range(ref, head) && |x.parents| <= 1 && (c, x) in alike
  }

  /** The commit is on the branch, itself or as the same change. */
  predicate Held(c: Commit, head: Commit, alike: set<(Commit, Commit)>) {
    |c.parents| > 1 || c in Reach(head) || exists x :: x in Reach(head) && (c, x) in alike
  }

  predicate AllHeld(s: set<Commit>, head: Commit, alike: set<(Commit, Commit)>) {
    forall c :: c in s ==> Held(c, head, alike)
  }

  /** What a check of an unforced delete establishes of each tip it accepts. */
  ghost predicate Unneeded(accepted: seq<Acceptance>, alike: set<(Commit, Commit)>) {
    forall a :: a in accepted ==> a.tip.Sha? && a.verifiedHead.Sha? && AllHeld(Reach(a.tip.c), a.verifiedHead.c, alike)
  }

  lemma {:induction false} AppendMembers(accepted: seq<Acceptance>, a: Acceptance)
    ensures forall x :: x in AppendAcceptance(accepted, a) ==> x in accepted || x == a
  {
    if accepted != [] && accepted[0].tip != a.tip {
      AppendMembers(accepted[1..], a);
    }
  }

  /** A delete's checks need not be monotone: when the agent goes back to a
      tip accepted before, the newest check is not the last entry, and removal
      goes on asking for the other tip. */
  lemma DeleteMayKeepAnOlderCheckLast(first: Acceptance, second: Acceptance, again: Acceptance)
    requires first.tip == again.tip != second.tip
    ensures AppendAcceptance(AppendAcceptance([first], second), again) == [again, second]
  {
    assert AppendAcceptance([first], second) == [first, second];
  }

  /** Exactly when a check is recorded last. */
  lemma {:induction false} RecordedLast(accepted: seq<Acceptance>, a: Acceptance)
    ensures
      var all := AppendAcceptance(accepted, a);
      all != [] && (all[|all| - 1] == a <==> (a in accepted && a == accepted[|accepted| - 1]) || forall i :: 0 <= i < |accepted| - 1 ==> accepted[i].tip != a.tip)
  {
    if |accepted| > 1 {
      var rest := accepted[1..];
      RecordedLast(rest, a);
      assert rest[|rest| - 1] == accepted[|accepted| - 1];
      assert forall i :: 0 <= i < |rest| ==> rest[i] == accepted[i + 1];
      AppendNonempty(rest, a);
      if accepted[0].tip == a.tip {
        assert accepted[0].tip == a.tip;
      } else {
        var all := AppendAcceptance(accepted, a);
        var tail := AppendAcceptance(rest, a);
        assert all[|all| - 1] == tail[|tail| - 1];
        assert (forall i :: 0 <= i < |accepted| - 1 ==> accepted[i].tip != a.tip) <==> (forall i :: 0 <= i < |rest| - 1 ==> rest[i].tip != a.tip);
      }
    }
  }
}

/**
 * Following a unit over connections that may drop (internal/reconcile/detached.go:48-232): what is
 * written is always the journal up to the cursor, and on a finished unit all of it.
 */
module Follower {
  import opened Options
  import opened Journal

  // -------------------------------------------------------------------- the instance

  datatype Sub = Absent | Running | Exited | Failed

  // `journals`: every invocation's entries so far, and `ends` how those that ran to their end ended.
  // `current` is the last one started.
  datatype World = World(journals: map<nat, seq<Entry>>, ends: map<nat, Sub>, current: nat, sub: Sub)

  predicate Finished(s: Sub) { s == Exited || s == Failed }

  // An invocation that will write no more.
  predicate Over(w: World, inv: nat) { inv != w.current || Finished(w.sub) || w.sub == Absent }

  ghost predicate Sound(w: World) {
    && w.current in w.journals
    && (forall i :: i in w.journals ==> i <= w.current)
    && (Finished(w.sub) ==> w.current in w.ends && w.ends[w.current] == w.sub)
    && (w.sub == Running ==> w.current !in w.ends)
    && (forall i :: i in w.ends ==> i <= w.current)
    && (forall i, k :: i in w.journals && 0 <= k < |w.journals[i]| ==> GoodCursor(w.journals[i][k].cursor))
    && (forall i, j, k :: i in w.journals && 0 <= j < k < |w.journals[i]| ==>
          w.journals[i][j].cursor != w.journals[i][k].cursor)
  }

  // What time may do: entries are only added, and none to an invocation that is over; a finished
  // unit runs again only as a new invocation.
  ghost predicate Later(w: World, v: World) {
    && v.current >= w.current
    && (forall i :: i in w.journals ==> i in v.journals && w.journals[i] <= v.journals[i])
    && (forall i :: i in w.journals && Over(w, i) ==> v.journals[i] == w.journals[i] && Over(v, i))
    && (forall i :: i in w.ends ==> i in v.ends && v.ends[i] == w.ends[i])
    && (forall i :: i in w.journals && Over(w, i) && i !in w.ends ==> i !in v.ends)
  }

  lemma LaterRefl(w: World)
    ensures Later(w, w)
  {
  }

  lemma LaterTransitive(u: World, v: World, w: World)
    requires Later(u, v) && Later(v, w)
    ensures Later(u, w)
  {
  }

  function Wrote(w: World, e: Entry): World
    requires w.current in w.journals
  {
    w.(journals := w.journals[w.current := w.journals[w.current] + [e]])
  }

  function Ended(w: World, sub: Sub): World {
    w.(sub := sub, ends := if Finished(sub) then w.ends[w.current := sub] else w.ends)
  }

  function Began(w: World): World {
    w.(journals := w.journals[w.current + 1 := []], current := w.current + 1, sub := Running)
  }

  predicate Writable(w: World, e: Entry) {
    && w.current in w.journals && w.sub == Running && GoodCursor(e.cursor)
    && forall k :: 0 <= k < |w.journals[w.current]| ==> w.journals[w.current][k].cursor != e.cursor
  }

  // The unit writes, ends, is gone after a reboot, or is started by somebody else.
  datatype Happening = Writes(e: Entry) | Ends(well: bool) | Reboots | StartedElsewhere

  function Happened(w: World, h: Happening): World {
    match h
    case Writes(e) => if Writable(w, e) then Wrote(w, e) else w
    case Ends(well) => if w.sub == Running then Ended(w, if well then Exited else Failed) else w
    case Reboots => Ended(w, Absent)
    case StartedElsewhere => Began(w)
  }

  function AllHappened(w: World, hs: seq<Happening>): World
    decreases |hs|
  {
    if hs == [] then w else AllHappened(Happened(w, hs[0]), hs[1..])
  }

  lemma WroteKeeps(w: World, e: Entry)
    requires Sound(w) && Writable(w, e)
    ensures Sound(Wrote(w, e)) && Later(w, Wrote(w, e))
  {
    hide GoodCursor;
  }

  lemma EndedKeeps(w: World, sub: Sub)
    requires Sound(w) && sub != Running && (Finished(sub) ==> w.sub == Running)
    ensures Sound(Ended(w, sub)) && Later(w, Ended(w, sub))
  {
    hide GoodCursor;
  }

  lemma BeganKeeps(w: World)
    requires Sound(w)
    ensures Sound(Began(w)) && Later(w, Began(w))
  {
    hide GoodCursor;
  }

  lemma SoundHasCurrent(w: World)
    requires Sound(w)
    ensures w.current in w.journals
  {
  }

  // Nobody has started the unit: it is the same invocation, and one that has stopped stays so.
  predicate Quiet(w: World, v: World) {
    && v.current == w.current
    && (v.sub == Running ==> w.sub == Running)
    && (w.sub == Absent ==> v.sub == Absent)
  }

  // It was not over before: it ran at some time since, or began since.
  predicate NotOverBefore(w: World, inv: nat) { inv !in w.journals || !Over(w, inv) }

  datatype Status = Status(found: bool, invocation: nat, sub: Sub)

  // The place a cursor names: just past its entry. None for one that is not there.
  function PlaceOf(entries: seq<Entry>, cursor: string): (r: Option<nat>)
    ensures r.Some? ==> 0 < r.value <= |entries| && entries[r.value - 1].cursor == cursor
    ensures r.None? ==> forall k :: 0 <= k < |entries| ==> entries[k].cursor != cursor
  {
    if entries == [] then None
    else if entries[|entries| - 1].cursor == cursor then Some(|entries|)
    else PlaceOf(entries[..|entries| - 1], cursor)
  }

  // journalctl for one invocation, after a cursor if there is one.
  function Journalctl(w: World, inv: nat, cursor: string, says: bool): Option<string> {
    var entries := if inv in w.journals then w.journals[inv] else [];
    if cursor == "" then Some(Shown(entries, says))
    else
      var at := PlaceOf(entries, cursor);
      if at.None? then None else Some(Shown(entries[at.value..], says))
  }

  lemma {:induction false} HappenedKeeps(w: World, hs: seq<Happening>)
    requires Sound(w)
    ensures var v := AllHappened(w, hs); Sound(v) && Later(w, v) && (StartedElsewhere !in hs ==> Quiet(w, v))
    decreases |hs|
  {
    hide Happened, Sound, Later;
    if hs == [] {
      LaterRefl(w);
    } else {
      var v := Happened(w, hs[0]);
      OneKeeps(w, hs[0]);
      HappenedKeeps(v, hs[1..]);
      LaterTransitive(w, v, AllHappened(w, hs));
      assert StartedElsewhere !in hs ==> StartedElsewhere !in hs[1..] && hs[0] != StartedElsewhere;
    }
  }

  lemma OneKeeps(w: World, h: Happening)
    requires Sound(w)
    ensures var v := Happened(w, h); Sound(v) && Later(w, v) && (h != StartedElsewhere ==> Quiet(w, v))
  {
    hide Sound, Later, Writable;
    LaterRefl(w);
    match h {
      case Writes(e) => if Writable(w, e) { WritableHere(w, e); WroteKeeps(w, e); }
      case Ends(well) => if w.sub == Running { EndedKeeps(w, if well then Exited else Failed); }
      case Reboots => EndedKeeps(w, Absent);
      case StartedElsewhere => BeganKeeps(w);
    }
  }

  lemma WritableHere(w: World, e: Entry)
    requires Writable(w, e)
    ensures w.current in w.journals
  {
  }

  datatype Command = Show | Read(invocation: nat, cursor: string) | Start | Sleep
  // `Exit`: the command ran and failed. `Lost`: no answer, whatever became of it.
  datatype Reply = Unit(status: Status) | Text(out: string) | Started | Exit | Lost

  // --------------------------------------------------------------------- one attempt

  // What a moment has in store for an attempt: what has happened by then, whether a dial gets through,
  // whether the connection drops and then whether the command was carried out first, whether the
  // instance refuses it or journalctl names an empty journal, and whether it has been gone too long.
  datatype Moment = Moment(
    happens: seq<Happening>, dials: bool, drops: bool, carried: bool, refuses: bool, says: bool, tired: bool)

  // An attempt, the world just before, and whether there was a connection.
  datatype Attempt = Attempt(was: World, up: bool, cmd: Command)

  function Seen(a: Attempt, f: Moment): World { AllHappened(a.was, f.happens) }

  predicate Carries(a: Attempt, f: Moment) { a.cmd != Sleep && (a.up || f.dials) && (!f.drops || f.carried) }

  // A start that took effect.
  predicate Took(a: Attempt, f: Moment) { a.cmd.Start? && Carries(a, f) && !f.refuses }

  function After(a: Attempt, f: Moment): World { if Took(a, f) then Began(Seen(a, f)) else Seen(a, f) }

  predicate UpAfter(a: Attempt, f: Moment) { if a.cmd.Sleep? then a.up else (a.up || f.dials) && !f.drops }

  function AnswerTo(a: Attempt, f: Moment): Reply {
    if !Carries(a, f) || f.drops then Lost else
    match a.cmd
    case Show => Unit(Status(Seen(a, f).sub != Absent, Seen(a, f).current, Seen(a, f).sub))
    case Read(inv, cursor) =>
      var text := Journalctl(Seen(a, f), inv, cursor, f.says);
      if f.refuses || text.None? then Exit else Text(text.value)
    case Start => if f.refuses then Exit else Started
    case Sleep => Lost
  }

  // The world, and the connection, that attempt k left: the next one's, or the present ones.
  ghost predicate Led(log: seq<Attempt>, k: nat, will: nat -> Moment, w: World, up: bool)
    requires k < |log|
  {
    && Sound(log[k].was)
    && After(log[k], will(k)) == (if k + 1 < |log| then log[k + 1].was else w)
    && UpAfter(log[k], will(k)) == (if k + 1 < |log| then log[k + 1].up else up)
  }

  ghost predicate Chain(log: seq<Attempt>, will: nat -> Moment, w: World, up: bool) {
    forall k :: 0 <= k < |log| ==> Led(log, k, will, w, up)
  }

  // One more attempt: the world goes on, and the unit is not started unless by it or somebody else.
  lemma AttemptKeeps(log: seq<Attempt>, will: nat -> Moment, w: World, up: bool, cmd: Command)
    requires Sound(w) && Chain(log, will, w, up)
    ensures
      var a := Attempt(w, up, cmd);
      var f := will(|log|);
      var v := After(a, f);
      && Sound(v) && Later(w, v) && Chain(log + [a], will, v, UpAfter(a, f))
      && (Alone(will, |log|, |log| + 1) && !cmd.Start? ==> Quiet(w, v))
  {
    hide Sound, Later, AllHappened, Quiet, UpAfter, Carries;
    var a, f := Attempt(w, up, cmd), will(|log|);
    HappenedKeeps(w, f.happens);
    BeganKeeps(Seen(a, f));
    LaterTransitive(w, Seen(a, f), Began(Seen(a, f)));
    assert Alone(will, |log|, |log| + 1) ==> StartedElsewhere !in will(|log|).happens;
    ChainGrows(log, will, w, up, cmd);
  }

  lemma ChainGrows(log: seq<Attempt>, will: nat -> Moment, w: World, up: bool, cmd: Command)
    requires Chain(log, will, w, up) && Sound(w)
    ensures var a := Attempt(w, up, cmd); Chain(log + [a], will, After(a, will(|log|)), UpAfter(a, will(|log|)))
  {
    hide After, UpAfter, Sound;
    var a := Attempt(w, up, cmd);
    var l := log + [a];
    forall k | 0 <= k < |l| ensures Led(l, k, will, After(a, will(|log|)), UpAfter(a, will(|log|))) {
      if k < |log| {
        assert Led(log, k, will, w, up) && l[k] == log[k];
        assert l[k + 1] == if k + 1 < |log| then log[k + 1] else a;
      }
    }
  }

  // Nobody else starts the unit in that time.
  ghost predicate Alone(will: nat -> Moment, lo: nat, hi: nat) {
    forall k :: lo <= k < hi ==> StartedElsewhere !in will(k).happens
  }

  lemma AloneParts(will: nat -> Moment, lo: nat, mid: nat, hi: nat)
    requires lo <= mid <= hi
    ensures Alone(will, lo, hi) <==> Alone(will, lo, mid) && Alone(will, mid, hi)
  {
  }

  // Of the attempts since `lo`: none is a start; the status was asked, answered, and not running.
  ghost predicate NoStart(log: seq<Attempt>, lo: nat) {
    forall k :: lo <= k < |log| ==> !log[k].cmd.Start?
  }

  predicate SaidDown(log: seq<Attempt>, k: nat, will: nat -> Moment) {
    k < |log| && log[k].cmd.Show? && AnswerTo(log[k], will(k)).Unit? && AnswerTo(log[k], will(k)).status.sub != Running
  }

  // Each start since `lo` follows directly on a status that said it was not running, and is tried
  // again only where its reply was lost.
  ghost predicate Guarded(log: seq<Attempt>, lo: nat, will: nat -> Moment) {
    && (forall j :: lo <= j < |log| && log[j].cmd.Start? ==> lo < j && SaidDown(log, j - 1, will))
    && (forall i, j :: lo <= i < j < |log| && log[i].cmd.Start? && log[j].cmd.Start? ==> AnswerTo(log[i], will(i)).Lost?)
  }

  // More than one start took effect.
  ghost predicate StartedTwice(log: seq<Attempt>, lo: nat, will: nat -> Moment) {
    exists i: nat, j: nat :: lo <= i < j < |log| && Took(log[i], will(i)) && Took(log[j], will(j))
  }

  // A start took effect, its reply was lost, and a later status found the unit no longer running,
  // with another start after it that took effect.
  ghost predicate LostAndEnded(log: seq<Attempt>, lo: nat, will: nat -> Moment) {
    exists i: nat, j: nat ::
      && lo <= i < j - 1 && j < |log| && Took(log[i], will(i)) && AnswerTo(log[i], will(i)).Lost?
      && SaidDown(log, j - 1, will) && Took(log[j], will(j))
  }

  // Exactly when more than one start of a call takes effect.
  lemma TwiceExactly(log: seq<Attempt>, lo: nat, will: nat -> Moment)
    requires Guarded(log, lo, will)
    ensures StartedTwice(log, lo, will) <==> LostAndEnded(log, lo, will)
  {
    hide Carries, AnswerTo;
    if StartedTwice(log, lo, will) {
      var i: nat, j: nat :| lo <= i < j < |log| && Took(log[i], will(i)) && Took(log[j], will(j));
      assert SaidDown(log, j - 1, will);
      assert i < j - 1;
    }
  }

  // With nobody else starting it, a start never takes effect on a running unit.
  lemma NeverClobbers(log: seq<Attempt>, lo: nat, will: nat -> Moment, w: World, up: bool, j: nat)
    requires Chain(log, will, w, up) && Guarded(log, lo, will) && Alone(will, lo, |log|)
    requires lo <= j < |log| && Took(log[j], will(j))
    ensures Seen(log[j], will(j)).sub != Running
  {
    hide Sound, Later, AllHappened, Carries;
    assert SaidDown(log, j - 1, will);
    assert Led(log, j - 1, will, w, up) && Led(log, j, will, w, up);
    HappenedKeeps(log[j].was, will(j).happens);
  }

  // Attempts that start nothing: the world went on, and quietly unless somebody else started the unit.
  ghost predicate Went(will: nat -> Moment, w: World, l: seq<Attempt>, w': World, l': seq<Attempt>) {
    && Later(w, w') && l <= l' && NoStart(l', |l|)
    && (Alone(will, |l|, |l'|) ==> Quiet(w, w'))
  }

  lemma WentNowhere(will: nat -> Moment, w: World, l: seq<Attempt>)
    ensures Went(will, w, l, w, l)
  {
    LaterRefl(w);
  }

  lemma WentOnce(will: nat -> Moment, w: World, l: seq<Attempt>, w': World, l': seq<Attempt>)
    requires Later(w, w') && |l'| == |l| + 1 && l <= l' && !l'[|l|].cmd.Start?
    requires Alone(will, |l|, |l'|) ==> Quiet(w, w')
    ensures Went(will, w, l, w', l')
  {
  }

  lemma WentOn(will: nat -> Moment, w: World, l: seq<Attempt>, w': World, l': seq<Attempt>, w'': World, l'': seq<Attempt>)
    requires Went(will, w, l, w', l') && Went(will, w', l', w'', l'')
    ensures Went(will, w, l, w'', l'')
  {
    hide Later;
    LaterTransitive(w, w', w'');
    AloneParts(will, |l|, |l'|, |l''|);
    forall k | |l| <= k < |l''| ensures !l''[k].cmd.Start? {
      assert k < |l'| ==> l''[k] == l'[k];
    }
  }

  // The caller's context has ended, or the instance was gone for too long.
  ghost predicate Cut(will: nat -> Moment, limit: nat, lo: nat, hi: nat) {
    hi >= limit || exists k :: lo <= k < hi && will(k).tired
  }

  lemma TimeIsUp(will: nat -> Moment, limit: nat, lo: nat, hi: nat)
    requires hi >= limit
    ensures Cut(will, limit, lo, hi)
  {
  }

  lemma GaveUpHere(will: nat -> Moment, limit: nat, lo: nat, k: nat, hi: nat)
    requires lo <= k < hi && will(k).tired
    ensures Cut(will, limit, lo, hi)
  {
  }

  lemma CutLater(will: nat -> Moment, limit: nat, lo: nat, mid: nat, hi: nat)
    requires lo <= mid && Cut(will, limit, mid, hi)
    ensures Cut(will, limit, lo, hi)
  {
  }

  // The instance answered that a command failed.
  ghost predicate Refused(log: seq<Attempt>, lo: nat, will: nat -> Moment) {
    exists k: nat :: lo <= k < |log| && AnswerTo(log[k], will(k)).Exit?
  }

  lemma RefusedHere(log: seq<Attempt>, lo: nat, will: nat -> Moment)
    requires lo < |log| && AnswerTo(log[|log| - 1], will(|log| - 1)).Exit?
    ensures Refused(log, lo, will)
  {
  }

  lemma RefusedLater(l: seq<Attempt>, lo: nat, mid: nat, will: nat -> Moment)
    requires lo <= mid && Refused(l, mid, will)
    ensures Refused(l, lo, will)
  {
  }

  // A status found the unit gone.
  ghost predicate WasGone(log: seq<Attempt>, lo: nat, will: nat -> Moment) {
    exists k: nat :: lo <= k < |log| && log[k].cmd.Show? && Seen(log[k], will(k)).sub == Absent
  }

  lemma GoneHere(log: seq<Attempt>, lo: nat, will: nat -> Moment)
    requires lo < |log| && log[|log| - 1].cmd.Show? && Seen(log[|log| - 1], will(|log| - 1)).sub == Absent
    ensures WasGone(log, lo, will)
  {
  }

  // The reply to every start so far was lost.
  ghost predicate Pending(log: seq<Attempt>, lo: nat, will: nat -> Moment) {
    forall i :: lo <= i < |log| && log[i].cmd.Start? ==> AnswerTo(log[i], will(i)).Lost?
  }

  lemma NothingPending(log: seq<Attempt>, will: nat -> Moment)
    ensures Guarded(log, |log|, will) && Pending(log, |log|, will)
  {
  }

  lemma WentWithout(will: nat -> Moment, w: World, l: seq<Attempt>, w': World, l': seq<Attempt>, lo: nat)
    requires Went(will, w, l, w', l') && lo <= |l| && Guarded(l, lo, will) && Pending(l, lo, will)
    ensures Guarded(l', lo, will) && Pending(l', lo, will) && l <= l' && Later(w, w')
  {
    hide Later, AnswerTo;
    forall j | lo <= j < |l'| && l'[j].cmd.Start? ensures lo < j < |l| && l'[j] == l[j] && SaidDown(l', j - 1, will) {
      assert SaidDown(l, j - 1, will) && l'[j - 1] == l[j - 1];
    }
  }

  lemma GuardedOn(will: nat -> Moment, start: World, w: World, l: seq<Attempt>, w': World, l': seq<Attempt>, lo: nat)
    requires Went(will, w, l, w', l') && lo <= |l| && Guarded(l, lo, will) && Later(start, w)
    ensures Guarded(l', lo, will) && l <= l' && Later(start, w')
  {
    hide Later, AnswerTo;
    LaterTransitive(start, w, w');
    forall j | lo <= j < |l'| && l'[j].cmd.Start? ensures lo < j < |l| && l'[j] == l[j] && SaidDown(l', j - 1, will) {
      assert SaidDown(l, j - 1, will) && l'[j - 1] == l[j - 1];
    }
  }

  // One more start, on a status that said it was not running, after starts whose replies were lost.
  lemma StartedOnce(l: seq<Attempt>, l': seq<Attempt>, lo: nat, will: nat -> Moment)
    requires lo < |l| && |l'| == |l| + 1 && l <= l' && SaidDown(l, |l| - 1, will)
    requires Guarded(l, lo, will) && Pending(l, lo, will)
    ensures Guarded(l', lo, will) && (AnswerTo(l'[|l|], will(|l|)).Lost? ==> Pending(l', lo, will))
  {
    hide AnswerTo;
    forall j | lo <= j < |l'| && l'[j].cmd.Start? ensures lo < j && SaidDown(l', j - 1, will) {
      assert l'[j - 1] == l[j - 1];
      assert j < |l| ==> l'[j] == l[j] && SaidDown(l, j - 1, will);
    }
    forall i | lo <= i < |l| && l'[i].cmd.Start? ensures AnswerTo(l'[i], will(i)).Lost? {
      assert l'[i] == l[i];
    }
  }

  class Instance {
    var world: World

    constructor (world: World)
      requires Sound(world)
      ensures this.world == world
    {
      this.world := world;
    }

    // What happens by itself.
    method Pass(happens: seq<Happening>)
      modifies this
      ensures world == AllHappened(old(world), happens)
    {
      world := AllHappened(world, happens);
    }

    method Carry(cmd: Command, refuses: bool, says: bool) returns (r: Reply)
      requires cmd != Sleep
      modifies this
      ensures world == if cmd.Start? && !refuses then Began(old(world)) else old(world)
      ensures match cmd
              case Show => r == Unit(Status(world.sub != Absent, world.current, world.sub))
              case Read(inv, cursor) =>
                var text := Journalctl(world, inv, cursor, says);
                r == if refuses || text.None? then Exit else Text(text.value)
              case _ => r == if refuses then Exit else Started
    {
      hide Journalctl;
      match cmd
      case Show => r := Unit(Status(world.sub != Absent, world.current, world.sub));
      case Read(inv, cursor) =>
        var out := Journalctl(world, inv, cursor, says);
        r := if refuses || out.None? then Exit else Text(out.value);
      case Start =>
        if refuses {
          r := Exit;
        } else {
          r := Started;
          world := Began(world);
        }
    }
  }

  // --------------------------------------------------------------------- the follower

  datatype Err = NoError | CommandFailed | GaveUp | Vanished | UnitFailed

  class Detached {
    const inst: Instance
    const will: nat -> Moment
    // When the caller's context ends.
    const limit: nat
    var connected: bool
    var out: string
    var clock: nat
    ghost var log: seq<Attempt>

    constructor (inst: Instance, will: nat -> Moment, limit: nat)
      requires Sound(inst.world)
      ensures Valid() && this.inst == inst && this.will == will && this.limit == limit
      ensures out == "" && connected && clock == 0
    {
      this.inst, this.will, this.limit := inst, will, limit;
      out, connected, clock, log := "", true, 0, [];
    }

    ghost predicate Valid() reads this, inst {
      Sound(inst.world) && clock == |log| && Chain(log, will, inst.world, connected)
    }

    // One attempt. A connection that fails is dropped, and the next attempt dials a new one; the
    // command may have been carried out all the same.
    method Exec(cmd: Command) returns (r: Reply)
      requires Valid() && clock < limit && cmd != Sleep
      modifies this, inst
      ensures Valid() && Later(old(inst.world), inst.world) && out == old(out) && clock == old(clock) + 1
      ensures log == old(log) + [Attempt(old(inst.world), old(connected), cmd)]
      ensures r == AnswerTo(log[|log| - 1], will(|log| - 1)) && inst.world == After(log[|log| - 1], will(|log| - 1))
      ensures Alone(will, old(clock), clock) && !cmd.Start? ==> Quiet(old(inst.world), inst.world)
    {
      hide Sound, Later, Chain, AllHappened, Journalctl, Quiet, Alone;
      var f := will(clock);
      AttemptKeeps(log, will, inst.world, connected, cmd);
      HappenedKeeps(inst.world, f.happens);
      clock, log := clock + 1, log + [Attempt(inst.world, connected, cmd)];
      inst.Pass(f.happens);
      if !connected {
        connected := f.dials;
        if !connected {
          return Lost;
        }
      }
      if f.drops && !f.carried {
        connected := false;
        return Lost;
      }
      r := inst.Carry(cmd, f.refuses, f.says);
      if f.drops {
        connected := false;
        return Lost;
      }
    }

    // Waits for the next poll.
    method Pause()
      requires Valid() && clock < limit
      modifies this, inst
      ensures Valid() && Later(old(inst.world), inst.world) && out == old(out) && clock == old(clock) + 1
      ensures log == old(log) + [Attempt(old(inst.world), old(connected), Sleep)]
      ensures Alone(will, old(clock), clock) ==> Quiet(old(inst.world), inst.world)
    {
      hide Sound, Later, Chain, AllHappened, Quiet, Alone;
      var f := will(clock);
      AttemptKeeps(log, will, inst.world, connected, Sleep);
      clock, log := clock + 1, log + [Attempt(inst.world, connected, Sleep)];
      inst.Pass(f.happens);
    }

    // Again until there is an answer, the context is over, or the instance has been gone too long.
    method Retry(cmd: Command) returns (r: Reply)
      requires Valid() && (cmd.Show? || cmd.Read?)
      modifies this, inst
      ensures Valid() && Went(will, old(inst.world), old(log), inst.world, log) && out == old(out)
      ensures !r.Lost? ==> && old(clock) < clock && log[clock - 1].cmd == cmd && r == AnswerTo(log[clock - 1], will(clock - 1))
                           && inst.world == After(log[clock - 1], will(clock - 1))
      ensures r.Lost? ==> Cut(will, limit, old(clock), clock)
    {
      hide Sound, Chain, Went, Cut;
      ghost var before, l := inst.world, log;
      WentNowhere(will, before, l);
      r := Lost;
      while clock < limit
        invariant Valid() && Went(will, before, l, inst.world, log) && old(clock) <= clock && out == old(out) && r.Lost?
        decreases limit - clock
      {
        ghost var w1, l1 := inst.world, log;
        r := Exec(cmd);
        WentOnce(will, w1, l1, inst.world, log);
        WentOn(will, before, l, w1, l1, inst.world, log);
        if will(clock - 1).tired { GaveUpHere(will, limit, old(clock), clock - 1, clock); }
        if !r.Lost? || will(clock - 1).tired {
          return;
        }
      }
      TimeIsUp(will, limit, old(clock), clock);
    }

    // The unit's status.
    method ReadStatus() returns (r: Reply)
      requires Valid()
      modifies this, inst
      ensures Valid() && Went(will, old(inst.world), old(log), inst.world, log) && out == old(out)
      ensures r.Lost? || r == Unit(Status(inst.world.sub != Absent, inst.world.current, inst.world.sub))
      ensures r.Lost? ==> Cut(will, limit, old(clock), clock)
      ensures !r.Lost? ==> && old(clock) < clock && log[clock - 1].cmd.Show? && AnswerTo(log[clock - 1], will(clock - 1)) == r
                           && Seen(log[clock - 1], will(clock - 1)) == inst.world
    {
      hide Sound, Chain, Went, Cut, AllHappened;
      r := Retry(Show);
    }

    // What the journal holds of one invocation past the cursor, as it is then.
    method ReadJournal(inv: nat, cursor: string) returns (r: Reply, ghost says: bool)
      requires Valid()
      modifies this, inst
      ensures Valid() && Went(will, old(inst.world), old(log), inst.world, log) && out == old(out)
      ensures r.Lost? || r.Exit? || (r.Text? && Journalctl(inst.world, inv, cursor, says) == Some(r.out))
      ensures r.Lost? ==> Cut(will, limit, old(clock), clock)
      ensures r.Exit? ==> Refused(log, old(clock), will)
      ensures !r.Lost? ==> old(clock) < clock
    {
      hide Sound, Chain, Went, Cut, AllHappened, Journalctl, Refused;
      ghost var lo := clock;
      r := Retry(Read(inv, cursor));
      says := if r.Lost? then false else will(clock - 1).says;
      if r.Exit? { RefusedHere(log, lo, will); }
    }

    // The unit is left running: a running one is attached to, never started over. More than one start
    // takes effect exactly where one was lost and its unit had ended by the next status.
    method EnsureStarted() returns (err: Err)
      requires Valid()
      modifies this, inst
      ensures Valid() && out == old(out) && Later(old(inst.world), inst.world) && old(log) <= log
      ensures Guarded(log, old(clock), will)
      ensures StartedTwice(log, old(clock), will) <==> LostAndEnded(log, old(clock), will)
      ensures Alone(will, old(clock), clock) ==> forall j :: old(clock) <= j < clock && Took(log[j], will(j)) ==> Seen(log[j], will(j)).sub != Running
      ensures err == NoError ==> inst.world.sub == Running && NotOverBefore(old(inst.world), inst.world.current)
      ensures err == NoError || (err == GaveUp && Cut(will, limit, old(clock), clock)) || (err == CommandFailed && Refused(log, old(clock), will))
    {
      hide Guarded, StartedTwice, LostAndEnded, Alone, Took, Seen, Sound, Later, NotOverBefore, Chain, Cut, Refused;
      err := StartOrAttach();
      TwiceExactly(log, old(clock), will);
      if Alone(will, old(clock), clock) {
        forall j | old(clock) <= j < clock && Took(log[j], will(j)) ensures Seen(log[j], will(j)).sub != Running {
          NeverClobbers(log, old(clock), will, inst.world, connected, j);
        }
      }
    }

    method StartOrAttach() returns (err: Err)
      requires Valid()
      modifies this, inst
      ensures Valid() && out == old(out) && Later(old(inst.world), inst.world) && old(log) <= log
      ensures Guarded(log, old(clock), will)
      ensures err == NoError ==> inst.world.sub == Running && NotOverBefore(old(inst.world), inst.world.current)
      ensures err == NoError || (err == GaveUp && Cut(will, limit, old(clock), clock)) || (err == CommandFailed && Refused(log, old(clock), will))
    {
      hide Sound, Later, NotOverBefore, Chain, Cut, Refused, Guarded, Pending, Went;
      ghost var before, l := inst.world, log;
      LaterRefl(before);
      NothingPending(log, will);
      while clock < limit
        invariant Valid() && out == old(out) && Later(before, inst.world) && l <= log
        invariant Guarded(log, |l|, will) && Pending(log, |l|, will)
        decreases limit - clock
      {
        ghost var w1, l1 := inst.world, log;
        var st := ReadStatus();
        WentWithout(will, w1, l1, inst.world, log, |l|);
        LaterTransitive(before, w1, inst.world);
        if st.Lost? {
          CutLater(will, limit, |l|, |l1|, clock);
          return GaveUp;
        }
        if st.status.sub == Running {
          RunningIsNotOver(before, inst.world, inst.world.current);
          return NoError;
        }
        if clock >= limit {
          TimeIsUp(will, limit, |l|, clock);
          return GaveUp;
        }
        ghost var w2, l2 := inst.world, log;
        var r := Exec(Start);
        LaterTransitive(before, w2, inst.world);
        StartedOnce(l2, log, |l|, will);
        if r.Started? {
          RunningIsNotOver(before, inst.world, inst.world.current);
          return NoError;
        }
        if r.Exit? {
          RefusedHere(log, |l|, will);
          return CommandFailed;
        }
        // Whether it took is for the next status to say.
      }
      TimeIsUp(will, limit, |l|, clock);
      return GaveUp;
    }

    // The next entries of one invocation, written and passed over.
    method DrainNext(inv: nat, cursor: string, ghost base: string, ghost at: nat)
      returns (err: Err, moved: string, ghost now: nat)
      requires Valid() && Following(inst.world, inv, cursor, at, base, out)
      modifies this, inst
      ensures Valid() && Went(will, old(inst.world), old(log), inst.world, log)
      ensures err == NoError ==> old(clock) < clock
      ensures Following(inst.world, inv, moved, now, base, out) && now >= at
      ensures err == NoError ==> now == EntriesOf(inst.world, inv)
      ensures err == NoError || (err == GaveUp && Cut(will, limit, old(clock), clock)) || (err == CommandFailed && Refused(log, old(clock), will))
    {
      hide Sound, Chain, Following, Journalctl, Went, Cut, Refused;
      ghost var before, l := inst.world, log;
      moved, now := cursor, at;
      var r;
      ghost var says;
      r, says := ReadJournal(inv, cursor);
      WentFollowing(will, before, l, inst.world, log, inv, cursor, at, base, out);
      if r.Lost? { return GaveUp, moved, now; }
      if r.Exit? { return CommandFailed, moved, now; }
      var written;
      written, moved := Drain(r.out, cursor);
      CaughtUp(inst.world, inv, cursor, at, base, out, says);
      WhatFollowed(inst.world, inv, cursor, at, base, out);
      out := out + written;
      return NoError, moved, EntriesOf(inst.world, inv);
    }

    // One invocation, from the beginning of its journal until it is seen to be finished.
    method Follow(inv: nat, ghost base: string) returns (err: Err, ghost now: nat)
      requires Valid() && inv == inst.world.current && out == base
      modifies this, inst
      ensures Valid() && Went(will, old(inst.world), old(log), inst.world, log)
      ensures Reached(inst.world, inv, now, base, out)
      ensures err == NoError || err == UnitFailed ==> Over(inst.world, inv) && now == EntriesOf(inst.world, inv)
      ensures Alone(will, old(clock), clock) ==> EndedAs(inst.world, inv, err)
      ensures Alone(will, old(clock), clock) && old(inst.world.sub) == Absent ==> err == GaveUp || err == CommandFailed
      ensures Stopped(err, old(clock)) && err != Vanished
    {
      hide Sound, Chain, Following, Reached, Over, EntriesOf, Went, Cut, Refused, Alone;
      ghost var start, l := inst.world, log;
      WentNowhere(will, start, l);
      SoundHasCurrent(start);
      NothingYet(start, inv, base);
      now := 0;
      var cursor := "";
      while clock < limit
        invariant Valid() && Went(will, start, l, inst.world, log) && |l| <= clock
        invariant Following(inst.world, inv, cursor, now, base, out)
        decreases limit - clock
      {
        ghost var w1, l1 := inst.world, log;
        err, cursor, now := DrainNext(inv, cursor, base, now);
        WentOn(will, start, l, w1, l1, inst.world, log);
        WhatFollowed(inst.world, inv, cursor, now, base, out);
        if err != NoError {
          if err == GaveUp { CutLater(will, limit, |l|, |l1|, clock); } else { RefusedLater(log, |l|, |l1|, will); }
          return;
        }
        ghost var w2, l2 := inst.world, log;
        var st := ReadStatus();
        WentOn(will, start, l, w2, l2, inst.world, log);
        WentFollowing(will, w2, l2, inst.world, log, inv, cursor, now, base, out);
        WhatFollowed(inst.world, inv, cursor, now, base, out);
        if st.Lost? {
          CutLater(will, limit, |l|, |l2|, clock);
          return GaveUp, now;
        }
        if st.status.sub == Exited || st.status.sub == Failed {
          ghost var w3, l3 := inst.world, log;
          err, now := DrainLast(inv, cursor, now, base);
          if Alone(will, |l|, clock) && err == NoError { EndSeen(will, start, l, w3, l3, inst.world, log, inv); }
          WentOn(will, start, l, w3, l3, inst.world, log);
          if err != NoError {
            if err == GaveUp { CutLater(will, limit, |l|, |l3|, clock); } else { RefusedLater(log, |l|, |l3|, will); }
            return;
          }
          return if st.status.sub == Exited then NoError else UnitFailed, now;
        }
        if clock < limit {
          ghost var w4, l4 := inst.world, log;
          Pause();
          WentOnce(will, w4, l4, inst.world, log);
          WentOn(will, start, l, w4, l4, inst.world, log);
          WentFollowing(will, w4, l4, inst.world, log, inv, cursor, now, base, out);
        }
      }
      WhatFollowed(inst.world, inv, cursor, now, base, out);
      TimeIsUp(will, limit, |l|, clock);
      return GaveUp, now;
    }

    // The lines written between the last read and the unit finishing.
    method DrainLast(inv: nat, cursor: string, ghost at: nat, ghost base: string) returns (err: Err, ghost now: nat)
      requires Valid() && Following(inst.world, inv, cursor, at, base, out)
      requires Finished(inst.world.sub)
      modifies this, inst
      ensures Valid() && Went(will, old(inst.world), old(log), inst.world, log)
      ensures Reached(inst.world, inv, now, base, out)
      ensures err == NoError ==> Over(inst.world, inv) && now == EntriesOf(inst.world, inv)
      ensures err == NoError || (err == GaveUp && Cut(will, limit, old(clock), clock)) || (err == CommandFailed && Refused(log, old(clock), will))
    {
      hide Sound, Chain, Following, Reached, EntriesOf, Went, Cut, Refused;
      ghost var mid, l := inst.world, log;
      WhatFollowed(mid, inv, cursor, at, base, out);
      var moved;
      err, moved, now := DrainNext(inv, cursor, base, at);
      OverStays(will, mid, l, inst.world, log, inv);
      WhatFollowed(inst.world, inv, moved, now, base, out);
    }

    // Nothing but the end of the context, too long a silence, a refused command or a unit that is gone
    // stops it before the unit has finished.
    ghost predicate Stopped(err: Err, lo: nat) reads this, inst {
      match err
      case GaveUp => Cut(will, limit, lo, clock)
      case CommandFailed => Refused(log, lo, will)
      case _ => true
    }

    // Start or attach, follow to the end. Whatever happens, the output is the invocation's journal up
    // to some entry; and where the unit was seen to be finished, all of it. Starts are as for
    // `EnsureStarted`: none is sent after the unit was once seen running.
    method Run() returns (err: Err, ghost inv: nat, ghost now: nat)
      requires Valid()
      modifies this, inst
      ensures Valid() && Later(old(inst.world), inst.world) && old(log) <= log
      ensures Guarded(log, old(clock), will) && (StartedTwice(log, old(clock), will) <==> LostAndEnded(log, old(clock), will))
      ensures Alone(will, old(clock), clock) ==> forall j :: old(clock) <= j < clock && Took(log[j], will(j)) ==> Seen(log[j], will(j)).sub != Running
      ensures Reached(inst.world, inv, now, old(out), out)
      ensures err == NoError || err == UnitFailed ==> Over(inst.world, inv) && now == EntriesOf(inst.world, inv)
      ensures err == NoError || err == UnitFailed ==> NotOverBefore(old(inst.world), inv)
      ensures Alone(will, old(clock), clock) ==> EndedAs(inst.world, inv, err)
      ensures Stopped(err, old(clock))
      ensures err == Vanished ==> WasGone(log, old(clock), will)
    {
      hide Sound, Later, Chain, Following, Reached, Over, Finished, EntriesOf, NotOverBefore, Went, Cut, Refused, Guarded;
      hide StartedTwice, LostAndEnded, Alone, Took, Seen, EndedAs;
      ghost var base, start, l := out, inst.world, log;
      err, inv, now := StartAndFollow();
      TwiceExactly(log, |l|, will);
      if Alone(will, |l|, clock) {
        forall j | |l| <= j < clock && Took(log[j], will(j)) ensures Seen(log[j], will(j)).sub != Running {
          NeverClobbers(log, |l|, will, inst.world, connected, j);
        }
      }
    }

    method StartAndFollow() returns (err: Err, ghost inv: nat, ghost now: nat)
      requires Valid()
      modifies this, inst
      ensures Valid() && Later(old(inst.world), inst.world) && old(log) <= log && Guarded(log, old(clock), will)
      ensures Reached(inst.world, inv, now, old(out), out)
      ensures err == NoError || err == UnitFailed ==>
                && Over(inst.world, inv) && now == EntriesOf(inst.world, inv)
                && NotOverBefore(old(inst.world), inv)
      ensures Alone(will, old(clock), clock) ==> EndedAs(inst.world, inv, err)
      ensures Stopped(err, old(clock))
      ensures err == Vanished ==> WasGone(log, old(clock), will)
    {
      hide Sound, Later, Chain, Following, Reached, Over, Finished, EntriesOf, NotOverBefore, Went, Cut, Refused, Guarded;
      hide StartedTwice, LostAndEnded, Alone, Took;
      ghost var base, start, l := out, inst.world, log;
      now := 0;
      err := EnsureStarted();
      inv := inst.world.current;
      SoundHasCurrent(inst.world);
      NothingReached(inst.world, inv, base);
      if err != NoError { return; }
      ghost var mid, l1 := inst.world, log;
      var st := ReadStatus();
      GuardedOn(will, start, mid, l1, inst.world, log, |l|);
      inv := inst.world.current;
      SoundHasCurrent(inst.world);
      NothingReached(inst.world, inv, base);
      if st.Lost? {
        CutLater(will, limit, |l|, |l1|, clock);
        return GaveUp, inv, now;
      }
      if !st.status.found {
        GoneHere(log, |l|, will);
        return Vanished, inv, now;
      }
      NewerIsNotOver(will, start, mid, l1, inst.world, log);
      ghost var w2, l2 := inst.world, log;
      err, now := Follow(st.status.invocation, base);
      GuardedOn(will, start, w2, l2, inst.world, log, |l|);
      AloneParts(will, |l|, |l2|, clock);
      if err == GaveUp { CutLater(will, limit, |l|, |l2|, clock); }
      if err == CommandFailed { RefusedLater(log, |l|, |l2|, will); }
    }
  }

  // ------------------------------------------------------------------ how it ended

  // What is reported is how the invocation ended. One that is only gone has not ended.
  predicate EndedAs(w: World, inv: nat, err: Err) {
    && (err == NoError ==> inv in w.ends && w.ends[inv] == Exited)
    && (err == UnitFailed ==> inv in w.ends && w.ends[inv] == Failed)
  }

  lemma EndSeen(will: nat -> Moment, start: World, l: seq<Attempt>, seen: World, l3: seq<Attempt>, w: World, l4: seq<Attempt>, inv: nat)
    requires Alone(will, |l|, |l4|) && Went(will, start, l, seen, l3) && Went(will, seen, l3, w, l4)
    requires Sound(seen) && start.current == inv && Finished(seen.sub)
    ensures inv in w.ends && w.ends[inv] == seen.sub && start.sub != Absent
  {
  }

  lemma RunningIsNotOver(w: World, v: World, inv: nat)
    requires Sound(w) && Later(w, v) && v.current == inv && v.sub == Running
    ensures NotOverBefore(w, inv)
  {
  }

  lemma NewerIsNotOver(will: nat -> Moment, w: World, mid: World, l: seq<Attempt>, v: World, l': seq<Attempt>)
    requires Sound(w) && Later(w, mid) && Went(will, mid, l, v, l') && NotOverBefore(w, mid.current)
    ensures NotOverBefore(w, v.current)
  {
  }

  // ------------------------------------------------------------------ where one is

  // The first `at` entries have been written after `base`, and the cursor says so.
  ghost predicate Following(w: World, inv: nat, cursor: string, at: nat, base: string, out: string) {
    && inv in w.journals && at <= |w.journals[inv]|
    && (if at == 0 then cursor == "" else cursor == w.journals[inv][at - 1].cursor)
    && out == base + Visible(Printed(w.journals[inv][..at]))
  }

  ghost function EntriesOf(w: World, inv: nat): nat {
    if inv in w.journals then |w.journals[inv]| else 0
  }

  // What a caller may rely on: the journal up to `now`, and nothing else.
  ghost predicate Reached(w: World, inv: nat, now: nat, base: string, out: string) {
    inv in w.journals && now <= |w.journals[inv]| && out == base + Visible(Printed(w.journals[inv][..now]))
  }

  lemma NothingReached(w: World, inv: nat, base: string)
    requires inv in w.journals
    ensures Reached(w, inv, 0, base, base)
  {
    NothingYet(w, inv, base);
  }

  lemma NothingYet(w: World, inv: nat, base: string)
    requires inv in w.journals
    ensures Following(w, inv, "", 0, base, base)
  {
    assert Visible("") == "" by { OneWritten(""); assert [""][..0] == []; }
    assert base + "" == base;
  }

  lemma WhatFollowed(w: World, inv: nat, cursor: string, at: nat, base: string, out: string)
    requires Following(w, inv, cursor, at, base, out)
    ensures Reached(w, inv, at, base, out) && inv in w.journals
  {
  }

  lemma FollowingLater(w: World, v: World, inv: nat, cursor: string, at: nat, base: string, out: string)
    requires Following(w, inv, cursor, at, base, out) && Later(w, v)
    ensures Following(v, inv, cursor, at, base, out)
  {
    hide Visible, Printed;
    assert w.journals[inv] <= v.journals[inv];
    assert v.journals[inv][..at] == w.journals[inv][..at];
  }

  // One answer brings one up to the journal as it is then.
  lemma CaughtUp(w: World, inv: nat, cursor: string, at: nat, base: string, out: string, says: bool)
    requires Sound(w) && Following(w, inv, cursor, at, base, out) && Journalctl(w, inv, cursor, says).Some?
    ensures var text := Journalctl(w, inv, cursor, says).value;
            Following(w, inv, CursorAfter(Pieces(text), cursor), |w.journals[inv]|, base, out + Written(Pieces(text)))
  {
    hide Journalctl, GoodCursor, Visible, Printed, Shown, CursorAfter, Written, Pieces;
    var entries := w.journals[inv];
    AnswerIs(w, inv, cursor, at, base, out, says);
    DrainShown(entries[at..], says, cursor);
    VisibleFrom(entries, at);
    assert entries[..|entries|] == entries;
  }

  // The answer is what the journal holds past the cursor.
  lemma AnswerIs(w: World, inv: nat, cursor: string, at: nat, base: string, out: string, says: bool)
    requires Sound(w) && Following(w, inv, cursor, at, base, out) && Journalctl(w, inv, cursor, says).Some?
    ensures Journalctl(w, inv, cursor, says) == Some(Shown(w.journals[inv][at..], says))
  {
    hide GoodCursor, Visible, Printed, Shown;
    var entries := w.journals[inv];
    CursorIsThere(w, inv, at);
    if at > 0 {
    } else {
      assert entries[0..] == entries;
    }
  }

  lemma VisibleFrom(entries: seq<Entry>, at: nat)
    requires at <= |entries|
    ensures Visible(Printed(entries)) == Visible(Printed(entries[..at])) + Visible(Printed(entries[at..]))
  {
    hide Visible, Printed;
    assert entries == entries[..at] + entries[at..];
    PrintedConcat(entries[..at], entries[at..]);
    PrintedWhole(entries[..at]);
    VisibleConcat(Printed(entries[..at]), Printed(entries[at..]));
  }

  lemma CursorIsThere(w: World, inv: nat, at: nat)
    requires Sound(w) && inv in w.journals && at <= |w.journals[inv]|
    ensures at > 0 ==> w.journals[inv][at - 1].cursor != ""
  {
    assert at > 0 ==> GoodCursor(w.journals[inv][at - 1].cursor);
  }

  lemma WentFollowing(will: nat -> Moment, w: World, l: seq<Attempt>, v: World, l': seq<Attempt>,
                      inv: nat, cursor: string, at: nat, base: string, out: string)
    requires Following(w, inv, cursor, at, base, out) && Went(will, w, l, v, l')
    ensures Following(v, inv, cursor, at, base, out)
  {
    FollowingLater(w, v, inv, cursor, at, base, out);
  }

  lemma OverStays(will: nat -> Moment, w: World, l: seq<Attempt>, v: World, l': seq<Attempt>, inv: nat)
    requires Went(will, w, l, v, l') && inv in w.journals
    ensures Over(w, inv) ==> Over(v, inv)
  {
  }

  // With no line that imitates journalctl's own, what is visible is all of it.
  lemma NothingLost(entries: seq<Entry>)
    ensures Visible(Printed(entries)) == Printed(entries)
            <==> forall k :: 0 <= k < |Pieces(Printed(entries))| ==> !Imitates(Pieces(Printed(entries))[k])
  {
    AllVisible(Printed(entries));
  }
}

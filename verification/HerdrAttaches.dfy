/**
 * Whole attaches (internal/lifecycle/herdrtabs.go:191-396): over any number of them no pane is sent
 * a command twice; an undisturbed one without an error completes the layout, exactly unless the
 * default tab it took over bears a pane name the tab asks for later; one more then changes nothing;
 * and closing the default tab never leaves the workspace without tabs.
 */
module HerdrAttaches {
  import opened Options
  import opened HerdrTabs
  import opened HerdrCommands
  import opened HerdrAttach

  lemma SpareAfterRuns(w: Workspace, v: Workspace, spare: Option<Spare>, used: bool, own: Option<nat>, labels: set<string>)
    requires SpareUnused(w, spare, used) && Steady(w, v, labels) && RunsOnly(w, v, own)
    requires spare.Some? && own == Some(spare.value.root) ==> used
    ensures SpareUnused(v, spare, used)
  {
    if spare.Some? {
      PlacedBelow(w, spare.value.tab, spare.value.root);
    }
  }

  // ------------------------------------------------------------------- names of panes

  function NamesOf(panes: seq<PaneConfig>): set<string> { set p | p in panes :: p.name }

  // The first entry under its name: later ones are skipped.
  ghost predicate FirstOfName(panes: seq<PaneConfig>, j: nat)
    requires j < |panes|
  {
    forall k :: 0 <= k < j ==> panes[k].name != panes[j].name
  }

  lemma NoNames(panes: seq<PaneConfig>)
    ensures NamesOf(panes[..0]) == {}
  {
  }

  lemma OneNameMore(panes: seq<PaneConfig>, i: nat)
    requires i < |panes|
    ensures NamesOf(panes[..i + 1]) == NamesOf(panes[..i]) + {panes[i].name}
    ensures FirstOfName(panes, i) <==> panes[i].name !in NamesOf(panes[..i])
  {
    assert panes[..i + 1] == panes[..i] + [panes[i]];
    forall k | 0 <= k < i ensures panes[k].name in NamesOf(panes[..i]) {
      assert panes[..i][k] in panes[..i];
    }
  }

  // ------------------------------------------------------------------ inside one tab

  // A pane of this name is there, and was sent its command.
  ghost predicate RunThere(w: Workspace, tab: nat, name: string) {
    exists q :: q in w.panes && q.tab == tab && q.name == name && q.id in w.runs
  }

  ghost predicate ThereAll(w: Workspace, tab: nat, names: set<string>) {
    forall n :: n in names ==> PaneThere(w, tab, n)
  }

  ghost predicate AllThere(w: Workspace, tab: nat, inTab: seq<Pane>) {
    forall q :: q in inTab ==> PaneThere(w, tab, q.name)
  }

  // No pane listed bears a name asked for.
  ghost predicate NoneNamed(inTab: seq<Pane>, panes: seq<PaneConfig>) {
    forall q, j :: q in inTab && 0 <= j < |panes| ==> q.name != panes[j].name
  }

  // Everything else is as it was at the start.
  ghost predicate Inside(start: Workspace, w: Workspace, tab: nat, t: TabConfig, spare: Option<Spare>, used: bool,
                         good: set<string>, rootName: string) {
    Ours(w, tab, t.name) && OthersSame(start, w, good, t.name) && SpareFree(w, spare, used, good, rootName)
  }

  lemma InsideAtFirst(w: Workspace, tab: nat, t: TabConfig, spare: Option<Spare>, used: bool, labels: set<string>,
                      good: set<string>, rootName: string)
    requires Ours(w, tab, t.name) && SpareFree(w, spare, used, good, rootName)
    ensures Inside(w, w, tab, t, spare, used, good, rootName)
  {
    SameWorkspace(w, labels, good, t.name);
  }

  lemma InsideOurs(start: Workspace, w: Workspace, tab: nat, t: TabConfig, spare: Option<Spare>, used: bool,
                   good: set<string>, rootName: string)
    requires Inside(start, w, tab, t, spare, used, good, rootName)
    ensures Ours(w, tab, t.name)
  {
  }

  lemma StaysInside(start: Workspace, w: Workspace, v: Workspace, tab: nat, t: TabConfig, spare: Option<Spare>, used: bool,
                    labels: set<string>, good: set<string>, rootName: string)
    requires Inside(start, w, tab, t, spare, used, good, rootName) && t.name in good && Safe(v, labels)
    requires Ours(v, tab, t.name) && OthersSame(w, v, good, t.name) && OnlyInside(w, v, tab)
    ensures Inside(start, v, tab, t, spare, used, good, rootName)
  {
    OthersTransitive(start, w, v, good, t.name);
    if spare.Some? && !used {
      var s := spare.value;
      assert Tab(tab, t.name) in w.tabs && tab != s.tab;
      var q :| q in w.panes && q.id == s.root;
      assert q in v.panes;
    }
  }

  // One pane more: the ones before are still there, and started.
  lemma OneMoreOpened(w: Workspace, v: Workspace, tab: nat, id: nat, p: PaneConfig, labels: set<string>)
    requires Safe(w, labels) && Opened(w, v, tab, id, p.name) && id >= w.next
    requires forall r :: r in w.runs ==> r in v.runs
    ensures forall n :: PaneThere(w, tab, n) ==> PaneThere(v, tab, n)
    ensures forall n :: RunThere(w, tab, n) ==> RunThere(v, tab, n)
    ensures forall n :: n != p.name && !PaneThere(w, tab, n) ==> !PaneThere(v, tab, n)
  {
    IdsBelow(w, labels);
    forall n | PaneThere(w, tab, n) ensures PaneThere(v, tab, n) {
      var q :| q in w.panes && q.tab == tab && q.name == n;
      assert q in v.panes;
    }
    forall n | RunThere(w, tab, n) ensures RunThere(v, tab, n) {
      var q :| q in w.panes && q.tab == tab && q.name == n && q.id in w.runs;
      assert q in v.panes;
    }
  }

  lemma OpenedIsThere(w: Workspace, v: Workspace, tab: nat, id: nat, p: PaneConfig)
    requires Opened(w, v, tab, id, p.name)
    ensures PaneThere(v, tab, p.name) && (id in v.runs ==> RunThere(v, tab, p.name))
  {
    assert Pane(id, tab, p.name) in v.panes;
  }

  // The tab's own first pane renamed: its old name is gone from the tab.
  lemma OwnNameGone(w: Workspace, v: Workspace, tab: nat, own: nat, ownName: string, name: string)
    requires RootAlone(w, tab, own, ownName) && Opened(w, v, tab, own, name) && name != ownName
    ensures !PaneThere(v, tab, ownName)
  {
  }

  // What the listing says of the tab: a listed tab's panes are there; one opened now holds its own
  // pane only, under the name the listing shows, if it shows any.
  ghost predicate Fits(w: Workspace, tab: nat, own: Option<nat>, ownName: string, inTab: seq<Pane>) {
    if own.None? then AllThere(w, tab, inTab)
    else RootAlone(w, tab, own.value, ownName) && forall q :: q in inTab ==> q.name == ownName
  }

  // The tab's own pane is renamed, and its old name asked for later: it is still listed, so it is
  // taken to be there.
  ghost predicate Clash(inTab: seq<Pane>, t: TabConfig) {
    t.panes != [] && FindPane(inTab, t.panes[0].name).None? && !NoneNamed(inTab, t.panes)
  }

  // How far the tab has come, undisturbed: `seen` are the names handled.
  ghost predicate Laid(w: Workspace, tab: nat, own: Option<nat>, ownName: string, inTab: seq<Pane>, t: TabConfig,
                       seen: set<string>, begun: bool) {
    var renames := own.Some? && t.panes != [] && FindPane(inTab, t.panes[0].name).None?;
    && (!renames ==> AllThere(w, tab, inTab) && ThereAll(w, tab, seen))
    && (renames && NoneNamed(inTab, t.panes) ==> ThereAll(w, tab, seen))
    && (renames && begun && !NoneNamed(inTab, t.panes) ==> !PaneThere(w, tab, ownName))
  }

  lemma LaidAtFirst(w: Workspace, tab: nat, own: Option<nat>, ownName: string, inTab: seq<Pane>, t: TabConfig)
    requires Fits(w, tab, own, ownName, inTab)
    ensures Laid(w, tab, own, ownName, inTab, t, {}, false)
  {
    if own.Some? {
      var q :| q in w.panes && q.id == own.value;
      assert forall x :: x in inTab ==> PaneThere(w, tab, x.name);
    }
  }

  lemma LaidFound(w: Workspace, tab: nat, own: Option<nat>, ownName: string, inTab: seq<Pane>, t: TabConfig,
                  seen: set<string>, i: nat)
    requires i < |t.panes| && FindPane(inTab, t.panes[i].name).Some?
    requires Laid(w, tab, own, ownName, inTab, t, seen, i > 0)
    ensures Laid(w, tab, own, ownName, inTab, t, seen + {t.panes[i].name}, true)
  {
    hide PaneThere;
    var q := FindPane(inTab, t.panes[i].name).value;
    assert q in inTab && q.name == t.panes[i].name;
  }

  lemma LaidAgain(w: Workspace, tab: nat, own: Option<nat>, ownName: string, inTab: seq<Pane>, t: TabConfig,
                  seen: set<string>, i: nat)
    requires 0 < i < |t.panes| && t.panes[i].name in seen
    requires Laid(w, tab, own, ownName, inTab, t, seen, true)
    ensures Laid(w, tab, own, ownName, inTab, t, seen + {t.panes[i].name}, true)
  {
    assert seen + {t.panes[i].name} == seen;
  }

  lemma LaidMore(w: Workspace, v: Workspace, tab: nat, own: Option<nat>, ownName: string, inTab: seq<Pane>, t: TabConfig,
                 seen: set<string>, i: nat, id: nat, labels: set<string>)
    requires i < |t.panes| && FindPane(inTab, t.panes[i].name).None? && Safe(w, labels)
    requires Laid(w, tab, own, ownName, inTab, t, seen, i > 0) && (i == 0 ==> seen == {} && Fits(w, tab, own, ownName, inTab))
    requires own.Some? ==> forall q :: q in inTab ==> q.name == ownName
    requires Opened(w, v, tab, id, t.panes[i].name) && (forall r :: r in w.runs ==> r in v.runs)
    requires if i == 0 && own.Some? then id == own.value else id >= w.next
    ensures Laid(v, tab, own, ownName, inTab, t, seen + {t.panes[i].name}, true)
  {
    hide PaneThere, Safe;
    var p := t.panes[i];
    OpenedIsThere(w, v, tab, id, p);
    if i == 0 && own.Some? {
      if !NoneNamed(inTab, t.panes) {
        var q :| q in inTab;
        assert p.name != ownName;
        OwnNameGone(w, v, tab, id, ownName, p.name);
      }
    } else {
      OneMoreOpened(w, v, tab, id, p, labels);
      if own.Some? && !NoneNamed(inTab, t.panes) {
        var q :| q in inTab;
        assert p.name != ownName;
      }
    }
  }

  lemma LaidIsExact(w: Workspace, start: Workspace, tab: nat, own: Option<nat>, ownName: string, inTab: seq<Pane>, t: TabConfig)
    requires Fits(start, tab, own, ownName, inTab) && Ours(w, tab, t.name)
    requires Laid(w, tab, own, ownName, inTab, t, NamesOf(t.panes), t.panes != [])
    ensures Complete(w, t) <==> !(own.Some? && Clash(inTab, t))
  {
    hide PaneThere;
    if own.Some? && Clash(inTab, t) {
      var q, j :| q in inTab && 0 <= j < |t.panes| && q.name == t.panes[j].name;
      assert !PaneThere(w, tab, t.panes[j].name);
    } else {
      forall i | 0 <= i < |t.panes| ensures PaneThere(w, tab, t.panes[i].name) {
        assert t.panes[i].name in NamesOf(t.panes);
      }
    }
  }

  ghost predicate PanesHere(w: Workspace, panes: seq<Pane>) {
    forall q :: q in panes ==> HasPane(w, q.id)
  }

  // Undisturbed, the first i entries have been handled and nothing is gone; what the next pane is
  // split off is there if what was listed was.
  ghost predicate OnTrack(start: Workspace, w: Workspace, tab: nat, own: Option<nat>, ownName: string, inTab: seq<Pane>,
                          t: TabConfig, seen: set<string>, i: nat, prev: Option<nat>, spare: Option<Spare>, used: bool,
                          good: set<string>, rootName: string)
    requires i <= |t.panes|
  {
    && Inside(start, w, tab, t, spare, used, good, rootName) && PanesStay(start, w)
    && Laid(w, tab, own, ownName, inTab, t, seen, i > 0) && StartedUpTo(w, tab, inTab, t.panes, i)
    && (PanesHere(start, inTab) && prev.Some? ==> HasPane(w, prev.value))
  }

  lemma TrackAtFirst(w: Workspace, tab: nat, own: Option<nat>, ownName: string, inTab: seq<Pane>, t: TabConfig,
                     prev: Option<nat>, spare: Option<Spare>, used: bool, labels: set<string>, good: set<string>, rootName: string)
    requires Ours(w, tab, t.name) && SpareFree(w, spare, used, good, rootName) && Fits(w, tab, own, ownName, inTab)
    requires prev == if inTab == [] then own else Some(inTab[0].id)
    ensures OnTrack(w, w, tab, own, ownName, inTab, t, {}, 0, prev, spare, used, good, rootName)
  {
    hide Ours, SpareFree, Inside, Laid, StartedUpTo, Fits;
    InsideAtFirst(w, tab, t, spare, used, labels, good, rootName);
    LaidAtFirst(w, tab, own, ownName, inTab, t);
    NothingStarted(w, tab, inTab, t.panes);
    FitsHasOwn(w, tab, own, ownName, inTab);
  }

  // An entry whose name was handled before.
  lemma TrackAgain(start: Workspace, w: Workspace, tab: nat, own: Option<nat>, ownName: string, inTab: seq<Pane>,
                   t: TabConfig, seen: set<string>, i: nat, prev: Option<nat>, spare: Option<Spare>, used: bool,
                   good: set<string>, rootName: string)
    requires i < |t.panes| && OnTrack(start, w, tab, own, ownName, inTab, t, seen, i, prev, spare, used, good, rootName)
    requires !FirstOfName(t.panes, i) && t.panes[i].name in seen && i > 0
    ensures OnTrack(start, w, tab, own, ownName, inTab, t, seen, i + 1, prev, spare, used, good, rootName)
  {
    hide Inside, Laid, StartedUpTo, FirstOfName, PanesStay, PanesHere;
    LaidAgain(w, tab, own, ownName, inTab, t, seen, i);
    StartedNext(w, w, tab, inTab, t.panes, i);
    assert seen + {t.panes[i].name} == seen;
  }

  // An entry whose pane is listed.
  lemma TrackFound(start: Workspace, w: Workspace, tab: nat, own: Option<nat>, ownName: string, inTab: seq<Pane>,
                   t: TabConfig, seen: set<string>, i: nat, prev: Option<nat>, spare: Option<Spare>, used: bool,
                   good: set<string>, rootName: string)
    requires i < |t.panes| && OnTrack(start, w, tab, own, ownName, inTab, t, seen, i, prev, spare, used, good, rootName)
    requires FindPane(inTab, t.panes[i].name).Some?
    ensures OnTrack(start, w, tab, own, ownName, inTab, t, seen + {t.panes[i].name}, i + 1,
                    Some(FindPane(inTab, t.panes[i].name).value.id), spare, used, good, rootName)
  {
    hide Inside, Laid, StartedUpTo, FirstOfName;
    LaidFound(w, tab, own, ownName, inTab, t, seen, i);
    StartedNext(w, w, tab, inTab, t.panes, i);
    FoundListed(inTab, t.panes[i].name);
  }

  // One more pane added, after those laid out so far.
  method AddNext(h: Herdr, t: TabConfig, ghost inTab: seq<Pane>, tab: nat, own: Option<nat>, ghost ownName: string, i: nat,
                 ghost seen: set<string>, prev: Option<nat>, ghost start: Workspace, ghost calmly: bool,
                 spare: Option<Spare>, used: bool, ghost rootName: string, ghost labels: set<string>, ghost good: set<string>)
    returns (err: bool, id: nat)
    requires Safe(h.w, labels) && Labelled(start, tab, labels) && tab < start.next && Steady(start, h.w, labels)
    requires SpareUnused(h.w, spare, used) && t.name in good
    requires prev.Some? ==> Placed(h.w, tab, prev.value)
    requires own.Some? ==> Placed(start, tab, own.value) && own.value !in start.runs
    requires own.Some? && spare.Some? && own.value == spare.value.root ==> used
    requires i < |t.panes| && FindPane(inTab, t.panes[i].name).None? && (i == 0 ==> h.w == start && seen == {})
    requires calmly ==> Fits(start, tab, own, ownName, inTab)
    requires h.Calm() && calmly ==> OnTrack(start, h.w, tab, own, ownName, inTab, t, seen, i, prev, spare, used, good, rootName)
    modifies h
    ensures Safe(h.w, labels) && Steady(start, h.w, labels) && SpareUnused(h.w, spare, used)
    ensures !err ==> Placed(h.w, tab, id)
    ensures h.Took(old(h.Clock()), old(h.since), 3) && (h.Calm() ==> old(h.Calm()))
    ensures forall r :: r in old(h.w.runs) ==> r in h.w.runs
    ensures err && h.Calm() && calmly && PanesHere(start, inTab) ==>
              Failing(h.will, old(h.Clock()), h.Clock()) || (prev.None? && (i > 0 || own.None?))
    ensures h.Calm() && calmly ==> Inside(start, h.w, tab, t, spare, used, good, rootName) && PanesStay(start, h.w)
    ensures h.Calm() && calmly && !err ==>
              OnTrack(start, h.w, tab, own, ownName, inTab, t, seen + {t.panes[i].name}, i + 1, Some(id), spare, used, good, rootName)
    ensures h.Calm() && old(h.w.tabs) != [] ==> h.w.tabs != []
  {
    hide Safe, Steady, Labelled, Placed, SpareUnused, RunsOnly, SpareFree, FindPane, Fits, Laid, Inside;
    hide OthersSame, Ours, OnlyInside, Opened, StartedUpTo, PanesHere;
    ghost var before := h.w;
    KeepsLabelled(start, before, tab, labels);
    if h.Calm() && calmly { InsideOurs(start, before, tab, t, spare, used, good, rootName); }
    if calmly { FitsHasOwn(start, tab, own, ownName, inTab); }
    err, id := AddPane(h, t.panes[i], if i == 0 then own else None, prev, tab, t.name, labels, good);
    SteadyTransitive(start, before, h.w, labels);
    SpareAfterRuns(before, h.w, spare, used, if i == 0 then own else None, labels);
    if h.Calm() && calmly {
      StayOpened(before, h.w, tab, id, t.panes[i].name);
      StaysInside(start, before, h.w, tab, t, spare, used, labels, good, rootName);
      if !err {
        LaidMore(before, h.w, tab, own, ownName, inTab, t, seen, i, id, labels);
        StartedMore(before, h.w, tab, inTab, t.panes, i, id, own, labels);
      }
    }
  }

  lemma StayOpened(w: Workspace, v: Workspace, tab: nat, id: nat, name: string)
    ensures OnlyInside(w, v, tab) ==> PanesStay(w, v)
    ensures Opened(w, v, tab, id, name) ==> HasPane(v, id)
  {
  }

  // The tab's panes in order, each found or added.
  method FillTab(h: Herdr, t: TabConfig, inTab: seq<Pane>, tab: nat, own: Option<nat>, ghost ownName: string,
                 ghost shown: bool, spare: Option<Spare>, used: bool, ghost rootName: string,
                 ghost labels: set<string>, ghost good: set<string>)
    returns (err: bool)
    requires Safe(h.w, labels) && Labelled(h.w, tab, labels) && tab < h.w.next && SpareUnused(h.w, spare, used)
    requires forall q :: q in inTab ==> q.tab == tab && Placed(h.w, tab, q.id)
    requires own.Some? ==> Placed(h.w, tab, own.value) && own.value !in h.w.runs
    requires own.Some? && spare.Some? && own.value == spare.value.root ==> used
    requires shown ==> forall i :: 0 <= i < |t.panes| ==> FindPane(inTab, t.panes[i].name).Some?
    requires t.name in good
    modifies h
    ensures Safe(h.w, labels) && Steady(old(h.w), h.w, labels) && SpareUnused(h.w, spare, used)
    ensures h.Took(old(h.Clock()), old(h.since), 3 * |t.panes|) && (h.Calm() ==> old(h.Calm()))
    ensures forall r :: r in old(h.w.runs) ==> r in h.w.runs
    ensures shown ==> !err && h.w == old(h.w) && h.changes == old(h.changes) && h.Clock() == old(h.Clock()) && h.since == old(h.since)
    // Undisturbed, nothing outside the tab changes; without an error exactly a clash leaves it
    // incomplete, and every pane that was not listed has been sent its command.
    ensures h.Calm() && Ours(old(h.w), tab, t.name) && SpareFree(old(h.w), spare, used, good, rootName)
            && Fits(old(h.w), tab, own, ownName, inTab)
            ==> && Inside(old(h.w), h.w, tab, t, spare, used, good, rootName) && PanesStay(old(h.w), h.w)
                && (!err ==> (Complete(h.w, t) <==> !(own.Some? && Clash(inTab, t))))
                && (!err ==> StartedUpTo(h.w, tab, inTab, t.panes, |t.panes|))
                && (err && PanesHere(old(h.w), inTab) ==> Failing(h.will, old(h.Clock()), h.Clock()) || (own.None? && inTab == []))
    ensures h.Calm() && old(h.w.tabs) != [] ==> h.w.tabs != []
  {
    hide Safe, Steady, Labelled, Placed, SpareUnused, RunsOnly, SpareFree, FindPane, NamesOf, Fits, Laid, Inside;
    hide OthersSame, Ours, OnlyInside, Opened, StartedUpTo, Complete, FirstOfName, Clash, OnTrack, PanesHere, PanesStay;
    ghost var start := h.w;
    ghost var calmly := Ours(start, tab, t.name) && SpareFree(start, spare, used, good, rootName)
                        && Fits(start, tab, own, ownName, inTab);
    SteadyRefl(start, labels);
    var prev := own;
    if |inTab| > 0 {
      assert inTab[0] in inTab;
      prev := Some(inTab[0].id);
    }
    if calmly { TrackAtFirst(start, tab, own, ownName, inTab, t, prev, spare, used, labels, good, rootName); }
    var seen: set<string> := {};
    NoNames(t.panes);
    for i := 0 to |t.panes|
      invariant Safe(h.w, labels) && Steady(start, h.w, labels) && SpareUnused(h.w, spare, used)
      invariant prev.Some? ==> Placed(h.w, tab, prev.value)
      invariant prev.None? ==> own.None? && inTab == []
      invariant i == 0 ==> h.w == start
      invariant seen == NamesOf(t.panes[..i])
      invariant h.Took(old(h.Clock()), old(h.since), 3 * i) && (h.Calm() ==> old(h.Calm()))
      invariant forall r :: r in start.runs ==> r in h.w.runs
      invariant shown ==> h.w == start && h.changes == old(h.changes) && h.Clock() == old(h.Clock()) && h.since == old(h.since)
      invariant h.Calm() && calmly ==> OnTrack(start, h.w, tab, own, ownName, inTab, t, seen, i, prev, spare, used, good, rootName)
      invariant h.Calm() && old(h.w.tabs) != [] ==> h.w.tabs != []
    {
      var p := t.panes[i];
      OneNameMore(t.panes, i);
      ghost var handled, was := seen, prev;
      if p.name in seen {
        if h.Calm() && calmly { TrackAgain(start, h.w, tab, own, ownName, inTab, t, seen, i, prev, spare, used, good, rootName); }
        assert seen + {p.name} == seen;
        continue;
      }
      seen := seen + {p.name};
      var found := FindPane(inTab, p.name);
      if found.Some? {
        FoundListed(inTab, p.name);
        KeepsPlaced(start, h.w, tab, Some(found.value.id), labels);
        prev := Some(found.value.id);
        if h.Calm() && calmly { TrackFound(start, h.w, tab, own, ownName, inTab, t, handled, i, was, spare, used, good, rootName); }
        continue;
      }
      var id;
      err, id := AddNext(h, t, inTab, tab, own, ownName, i, handled, prev, start, calmly, spare, used, rootName, labels, good);
      if err { return; }
      prev := Some(id);
    }
    assert t.panes[..|t.panes|] == t.panes;
    if h.Calm() && calmly {
      TrackEnds(start, h.w, tab, own, ownName, inTab, t, prev, spare, used, good, rootName);
    }
    err := false;
  }

  lemma TrackEnds(start: Workspace, w: Workspace, tab: nat, own: Option<nat>, ownName: string, inTab: seq<Pane>,
                  t: TabConfig, prev: Option<nat>, spare: Option<Spare>, used: bool, good: set<string>, rootName: string)
    requires OnTrack(start, w, tab, own, ownName, inTab, t, NamesOf(t.panes), |t.panes|, prev, spare, used, good, rootName)
    requires Fits(start, tab, own, ownName, inTab)
    ensures Inside(start, w, tab, t, spare, used, good, rootName) && PanesStay(start, w)
    ensures Complete(w, t) <==> !(own.Some? && Clash(inTab, t))
    ensures StartedUpTo(w, tab, inTab, t.panes, |t.panes|)
  {
    hide Laid, Fits, Clash, Complete, StartedUpTo, Inside;
    InsideOurs(start, w, tab, t, spare, used, good, rootName);
    LaidIsExact(w, start, tab, own, ownName, inTab, t);
  }

  // Of the first n entries, each that was not listed has been sent its command.
  ghost predicate StartedUpTo(w: Workspace, tab: nat, inTab: seq<Pane>, panes: seq<PaneConfig>, n: nat)
    requires n <= |panes|
  {
    forall j :: 0 <= j < n && FirstOfName(panes, j) && panes[j].command != "" && FindPane(inTab, panes[j].name).None?
      ==> RunThere(w, tab, panes[j].name)
  }

  lemma NothingStarted(w: Workspace, tab: nat, inTab: seq<Pane>, panes: seq<PaneConfig>)
    ensures StartedUpTo(w, tab, inTab, panes, 0)
  {
  }

  // An entry that is skipped, or found.
  lemma StartedNext(w: Workspace, v: Workspace, tab: nat, inTab: seq<Pane>, panes: seq<PaneConfig>, i: nat)
    requires i < |panes| && w == v
    requires !FirstOfName(panes, i) || FindPane(inTab, panes[i].name).Some?
    ensures StartedUpTo(w, tab, inTab, panes, i) ==> StartedUpTo(v, tab, inTab, panes, i + 1)
  {
    hide RunThere, FindPane, FirstOfName;
  }

  lemma StartedMore(w: Workspace, v: Workspace, tab: nat, inTab: seq<Pane>, panes: seq<PaneConfig>, i: nat, id: nat,
                    own: Option<nat>, labels: set<string>)
    requires i < |panes| && StartedUpTo(w, tab, inTab, panes, i) && Safe(w, labels)
    requires Opened(w, v, tab, id, panes[i].name) && (forall r :: r in w.runs ==> r in v.runs)
    requires panes[i].command != "" ==> id in v.runs
    requires if i == 0 && own.Some? then id == own.value else id >= w.next
    ensures StartedUpTo(v, tab, inTab, panes, i + 1)
  {
    hide RunThere, FindPane, FirstOfName, Safe;
    OpenedIsThere(w, v, tab, id, panes[i]);
    if i > 0 || own.None? { OneMoreOpened(w, v, tab, id, panes[i], labels); }
  }

  lemma FoundListed(inTab: seq<Pane>, name: string)
    requires FindPane(inTab, name).Some?
    ensures FindPane(inTab, name).value in inTab
  {
  }

  lemma FitsHasOwn(w: Workspace, tab: nat, own: Option<nat>, ownName: string, inTab: seq<Pane>)
    requires Fits(w, tab, own, ownName, inTab)
    ensures own.Some? ==> HasPane(w, own.value) && forall q :: q in inTab ==> q.name == ownName
  {
  }

  lemma SteadyRefl(w: Workspace, labels: set<string>)
    ensures Steady(w, w, labels)
  {
  }

  // ------------------------------------------------------------------- one tab

  ghost predicate Calmly(was: Workspace, tabs: seq<Tab>, panes: seq<Pane>, t: TabConfig, spare: Option<Spare>, used: bool,
                         good: set<string>, rootName: string) {
    && Same(tabs, panes, was, t.name) && SpareFree(was, spare, used, good, rootName)
    && (spare.Some? ==> forall q :: q in PanesIn(panes, spare.value.tab) ==> q.name == rootName)
  }

  // Taken over, the default tab clashes with what this tab asks for.
  ghost predicate SpareClashes(panes: seq<Pane>, spare: Option<Spare>, t: TabConfig) {
    spare.Some? && Clash(PanesIn(panes, spare.value.tab), t)
  }

  // The tab is listed, and no pane in it is.
  ghost predicate Bare(tabs: seq<Tab>, panes: seq<Pane>, t: TabConfig) {
    var tab := FindTab(tabs, t.name);
    tab.Some? && PanesIn(panes, tab.value.id) == []
  }

  // The tab is there, and each pane of it that was not listed has been sent its command.
  ghost predicate Started(w: Workspace, panes: seq<Pane>, t: TabConfig) {
    var tab := FindTab(w.tabs, t.name);
    tab.Some? && StartedUpTo(w, tab.value.id, PanesIn(panes, tab.value.id), t.panes, |t.panes|)
  }

  lemma BareTab(tabs: seq<Tab>, panes: seq<Pane>, t: TabConfig, tab: nat, own: Option<nat>)
    requires FindTab(tabs, t.name).Some? ==> tab == FindTab(tabs, t.name).value.id
    requires FindTab(tabs, t.name).None? ==> own.Some?
    ensures own.None? && PanesIn(panes, tab) == [] ==> Bare(tabs, panes, t)
  {
  }

  lemma StartedThere(w: Workspace, tab: nat, panes: seq<Pane>, t: TabConfig, mid: Workspace, spare: Option<Spare>, used: bool,
                     good: set<string>, rootName: string)
    requires Inside(mid, w, tab, t, spare, used, good, rootName)
    requires StartedUpTo(w, tab, PanesIn(panes, tab), t.panes, |t.panes|)
    ensures Started(w, panes, t)
  {
  }

  // What was started stays so while the tab is found with the same panes.
  lemma StaysStarted(w: Workspace, v: Workspace, panes: seq<Pane>, t: TabConfig)
    requires Started(w, panes, t) && Same(w.tabs, w.panes, v, t.name) && forall r :: r in w.runs ==> r in v.runs
    ensures Started(v, panes, t)
  {
    hide FindPane, FirstOfName;
    var tab := FindTab(w.tabs, t.name).value.id;
    forall n | RunThere(w, tab, n) ensures RunThere(v, tab, n) {
      var q :| q in w.panes && q.tab == tab && q.name == n && q.id in w.runs;
      assert q in PanesIn(w.panes, tab);
      assert q in PanesIn(v.panes, tab);
    }
  }

  method EnsureTab(h: Herdr, t: TabConfig, tabs: seq<Tab>, panes: seq<Pane>, spare: Option<Spare>, used: bool,
                   ghost rootName: string, ghost labels: set<string>, ghost good: set<string>)
    returns (err: bool, nowUsed: bool)
    requires Safe(h.w, labels) && Known(h.w, tabs, panes, labels) && SpareUnused(h.w, spare, used)
    requires t.name in good && good <= labels
    modifies h
    ensures Safe(h.w, labels) && Steady(old(h.w), h.w, labels) && SpareUnused(h.w, spare, nowUsed) && (used ==> nowUsed)
    ensures h.Took(old(h.Clock()), old(h.since), 1 + 3 * |t.panes|)
    ensures forall r :: r in old(h.w.runs) ==> r in h.w.runs
    ensures nowUsed ==> used || (spare.Some? && AtHome(t) && FindTab(tabs, t.name).None?)
    ensures FindTab(tabs, t.name).None? && !err && spare.Some? && !used && AtHome(t) ==> nowUsed
    ensures h.Calm() ==> old(h.Calm())
    ensures Shown(tabs, panes, t)
            ==> !err && h.w == old(h.w) && h.changes == old(h.changes) && h.Clock() == old(h.Clock()) && h.since == old(h.since) && nowUsed == used
    // Undisturbed, the other tabs are as they were; and without an error this one is complete unless
    // the default tab became it and clashes, and what was opened in it was sent its command. There
    // is an error only where a command failed or the tab was listed without a pane.
    ensures h.Calm() && Calmly(old(h.w), tabs, panes, t, spare, used, good, rootName)
            ==> && OthersSame(old(h.w), h.w, good, t.name) && SpareFree(h.w, spare, nowUsed, good - {t.name}, rootName)
                && PanesStay(old(h.w), h.w)
                && (err && PanesHere(old(h.w), panes) ==> Failing(h.will, old(h.Clock()), h.Clock()) || Bare(tabs, panes, t))
                && (!err ==> && Started(h.w, panes, t) && SpareFree(h.w, spare, nowUsed, good, rootName)
                             && (Complete(h.w, t) <==> !(nowUsed != used && SpareClashes(panes, spare, t))))
    ensures h.Calm() && old(h.w.tabs) != [] ==> h.w.tabs != []
  {
    hide Safe, Steady, Labelled, Placed, SpareUnused, Known, OthersSame, SpareFree, Same, FindPane, NoneNamed, AllThere, Clash, Inside, Complete, Shown, Ours, Fits, StartedUpTo;
    ghost var start := h.w;
    ShownPanes(tabs, panes, t);
    var tab, own;
    err, tab, own, nowUsed := OpenTab(h, t, tabs, panes, spare, used, rootName, labels, good);
    if err { return; }
    ghost var mid := h.w;
    var inTab := PanesIn(panes, tab);
    KnownStays(start, mid, tabs, panes, labels);
    KnownPanes(mid, tabs, panes, tab, labels);
    ghost var calmly := h.Calm() && Calmly(start, tabs, panes, t, spare, used, good, rootName);
    ghost var ownName := if nowUsed == used then "" else rootName;
    if calmly { OpenedFits(start, mid, tabs, panes, t, spare, used, nowUsed, tab, own, ownName, labels); }
    err := FillTab(h, t, inTab, tab, own, ownName, Shown(tabs, panes, t), spare, nowUsed, rootName, labels, good);
    SteadyTransitive(start, mid, h.w, labels);
    if h.Calm() && calmly {
      if PanesHere(start, panes) && err { BareTab(tabs, panes, t, tab, own); }
      if !err { StartedThere(h.w, tab, panes, t, mid, spare, nowUsed, good, rootName); }
      InsideLeaves(start, mid, h.w, tab, t, spare, nowUsed, good, rootName);
      ClashOf(start, tabs, panes, t, spare, used, nowUsed, tab, own, labels);
    }
  }

  lemma ShownPanes(tabs: seq<Tab>, panes: seq<Pane>, t: TabConfig)
    ensures Shown(tabs, panes, t) ==> FindTab(tabs, t.name).Some? && forall i :: 0 <= i < |t.panes| ==>
              FindPane(PanesIn(panes, FindTab(tabs, t.name).value.id), t.panes[i].name).Some?
  {
  }

  lemma KnownPanes(w: Workspace, tabs: seq<Tab>, panes: seq<Pane>, tab: nat, labels: set<string>)
    requires Known(w, tabs, panes, labels)
    ensures forall q :: q in PanesIn(panes, tab) ==> q.tab == tab && Placed(w, tab, q.id)
  {
    hide Placed;
  }

  lemma OpenedFits(start: Workspace, mid: Workspace, tabs: seq<Tab>, panes: seq<Pane>, t: TabConfig, spare: Option<Spare>,
                   used: bool, nowUsed: bool, tab: nat, own: Option<nat>, ownName: string, labels: set<string>)
    requires Same(tabs, panes, start, t.name) && Known(start, tabs, panes, labels)
    requires spare.Some? ==> forall q :: q in PanesIn(panes, spare.value.tab) ==> nowUsed == used || q.name == ownName
    requires FindTab(tabs, t.name).Some? ==> own == None && tab == FindTab(tabs, t.name).value.id && mid == start
    requires FindTab(tabs, t.name).None? ==> own.Some?
    requires own.Some? ==> && RootAlone(mid, tab, own.value, ownName)
                           && (if nowUsed == used then tab >= start.next else TookOver(spare, used, nowUsed, tab, own))
    ensures Fits(mid, tab, own, ownName, PanesIn(panes, tab))
  {
    if own.None? {
      forall q | q in PanesIn(panes, tab) ensures PaneThere(mid, tab, q.name) {
        assert q in PanesIn(start.panes, tab);
      }
    } else if nowUsed == used {
      NotListed(start, tabs, panes, tab, labels);
    }
  }

  lemma NotListed(start: Workspace, tabs: seq<Tab>, panes: seq<Pane>, tab: nat, labels: set<string>)
    requires Known(start, tabs, panes, labels) && tab >= start.next
    ensures PanesIn(panes, tab) == []
  {
    var r := PanesIn(panes, tab);
    forall q | q in panes ensures q.tab < start.next {
      assert Placed(start, q.tab, q.id);
    }
  }

  // Only a tab that was taken over can clash.
  lemma ClashOf(start: Workspace, tabs: seq<Tab>, panes: seq<Pane>, t: TabConfig, spare: Option<Spare>, used: bool,
                nowUsed: bool, tab: nat, own: Option<nat>, labels: set<string>)
    requires Known(start, tabs, panes, labels)
    requires FindTab(tabs, t.name).Some? ==> own == None && nowUsed == used
    requires FindTab(tabs, t.name).None? ==> own.Some?
    requires own.Some? ==> if nowUsed == used then tab >= start.next else TookOver(spare, used, nowUsed, tab, own)
    ensures (own.Some? && Clash(PanesIn(panes, tab), t)) <==> (nowUsed != used && SpareClashes(panes, spare, t))
  {
    if own.Some? && nowUsed == used {
      NotListed(start, tabs, panes, tab, labels);
    }
  }

  lemma InsideLeaves(start: Workspace, mid: Workspace, w: Workspace, tab: nat, t: TabConfig, spare: Option<Spare>,
                     used: bool, good: set<string>, rootName: string)
    requires OthersSame(start, mid, good, t.name) && Inside(mid, w, tab, t, spare, used, good, rootName)
    ensures FindTab(w.tabs, t.name).Some? && OthersSame(start, w, good, t.name)
    ensures SpareFree(w, spare, used, good, rootName) && SpareFree(w, spare, used, good - {t.name}, rootName)
  {
    OthersTransitive(start, mid, w, good, t.name);
  }

  // ------------------------------------------------------------------ all the tabs

  // The first entry under its label: later ones are skipped.
  ghost predicate Foremost(layout: seq<TabConfig>, k: nat)
    requires k < |layout|
  {
    forall j :: 0 <= j < k ==> layout[j].name != layout[k].name
  }

  ghost predicate AllComplete(w: Workspace, layout: seq<TabConfig>) {
    forall k :: 0 <= k < |layout| && Foremost(layout, k) ==> Complete(w, layout[k])
  }

  ghost predicate AllShown(tabs: seq<Tab>, panes: seq<Pane>, layout: seq<TabConfig>) {
    forall k :: 0 <= k < |layout| && Foremost(layout, k) ==> Shown(tabs, panes, layout[k])
  }

  // Undisturbed, up to the n-th entry: each that did not fail is there, and complete unless it took
  // the default tab over and clashes with it; those to come are found as they were listed.
  ghost predicate UpTo(w: Workspace, tabs: seq<Tab>, panes: seq<Pane>, layout: seq<TabConfig>, n: nat,
                       failed: set<string>, taker: Option<nat>, spare: Option<Spare>)
    requires n <= |layout|
  {
    && (forall k :: 0 <= k < n && Foremost(layout, k) && layout[k].name !in failed ==>
          && Started(w, panes, layout[k])
          && (Complete(w, layout[k]) <==> !(taker == Some(k) && SpareClashes(panes, spare, layout[k]))))
    && (forall k :: n <= k < |layout| && Foremost(layout, k) ==> Same(tabs, panes, w, layout[k].name))
  }

  lemma UpToOneMore(w: Workspace, v: Workspace, tabs: seq<Tab>, panes: seq<Pane>, layout: seq<TabConfig>, n: nat,
                    failed: set<string>, taker: Option<nat>, failing: bool, takes: bool, spare: Option<Spare>,
                    labels: set<string>)
    requires n < |layout| && UpTo(w, tabs, panes, layout, n, failed, taker, spare) && labels == Names(layout)
    requires Foremost(layout, n) && OthersSame(w, v, labels - failed, layout[n].name)
    requires taker.Some? ==> taker.value < n
    requires taker.Some? ==> !takes
    requires failed <= Names(layout[..n]) && forall r :: r in w.runs ==> r in v.runs
    requires !failing ==> && Started(v, panes, layout[n])
                          && (Complete(v, layout[n]) <==> !(takes && SpareClashes(panes, spare, layout[n])))
    ensures UpTo(v, tabs, panes, layout, n + 1, if failing then failed + {layout[n].name} else failed,
                 if takes then Some(n) else taker, spare)
  {
    hide Complete, FindTab, SpareClashes, Started;
    forall k | 0 <= k < |layout| && k != n && Foremost(layout, k) && layout[k].name !in failed
      ensures Same(w.tabs, w.panes, v, layout[k].name)
    {
      assert layout[k] in layout && layout[k].name in labels;
      assert k < n || layout[n].name != layout[k].name;
    }
    forall k | 0 <= k < n && Foremost(layout, k) && layout[k].name !in failed
      ensures Started(v, panes, layout[k]) && (Complete(v, layout[k]) <==> Complete(w, layout[k]))
    {
      StaysStarted(w, v, panes, layout[k]);
      CompleteAlike(w, v, layout[k]);
    }
    forall k | n < k < |layout| && Foremost(layout, k) ensures Same(tabs, panes, v, layout[k].name) {
      LaterIsNew(layout, n, k);
    }
  }

  lemma LaterIsNew(layout: seq<TabConfig>, n: nat, k: nat)
    requires n <= k < |layout| && Foremost(layout, k)
    ensures layout[k].name !in Names(layout[..n])
  {
  }

  lemma UpToSkips(w: Workspace, tabs: seq<Tab>, panes: seq<Pane>, layout: seq<TabConfig>, n: nat,
                  failed: set<string>, taker: Option<nat>, spare: Option<Spare>)
    requires n < |layout| && UpTo(w, tabs, panes, layout, n, failed, taker, spare) && !Foremost(layout, n)
    ensures UpTo(w, tabs, panes, layout, n + 1, failed, taker, spare)
  {
    hide Complete, FindTab, SpareClashes, Same, Started;
  }

  lemma ListedIsKnown(w: Workspace, v: Workspace, labels: set<string>)
    requires Safe(w, labels) && Closes(w, v) && Safe(v, labels)
    ensures Known(v, w.tabs, v.panes, labels)
  {
  }

  lemma CompleteIsShown(w: Workspace, layout: seq<TabConfig>)
    requires AllComplete(w, layout)
    ensures AllShown(w.tabs, w.panes, layout)
  {
    forall k | 0 <= k < |layout| && Foremost(layout, k) ensures Shown(w.tabs, w.panes, layout[k]) {
      var t, tab := layout[k], FindTab(w.tabs, layout[k].name).value.id;
      assert Complete(w, t);
      forall i | 0 <= i < |t.panes| ensures FindPane(PanesIn(w.panes, tab), t.panes[i].name).Some? {
        assert PaneThere(w, tab, t.panes[i].name);
        var q :| q in w.panes && q.tab == tab && q.name == t.panes[i].name;
        assert q in PanesIn(w.panes, tab);
      }
    }
  }

  lemma UpToStart(w: Workspace, layout: seq<TabConfig>, spare: Option<Spare>)
    ensures UpTo(w, w.tabs, w.panes, layout, 0, {}, None, spare)
  {
    hide FindTab, PanesIn;
  }

  lemma NoTabNames(layout: seq<TabConfig>)
    ensures Names(layout[..0]) == {}
  {
  }

  lemma NextName(layout: seq<TabConfig>, n: nat, tabs: seq<Tab>, panes: seq<Pane>)
    requires n < |layout|
    ensures Names(layout[..n + 1]) == Names(layout[..n]) + {layout[n].name}
    ensures Foremost(layout, n) <==> layout[n].name !in Names(layout[..n])
    ensures layout[n].name in Names(layout)
    ensures AllShown(tabs, panes, layout) && Foremost(layout, n) ==> Shown(tabs, panes, layout[n])
  {
    hide Shown;
    assert layout[..n + 1] == layout[..n] + [layout[n]];
    assert layout[n] in layout;
    forall j | 0 <= j < n ensures layout[j].name in Names(layout[..n]) {
      assert layout[..n][j] in layout[..n];
    }
  }

  // The entry that takes the default tab over: the first whose first pane starts in the checkout.
  ghost predicate Takes(layout: seq<TabConfig>, k: nat) {
    k < |layout| && Foremost(layout, k) && AtHome(layout[k]) && forall j :: 0 <= j < k ==> !(Foremost(layout, j) && AtHome(layout[j]))
  }

  // Which entry has taken it, of the first n, when none of them failed.
  ghost predicate TakerIs(layout: seq<TabConfig>, n: nat, taker: Option<nat>)
    requires n <= |layout|
  {
    if taker.Some? then taker.value < n && Takes(layout, taker.value)
    else forall j :: 0 <= j < n ==> !(Foremost(layout, j) && AtHome(layout[j]))
  }

  // How many commands the first n entries may take.
  function Budget(layout: seq<TabConfig>, n: nat): nat
    requires n <= |layout|
  {
    if n == 0 then 0 else Budget(layout, n - 1) + 1 + 3 * |layout[n - 1].panes|
  }

  // A configured tab is there without a pane to split.
  ghost predicate SomeBare(tabs: seq<Tab>, panes: seq<Pane>, layout: seq<TabConfig>, n: nat)
    requires n <= |layout|
  {
    exists k :: 0 <= k < n && Bare(tabs, panes, layout[k])
  }

  // Every tab in turn, whatever becomes of the ones before.
  method EnsureAll(h: Herdr, layout: seq<TabConfig>, tabs: seq<Tab>, panes: seq<Pane>, spare: Option<Spare>,
                   ghost rootName: string, ghost labels: set<string>)
    returns (err: bool, used: bool, ghost failed: set<string>, ghost taker: Option<nat>)
    requires Safe(h.w, labels) && labels == Names(layout) && SpareUnused(h.w, spare, false)
    requires Known(h.w, tabs, panes, labels)
    modifies h
    ensures Safe(h.w, labels) && Steady(old(h.w), h.w, labels) && SpareUnused(h.w, spare, used)
    ensures h.Took(old(h.Clock()), old(h.since), Budget(layout, |layout|)) && (h.Calm() ==> old(h.Calm()))
    ensures err <==> failed != {}
    ensures failed <= labels && (used <==> taker.Some?)
    ensures AllShown(tabs, panes, layout) ==> h.w == old(h.w) && h.changes == old(h.changes) && !used
    ensures !err && spare.Some? && (forall k :: 0 <= k < |layout| ==> FindTab(tabs, layout[k].name).None?)
            ==> TakerIs(layout, |layout|, taker)
    ensures h.Calm() && Listed(old(h.w), tabs, panes, layout, spare, rootName)
            ==> && SpareFree(h.w, spare, used, labels - failed, rootName)
                && UpTo(h.w, tabs, panes, layout, |layout|, failed, taker, spare)
                && (err && PanesHere(old(h.w), panes) ==>
                      Failing(h.will, old(h.Clock()), h.Clock()) || SomeBare(tabs, panes, layout, |layout|))
    ensures h.Calm() && old(h.w.tabs) != [] ==> h.w.tabs != []
  {
    hide Safe, Steady, Labelled, Placed, SpareUnused, Known, SpareFree, Same, OthersSame, Complete, Shown, UpTo, FindTab;
    hide SpareClashes, Foremost, Names, AllShown, AtHome, TakerIs, Started, Bare;
    ghost var mid, changes := h.w, h.changes;
    ghost var calmly := Listed(mid, tabs, panes, layout, spare, rootName);
    ghost var shown := AllShown(tabs, panes, layout);
    ghost var untouched := spare.Some? && forall k :: 0 <= k < |layout| ==> FindTab(tabs, layout[k].name).None?;
    SteadyRefl(mid, labels);
    var seen: set<string> := {};
    NoTabNames(layout);
    err, used, failed, taker := false, false, {}, None;
    TakerNone(layout);
    assert labels - {} == labels;
    for n := 0 to |layout|
      invariant Safe(h.w, labels) && Steady(mid, h.w, labels) && SpareUnused(h.w, spare, used)
      invariant seen == Names(layout[..n]) && failed <= seen && failed <= labels
      invariant h.Took(old(h.Clock()), old(h.since), Budget(layout, n)) && (h.Calm() ==> old(h.Calm()))
      invariant err <==> failed != {}
      invariant h.Calm() && calmly ==> PanesStay(mid, h.w)
      invariant h.Calm() && calmly && PanesHere(mid, panes) && err ==>
                  Failing(h.will, old(h.Clock()), h.Clock()) || SomeBare(tabs, panes, layout, n)
      invariant (used <==> taker.Some?) && (taker.Some? ==> taker.value < n)
      invariant shown ==> h.w == mid && h.changes == changes && !used
      invariant !err && untouched ==> TakerIs(layout, n, taker)
      invariant h.Calm() && calmly ==> && SpareFree(h.w, spare, used, labels - failed, rootName)
                                       && UpTo(h.w, tabs, panes, layout, n, failed, taker, spare)
      invariant h.Calm() && mid.tabs != [] ==> h.w.tabs != []
    {
      var t := layout[n];
      ghost var before, was := h.w, used;
      NextName(layout, n, tabs, panes);
      if t.name in seen {
        assert seen + {t.name} == seen;
        if h.Calm() && calmly { UpToSkips(before, tabs, panes, layout, n, failed, taker, spare); }
        TakerSkips(layout, n, taker);
        continue;
      }
      seen := seen + {t.name};
      KnownStays(mid, before, tabs, panes, labels);
      if h.Calm() && calmly { UpToNext(before, tabs, panes, layout, n, failed, taker, spare); }
      var failing;
      StillHere(mid, before, panes);
      failing, used := EnsureTab(h, t, tabs, panes, spare, used, rootName, labels, labels - failed);
      SteadyTransitive(mid, before, h.w, labels);
      if h.Calm() && calmly {
        UpToOneMore(before, h.w, tabs, panes, layout, n, failed, taker, failing, used != was, spare, labels);
      }
      if !err && !failing && untouched { TakerNext(layout, n, taker, used); }
      assert labels - (failed + {t.name}) == labels - failed - {t.name};
      err := err || failing;
      failed := if failing then failed + {t.name} else failed;
      taker := if used != was then Some(n) else taker;
    }
    assert layout[..|layout|] == layout;
  }

  lemma StillHere(w: Workspace, v: Workspace, panes: seq<Pane>)
    ensures PanesStay(w, v) && PanesHere(w, panes) ==> PanesHere(v, panes)
  {
  }

  // The listing is of this workspace, in which the default tab is as it was found.
  ghost predicate Listed(w: Workspace, tabs: seq<Tab>, panes: seq<Pane>, layout: seq<TabConfig>, spare: Option<Spare>, rootName: string) {
    && SpareFree(w, spare, false, Names(layout), rootName)
    && UpTo(w, tabs, panes, layout, 0, {}, None, spare)
    && (spare.Some? ==> forall q :: q in PanesIn(panes, spare.value.tab) ==> q.name == rootName)
  }

  lemma TakerNone(layout: seq<TabConfig>)
    ensures TakerIs(layout, 0, None)
  {
  }

  lemma TakerSkips(layout: seq<TabConfig>, n: nat, taker: Option<nat>)
    requires n < |layout| && !Foremost(layout, n)
    ensures TakerIs(layout, n, taker) ==> TakerIs(layout, n + 1, taker)
  {
  }

  lemma TakerNext(layout: seq<TabConfig>, n: nat, taker: Option<nat>, used: bool)
    requires n < |layout| && Foremost(layout, n) && TakerIs(layout, n, taker)
    requires taker.Some? ==> used
    requires taker.None? ==> (used <==> AtHome(layout[n]))
    ensures TakerIs(layout, n + 1, if taker.None? && used then Some(n) else taker)
  {
    hide AtHome;
  }

  lemma UpToNext(w: Workspace, tabs: seq<Tab>, panes: seq<Pane>, layout: seq<TabConfig>, n: nat,
                 failed: set<string>, taker: Option<nat>, spare: Option<Spare>)
    requires n < |layout| && UpTo(w, tabs, panes, layout, n, failed, taker, spare) && Foremost(layout, n)
    ensures Same(tabs, panes, w, layout[n].name)
  {
  }

  method EnsureTabs(h: Herdr, layout: seq<TabConfig>, spare: Option<Spare>, ghost rootName: string, ghost labels: set<string>)
    returns (err: bool, used: bool, ghost failed: set<string>, ghost taker: Option<nat>)
    requires Safe(h.w, labels) && labels == Names(layout) && layout != [] && SpareUnused(h.w, spare, false)
    modifies h
    ensures Safe(h.w, labels) && Steady(old(h.w), h.w, labels) && SpareUnused(h.w, spare, used)
    ensures h.Took(old(h.Clock()), old(h.since), 2 + Budget(layout, |layout|)) && (h.Calm() ==> old(h.Calm()))
    ensures err <==> failed != {}
    ensures used <==> taker.Some?
    ensures h.Calm() && AllComplete(old(h.w), layout) ==> h.w == old(h.w) && h.changes == old(h.changes) && !used
    // A failure stops none of the rest: each tab that did not fail is there with what was opened in it
    // started, and complete unless the default tab became it and clashes. There is an error only
    // where a command failed or a configured tab was there without a pane.
    ensures h.Calm() && SpareFree(old(h.w), spare, false, labels, rootName)
            ==> && SpareFree(h.w, spare, used, labels - failed, rootName)
                && (err ==> Failing(h.will, old(h.Clock()), h.Clock()) || SomeBare(old(h.w.tabs), old(h.w.panes), layout, |layout|))
                && forall k :: 0 <= k < |layout| && Foremost(layout, k) && layout[k].name !in failed ==>
                     && Started(h.w, old(h.w.panes), layout[k])
                     && (Complete(h.w, layout[k]) <==> !(taker == Some(k) && SpareClashes(old(h.w.panes), spare, layout[k])))
    ensures h.Calm() && !err && spare.Some? && (forall k :: 0 <= k < |layout| ==> FindTab(old(h.w.tabs), layout[k].name).None?)
            ==> TakerIs(layout, |layout|, taker)
    ensures h.Calm() && old(h.w.tabs) != [] ==> h.w.tabs != []
  {
    hide Safe, Steady, Labelled, Placed, SpareUnused, Known, SpareFree, Same, Complete, Shown, UpTo, FindTab;
    hide Closes, SpareClashes, AllComplete, AllShown, Foremost, TakerIs, Started, SomeBare;
    ghost var start := h.w;
    AllHere(start);
    used, failed, taker := false, labels, None;
    SteadyRefl(h.w, labels);
    SomeName(layout);
    NoneFree(start, spare, labels, rootName);
    var ok, tabs := h.TabList(labels);
    SpareOutlasts(start, h.w, spare, labels);
    if !ok { return true, false, labels, None; }
    ghost var listed := h.w;
    var panes;
    ok, panes := h.PaneList(labels);
    SteadyTransitive(start, listed, h.w, labels);
    SpareOutlasts(listed, h.w, spare, labels);
    if !ok { return true, false, labels, None; }
    ghost var mid := h.w;
    ListedIsKnown(listed, mid, labels);
    if h.Calm() {
      UpToStart(mid, layout, spare);
      if SpareFree(start, spare, false, labels, rootName) { RootListed(mid, spare, labels, rootName); }
      if AllComplete(start, layout) { CompleteIsShown(start, layout); }
    }
    err, used, failed, taker := EnsureAll(h, layout, tabs, panes, spare, rootName, labels);
    SteadyTransitive(start, mid, h.w, labels);
    if h.Calm() && SpareFree(start, spare, false, labels, rootName) {
      UpToEnd(h.w, tabs, panes, layout, failed, taker, spare);
    }
  }

  lemma AllHere(w: Workspace)
    ensures PanesHere(w, w.panes)
  {
  }

  lemma SomeName(layout: seq<TabConfig>)
    requires layout != []
    ensures Names(layout) != {} && forall k :: 0 <= k < |layout| ==> layout[k].name in Names(layout)
  {
    assert layout[0] in layout && layout[0].name in Names(layout);
  }

  lemma NoneFree(w: Workspace, spare: Option<Spare>, labels: set<string>, rootName: string)
    ensures SpareFree(w, spare, false, labels, rootName) ==> SpareFree(w, spare, false, labels - labels, rootName)
  {
  }

  lemma RootListed(w: Workspace, spare: Option<Spare>, labels: set<string>, rootName: string)
    requires SpareFree(w, spare, false, labels, rootName)
    ensures spare.Some? ==> forall q :: q in PanesIn(w.panes, spare.value.tab) ==> q.name == rootName
  {
  }

  lemma UpToEnd(w: Workspace, tabs: seq<Tab>, panes: seq<Pane>, layout: seq<TabConfig>, failed: set<string>,
                taker: Option<nat>, spare: Option<Spare>)
    requires UpTo(w, tabs, panes, layout, |layout|, failed, taker, spare)
    ensures forall k :: 0 <= k < |layout| && Foremost(layout, k) && layout[k].name !in failed ==>
              && Started(w, panes, layout[k])
              && (Complete(w, layout[k]) <==> !(taker == Some(k) && SpareClashes(panes, spare, layout[k])))
  {
  }

  lemma SpareOutlasts(w: Workspace, v: Workspace, spare: Option<Spare>, labels: set<string>)
    requires SpareUnused(w, spare, false) && Steady(w, v, labels) && Closes(w, v)
    ensures SpareUnused(v, spare, false)
  {
  }

  // -------------------------------------------------------------------- the default tab

  // Some configured tab has this label.
  function UsesLabel(layout: seq<TabConfig>, name: string): (r: bool)
    ensures r <==> name in Names(layout)
  {
    name in Names(layout)
  }

  // The workspace's only tab, under a label that is not configured, with its only pane.
  ghost predicate Pristine(w: Workspace, spare: Spare, layout: seq<TabConfig>, rootName: string) {
    && |w.tabs| == 1 && w.tabs[0].id == spare.tab && w.tabs[0].name !in Names(layout)
    && PanesIn(w.panes, spare.tab) == [Pane(spare.root, spare.tab, rootName)]
  }

  // What is offered was never sent anything, and is all there is.
  method PristineDefaultTab(h: Herdr, layout: seq<TabConfig>, ghost labels: set<string>)
    returns (spare: Option<Spare>, ghost rootName: string)
    requires Safe(h.w, labels) && labels == Names(layout) && layout != []
    modifies h
    ensures Safe(h.w, labels) && Steady(old(h.w), h.w, labels) && SpareUnused(h.w, spare, false)
    ensures h.Took(old(h.Clock()), old(h.since), 2)
    ensures h.changes == old(h.changes) && (h.Calm() ==> old(h.Calm()) && h.w == old(h.w))
    ensures h.Calm() ==> SpareFree(h.w, spare, false, labels, rootName)
    ensures h.Calm() && spare.Some? ==> Pristine(h.w, spare.value, layout, rootName)
    ensures h.Calm() && AllComplete(h.w, layout) ==> spare == None
  {
    hide Labelled, Placed, Steady, Safe, PanesIn;
    ghost var start := h.w;
    rootName := "";
    SteadyRefl(start, labels);
    var ok, tabs := h.TabList(labels);
    ghost var listed := h.w;
    if !ok || |tabs| != 1 || UsesLabel(layout, tabs[0].name) { return None, ""; }
    if AllComplete(listed, layout) { OnlyTabIsConfigured(listed, layout); }
    var panes;
    ok, panes := h.PaneList(labels);
    SteadyTransitive(start, listed, h.w, labels);
    if !ok { return None, ""; }
    var inTab := PanesIn(panes, tabs[0].id);
    if |inTab| != 1 { return None, ""; }
    assert inTab[0] in inTab;
    NeverSent(listed, h.w, tabs[0], inTab[0], labels);
    if h.Calm() { OnlyRoot(h.w, tabs[0].id, inTab[0], labels); }
    return Some(Spare(tabs[0].id, inTab[0].id)), inTab[0].name;
  }

  lemma OnlyTabIsConfigured(w: Workspace, layout: seq<TabConfig>)
    requires AllComplete(w, layout) && layout != [] && |w.tabs| == 1
    ensures w.tabs[0].name in Names(layout)
  {
    assert Foremost(layout, 0) && Complete(w, layout[0]);
    assert layout[0] in layout;
  }

  lemma NeverSent(w: Workspace, v: Workspace, tab: Tab, root: Pane, labels: set<string>)
    requires Safe(w, labels) && Closes(w, v) && Safe(v, labels) && w.tabs == [tab] && tab.name !in labels
    requires root in v.panes && root.tab == tab.id
    ensures Placed(v, tab.id, root.id) && root.id !in v.runs
    ensures HasTab(v, tab.id) && HasPane(v, root.id)
    ensures forall t :: t in v.tabs && t.id == tab.id ==> t.name !in labels
  {
    assert HasTab(v, root.tab);
    var t :| t in v.tabs && t.id == root.tab;
    assert t in w.tabs;
    assert tab in v.tabs;
  }

  lemma OnlyRoot(w: Workspace, tab: nat, root: Pane, labels: set<string>)
    requires Safe(w, labels) && PanesIn(w.panes, tab) == [root]
    ensures RootAlone(w, tab, root.id, root.name) && root == Pane(root.id, tab, root.name)
  {
    var r := PanesIn(w.panes, tab);
    assert r[0] in r;
    forall p | p in w.panes && (p.tab == tab || p.id == root.id) ensures p == root {
      assert p.tab == tab;
      assert p in r;
    }
  }

  // ---------------------------------------------------------------------- an attach

  // The tab that takes over this default tab asks for its root pane's name after renaming it.
  ghost predicate Spoils(w: Workspace, offered: Option<Spare>, layout: seq<TabConfig>) {
    exists k: nat :: Takes(layout, k) && SpareClashes(w.panes, offered, layout[k])
  }

  // Each pane that was opened has been sent its command.
  ghost predicate AllStarted(w: Workspace, panes: seq<Pane>, layout: seq<TabConfig>) {
    forall k :: 0 <= k < |layout| && Foremost(layout, k) ==> Started(w, panes, layout[k])
  }

  // An attach, from one listing to the close, in at most so many commands. Where nobody closes
  // anything meanwhile there is an error only if a command failed or a configured tab was there
  // without a pane; without one the layout is complete, unless the default tab that was offered
  // spoils that, and every pane that was opened has been sent its command.
  method LayOutTabs(h: Herdr, layout: seq<TabConfig>, isNew: bool)
    returns (err: bool, ghost offered: Option<Spare>)
    requires Safe(h.w, Names(layout))
    modifies h
    ensures Safe(h.w, Names(layout))
    ensures old(h.Clock()) <= h.Clock() <= old(h.Clock()) + 5 + Budget(layout, |layout|)
    ensures !isNew ==> offered.None?
    ensures Undisturbed(h.will, old(h.Clock()), h.Clock()) ==>
              && (offered.Some? ==> exists n :: Pristine(old(h.w), offered.value, layout, n))
              && (err ==> Failing(h.will, old(h.Clock()), h.Clock()) || SomeBare(old(h.w.tabs), old(h.w.panes), layout, |layout|))
              && (!err && layout != [] ==> (AllComplete(h.w, layout) <==> !Spoils(old(h.w), offered, layout)))
              && (!err ==> AllStarted(h.w, old(h.w.panes), layout))
              && (AllComplete(old(h.w), layout) ==> h.w == old(h.w) && h.changes == old(h.changes))
              && (old(h.w.tabs) != [] ==> h.w.tabs != [])
  {
    hide Safe, Steady, SpareUnused, SpareFree, Complete, FindTab, Pristine, AllComplete, Spoils, SpareClashes, Foremost, TakerIs;
    hide Started, SomeBare, AllStarted;
    h.since, h.spent := h.since + h.spent, 0;
    offered := None;
    if |layout| == 0 {
      NoneToStart(h.w, layout);
      return false, None;
    }
    ghost var labels, start, rootName := Names(layout), h.w, "";
    var spare: Option<Spare> := None;
    NoSpare(h.w, labels);
    if isNew {
      spare, rootName := PristineDefaultTab(h, layout, labels);
      offered := spare;
    }
    if h.Calm() && spare.Some? { NoneConfigured(h.w, spare.value, layout, rootName); }
    var used;
    ghost var failed, taker;
    err, used, failed, taker := EnsureTabs(h, layout, spare, rootName, labels);
    if h.Calm() && !err { LaidOut(start, h.w, layout, spare, rootName, failed, taker); }
    if err || spare.None? || used { return; }
    ghost var before := h.w;
    var ok := h.TabClose(spare.value.tab, labels);
    if h.Calm() {
      if failed == {} { ClosedStaysComplete(before, spare.value.tab, layout, labels, spare, rootName, start.panes); }
    }
    return !ok, offered;
  }

  lemma NoneToStart(w: Workspace, layout: seq<TabConfig>)
    requires layout == []
    ensures AllStarted(w, w.panes, layout)
  {
  }

  lemma NoneConfigured(w: Workspace, spare: Spare, layout: seq<TabConfig>, rootName: string)
    requires Pristine(w, spare, layout, rootName)
    ensures forall k :: 0 <= k < |layout| ==> FindTab(w.tabs, layout[k].name).None?
  {
    forall k | 0 <= k < |layout| ensures FindTab(w.tabs, layout[k].name).None? {
      assert layout[k] in layout;
    }
  }

  lemma LaidOut(start: Workspace, w: Workspace, layout: seq<TabConfig>, spare: Option<Spare>, rootName: string,
                failed: set<string>, taker: Option<nat>)
    requires layout != [] && failed == {}
    requires forall k :: 0 <= k < |layout| && Foremost(layout, k) && layout[k].name !in failed ==>
               && Started(w, start.panes, layout[k])
               && (Complete(w, layout[k]) <==> !(taker == Some(k) && SpareClashes(start.panes, spare, layout[k])))
    requires spare.Some? ==> TakerIs(layout, |layout|, taker)
    ensures AllComplete(w, layout) <==> !Spoils(start, spare, layout)
    ensures AllStarted(w, start.panes, layout)
    ensures FindTab(w.tabs, layout[0].name).Some? && w.tabs != []
  {
    hide Complete, Clash;
    assert Foremost(layout, 0);
    if Spoils(start, spare, layout) {
      var k: nat :| Takes(layout, k) && SpareClashes(start.panes, spare, layout[k]);
      assert taker == Some(k);
    } else if taker.Some? && spare.Some? {
      assert Takes(layout, taker.value);
    }
  }

  lemma NoSpare(w: Workspace, labels: set<string>)
    ensures SpareUnused(w, None, false) && SpareFree(w, None, false, labels, "")
  {
  }

  lemma ClosedStaysComplete(w: Workspace, tab: nat, layout: seq<TabConfig>, labels: set<string>, spare: Option<Spare>, rootName: string,
                            panes: seq<Pane>)
    requires Safe(w, labels) && labels == Names(layout) && layout != [] && AllStarted(w, panes, layout)
    requires spare.Some? && tab == spare.value.tab && SpareFree(w, spare, false, labels - {}, rootName)
    requires FindTab(w.tabs, layout[0].name).Some?
    ensures AllComplete(w, layout) <==> AllComplete(TabClosed(w, tab), layout)
    ensures AllStarted(TabClosed(w, tab), panes, layout)
    ensures TabClosed(w, tab).tabs != []
  {
    hide FindTab, Safe, Complete, Started;
    var v := TabClosed(w, tab);
    assert labels - {} == labels;
    forall k | 0 <= k < |layout| ensures Same(w.tabs, w.panes, v, layout[k].name) {
      assert layout[k] in layout;
      ClosedLeavesOthers(w, tab, labels, layout[k].name);
    }
    assert Same(w.tabs, w.panes, v, layout[0].name);
    FoundSomewhere(v.tabs, layout[0].name);
    forall k | 0 <= k < |layout| ensures Complete(v, layout[k]) <==> Complete(w, layout[k]) {
      CompleteAlike(w, v, layout[k]);
    }
    forall k | 0 <= k < |layout| && Foremost(layout, k) ensures Started(v, panes, layout[k]) {
      StaysStarted(w, v, panes, layout[k]);
    }
  }

  lemma FoundSomewhere(tabs: seq<Tab>, name: string)
    requires FindTab(tabs, name).Some?
    ensures tabs != []
  {
  }

  // An input on which an attach leaves the layout incomplete and reports nothing: the default tab's
  // pane already bears the second pane's name, and is renamed for the first.
  lemma OddNameSpoils(command: string)
    ensures var layout := [TabConfig("dev", [PaneConfig("editor", true, command), PaneConfig("shell", true, "")])];
            var w := Workspace([Tab(0, "1")], [Pane(1, 0, "shell")], 2, []);
            Safe(w, Names(layout)) && Pristine(w, Spare(0, 1), layout, "shell") && Spoils(w, Some(Spare(0, 1)), layout)
  {
    var t := TabConfig("dev", [PaneConfig("editor", true, command), PaneConfig("shell", true, "")]);
    var layout, w := [t], Workspace([Tab(0, "1")], [Pane(1, 0, "shell")], 2, []);
    assert Tab(0, "1") in w.tabs && w.panes[1..] == [];
    assert PanesIn(w.panes, 0) == [Pane(1, 0, "shell")];
    assert "editor"[0] == 'e' && "shell"[0] == 's' && "1"[0] == '1' && "dev"[0] == 'd';
    assert FindPane([Pane(1, 0, "shell")], "editor").None?;
    assert Pane(1, 0, "shell") in PanesIn(w.panes, 0) && Pane(1, 0, "shell").name == t.panes[1].name;
    assert Clash(PanesIn(w.panes, 0), t);
    assert Takes(layout, 0) && SpareClashes(w.panes, Some(Spare(0, 1)), layout[0]);
    assert Names(layout) == {"dev"};
  }

  // ----------------------------------------------------------------- any number of attaches

  // For one layout, over any attaches with any failures and any closings in between and during: no
  // pane is ever sent a command twice.
  method AnyAttaches(h: Herdr, layout: seq<TabConfig>, steps: nat)
    requires Safe(h.w, Names(layout))
    modifies h
    ensures NoRepeats(h.w.runs)
  {
    hide Safe;
    for n := 0 to steps
      invariant Safe(h.w, Names(layout))
    {
      var attach, isNew := *, *;
      if attach {
        ghost var offered;
        var err;
        err, offered := LayOutTabs(h, layout, isNew);
      } else {
        h.Wait(Names(layout));
      }
    }
    SafeMeansOnce(h.w, Names(layout));
  }

  lemma SafeMeansOnce(w: Workspace, labels: set<string>)
    requires Safe(w, labels)
    ensures NoRepeats(w.runs)
  {
  }

  // After an attach without an error one more only lists, where nobody closes anything during both.
  method AttachTwice(h: Herdr, layout: seq<TabConfig>, first: bool, second: bool)
    returns (err: bool, ghost offered: Option<Spare>, ghost mid: Workspace, ghost changes: nat)
    requires Safe(h.w, Names(layout)) && layout != []
    modifies h
    ensures !first ==> offered.None?
    ensures Undisturbed(h.will, old(h.Clock()), h.Clock()) && !err && !Spoils(old(h.w), offered, layout) ==> h.w == mid && h.changes == changes
  {
    hide Safe, AllComplete, Spoils, AllStarted, SomeBare, Pristine;
    err, offered := LayOutTabs(h, layout, first);
    mid, changes := h.w, h.changes;
    if !err {
      ghost var again;
      var failing;
      failing, again := LayOutTabs(h, layout, second);
    }
  }
}

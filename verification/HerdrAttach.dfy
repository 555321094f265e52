/**
 * The attach itself (internal/lifecycle/herdrtabs.go:191-396): what each step keeps while anything
 * may fail and anything may be closed, and what it achieves when nothing is disturbed. `good` are
 * the configured labels whose tabs nothing has gone wrong for so far.
 */
module HerdrAttach {
  import opened Options
  import opened HerdrTabs
  import opened HerdrCommands

  // What a listing taken earlier still tells us.
  ghost predicate Known(w: Workspace, tabs: seq<Tab>, panes: seq<Pane>, labels: set<string>) {
    && (forall e :: e in tabs ==> e.id < w.next && (e.name in labels ==> Labelled(w, e.id, labels)))
    && (forall p :: p in panes ==> Placed(w, p.tab, p.id))
  }

  // The default tab on offer has not been sent anything.
  ghost predicate SpareUnused(w: Workspace, spare: Option<Spare>, used: bool) {
    spare.Some? ==> Placed(w, spare.value.tab, spare.value.root) && (!used ==> spare.value.root !in w.runs)
  }

  // The tab holds one pane, under the name it came with.
  ghost predicate RootAlone(w: Workspace, tab: nat, root: nat, rootName: string) {
    && HasPane(w, root)
    && forall p :: p in w.panes && (p.tab == tab || p.id == root) ==> p.id == root && p.tab == tab && p.name == rootName
  }

  // Undisturbed, it is still there as it was, under a label that is none of `good`.
  ghost predicate SpareFree(w: Workspace, spare: Option<Spare>, used: bool, good: set<string>, rootName: string) {
    spare.Some? && !used ==>
      && HasTab(w, spare.value.tab)
      && RootAlone(w, spare.value.tab, spare.value.root, rootName)
      && (forall t :: t in w.tabs && t.id == spare.value.tab ==> t.name !in good)
  }

  lemma KnownStays(w: Workspace, v: Workspace, tabs: seq<Tab>, panes: seq<Pane>, labels: set<string>)
    requires Known(w, tabs, panes, labels) && Steady(w, v, labels)
    ensures Known(v, tabs, panes, labels)
  {
    hide Labelled, Placed;
  }

  // Only these panes have been sent something since.
  ghost predicate RunsOnly(w: Workspace, v: Workspace, own: Option<nat>) {
    forall r :: r in v.runs ==> r in w.runs || r >= w.next || own == Some(r)
  }

  // --------------------------------------------------------------- the tab itself

  // The first pane of the tab starts in the checkout, as a default tab's does.
  predicate AtHome(t: TabConfig) { t.panes == [] || t.panes[0].home }

  ghost predicate PanesStay(w: Workspace, v: Workspace) {
    forall id: nat :: HasPane(w, id) ==> HasPane(v, id)
  }

  // The tab was not listed, and the default tab has become it.
  ghost predicate TookOver(spare: Option<Spare>, used: bool, nowUsed: bool, tab: nat, own: Option<nat>) {
    spare.Some? && !used && nowUsed && tab == spare.value.tab && own == Some(spare.value.root)
  }

  method OpenTab(h: Herdr, t: TabConfig, tabs: seq<Tab>, panes: seq<Pane>, spare: Option<Spare>, used: bool,
                 ghost rootName: string, ghost labels: set<string>, ghost good: set<string>)
    returns (err: bool, tab: nat, own: Option<nat>, nowUsed: bool)
    requires Safe(h.w, labels) && Known(h.w, tabs, panes, labels) && SpareUnused(h.w, spare, used)
    requires t.name in good && good <= labels
    modifies h
    ensures Safe(h.w, labels) && Steady(old(h.w), h.w, labels) && h.w.runs == old(h.w.runs)
    ensures SpareUnused(h.w, spare, nowUsed) && (used ==> nowUsed)
    ensures !err ==> Labelled(h.w, tab, labels) && tab < h.w.next
    ensures !err && own.Some? ==> Placed(h.w, tab, own.value) && own.value !in h.w.runs
    ensures own.Some? && spare.Some? && own.value == spare.value.root ==> nowUsed
    // A tab that is listed is taken as it is.
    ensures var found := FindTab(tabs, t.name);
            found.Some? ==> !err && tab == found.value.id && own == None && nowUsed == used
                            && h.w == old(h.w) && h.changes == old(h.changes) && h.Clock() == old(h.Clock()) && h.since == old(h.since)
    ensures FindTab(tabs, t.name).None? && !err ==> own.Some?
    // Otherwise the default tab is taken over wherever it can be.
    ensures nowUsed ==> used || (spare.Some? && AtHome(t))
    ensures FindTab(tabs, t.name).None? && !err && spare.Some? && !used && AtHome(t) ==> nowUsed
    // It fails only where the one command it gives fails.
    ensures h.Took(old(h.Clock()), old(h.since), 1)
    ensures err ==> Failing(h.will, old(h.Clock()), h.Clock())
    // Undisturbed, every other tab is found as before; and without an error this one under its label.
    ensures h.Calm() ==> old(h.Calm()) && PanesStay(old(h.w), h.w)
    ensures h.Calm() && Same(tabs, panes, old(h.w), t.name) && SpareFree(old(h.w), spare, used, good, rootName)
            ==> && OthersSame(old(h.w), h.w, good, t.name) && SpareFree(h.w, spare, nowUsed, good - {t.name}, rootName)
                && (!err ==> Ours(h.w, tab, t.name) && SpareFree(h.w, spare, nowUsed, good, rootName))
                && (!err && own.Some? ==>
                      && RootAlone(h.w, tab, own.value, if nowUsed == used then "" else rootName)
                      && (if nowUsed == used then tab >= old(h.w.next) else TookOver(spare, used, nowUsed, tab, own)))
    ensures h.Calm() && old(h.w.tabs) != [] ==> h.w.tabs != []
  {
    hide Safe, Steady, Labelled, Placed;
    nowUsed, own := used, None;
    var found := FindTab(tabs, t.name);
    if found.Some? {
      tab := found.value.id;
      assert Same(tabs, panes, h.w, t.name) ==> Ours(h.w, tab, t.name);
      SameWorkspace(h.w, labels, good, t.name);
      return false, tab, None, used;
    }
    SameWorkspace(h.w, labels, good, t.name);
    ghost var calmly := Same(tabs, panes, h.w, t.name) && SpareFree(h.w, spare, used, good, rootName);
    if spare.Some? && !used && (t.panes == [] || t.panes[0].home) {
      var ok := h.TabRename(spare.value.tab, t.name, labels);
      if h.Calm() && calmly && h.w != old(h.w) {
        TakenOver(old(h.w), spare.value, t.name, labels, good, rootName);
      }
      if !ok {
        return true, 0, None, used;
      }
      PlacedBelow(h.w, spare.value.tab, spare.value.root);
      if h.Calm() && calmly { TakenOver(old(h.w), spare.value, t.name, labels, good, rootName); }
      return false, spare.value.tab, Some(spare.value.root), true;
    }
    var ok, id, root := h.TabCreate(t.name, labels);
    if h.Calm() && calmly && h.w != old(h.w) {
      Created(old(h.w), spare, used, t.name, labels, good, rootName);
    }
    if !ok {
      return true, 0, None, used;
    }
    PlacedBelow(h.w, id, root);
    SpareBelow(old(h.w), spare, used);
    if h.Calm() && calmly { Created(old(h.w), spare, used, t.name, labels, good, rootName); }
    return false, id, Some(root), used;
  }

  lemma SameWorkspace(w: Workspace, labels: set<string>, good: set<string>, name: string)
    ensures OthersSame(w, w, good, name) && Steady(w, w, labels)
  {
  }

  lemma TakenOver(w: Workspace, spare: Spare, name: string, labels: set<string>, good: set<string>, rootName: string)
    requires Safe(w, labels) && FindTab(w.tabs, name).None? && SpareFree(w, Some(spare), false, good, rootName)
    ensures var v := TabRenamed(w, spare.tab, name);
            && OthersSame(w, v, good, name) && Ours(v, spare.tab, name)
            && RootAlone(v, spare.tab, spare.root, rootName)
            && SpareFree(v, Some(spare), false, good - {name}, rootName)
  {
    hide FindTab;
    var v := TabRenamed(w, spare.tab, name);
    RenamedLeavesOthers(w, spare.tab, name, labels, good);
    var u :| u in w.tabs && u.id == spare.tab;
    var x := TabAfter(w, spare.tab, name, u);
    forall t | t in v.tabs && t.id == spare.tab ensures t.name == name {
      var k :| 0 <= k < |v.tabs| && v.tabs[k] == t;
    }
  }

  lemma Created(w: Workspace, spare: Option<Spare>, used: bool, name: string, labels: set<string>, good: set<string>, rootName: string)
    requires Safe(w, labels) && FindTab(w.tabs, name).None? && SpareFree(w, spare, used, good, rootName)
    ensures var v := TabCreated(w, name);
            && OthersSame(w, v, good, name) && Ours(v, w.next, name) && SpareFree(v, spare, used, good, rootName)
            && RootAlone(v, w.next, w.next + 1, "")
  {
    var v := TabCreated(w, name);
    CreatedLeavesOthers(w, name, labels, good);
    var root := Pane(w.next + 1, w.next, "");
    assert v.panes[|w.panes|] == root && root in v.panes;
    forall p | p in w.panes ensures p.id < w.next && p.tab < w.next {
      var t :| t in w.tabs && t.id == p.tab;
    }
    if spare.Some? && !used {
      HasTabGrows(w, v, spare.value.tab);
      var q :| q in w.panes && q.id == spare.value.root;
      assert q in v.panes;
    }
  }

  lemma PlacedBelow(w: Workspace, tab: nat, pane: nat)
    requires Placed(w, tab, pane)
    ensures tab < w.next && pane < w.next
  {
  }

  lemma SpareBelow(w: Workspace, spare: Option<Spare>, used: bool)
    requires SpareUnused(w, spare, used)
    ensures spare.Some? ==> spare.value.root < w.next && spare.value.tab < w.next
  {
  }

  // ------------------------------------------------------------------- one pane

  // Whatever was done was done inside this tab, and nothing is gone.
  ghost predicate OnlyInside(w: Workspace, v: Workspace, tab: nat) {
    && v.tabs == w.tabs
    && PanesStay(w, v)
    && (forall q :: q in v.panes ==> q in w.panes || q.tab == tab)
    && (forall q :: q in w.panes && q.tab != tab ==> q in v.panes)
  }

  // The pane bears this name now, and the other panes are what they were.
  ghost predicate Opened(w: Workspace, v: Workspace, tab: nat, id: nat, name: string) {
    && Pane(id, tab, name) in v.panes
    && (forall q :: q in v.panes ==> if q.id == id then q == Pane(id, tab, name) else q in w.panes)
    && (forall q :: q in w.panes && q.id != id ==> q in v.panes)
  }

  // Opens, names and starts one pane that is not there.
  method AddPane(h: Herdr, p: PaneConfig, own: Option<nat>, prev: Option<nat>, tab: nat, ghost name: string,
                 ghost labels: set<string>, ghost good: set<string>)
    returns (err: bool, id: nat)
    requires Safe(h.w, labels) && Labelled(h.w, tab, labels) && tab < h.w.next
    requires prev.Some? ==> Placed(h.w, tab, prev.value)
    requires own.Some? ==> Placed(h.w, tab, own.value) && own.value !in h.w.runs
    modifies h
    ensures Safe(h.w, labels) && Steady(old(h.w), h.w, labels) && RunsOnly(old(h.w), h.w, own)
    ensures forall r :: r in old(h.w.runs) ==> r in h.w.runs
    ensures !err ==> Placed(h.w, tab, id) && (if own.Some? then id == own.value else id >= old(h.w.next))
    ensures !err && p.command != "" ==> id in h.w.runs
    // Undisturbed, it fails only where a command fails, or where there is no pane to split.
    ensures h.Took(old(h.Clock()), old(h.since), 3) && (h.Calm() ==> old(h.Calm()))
    ensures err && h.Calm() ==>
              Failing(h.will, old(h.Clock()), h.Clock()) || (own.None? && !(prev.Some? && HasPane(old(h.w), prev.value)))
    ensures h.Calm() && Ours(old(h.w), tab, name) && (own.Some? ==> HasPane(old(h.w), own.value))
            ==> && Ours(h.w, tab, name) && OthersSame(old(h.w), h.w, good, name) && OnlyInside(old(h.w), h.w, tab)
                && (!err ==> Opened(old(h.w), h.w, tab, id, p.name))
    ensures h.Calm() && old(h.w.tabs) != [] ==> h.w.tabs != []
  {
    hide Safe, Steady, Labelled, Placed, Ours, OthersSame, OnlyInside, Opened;
    ghost var start, calmly := h.w, Ours(h.w, tab, name) && (own.Some? ==> HasPane(h.w, own.value));
    SameWorkspace(start, labels, good, name);
    NothingInside(start, tab);
    if own.Some? {
      id := own.value;
    } else {
      var ok;
      ok, id := h.SplitPane(prev, tab, labels);
      if h.Calm() && calmly && h.w != start { SplitInside(start, tab, name, labels, good); }
      if !ok { return true, id; }
      if h.Calm() && calmly { SplitInside(start, tab, name, labels, good); }
    }
    ghost var grown := h.w;
    KeepsLabelled(start, grown, tab, labels);
    KeepsPlaced(start, grown, tab, own, labels);
    var ok := h.PaneRename(id, p.name, labels);
    SteadyTransitive(start, grown, h.w, labels);
    KeepsLabelled(grown, h.w, tab, labels);
    KeepsPlaced(grown, h.w, tab, Some(id), labels);
    if h.Calm() && calmly { RenamedInside(start, grown, own, id, p.name, tab, name, labels, good); }
    if !ok { return true, id; }
    ghost var named := h.w;
    if p.command != "" {
      ok := h.PaneRun(id, tab, labels);
      SteadyTransitive(start, named, h.w, labels);
      KeepsPlaced(named, h.w, tab, Some(id), labels);
      assert h.w.runs[|named.runs|] == id;
      err := !ok;
    } else {
      err := false;
    }
    if h.Calm() && calmly { RanInside(start, named, h.w, id, p.name, tab, name, good); }
  }

  lemma NothingInside(w: Workspace, tab: nat)
    ensures OnlyInside(w, w, tab)
  {
  }

  lemma KeepsLabelled(w: Workspace, v: Workspace, tab: nat, labels: set<string>)
    requires Labelled(w, tab, labels) && tab < w.next && Steady(w, v, labels)
    ensures Labelled(v, tab, labels) && tab < v.next
  {
    hide Labelled;
  }

  lemma KeepsPlaced(w: Workspace, v: Workspace, tab: nat, pane: Option<nat>, labels: set<string>)
    requires pane.Some? ==> Placed(w, tab, pane.value)
    requires Steady(w, v, labels)
    ensures pane.Some? ==> Placed(v, tab, pane.value)
  {
    hide Placed;
  }

  lemma SplitInside(w: Workspace, tab: nat, name: string, labels: set<string>, good: set<string>)
    requires Safe(w, labels) && Ours(w, tab, name)
    ensures var v := PaneSplit(w, tab);
            Ours(v, tab, name) && OthersSame(w, v, good, name) && OnlyInside(w, v, tab)
  {
    hide FindTab;
    SplitLeavesOthers(w, tab, name, labels, good);
  }

  lemma RenamedInside(w: Workspace, grown: Workspace, own: Option<nat>, id: nat, paneName: string, tab: nat, name: string,
                      labels: set<string>, good: set<string>)
    requires Safe(w, labels) && Safe(grown, labels) && Ours(grown, tab, name) && Placed(grown, tab, id)
    requires OthersSame(w, grown, good, name) && OnlyInside(w, grown, tab)
    requires if own.Some? then own == Some(id) && grown == w && HasPane(w, id) else grown == PaneSplit(w, tab) && id == w.next
    ensures OthersSame(w, grown, good, name) && OnlyInside(w, grown, tab)
    ensures var v := PaneRenamed(grown, id, paneName);
            && Ours(v, tab, name) && OthersSame(w, v, good, name) && OnlyInside(w, v, tab)
            && Opened(w, v, tab, id, paneName)
  {
    hide Safe, Ours, OthersSame, OnlyInside, Opened;
    PaneRenamedLeavesOthers(grown, id, paneName, tab, name, labels, good);
    OthersTransitive(w, grown, PaneRenamed(grown, id, paneName), good, name);
    RenamedPanes(w, grown, own, id, paneName, tab, labels);
  }

  lemma RenamedPanes(w: Workspace, grown: Workspace, own: Option<nat>, id: nat, paneName: string, tab: nat, labels: set<string>)
    requires Safe(w, labels) && Placed(grown, tab, id) && OnlyInside(w, grown, tab)
    requires if own.Some? then own == Some(id) && grown == w && HasPane(w, id) else grown == PaneSplit(w, tab) && id == w.next
    ensures var v := PaneRenamed(grown, id, paneName); OnlyInside(w, v, tab) && Opened(w, v, tab, id, paneName)
  {
    hide Safe;
    var v := PaneRenamed(grown, id, paneName);
    forall q | q in v.panes ensures if q.id == id then q == Pane(id, tab, paneName) else q in grown.panes {
      var k :| 0 <= k < |v.panes| && v.panes[k] == q;
      assert grown.panes[k] in grown.panes;
    }
    forall q | q in grown.panes ensures (if q.id == id then Pane(id, tab, paneName) else q) in v.panes {
      var k :| 0 <= k < |grown.panes| && grown.panes[k] == q;
      assert v.panes[k] in v.panes;
    }
    if own.None? {
      IdsBelow(w, labels);
      assert Pane(id, tab, "") in grown.panes;
    }
    forall i: nat | HasPane(w, i) ensures HasPane(v, i) {
      var q :| q in w.panes && q.id == i;
      assert q in grown.panes;
    }
  }

  lemma RanInside(w: Workspace, named: Workspace, v: Workspace, id: nat, paneName: string, tab: nat, name: string, good: set<string>)
    requires Ours(named, tab, name) && OthersSame(w, named, good, name) && OnlyInside(w, named, tab)
    requires Opened(w, named, tab, id, paneName) && v.tabs == named.tabs && v.panes == named.panes
    ensures Ours(v, tab, name) && OthersSame(w, v, good, name) && OnlyInside(w, v, tab) && Opened(w, v, tab, id, paneName)
  {
    forall other | other in good && other != name ensures Same(w.tabs, w.panes, v, other) {
      assert Same(w.tabs, w.panes, named, other);
    }
    forall i: nat | HasPane(w, i) ensures HasPane(v, i) {
      assert HasPane(named, i);
    }
  }

  lemma IdsBelow(w: Workspace, labels: set<string>)
    requires Safe(w, labels)
    ensures forall p :: p in w.panes ==> p.id < w.next
    ensures forall t :: t in w.tabs ==> t.id < w.next
  {
  }
}

/**
 * The tab layout reconciler (internal/lifecycle/herdrtabs.go) against a workspace whose commands
 * may fail or lose their reply, and whose panes and tabs the user may close at any time.
 */
module HerdrTabs {
  import opened Options

  // ----------------------------------------------------------------- the workspace

  datatype Tab = Tab(id: nat, name: string)
  datatype Pane = Pane(id: nat, tab: nat, name: string)

  // `runs`: the panes a command was sent to, in order. Ids are never used again.
  datatype Workspace = Workspace(tabs: seq<Tab>, panes: seq<Pane>, next: nat, runs: seq<nat>)

  function FindTab(tabs: seq<Tab>, name: string): (r: Option<Tab>)
    ensures r.Some? ==> r.value in tabs && r.value.name == name
    ensures r.None? ==> forall t :: t in tabs ==> t.name != name
  {
    if tabs == [] then None else if tabs[0].name == name then Some(tabs[0]) else FindTab(tabs[1..], name)
  }

  function PanesIn(panes: seq<Pane>, tab: nat): (r: seq<Pane>)
    ensures forall p :: p in r <==> p in panes && p.tab == tab
  {
    if panes == [] then []
    else if panes[0].tab == tab then [panes[0]] + PanesIn(panes[1..], tab)
    else PanesIn(panes[1..], tab)
  }

  function FindPane(panes: seq<Pane>, name: string): (r: Option<Pane>)
    ensures r.Some? ==> r.value in panes && r.value.name == name
    ensures r.None? ==> forall p :: p in panes ==> p.name != name
  {
    if panes == [] then None else if panes[0].name == name then Some(panes[0]) else FindPane(panes[1..], name)
  }

  function WithLabel(tabs: seq<Tab>, id: nat, name: string): (r: seq<Tab>)
    ensures |r| == |tabs| && forall k :: 0 <= k < |r| ==> r[k] == if tabs[k].id == id then Tab(id, name) else tabs[k]
  {
    seq(|tabs|, k requires 0 <= k < |tabs| => if tabs[k].id == id then Tab(id, name) else tabs[k])
  }

  function WithPaneLabel(panes: seq<Pane>, id: nat, name: string): (r: seq<Pane>)
    ensures |r| == |panes|
    ensures forall k :: 0 <= k < |r| ==> r[k] == if panes[k].id == id then panes[k].(name := name) else panes[k]
  {
    seq(|panes|, k requires 0 <= k < |panes| => if panes[k].id == id then panes[k].(name := name) else panes[k])
  }

  function NotTab(tabs: seq<Tab>, id: nat): (r: seq<Tab>)
    ensures forall t :: t in r <==> t in tabs && t.id != id
  {
    if tabs == [] then []
    else if tabs[0].id == id then NotTab(tabs[1..], id)
    else [tabs[0]] + NotTab(tabs[1..], id)
  }

  function NotIn(panes: seq<Pane>, tab: nat): (r: seq<Pane>)
    ensures forall p :: p in r <==> p in panes && p.tab != tab
  {
    if panes == [] then []
    else if panes[0].tab == tab then NotIn(panes[1..], tab)
    else [panes[0]] + NotIn(panes[1..], tab)
  }

  function TabOf(panes: seq<Pane>, id: nat): (r: Option<nat>)
    ensures r.Some? ==> exists p :: p in panes && p.id == id && p.tab == r.value
    ensures r.None? ==> forall p :: p in panes ==> p.id != id
  {
    if panes == [] then None else if panes[0].id == id then Some(panes[0].tab) else TabOf(panes[1..], id)
  }

  predicate HasTab(w: Workspace, id: nat) { exists t :: t in w.tabs && t.id == id }
  predicate HasPane(w: Workspace, id: nat) { exists p :: p in w.panes && p.id == id }

  // ------------------------------------------------------------- what is always so

  predicate NoRepeats(runs: seq<nat>) { forall i, j :: 0 <= i < j < |runs| ==> runs[i] != runs[j] }

  predicate UniqueTabs(tabs: seq<Tab>) { forall t, u :: t in tabs && u in tabs && t.id == u.id ==> t == u }

  predicate OnePlace(panes: seq<Pane>) { forall p, q :: p in panes && q in panes && p.id == q.id ==> p.tab == q.tab }

  // The tab, if it is there, has a configured name.
  predicate Labelled(w: Workspace, tab: nat, labels: set<string>) {
    forall t :: t in w.tabs && t.id == tab ==> t.name in labels
  }

  // No pane was sent a command twice; and one that was sent a command is in a configured tab.
  ghost predicate Safe(w: Workspace, labels: set<string>) {
    && NoRepeats(w.runs)
    && UniqueTabs(w.tabs)
    && OnePlace(w.panes)
    && (forall r :: r in w.runs ==> r < w.next)
    && (forall t :: t in w.tabs ==> t.id < w.next)
    && (forall p :: p in w.panes ==> p.id < w.next && HasTab(w, p.tab))
    && (forall p :: p in w.panes && p.id in w.runs ==> Labelled(w, p.tab, labels))
  }

  // The user closed some tabs, with their panes, and some panes.
  predicate Closes(w: Workspace, v: Workspace) {
    && v.next == w.next && v.runs == w.runs
    && (forall t :: t in v.tabs ==> t in w.tabs)
    && (forall p :: p in v.panes ==> p in w.panes && HasTab(v, p.tab))
  }

  // ------------------------------------------------------------- one command each

  function TabRenamed(w: Workspace, id: nat, name: string): Workspace { w.(tabs := WithLabel(w.tabs, id, name)) }

  function TabCreated(w: Workspace, name: string): Workspace {
    w.(tabs := w.tabs + [Tab(w.next, name)], panes := w.panes + [Pane(w.next + 1, w.next, "")], next := w.next + 2)
  }

  function TabClosed(w: Workspace, id: nat): Workspace {
    w.(tabs := NotTab(w.tabs, id), panes := NotIn(w.panes, id))
  }

  function PaneSplit(w: Workspace, tab: nat): Workspace {
    w.(panes := w.panes + [Pane(w.next, tab, "")], next := w.next + 1)
  }

  function PaneRenamed(w: Workspace, id: nat, name: string): Workspace {
    w.(panes := WithPaneLabel(w.panes, id, name))
  }

  function PaneRan(w: Workspace, id: nat): Workspace { w.(runs := w.runs + [id]) }

  // What may be known of a tab and a pane for as long as nobody but us renames.
  ghost predicate Placed(w: Workspace, tab: nat, pane: nat) {
    pane < w.next && tab < w.next && forall p :: p in w.panes && p.id == pane ==> p.tab == tab
  }

  // What every command and every closing leaves as it was.
  ghost predicate Steady(w: Workspace, v: Workspace, labels: set<string>) {
    && v.next >= w.next
    && (forall tab: nat :: tab < w.next && Labelled(w, tab, labels) ==> Labelled(v, tab, labels))
    && (forall tab: nat, pane: nat :: Placed(w, tab, pane) ==> Placed(v, tab, pane))
  }

  lemma SteadyTransitive(u: Workspace, v: Workspace, w: Workspace, labels: set<string>)
    requires Steady(u, v, labels) && Steady(v, w, labels)
    ensures Steady(u, w, labels)
  {
  }

  lemma TabBefore(w: Workspace, id: nat, name: string, t: Tab) returns (u: Tab)
    requires t in TabRenamed(w, id, name).tabs
    ensures u in w.tabs && u.id == t.id && (t == u || t.name == name)
  {
    var k :| 0 <= k < |w.tabs| && TabRenamed(w, id, name).tabs[k] == t;
    u := w.tabs[k];
  }

  lemma TabAfter(w: Workspace, id: nat, name: string, u: Tab) returns (t: Tab)
    requires u in w.tabs
    ensures t in TabRenamed(w, id, name).tabs && t.id == u.id
  {
    var k :| 0 <= k < |w.tabs| && w.tabs[k] == u;
    t := TabRenamed(w, id, name).tabs[k];
  }

  lemma LabelledAfter(w: Workspace, id: nat, name: string, tab: nat, labels: set<string>)
    requires Labelled(w, tab, labels) && name in labels
    ensures Labelled(TabRenamed(w, id, name), tab, labels)
  {
    hide TabRenamed;
    forall t | t in TabRenamed(w, id, name).tabs && t.id == tab ensures t.name in labels {
      var u := TabBefore(w, id, name, t);
    }
  }

  lemma TabRenamedKeeps(w: Workspace, id: nat, name: string, labels: set<string>)
    requires Safe(w, labels) && name in labels
    ensures var v := TabRenamed(w, id, name); Safe(v, labels) && Steady(w, v, labels)
  {
    hide WithLabel, Labelled;
    var v := TabRenamed(w, id, name);
    forall t | t in v.tabs ensures t.id < v.next {
      var u := TabBefore(w, id, name, t);
    }
    forall p | p in v.panes ensures HasTab(v, p.tab) && (p.id in v.runs ==> Labelled(v, p.tab, labels)) {
      var u :| u in w.tabs && u.id == p.tab;
      var t := TabAfter(w, id, name, u);
      if p.id in w.runs { LabelledAfter(w, id, name, p.tab, labels); }
    }
    forall tab: nat | tab < w.next && Labelled(w, tab, labels) ensures Labelled(v, tab, labels) {
      LabelledAfter(w, id, name, tab, labels);
    }
  }

  lemma TabCreatedKeeps(w: Workspace, name: string, labels: set<string>)
    requires Safe(w, labels) && name in labels
    ensures var v := TabCreated(w, name);
            && Safe(v, labels) && Steady(w, v, labels)
            && Labelled(v, w.next, labels) && Placed(v, w.next, w.next + 1) && w.next + 1 !in v.runs
  {
    var v := TabCreated(w, name);
    assert v.tabs[|w.tabs|] in v.tabs;
    forall p | p in v.panes ensures HasTab(v, p.tab) {
      if p in w.panes { HasTabGrows(w, v, p.tab); }
    }
  }

  lemma HasTabGrows(w: Workspace, v: Workspace, id: nat)
    requires HasTab(w, id) && forall t :: t in w.tabs ==> t in v.tabs
    ensures HasTab(v, id)
  {
  }

  lemma PaneSplitKeeps(w: Workspace, tab: nat, labels: set<string>)
    requires Safe(w, labels) && HasTab(w, tab)
    ensures var v := PaneSplit(w, tab);
            Safe(v, labels) && Steady(w, v, labels) && Placed(v, tab, w.next) && w.next !in v.runs
  {
    var v := PaneSplit(w, tab);
    forall p | p in v.panes ensures HasTab(v, p.tab) {
      if p in w.panes { HasTabGrows(w, v, p.tab); } else { HasTabGrows(w, v, tab); }
    }
  }

  lemma PaneBefore(w: Workspace, id: nat, name: string, p: Pane) returns (q: Pane)
    requires p in PaneRenamed(w, id, name).panes
    ensures q in w.panes && q.id == p.id && q.tab == p.tab
  {
    var k :| 0 <= k < |w.panes| && PaneRenamed(w, id, name).panes[k] == p;
    q := w.panes[k];
  }

  lemma PaneRenamedKeeps(w: Workspace, id: nat, name: string, labels: set<string>)
    requires Safe(w, labels)
    ensures Safe(PaneRenamed(w, id, name), labels) && Steady(w, PaneRenamed(w, id, name), labels)
  {
    hide WithPaneLabel;
    var v := PaneRenamed(w, id, name);
    forall p | p in v.panes
      ensures p.id < v.next && HasTab(v, p.tab) && (p.id in v.runs ==> Labelled(v, p.tab, labels))
    {
      var q := PaneBefore(w, id, name, p);
      HasTabGrows(w, v, p.tab);
    }
    forall p, q | p in v.panes && q in v.panes && p.id == q.id ensures p.tab == q.tab {
      var a := PaneBefore(w, id, name, p);
      var b := PaneBefore(w, id, name, q);
    }
    forall tab: nat, pane: nat | Placed(w, tab, pane) ensures Placed(v, tab, pane) {
      forall p | p in v.panes && p.id == pane ensures p.tab == tab {
        var q := PaneBefore(w, id, name, p);
      }
    }
  }

  lemma PaneRanKeeps(w: Workspace, id: nat, tab: nat, labels: set<string>)
    requires Safe(w, labels) && id !in w.runs && Placed(w, tab, id) && Labelled(w, tab, labels)
    ensures Safe(PaneRan(w, id), labels) && Steady(w, PaneRan(w, id), labels)
  {
    var v := PaneRan(w, id);
    forall p | p in v.panes ensures HasTab(v, p.tab) {
      HasTabGrows(w, v, p.tab);
    }
  }
}

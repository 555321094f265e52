/**
 * Herdr's commands as an attach uses them (internal/lifecycle/herdrtabs.go:100-150): each may fail,
 * or lose its reply, and the user may close anything before it; and what each of them leaves as it
 * was in the tabs it is not about.
 */
module HerdrCommands {
  import opened Options
  import opened HerdrTabs

  // `home`: the pane starts in the checkout itself. An empty command is none.
  datatype PaneConfig = PaneConfig(name: string, home: bool, command: string)
  datatype TabConfig = TabConfig(name: string, panes: seq<PaneConfig>)
  datatype Spare = Spare(tab: nat, root: nat)

  function Names(layout: seq<TabConfig>): set<string> { set t | t in layout :: t.name }

  // ------------------------------------------------------------------ the commands

  // What a moment has in store: what the user has closed by then, and whether the command given then
  // fails, and if so whether it took effect all the same.
  datatype Moment = Moment(closes: Option<Workspace>, fails: bool, applied: bool)

  // Nobody closes anything from moment `lo` until `hi`.
  ghost predicate Undisturbed(will: nat -> Moment, lo: nat, hi: nat) {
    forall k :: lo <= k < hi ==> will(k).closes.None?
  }

  // Some command fails in that time.
  ghost predicate Failing(will: nat -> Moment, lo: nat, hi: nat) {
    exists k :: lo <= k < hi && will(k).fails
  }

  class Herdr {
    const will: nat -> Moment
    var w: Workspace
    var since: nat             // the moment this attach began
    var spent: nat             // the commands it has given
    ghost var changes: nat     // commands other than the two lists, ever

    constructor (will: nat -> Moment)
      ensures this.will == will && w == Workspace([], [], 0, []) && since == spent == changes == 0
    {
      this.will, w, since, spent, changes := will, Workspace([], [], 0, []), 0, 0, 0;
    }

    function Clock(): nat
      reads this
    {
      since + spent
    }

    // Nobody else has closed anything since this attach began.
    ghost predicate Calm()
      reads this
    {
      Undisturbed(will, since, Clock())
    }

    // At most n commands have been given since moment `c`, in the attach that began at `s`.
    ghost predicate Took(c: nat, s: nat, n: nat)
      reads this
    {
      c <= Clock() <= c + n && since == s
    }

    // What the user has closed by now.
    method Disturb(ghost labels: set<string>)
      requires Safe(w, labels)
      modifies this`w
      ensures Safe(w, labels) && Steady(old(w), w, labels) && Closes(old(w), w)
      ensures will(Clock()).closes.None? ==> w == old(w)
    {
      var closes := will(Clock()).closes;
      if closes.Some? && Closes(w, closes.value) {
        w := closes.value;
      }
    }

    // Time passes between two attaches.
    method Wait(ghost labels: set<string>)
      requires Safe(w, labels)
      modifies this
      ensures Safe(w, labels) && Closes(old(w), w) && changes == old(changes) && Clock() == old(Clock()) + 1
    {
      Disturb(labels);
      since := since + 1;
    }

    method TabList(ghost labels: set<string>) returns (ok: bool, tabs: seq<Tab>)
      requires Safe(w, labels)
      modifies this
      ensures Safe(w, labels) && Steady(old(w), w, labels) && Closes(old(w), w)
      ensures Took(old(Clock()), old(since), 1) && changes == old(changes)
      ensures Calm() ==> old(Calm()) && w == old(w)
      ensures if ok then tabs == w.tabs else Failing(will, old(Clock()), Clock())
    {
      Disturb(labels);
      ok := !will(Clock()).fails;
      tabs := if ok then w.tabs else [];
      spent := spent + 1;
    }

    method PaneList(ghost labels: set<string>) returns (ok: bool, panes: seq<Pane>)
      requires Safe(w, labels)
      modifies this
      ensures Safe(w, labels) && Steady(old(w), w, labels) && Closes(old(w), w)
      ensures Took(old(Clock()), old(since), 1) && changes == old(changes)
      ensures Calm() ==> old(Calm()) && w == old(w)
      ensures if ok then panes == w.panes else Failing(will, old(Clock()), Clock())
    {
      Disturb(labels);
      ok := !will(Clock()).fails;
      panes := if ok then w.panes else [];
      spent := spent + 1;
    }

    method TabRename(id: nat, name: string, ghost labels: set<string>) returns (ok: bool)
      requires Safe(w, labels) && name in labels
      modifies this
      ensures Took(old(Clock()), old(since), 1) && changes == old(changes) + 1
      ensures !ok ==> Failing(will, old(Clock()), Clock())
      ensures Safe(w, labels) && Steady(old(w), w, labels) && w.runs == old(w.runs)
      ensures ok ==> Labelled(w, id, labels)
      ensures Calm() ==> old(Calm()) && (ok ==> w == TabRenamed(old(w), id, name))
      ensures Calm() ==> w == old(w) || w == TabRenamed(old(w), id, name)
    {
      var f := will(Clock());
      Disturb(labels);
      changes, spent := changes + 1, spent + 1;
      ok := !f.fails;
      if ok || f.applied {
        TabRenamedKeeps(w, id, name, labels);
        w := TabRenamed(w, id, name);
      }
    }

    method TabCreate(name: string, ghost labels: set<string>) returns (ok: bool, id: nat, root: nat)
      requires Safe(w, labels) && name in labels
      modifies this
      ensures Took(old(Clock()), old(since), 1) && changes == old(changes) + 1
      ensures !ok ==> Failing(will, old(Clock()), Clock())
      ensures Safe(w, labels) && Steady(old(w), w, labels) && w.runs == old(w.runs)
      ensures ok ==> Labelled(w, id, labels) && Placed(w, id, root) && root !in w.runs && root >= old(w.next)
      ensures Calm() ==> old(Calm()) && (ok ==> w == TabCreated(old(w), name) && id == old(w.next) && root == id + 1)
      ensures Calm() ==> w == old(w) || w == TabCreated(old(w), name)
    {
      var f := will(Clock());
      Disturb(labels);
      changes, spent := changes + 1, spent + 1;
      ok := !f.fails;
      id, root := w.next, w.next + 1;
      if ok || f.applied {
        TabCreatedKeeps(w, name, labels);
        w := TabCreated(w, name);
      }
    }

    method TabClose(id: nat, ghost labels: set<string>) returns (ok: bool)
      requires Safe(w, labels)
      modifies this
      ensures Took(old(Clock()), old(since), 1) && changes == old(changes) + 1
      ensures !ok ==> Failing(will, old(Clock()), Clock())
      ensures Safe(w, labels) && Steady(old(w), w, labels) && w.runs == old(w.runs)
      ensures Calm() ==> old(Calm()) && (ok ==> w == TabClosed(old(w), id))
      ensures Calm() ==> w == old(w) || w == TabClosed(old(w), id)
    {
      var f := will(Clock());
      Disturb(labels);
      changes, spent := changes + 1, spent + 1;
      ok := !f.fails;
      if ok || f.applied {
        w := TabClosed(w, id);
      }
    }

    // Splits fail where there is no such pane.
    method SplitPane(from: Option<nat>, ghost tab: nat, ghost labels: set<string>) returns (ok: bool, id: nat)
      requires Safe(w, labels) && (from.Some? ==> Placed(w, tab, from.value))
      modifies this
      ensures Took(old(Clock()), old(since), 1) && changes == old(changes) + 1
      ensures !ok ==> Failing(will, old(Clock()), Clock()) || from.None? || (Calm() ==> !HasPane(old(w), from.value))
      ensures Safe(w, labels) && Steady(old(w), w, labels) && w.runs == old(w.runs)
      ensures ok ==> Placed(w, tab, id) && id !in w.runs && id >= old(w.next)
      ensures Calm() ==> old(Calm()) && (ok ==> w == PaneSplit(old(w), tab) && id == old(w.next))
      ensures Calm() ==> w == old(w) || w == PaneSplit(old(w), tab)
    {
      var f := will(Clock());
      Disturb(labels);
      changes, spent := changes + 1, spent + 1;
      id := w.next;
      var at := if from.Some? then TabOf(w.panes, from.value) else None;
      if at.None? {
        return false, id;
      }
      ok := !f.fails;
      if ok || f.applied {
        assert at.value == tab;
        PaneSplitKeeps(w, tab, labels);
        w := PaneSplit(w, at.value);
      }
    }

    method PaneRename(id: nat, name: string, ghost labels: set<string>) returns (ok: bool)
      requires Safe(w, labels)
      modifies this
      ensures Took(old(Clock()), old(since), 1) && changes == old(changes) + 1
      ensures !ok ==> Failing(will, old(Clock()), Clock())
      ensures Safe(w, labels) && Steady(old(w), w, labels) && w.runs == old(w.runs)
      ensures Calm() ==> old(Calm()) && (ok ==> w == PaneRenamed(old(w), id, name))
      ensures Calm() ==> w == old(w) || w == PaneRenamed(old(w), id, name)
    {
      var f := will(Clock());
      Disturb(labels);
      changes, spent := changes + 1, spent + 1;
      ok := !f.fails;
      if ok || f.applied {
        PaneRenamedKeeps(w, id, name, labels);
        w := PaneRenamed(w, id, name);
      }
    }

    // Sending is what counts, whether or not it arrives.
    method PaneRun(id: nat, ghost tab: nat, ghost labels: set<string>) returns (ok: bool)
      requires Safe(w, labels) && id !in w.runs && Placed(w, tab, id) && Labelled(w, tab, labels)
      modifies this
      ensures Took(old(Clock()), old(since), 1) && changes == old(changes) + 1
      ensures !ok ==> Failing(will, old(Clock()), Clock())
      ensures Safe(w, labels) && Steady(old(w), w, labels) && w.runs == old(w.runs) + [id]
      ensures Calm() ==> old(Calm()) && w == PaneRan(old(w), id)
    {
      var f := will(Clock());
      Disturb(labels);
      changes, spent := changes + 1, spent + 1;
      PaneRanKeeps(w, id, tab, labels);
      w := PaneRan(w, id);
      ok := !f.fails;
    }
  }

  // ---------------------------------------------------- finding what the layout asks for

  ghost predicate PaneThere(w: Workspace, tab: nat, name: string) {
    exists q :: q in w.panes && q.tab == tab && q.name == name
  }

  ghost predicate PanesThere(w: Workspace, tab: nat, panes: seq<PaneConfig>, n: nat)
    requires n <= |panes|
  {
    forall i :: 0 <= i < n ==> PaneThere(w, tab, panes[i].name)
  }

  // The tab and every pane of it are there, where a later attach looks for them.
  ghost predicate Complete(w: Workspace, t: TabConfig) {
    var tab := FindTab(w.tabs, t.name);
    tab.Some? && PanesThere(w, tab.value.id, t.panes, |t.panes|)
  }

  // A listing that already shows all of it.
  ghost predicate Shown(tabs: seq<Tab>, panes: seq<Pane>, t: TabConfig) {
    var tab := FindTab(tabs, t.name);
    tab.Some? && forall i :: 0 <= i < |t.panes| ==> FindPane(PanesIn(panes, tab.value.id), t.panes[i].name).Some?
  }

  // What is found under a label, and the panes there.
  ghost predicate Same(tabs: seq<Tab>, panes: seq<Pane>, w: Workspace, name: string) {
    var tab := FindTab(tabs, name);
    FindTab(w.tabs, name) == tab && (tab.Some? ==> PanesIn(w.panes, tab.value.id) == PanesIn(panes, tab.value.id))
  }

  ghost predicate OthersSame(v: Workspace, w: Workspace, labels: set<string>, name: string) {
    forall other :: other in labels && other != name ==> Same(v.tabs, v.panes, w, other)
  }

  lemma OthersTransitive(u: Workspace, v: Workspace, w: Workspace, labels: set<string>, name: string)
    requires OthersSame(u, v, labels, name) && OthersSame(v, w, labels, name)
    ensures OthersSame(u, w, labels, name)
  {
    forall other | other in labels && other != name ensures Same(u.tabs, u.panes, w, other) {
      assert Same(u.tabs, u.panes, v, other) && Same(v.tabs, v.panes, w, other);
    }
  }

  lemma {:induction false} FindAppended(tabs: seq<Tab>, x: Tab, name: string)
    ensures FindTab(tabs + [x], name)
            == if FindTab(tabs, name).Some? then FindTab(tabs, name) else if x.name == name then Some(x) else None
  {
    if tabs != [] {
      assert (tabs + [x])[1..] == tabs[1..] + [x];
      FindAppended(tabs[1..], x, name);
    } else {
      assert tabs + [x] == [x] && [x][1..] == [];
    }
  }

  lemma {:induction false} PanesAppended(panes: seq<Pane>, x: Pane, tab: nat)
    ensures PanesIn(panes + [x], tab) == PanesIn(panes, tab) + if x.tab == tab then [x] else []
  {
    if panes != [] {
      assert (panes + [x])[1..] == panes[1..] + [x];
      PanesAppended(panes[1..], x, tab);
    } else {
      assert panes + [x] == [x] && [x][1..] == [];
    }
  }

  lemma {:induction false} FindRenamed(tabs: seq<Tab>, id: nat, name: string, other: string)
    requires other != name && forall t :: t in tabs && t.id == id ==> t.name != other
    ensures FindTab(WithLabel(tabs, id, name), other) == FindTab(tabs, other)
  {
    if tabs != [] {
      assert tabs[0] in tabs;
      assert WithLabel(tabs, id, name)[1..] == WithLabel(tabs[1..], id, name);
      FindRenamed(tabs[1..], id, name, other);
    }
  }

  lemma {:induction false} FindTheRenamed(tabs: seq<Tab>, id: nat, name: string)
    requires FindTab(tabs, name).None? && exists t :: t in tabs && t.id == id
    ensures FindTab(WithLabel(tabs, id, name), name) == Some(Tab(id, name))
  {
    assert tabs[0] in tabs;
    if tabs[0].id != id {
      assert WithLabel(tabs, id, name)[1..] == WithLabel(tabs[1..], id, name);
      FindTheRenamed(tabs[1..], id, name);
    }
  }

  lemma {:induction false} FindClosed(tabs: seq<Tab>, id: nat, name: string)
    requires forall t :: t in tabs && t.id == id ==> t.name != name
    ensures FindTab(NotTab(tabs, id), name) == FindTab(tabs, name)
  {
    if tabs != [] {
      assert tabs[0] in tabs;
      FindClosed(tabs[1..], id, name);
      assert ([tabs[0]] + NotTab(tabs[1..], id))[1..] == NotTab(tabs[1..], id);
    }
  }

  lemma {:induction false} PanesAfterClose(panes: seq<Pane>, id: nat, tab: nat)
    requires tab != id
    ensures PanesIn(NotIn(panes, id), tab) == PanesIn(panes, tab)
  {
    if panes != [] {
      PanesAfterClose(panes[1..], id, tab);
      assert ([panes[0]] + NotIn(panes[1..], id))[1..] == NotIn(panes[1..], id);
    }
  }

  lemma {:induction false} PanesRenamed(panes: seq<Pane>, id: nat, name: string, tab: nat)
    requires forall p :: p in panes && p.id == id ==> p.tab != tab
    ensures PanesIn(WithPaneLabel(panes, id, name), tab) == PanesIn(panes, tab)
  {
    if panes != [] {
      assert panes[0] in panes;
      assert WithPaneLabel(panes, id, name)[1..] == WithPaneLabel(panes[1..], id, name);
      PanesRenamed(panes[1..], id, name, tab);
    }
  }

  // ------------------------------------------- what each command does to the other tabs

  // The tab found under `name` is `tab`.
  ghost predicate Ours(w: Workspace, tab: nat, name: string) { FindTab(w.tabs, name) == Some(Tab(tab, name)) }

  lemma OtherTab(w: Workspace, tab: nat, name: string, other: string, labels: set<string>)
    requires Safe(w, labels) && Ours(w, tab, name) && other != name && FindTab(w.tabs, other).Some?
    ensures FindTab(w.tabs, other).value.id != tab
  {
  }

  lemma CreatedLeavesOthers(w: Workspace, name: string, labels: set<string>, good: set<string>)
    requires Safe(w, labels) && FindTab(w.tabs, name).None?
    ensures OthersSame(w, TabCreated(w, name), good, name) && Ours(TabCreated(w, name), w.next, name)
  {
    var v := TabCreated(w, name);
    FindAppended(w.tabs, Tab(w.next, name), name);
    forall other | other in good && other != name ensures Same(w.tabs, w.panes, v, other) {
      FindAppended(w.tabs, Tab(w.next, name), other);
      var tab := FindTab(w.tabs, other);
      if tab.Some? { PanesAppended(w.panes, Pane(w.next + 1, w.next, ""), tab.value.id); }
    }
  }

  lemma RenamedLeavesOthers(w: Workspace, id: nat, name: string, labels: set<string>, good: set<string>)
    requires Safe(w, labels) && FindTab(w.tabs, name).None? && HasTab(w, id)
    requires forall t :: t in w.tabs && t.id == id ==> t.name !in good
    ensures OthersSame(w, TabRenamed(w, id, name), good, name) && Ours(TabRenamed(w, id, name), id, name)
  {
    var v := TabRenamed(w, id, name);
    FindTheRenamed(w.tabs, id, name);
    forall other | other in good && other != name ensures Same(w.tabs, w.panes, v, other) {
      FindRenamed(w.tabs, id, name, other);
    }
  }

  lemma SplitLeavesOthers(w: Workspace, tab: nat, name: string, labels: set<string>, good: set<string>)
    requires Safe(w, labels) && Ours(w, tab, name)
    ensures OthersSame(w, PaneSplit(w, tab), good, name) && Ours(PaneSplit(w, tab), tab, name)
  {
    forall other | other in good && other != name ensures Same(w.tabs, w.panes, PaneSplit(w, tab), other) {
      var found := FindTab(w.tabs, other);
      if found.Some? {
        OtherTab(w, tab, name, other, labels);
        PanesAppended(w.panes, Pane(w.next, tab, ""), found.value.id);
      }
    }
  }

  lemma PaneRenamedLeavesOthers(w: Workspace, id: nat, paneName: string, tab: nat, name: string, labels: set<string>, good: set<string>)
    requires Safe(w, labels) && Ours(w, tab, name) && Placed(w, tab, id)
    ensures var v := PaneRenamed(w, id, paneName); OthersSame(w, v, good, name) && Ours(v, tab, name)
  {
    forall other | other in good && other != name
      ensures Same(w.tabs, w.panes, PaneRenamed(w, id, paneName), other)
    {
      var found := FindTab(w.tabs, other);
      if found.Some? {
        OtherTab(w, tab, name, other, labels);
        PanesRenamed(w.panes, id, paneName, found.value.id);
      }
    }
  }

  lemma ClosedLeavesOthers(w: Workspace, id: nat, labels: set<string>, name: string)
    requires name in labels && Safe(w, labels)
    requires forall t :: t in w.tabs && t.id == id ==> t.name !in labels
    ensures Same(w.tabs, w.panes, TabClosed(w, id), name)
  {
    FindClosed(w.tabs, id, name);
    var found := FindTab(w.tabs, name);
    if found.Some? { PanesAfterClose(w.panes, id, found.value.id); }
  }

  // A tab that is found as before with its panes is as complete as before.
  lemma CompleteAlike(w: Workspace, v: Workspace, t: TabConfig)
    requires Same(w.tabs, w.panes, v, t.name)
    ensures Complete(v, t) <==> Complete(w, t)
  {
    if Complete(w, t) { StaysComplete(w, v, t); }
    if Complete(v, t) { StaysComplete(v, w, t); }
  }

  lemma StaysComplete(w: Workspace, v: Workspace, t: TabConfig)
    requires Complete(w, t) && Same(w.tabs, w.panes, v, t.name)
    ensures Complete(v, t)
  {
    var tab := FindTab(w.tabs, t.name).value.id;
    forall i | 0 <= i < |t.panes| ensures PaneThere(v, tab, t.panes[i].name) {
      assert PaneThere(w, tab, t.panes[i].name);
      var q :| q in w.panes && q.tab == tab && q.name == t.panes[i].name;
      assert q in PanesIn(w.panes, tab);
      assert q in PanesIn(v.panes, tab);
    }
  }
}

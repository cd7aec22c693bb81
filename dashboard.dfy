/**
 * The dashboard's own state and its transitions: adding a copy of a widget
 * under a rewritten id, adding a custom widget, removing widgets by id, and
 * the case-insensitive search view. Each transition is a total function of
 * the state; the `Dashboard` class owns the one state cell and assigns the
 * results, as the component's `setDashboardData(prev => ...)` updates do.
 */
module DashboardState {
  import opened DashboardTypes
  import opened Strings
  import opened Collections
  import opened WidgetPicker
  import Seed = DashboardSeed

  // -------------------------------------------------------------- transitions

  /** The id a copy gets when placed at time `now`: `${w.id}-${now}`. */
  function PlacedId(w: Widget, now: nat): string {
    w.id + "-" + NatToString(now)
  }

  /** `{ ...widget, id: `${widget.id}-${Date.now()}` }`. */
  function Placed(w: Widget, now: nat): Widget {
    w.(id := PlacedId(w, now))
  }

  /** `handleAddWidget`: every category with the id gets the copy appended. */
  function AddWidget(data: DashboardData, categoryId: string, w: Widget, now: nat): DashboardData {
    var cats := data.categories;
    data.(categories := seq(|cats|, i requires 0 <= i < |cats| =>
      if cats[i].id == categoryId then cats[i].(widgets := cats[i].widgets + [Placed(w, now)])
      else cats[i]))
  }

  /** The widget `handleAddCustomWidget` builds at time `now`. */
  function CustomWidget(name: string, text: string, now: nat): Widget {
    Widget("custom-" + NatToString(now), name, text, Metric)
  }

  /** `handleAddCustomWidget`: the custom widget is built at `idTime`, then
      added as any widget, which reads the clock again (`placeTime`). */
  function AddCustomWidget(data: DashboardData, categoryId: string, name: string, text: string,
                           idTime: nat, placeTime: nat): DashboardData {
    AddWidget(data, categoryId, CustomWidget(name, text, idTime), placeTime)
  }

  /** The `filter` predicate of `handleRemoveWidget`. */
  function NotId(widgetId: string): Widget -> bool {
    (w: Widget) => w.id != widgetId
  }

  /** `handleRemoveWidget`: every widget with the id leaves every category with the category id. */
  function RemoveWidget(data: DashboardData, categoryId: string, widgetId: string): DashboardData {
    var cats := data.categories;
    data.(categories := seq(|cats|, i requires 0 <= i < |cats| =>
      if cats[i].id == categoryId then cats[i].(widgets := Filter(cats[i].widgets, NotId(widgetId)))
      else cats[i]))
  }

  /** The search test: the lower-cased name or text includes the lower-cased term. */
  predicate MatchesSearch(w: Widget, term: string) {
    Includes(Lower(w.name), Lower(term)) || Includes(Lower(w.text), Lower(term))
  }

  function MatchesTerm(term: string): Widget -> bool {
    (w: Widget) => MatchesSearch(w, term)
  }

  /** `filteredCategories`: each category keeps the widgets that match. */
  function FilteredCategories(categories: seq<Category>, term: string): seq<Category> {
    seq(|categories|, i requires 0 <= i < |categories| =>
      categories[i].(widgets := Filter(categories[i].widgets, MatchesTerm(term))))
  }

  /** The same categories, by id and name, in the same order. */
  predicate SameCategories(a: seq<Category>, b: seq<Category>) {
    |a| == |b| && forall i :: 0 <= i < |a| ==> a[i].id == b[i].id && a[i].name == b[i].name
  }

  /** The state after the picker's callbacks run in order. `k` numbers the
      timestamps in call order: an add takes `clock(k)`, a custom add
      `clock(k)` for its id and `clock(k + 1)` for its placement. */
  function ApplyCalls(data: DashboardData, calls: seq<Call>, clock: nat -> nat, k: nat): DashboardData
    decreases |calls|
  {
    if calls == [] then data
    else match calls[0]
      case AddWidgetCall(c, w) => ApplyCalls(AddWidget(data, c, w, clock(k)), calls[1..], clock, k + 1)
      case AddCustomWidgetCall(c, n, t) =>
        ApplyCalls(AddCustomWidget(data, c, n, t, clock(k), clock(k + 1)), calls[1..], clock, k + 2)
      case CloseCall => ApplyCalls(data, calls[1..], clock, k)
  }

  // ------------------------------------------------------------- the component

  class Dashboard {
    var data: DashboardData
    var searchTerm: string
    var isAddWidgetModalOpen: bool
    var selectedCategory: string

    /** The catalog never changes, and neither do the categories' ids, names and order. */
    ghost predicate Valid()
      reads this
    {
      data.availableWidgets == Seed.Catalog
      && SameCategories(data.categories, Seed.InitialDashboardData.categories)
    }

    constructor ()
      ensures Valid()
      ensures data == Seed.InitialDashboardData
      ensures searchTerm == "" && !isAddWidgetModalOpen && selectedCategory == ""
    {
      data := Seed.InitialDashboardData;
      searchTerm := "";
      isAddWidgetModalOpen := false;
      selectedCategory := "";
    }

    method HandleRemoveWidget(categoryId: string, widgetId: string)
      requires Valid()
      modifies this`data
      ensures Valid()
      ensures data == RemoveWidget(old(data), categoryId, widgetId)
    {
      RemoveWidgetFrame(data, categoryId, widgetId);
      data := RemoveWidget(data, categoryId, widgetId);
    }

    method HandleAddWidget(categoryId: string, widget: Widget, now: nat)
      requires Valid()
      modifies this`data
      ensures Valid()
      ensures data == AddWidget(old(data), categoryId, widget, now)
    {
      AddWidgetAppends(data, categoryId, widget, now);
      data := AddWidget(data, categoryId, widget, now);
    }

    method HandleAddCustomWidget(categoryId: string, widgetName: string, widgetText: string,
                                 idTime: nat, placeTime: nat)
      requires Valid()
      modifies this`data
      ensures Valid()
      ensures data == AddCustomWidget(old(data), categoryId, widgetName, widgetText, idTime, placeTime)
    {
      HandleAddWidget(categoryId, CustomWidget(widgetName, widgetText, idTime), placeTime);
    }

    /** `openAddWidgetModal(categoryId?)`: no argument means no category. */
    method OpenAddWidgetModal(categoryId: Option<string>)
      modifies this`selectedCategory, this`isAddWidgetModalOpen
      ensures selectedCategory == (if categoryId.Some? then categoryId.value else "")
      ensures isAddWidgetModalOpen
    {
      selectedCategory := if categoryId.Some? then categoryId.value else "";
      isAddWidgetModalOpen := true;
    }

    /** The picker's `onClose`. */
    method CloseAddWidgetModal()
      modifies this`isAddWidgetModalOpen
      ensures !isAddWidgetModalOpen
    {
      isAddWidgetModalOpen := false;
    }

    /** The search box's `onChange`: only the term changes, never the data. */
    method SetSearchTerm(term: string)
      modifies this`searchTerm
      ensures searchTerm == term
    {
      searchTerm := term;
    }

    /** The categories as displayed. */
    function Displayed(): seq<Category>
      reads this
    {
      FilteredCategories(data.categories, searchTerm)
    }

    /** The picker, rendered while it is open, over the current state. */
    method ShowPicker() returns (picker: AddWidgetModal)
      requires isAddWidgetModalOpen
      ensures fresh(picker) && picker.Valid()
      ensures picker.dashboardData == data && picker.selectedCategory == selectedCategory
      ensures picker.activeTab == if selectedCategory == "" then DefaultTab else selectedCategory
      ensures picker.selectedWidgets == map[] && picker.entryOrder == [] && !picker.showCustomForm
      ensures picker.customWidgetName == "" && picker.customWidgetText == ""
    {
      picker := new AddWidgetModal(data, selectedCategory);
    }

    /** Runs the picker's callbacks in order against the current state. */
    method Dispatch(calls: seq<Call>, clock: nat -> nat)
      requires Valid()
      modifies this`data, this`isAddWidgetModalOpen
      ensures Valid()
      ensures data == ApplyCalls(old(data), calls, clock, 0)
      ensures isAddWidgetModalOpen == (old(isAddWidgetModalOpen) && CloseCall !in calls)
    {
      var i, k := 0, 0;
      while i < |calls|
        invariant 0 <= i <= |calls|
        invariant Valid()
        invariant ApplyCalls(data, calls[i..], clock, k) == ApplyCalls(old(data), calls, clock, 0)
        invariant isAddWidgetModalOpen == (old(isAddWidgetModalOpen) && CloseCall !in calls[..i])
      {
        assert calls[i..][1..] == calls[i + 1..];
        assert calls[..i + 1] == calls[..i] + [calls[i]];
        match calls[i] {
          case AddWidgetCall(c, w) =>
            HandleAddWidget(c, w, clock(k));
            k := k + 1;
          case AddCustomWidgetCall(c, n, t) =>
            HandleAddCustomWidget(c, n, t, clock(k), clock(k + 1));
            k := k + 2;
          case CloseCall =>
            CloseAddWidgetModal();
        }
        i := i + 1;
      }
      assert calls[..i] == calls;
    }

    /** Confirm in the picker: its callbacks land here, in the order it issues them. */
    method ConfirmPicker(picker: AddWidgetModal, clock: nat -> nat)
      requires Valid() && picker.Valid() && picker.dashboardData == data
      modifies this`data, this`isAddWidgetModalOpen
      ensures Valid()
      ensures data == ApplyCalls(old(data), ConfirmCalls(picker.dashboardData.availableWidgets,
        picker.entryOrder, picker.selectedWidgets, picker.showCustomForm, picker.customWidgetName,
        picker.customWidgetText, picker.activeTab), clock, 0)
      ensures !isAddWidgetModalOpen
    {
      var calls := picker.HandleConfirm();
      assert calls[|calls| - 1] == CloseCall;
      Dispatch(calls, clock);
    }
  }

  // -------------------------------------------------------------- properties

  /** `handleAddWidget` appends exactly one widget, the placed copy, to each
      category with the id; earlier widgets stay, in order; every other
      category, the order of categories and the catalog are unchanged. */
  lemma AddWidgetAppends(data: DashboardData, categoryId: string, w: Widget, now: nat)
    ensures var r := AddWidget(data, categoryId, w, now);
      && r.availableWidgets == data.availableWidgets
      && SameCategories(r.categories, data.categories)
      && (forall i :: 0 <= i < |data.categories| && data.categories[i].id != categoryId ==>
            r.categories[i] == data.categories[i])
      && (forall i :: 0 <= i < |data.categories| && data.categories[i].id == categoryId ==>
            var old_ws, new_ws := data.categories[i].widgets, r.categories[i].widgets;
            |new_ws| == |old_ws| + 1 && new_ws[..|old_ws|] == old_ws && new_ws[|old_ws|] == Placed(w, now))
  {
  }

  /** The copy keeps name, text and type; its id is the original id, a hyphen
      and the decimal timestamp, so it is never the original id, and the
      timestamp can be read back from it. */
  lemma PlacedIdEncodesTime(w: Widget, now: nat)
    ensures var p := Placed(w, now);
      && p.name == w.name && p.text == w.text && p.kind == w.kind
      && |p.id| > |w.id| + 1 && p.id[..|w.id|] == w.id && p.id[|w.id|] == '-'
      && p.id != w.id
      && (forall i :: |w.id| < i < |p.id| ==> IsDigit(p.id[i]))
      && DigitsValue(p.id[|w.id| + 1..]) == now
  {
    var p := Placed(w, now);
    assert p.id[|w.id| + 1..] == NatToString(now);
    NatToStringRoundTrip(now);
  }

  /** Adding under an id no category has changes nothing. */
  lemma AddToMissingCategory(data: DashboardData, categoryId: string, w: Widget, now: nat)
    requires forall c :: c in data.categories ==> c.id != categoryId
    ensures AddWidget(data, categoryId, w, now) == data
  {
    var r := AddWidget(data, categoryId, w, now);
    assert forall i :: 0 <= i < |data.categories| ==> data.categories[i] in data.categories;
    assert r.categories == data.categories;
  }

  /** The seed has no `ticket` category, although the catalog and the picker
      offer one: adding there is silently ignored. */
  lemma SeedTicketAddIgnored(w: Widget, now: nat)
    ensures "ticket" in Seed.Catalog
    ensures AddWidget(Seed.InitialDashboardData, "ticket", w, now) == Seed.InitialDashboardData
  {
    AddToMissingCategory(Seed.InitialDashboardData, "ticket", w, now);
  }

  /** `handleAddCustomWidget` places a metric widget with the given name and
      text whose id is `custom-<idTime>-<placeTime>`. */
  lemma AddCustomWidgetPlaces(data: DashboardData, categoryId: string, name: string, text: string,
                              idTime: nat, placeTime: nat)
    ensures var r := AddCustomWidget(data, categoryId, name, text, idTime, placeTime);
      && SameCategories(r.categories, data.categories)
      && (forall i :: 0 <= i < |data.categories| && data.categories[i].id == categoryId ==>
            var ws := r.categories[i].widgets;
            |ws| == |data.categories[i].widgets| + 1 && ws[..|ws| - 1] == data.categories[i].widgets
            && ws[|ws| - 1] == Widget("custom-" + NatToString(idTime) + "-" + NatToString(placeTime),
                                      name, text, Metric))
      && (forall i :: 0 <= i < |data.categories| && data.categories[i].id != categoryId ==>
            r.categories[i] == data.categories[i])
  {
    AddWidgetAppends(data, categoryId, CustomWidget(name, text, idTime), placeTime);
  }

  /** `handleRemoveWidget` keeps the other categories and, in the named one,
      exactly the widgets with another id, every copy of each, in their
      original order. */
  lemma RemoveWidgetFrame(data: DashboardData, categoryId: string, widgetId: string)
    ensures var r := RemoveWidget(data, categoryId, widgetId);
      && r.availableWidgets == data.availableWidgets
      && SameCategories(r.categories, data.categories)
      && (forall i :: 0 <= i < |data.categories| && data.categories[i].id != categoryId ==>
            r.categories[i] == data.categories[i])
      && (forall i, x :: 0 <= i < |data.categories| && data.categories[i].id == categoryId ==>
            (x in r.categories[i].widgets <==> x in data.categories[i].widgets && x.id != widgetId))
      && (forall i, x :: 0 <= i < |data.categories| && data.categories[i].id == categoryId ==>
            multiset(r.categories[i].widgets)[x] ==
              if x.id != widgetId then multiset(data.categories[i].widgets)[x] else 0)
      && (forall i :: 0 <= i < |data.categories| ==>
            IsSubsequence(r.categories[i].widgets, data.categories[i].widgets))
  {
    var r := RemoveWidget(data, categoryId, widgetId);
    forall i | 0 <= i < |data.categories|
      ensures IsSubsequence(r.categories[i].widgets, data.categories[i].widgets)
    {
      FilterSubsequence(data.categories[i].widgets, NotId(widgetId));
      SubsequenceRefl(data.categories[i].widgets);
    }
    forall i | 0 <= i < |data.categories|
      ensures forall x :: multiset(Filter(data.categories[i].widgets, NotId(widgetId)))[x] ==
                          (if x.id != widgetId then multiset(data.categories[i].widgets)[x] else 0)
    {
      FilterCounts(data.categories[i].widgets, NotId(widgetId));
    }
  }

  lemma {:induction false} SubsequenceRefl(s: seq<Widget>)
    ensures IsSubsequence(s, s)
    decreases |s|
  {
    if s != [] {
      SubsequenceRefl(s[1..]);
    }
  }

  /** Removing twice is removing once. */
  lemma RemoveIdempotent(data: DashboardData, categoryId: string, widgetId: string)
    ensures RemoveWidget(RemoveWidget(data, categoryId, widgetId), categoryId, widgetId)
      == RemoveWidget(data, categoryId, widgetId)
  {
    var once := RemoveWidget(data, categoryId, widgetId);
    var twice := RemoveWidget(once, categoryId, widgetId);
    forall i | 0 <= i < |data.categories| ensures twice.categories[i] == once.categories[i] {
      FilterIdempotent(data.categories[i].widgets, NotId(widgetId));
    }
    assert twice.categories == once.categories;
  }

  /** Removing an id no widget of the category has changes nothing. */
  lemma RemoveNoMatch(data: DashboardData, categoryId: string, widgetId: string)
    requires forall c, w :: c in data.categories && c.id == categoryId && w in c.widgets ==> w.id != widgetId
    ensures RemoveWidget(data, categoryId, widgetId) == data
  {
    var r := RemoveWidget(data, categoryId, widgetId);
    forall i | 0 <= i < |data.categories| ensures r.categories[i] == data.categories[i] {
      var c := data.categories[i];
      if c.id == categoryId {
        assert c in data.categories;
        FilterAllKept(c.widgets, NotId(widgetId));
      }
    }
    assert r.categories == data.categories;
  }

  /** Removing the placed id right after an add undoes the add, when no widget
      of the category already had that id. */
  lemma RemoveUndoesAdd(data: DashboardData, categoryId: string, w: Widget, now: nat)
    requires forall c, x :: c in data.categories && c.id == categoryId && x in c.widgets ==> x.id != PlacedId(w, now)
    ensures RemoveWidget(AddWidget(data, categoryId, w, now), categoryId, PlacedId(w, now)) == data
  {
    var added := AddWidget(data, categoryId, w, now);
    var r := RemoveWidget(added, categoryId, PlacedId(w, now));
    forall i | 0 <= i < |data.categories| ensures r.categories[i] == data.categories[i] {
      var c := data.categories[i];
      if c.id == categoryId {
        assert c in data.categories;
        FilterAppend(c.widgets, [Placed(w, now)], NotId(PlacedId(w, now)));
        FilterAllKept(c.widgets, NotId(PlacedId(w, now)));
        assert Filter([Placed(w, now)], NotId(PlacedId(w, now))) == [];
      }
    }
    assert r.categories == data.categories;
  }

  /** Placed ids are not unique: adding the same widget twice at the same
      timestamp places two widgets with one id, and removing that id drops both. */
  lemma SameTimestampCollides(data: DashboardData, i: nat, w: Widget, now: nat)
    requires i < |data.categories|
    ensures var c := data.categories[i];
      var twice := AddWidget(AddWidget(data, c.id, w, now), c.id, w, now);
      var ws := twice.categories[i].widgets;
      && |ws| == |c.widgets| + 2
      && ws[|ws| - 1].id == ws[|ws| - 2].id == PlacedId(w, now)
      && RemoveWidget(twice, c.id, PlacedId(w, now)).categories[i].widgets == Filter(c.widgets, NotId(PlacedId(w, now)))
  {
    var c := data.categories[i];
    var p := Placed(w, now);
    var keep := NotId(PlacedId(w, now));
    var once := AddWidget(data, c.id, w, now);
    assert once.categories[i].widgets == c.widgets + [p];
    assert c.widgets + [p] + [p] == c.widgets + [p, p];
    FilterAppend(c.widgets, [p, p], keep);
    assert Filter([p, p], keep) == [];
  }

  /** Adding a catalog widget never makes it "already added": the copy gets
      a new id, and every other id keeps its answer too. */
  lemma AddKeepsAlreadyAdded(data: DashboardData, categoryId: string, w: Widget, now: nat,
                             askedCategory: string, askedId: string)
    requires askedId != PlacedId(w, now)
    ensures IsWidgetAlreadyAdded(AddWidget(data, categoryId, w, now), askedCategory, askedId)
      == IsWidgetAlreadyAdded(data, askedCategory, askedId)
  {
    var r := AddWidget(data, categoryId, w, now);
    var p := (c: Category) => c.id == askedCategory;
    AlreadyAddedIff(data, askedCategory, askedId);
    AlreadyAddedIff(r, askedCategory, askedId);
    forall i | 0 <= i < |data.categories| ensures IsFirst(r.categories, p, i) == IsFirst(data.categories, p, i) {
      assert forall j :: 0 <= j < |data.categories| ==> p(r.categories[j]) == p(data.categories[j]);
    }
    forall i | 0 <= i < |data.categories|
      ensures (exists x :: x in r.categories[i].widgets && x.id == askedId)
          == (exists x :: x in data.categories[i].widgets && x.id == askedId)
    {
      var old_ws := data.categories[i].widgets;
      if data.categories[i].id == categoryId {
        assert r.categories[i].widgets == old_ws + [Placed(w, now)];
      }
    }
  }

  /** The placed copy's own original id is never matched afterwards. */
  lemma AddedCatalogWidgetNotAlreadyAdded(data: DashboardData, categoryId: string, w: Widget, now: nat)
    ensures IsWidgetAlreadyAdded(AddWidget(data, categoryId, w, now), categoryId, w.id)
      == IsWidgetAlreadyAdded(data, categoryId, w.id)
  {
    PlacedIdEncodesTime(w, now);
    AddKeepsAlreadyAdded(data, categoryId, w, now, categoryId, w.id);
  }

  /** Adding `compliance-overview` to the seed's `cspm` category leaves it
      not "already added". */
  lemma SeedComplianceStaysSelectable(now: nat)
    ensures !IsWidgetAlreadyAdded(
      AddWidget(Seed.InitialDashboardData, "cspm", Seed.ComplianceOverview, now), "cspm", "compliance-overview")
  {
    AddedCatalogWidgetNotAlreadyAdded(Seed.InitialDashboardData, "cspm", Seed.ComplianceOverview, now);
    AlreadyAddedIff(Seed.InitialDashboardData, "cspm", "compliance-overview");
    var cats := Seed.InitialDashboardData.categories;
    assert IsFirst(cats, (c: Category) => c.id == "cspm", 0);
    assert Seed.CloudAccounts.id != "compliance-overview";
    assert Seed.RiskAssessment.id != "compliance-overview";
  }

  /** The search view has the same categories in the same order; each list is
      an order-preserving subsequence holding exactly the matching widgets,
      every copy of each. */
  lemma FilterView(categories: seq<Category>, term: string)
    ensures var f := FilteredCategories(categories, term);
      && SameCategories(f, categories)
      && (forall i :: 0 <= i < |categories| ==> IsSubsequence(f[i].widgets, categories[i].widgets))
      && (forall i, w :: 0 <= i < |categories| ==>
            (w in f[i].widgets <==> w in categories[i].widgets && MatchesSearch(w, term)))
      && (forall i, w :: 0 <= i < |categories| ==>
            multiset(f[i].widgets)[w] == if MatchesSearch(w, term) then multiset(categories[i].widgets)[w] else 0)
  {
    forall i | 0 <= i < |categories|
      ensures IsSubsequence(FilteredCategories(categories, term)[i].widgets, categories[i].widgets)
    {
      FilterSubsequence(categories[i].widgets, MatchesTerm(term));
    }
    forall i | 0 <= i < |categories|
      ensures forall w :: multiset(FilteredCategories(categories, term)[i].widgets)[w] ==
                          (if MatchesSearch(w, term) then multiset(categories[i].widgets)[w] else 0)
    {
      FilterCounts(categories[i].widgets, MatchesTerm(term));
    }
  }

  /** The empty term keeps every widget. */
  lemma EmptySearchKeepsAll(categories: seq<Category>)
    ensures FilteredCategories(categories, "") == categories
  {
    var f := FilteredCategories(categories, "");
    forall i | 0 <= i < |categories| ensures f[i] == categories[i] {
      forall w | w in categories[i].widgets ensures MatchesSearch(w, "") {
        IncludesEmpty(Lower(w.name));
      }
      FilterAllKept(categories[i].widgets, MatchesTerm(""));
    }
    assert f == categories;
  }

  /** Searching `critical` over the seed drops `namespace-alerts` from `cwpp`
      and keeps `image-risk` in `registry`. */
  lemma SeedCriticalSearch()
    ensures var f := FilteredCategories(Seed.InitialDashboardData.categories, "critical");
      && f[1].id == "cwpp" && Seed.NamespaceAlerts !in f[1].widgets
      && f[2].id == "registry" && Seed.ImageRisk in f[2].widgets
  {
    var cats := Seed.InitialDashboardData.categories;
    NamespaceAlertsMisses();
    FilterDrops(cats, "critical", 1, Seed.NamespaceAlerts);
    ImageRiskMatches();
    FilterKeeps(cats, "critical", 2, Seed.ImageRisk);
  }

  /** A widget that does not match is not in the view of category `i`, which keeps its id. */
  lemma FilterDrops(categories: seq<Category>, term: string, i: nat, w: Widget)
    requires i < |categories| && !MatchesSearch(w, term)
    ensures var f := FilteredCategories(categories, term);
      f[i].id == categories[i].id && w !in f[i].widgets
  {
    FilterView(categories, term);
  }

  /** A matching widget of a category stays in that category's view. */
  lemma FilterKeeps(categories: seq<Category>, term: string, i: nat, w: Widget)
    requires i < |categories| && w in categories[i].widgets && MatchesSearch(w, term)
    ensures var f := FilteredCategories(categories, term);
      f[i].id == categories[i].id && w in f[i].widgets
  {
    FilterView(categories, term);
  }

  lemma NamespaceAlertsMisses()
    ensures !MatchesSearch(Seed.NamespaceAlerts, "critical")
  {
    LowerCritical();
    NamespaceAlertsNameMisses();
    NamespaceAlertsTextMisses();
  }

  lemma LowerCritical()
    ensures Lower("critical") == "critical"
  {
  }

  /** The name's only `r` is among its last three characters. */
  lemma NamespaceAlertsNameMisses()
    ensures !Includes(Lower(Seed.NamespaceAlerts.name), "critical")
  {
    var head, tail := "Top 5 Namespace Specific Ale", "rts";
    assert Seed.NamespaceAlerts.name == head + tail;
    LowerBlocked(head, tail, "critical", 1, 'R');
  }

  /** The text has no `c` at all. */
  lemma NamespaceAlertsTextMisses()
    ensures !Includes(Lower(Seed.NamespaceAlerts.text), "critical")
  {
    NamespaceAlertsText();
    NoGraphTextLacks('c');
    NoGraphTextLacks('C');
    LowerLacks(Seed.NamespaceAlerts.text, "critical", 0, 'C');
  }

  lemma NamespaceAlertsText()
    ensures Seed.NamespaceAlerts.text == "No Graph data available!"
  {
  }

  lemma NoGraphTextLacks(c: char)
    requires c == 'c' || c == 'C'
    ensures c !in "No Graph data available!"
  {
  }

  lemma ImageRiskMatches()
    ensures MatchesSearch(Seed.ImageRisk, "critical")
  {
    LowerCritical();
    ImageRiskTextHits();
  }

  /** The text's second line starts with `Critical`. */
  lemma ImageRiskTextHits()
    ensures Includes(Lower(Seed.ImageRisk.text), "critical")
  {
    var before, word, after := "1470 total vulnerabilities\n", "Critical", " (9)\nHigh (150)";
    assert Seed.ImageRisk.text == before + word + after;
    LowerIncludesMiddle(before, word, after, "critical");
  }

  /** The card's remove button passes its category id and the widget's placed
      id; for a card shown in the search view this removes that widget from
      the state itself, and keeps every widget with another id. */
  lemma RemoveShownCard(data: DashboardData, term: string, i: nat, w: Widget)
    requires i < |data.categories|
    requires w in FilteredCategories(data.categories, term)[i].widgets
    ensures var r := RemoveWidget(data, data.categories[i].id, w.id);
      && w in data.categories[i].widgets
      && w !in r.categories[i].widgets
      && (forall x :: x in data.categories[i].widgets && x.id != w.id ==> x in r.categories[i].widgets)
  {
    FilterView(data.categories, term);
    RemoveWidgetFrame(data, data.categories[i].id, w.id);
  }

  /** With the seed catalog, confirming adds at most the custom widget: with
      the form hidden or a blank field the state is unchanged, otherwise the
      trimmed draft lands in the active tab, whatever was toggled. */
  lemma SeedConfirmOutcome(data: DashboardData, keys: seq<string>, selection: map<string, bool>,
                           showForm: bool, name: string, text: string, activeTab: string, clock: nat -> nat)
    ensures var calls := ConfirmCalls(Seed.Catalog, keys, selection, showForm, name, text, activeTab);
      ApplyCalls(data, calls, clock, 0) ==
        if showForm && Trim(name) != "" && Trim(text) != ""
        then AddCustomWidget(data, activeTab, Trim(name), Trim(text), clock(0), clock(1))
        else data
  {
    SeedConfirmAddsNoSelection(keys, selection, showForm, name, text, activeTab);
    ApplyCustomThenClose(data, showForm, name, text, activeTab, clock);
  }

  /** The tail of every confirm: the custom add, if any, then the close. */
  lemma ApplyCustomThenClose(data: DashboardData, showForm: bool, name: string, text: string,
                             activeTab: string, clock: nat -> nat)
    ensures ApplyCalls(data, CustomCalls(showForm, name, text, activeTab) + [CloseCall], clock, 0) ==
      if showForm && Trim(name) != "" && Trim(text) != ""
      then AddCustomWidget(data, activeTab, Trim(name), Trim(text), clock(0), clock(1))
      else data
  {
    if showForm && Trim(name) != "" && Trim(text) != "" {
      assert CustomCalls(showForm, name, text, activeTab) + [CloseCall]
        == [AddCustomWidgetCall(activeTab, Trim(name), Trim(text)), CloseCall];
      ApplyCustomAndClose(data, activeTab, Trim(name), Trim(text), clock);
    } else {
      assert CustomCalls(showForm, name, text, activeTab) + [CloseCall] == [CloseCall];
      ApplyClose(data, clock, 0);
    }
  }

  lemma ApplyClose(data: DashboardData, clock: nat -> nat, k: nat)
    ensures ApplyCalls(data, [CloseCall], clock, k) == data
  {
    assert [CloseCall][1..] == [];
  }

  lemma ApplyCustomAndClose(data: DashboardData, c: string, n: string, t: string, clock: nat -> nat)
    ensures ApplyCalls(data, [AddCustomWidgetCall(c, n, t), CloseCall], clock, 0)
      == AddCustomWidget(data, c, n, t, clock(0), clock(1))
  {
    assert [AddCustomWidgetCall(c, n, t), CloseCall][1..] == [CloseCall];
    ApplyClose(AddCustomWidget(data, c, n, t, clock(0), clock(1)), clock, 2);
  }

  /** Opening the picker on `registry`, selecting `malware-scan` and
      confirming leaves the dashboard as it was. */
  lemma SeedMalwareScanNotAdded(clock: nat -> nat)
    ensures var selection := Toggled(map[], SelectionKey("registry", "malware-scan"));
      ApplyCalls(Seed.InitialDashboardData,
        ConfirmCalls(Seed.Catalog, [SelectionKey("registry", "malware-scan")], selection, false, "", "", "registry"),
        clock, 0) == Seed.InitialDashboardData
  {
    var selection := Toggled(map[], SelectionKey("registry", "malware-scan"));
    SeedConfirmOutcome(Seed.InitialDashboardData, [SelectionKey("registry", "malware-scan")], selection,
                       false, "", "", "registry", clock);
  }

  /** The same scenario through the components: a fresh dashboard, the
      picker opened on `registry`, `malware-scan` ticked and confirmed. The
      data is the seed data again and the picker is closed. */
  method SeedMalwareScanSession(clock: nat -> nat) returns (d: Dashboard)
    ensures d.data == Seed.InitialDashboardData && !d.isAddWidgetModalOpen
  {
    d := new Dashboard();
    d.OpenAddWidgetModal(Some("registry"));
    var picker := d.ShowPicker();
    picker.HandleWidgetToggle("registry", "malware-scan");
    d.ConfirmPicker(picker, clock);
    SeedConfirmOutcome(Seed.InitialDashboardData, picker.entryOrder, picker.selectedWidgets,
                       picker.showCustomForm, picker.customWidgetName, picker.customWidgetText,
                       picker.activeTab, clock);
  }
}

/**
 * The "Add Widget" picker: a short-lived session that holds the active
 * category tab, a pending selection keyed by `${categoryId}-${widgetId}`,
 * and a draft custom widget. Confirming issues the host's callbacks in
 * order; the callbacks are returned as a sequence of `Call` values, which
 * the dashboard applies one after another.
 */
module WidgetPicker {
  import opened DashboardTypes
  import opened Strings
  import opened Collections
  import Seed = DashboardSeed

  /** The host callbacks the picker invokes. */
  datatype Call =
    | AddWidgetCall(categoryId: string, widget: Widget)
    | AddCustomWidgetCall(categoryId: string, name: string, text: string)
    | CloseCall

  /** The tab shown first: the requested category, or `cspm` when none was given. */
  const DefaultTab := "cspm"

  /** The selection key of a catalog widget shown under a tab. */
  function SelectionKey(categoryId: string, widgetId: string): string {
    categoryId + "-" + widgetId
  }

  /** `const [categoryId, widgetId] = key.split('-')`: the first two pieces of
      the key; with a single piece the widget id is `undefined`. */
  function ParseKey(key: string): (string, Option<string>) {
    var parts := Split(key, '-');
    (parts[0], if |parts| >= 2 then Some(parts[1]) else None)
  }

  /** `availableWidgets[categoryId]?.find(w => w.id === widgetId)` for the
      parsed key: the catalog widget the confirm loop adds, if any. */
  function ResolveKey(catalog: Catalog, key: string): Option<Widget> {
    var (categoryId, widgetId) := ParseKey(key);
    if categoryId in catalog && widgetId.Some? then
      Find(catalog[categoryId], (w: Widget) => w.id == widgetId.value)
    else None
  }

  /** `prev[key]` read as a boolean: an absent key counts as unselected. */
  function Selected(selection: map<string, bool>, key: string): bool {
    key in selection && selection[key]
  }

  /** `{...prev, [key]: !prev[key]}`. */
  function Toggled(selection: map<string, bool>, key: string): map<string, bool> {
    selection[key := !Selected(selection, key)]
  }

  /** The add callbacks the confirm loop issues for the selection entries
      `keys`, in order. */
  function SelectionCalls(catalog: Catalog, keys: seq<string>, selection: map<string, bool>): seq<Call>
    decreases |keys|
  {
    if keys == [] then []
    else
      var key := keys[0];
      var rest := SelectionCalls(catalog, keys[1..], selection);
      if Selected(selection, key) then
        match ResolveKey(catalog, key)
        case Some(w) => [AddWidgetCall(ParseKey(key).0, w)] + rest
        case None => rest
      else rest
  }

  /** The custom-widget callback, issued only when the form is shown and both
      the trimmed name and the trimmed text are non-empty. */
  function CustomCalls(showForm: bool, name: string, text: string, activeTab: string): seq<Call> {
    if showForm && Trim(name) != "" && Trim(text) != "" then
      [AddCustomWidgetCall(activeTab, Trim(name), Trim(text))]
    else []
  }

  /** Every callback `handleConfirm` issues, in order. */
  function ConfirmCalls(catalog: Catalog, keys: seq<string>, selection: map<string, bool>,
                        showForm: bool, name: string, text: string, activeTab: string): seq<Call> {
    SelectionCalls(catalog, keys, selection) + CustomCalls(showForm, name, text, activeTab) + [CloseCall]
  }

  /** `isWidgetAlreadyAdded`: the first category with the id holds a placed
      widget whose id is exactly `widgetId`. */
  function IsWidgetAlreadyAdded(data: DashboardData, categoryId: string, widgetId: string): bool {
    match Find(data.categories, (c: Category) => c.id == categoryId)
    case None => false
    case Some(c) => exists w :: w in c.widgets && w.id == widgetId
  }

  // ---------------------------------------------------------------- the session

  class AddWidgetModal {
    const dashboardData: DashboardData
    const selectedCategory: string
    var activeTab: string
    var selectedWidgets: map<string, bool>
    /** The keys of `selectedWidgets` in insertion order, the order `Object.entries` walks them. */
    var entryOrder: seq<string>
    var customWidgetName: string
    var customWidgetText: string
    var showCustomForm: bool

    /** `entryOrder` lists each key of `selectedWidgets` exactly once. */
    ghost predicate Valid()
      reads this
    {
      && (forall k :: k in selectedWidgets ==> k in entryOrder)
      && (forall i :: 0 <= i < |entryOrder| ==> entryOrder[i] in selectedWidgets)
      && (forall i, j :: 0 <= i < j < |entryOrder| ==> entryOrder[i] != entryOrder[j])
    }

    constructor (dashboardData: DashboardData, selectedCategory: string)
      ensures Valid()
      ensures this.dashboardData == dashboardData && this.selectedCategory == selectedCategory
      ensures activeTab == if selectedCategory == "" then DefaultTab else selectedCategory
      ensures selectedWidgets == map[] && entryOrder == []
      ensures customWidgetName == "" && customWidgetText == "" && !showCustomForm
    {
      this.dashboardData := dashboardData;
      this.selectedCategory := selectedCategory;
      activeTab := if selectedCategory == "" then DefaultTab else selectedCategory;
      selectedWidgets := map[];
      entryOrder := [];
      customWidgetName, customWidgetText := "", "";
      showCustomForm := false;
    }

    /** A tab button: `setActiveTab(category.id)`. */
    method SelectTab(tabId: string)
      modifies this`activeTab
      ensures activeTab == tabId
    {
      activeTab := tabId;
    }

    /** `handleWidgetToggle`: flips the entry of one key; a new key goes last. */
    method HandleWidgetToggle(categoryId: string, widgetId: string)
      requires Valid()
      modifies this`selectedWidgets, this`entryOrder
      ensures Valid()
      ensures selectedWidgets == Toggled(old(selectedWidgets), SelectionKey(categoryId, widgetId))
      ensures entryOrder == if SelectionKey(categoryId, widgetId) in old(selectedWidgets)
        then old(entryOrder) else old(entryOrder) + [SelectionKey(categoryId, widgetId)]
    {
      var key := SelectionKey(categoryId, widgetId);
      if key !in selectedWidgets {
        entryOrder := entryOrder + [key];
      }
      selectedWidgets := Toggled(selectedWidgets, key);
    }

    /** "Create Custom Widget": shows or hides the form. */
    method ToggleCustomForm()
      modifies this`showCustomForm
      ensures showCustomForm == !old(showCustomForm)
    {
      showCustomForm := !showCustomForm;
    }

    method SetCustomWidgetName(value: string)
      modifies this`customWidgetName
      ensures customWidgetName == value
    {
      customWidgetName := value;
    }

    method SetCustomWidgetText(value: string)
      modifies this`customWidgetText
      ensures customWidgetText == value
    {
      customWidgetText := value;
    }

    /** `handleConfirm`: the selection adds in entry order, then the guarded
        custom add, then `onClose`. */
    method HandleConfirm() returns (calls: seq<Call>)
      requires Valid()
      ensures calls == ConfirmCalls(dashboardData.availableWidgets, entryOrder, selectedWidgets,
                                    showCustomForm, customWidgetName, customWidgetText, activeTab)
    {
      var catalog := dashboardData.availableWidgets;
      calls := [];
      var i := 0;
      while i < |entryOrder|
        invariant 0 <= i <= |entryOrder|
        invariant calls + SelectionCalls(catalog, entryOrder[i..], selectedWidgets)
          == SelectionCalls(catalog, entryOrder, selectedWidgets)
      {
        var key := entryOrder[i];
        ghost var rest := SelectionCalls(catalog, entryOrder[i + 1..], selectedWidgets);
        assert entryOrder[i..][1..] == entryOrder[i + 1..];
        assert entryOrder[i..][0] == key;
        var isSelected := selectedWidgets[key];
        if isSelected {
          var widget := ResolveKey(catalog, key);
          if widget.Some? {
            assert SelectionCalls(catalog, entryOrder[i..], selectedWidgets)
              == [AddWidgetCall(ParseKey(key).0, widget.value)] + rest;
            calls := calls + [AddWidgetCall(ParseKey(key).0, widget.value)];
          } else {
            assert SelectionCalls(catalog, entryOrder[i..], selectedWidgets) == rest;
          }
        } else {
          assert SelectionCalls(catalog, entryOrder[i..], selectedWidgets) == rest;
        }
        i := i + 1;
      }
      assert entryOrder[i..] == [];
      assert calls == SelectionCalls(catalog, entryOrder, selectedWidgets);
      ghost var adds := calls;
      var name, text := Trim(customWidgetName), Trim(customWidgetText);
      if showCustomForm && name != "" && text != "" {
        calls := calls + [AddCustomWidgetCall(activeTab, name, text)];
      }
      assert calls == adds + CustomCalls(showCustomForm, customWidgetName, customWidgetText, activeTab);
      calls := calls + [CloseCall];
    }

    /** The X button and the Cancel button: `onClose` only. */
    method Dismiss() returns (calls: seq<Call>)
      ensures calls == [CloseCall]
    {
      calls := [CloseCall];
    }
  }

  // ------------------------------------------------------------------ properties

  /** Toggling changes the entry of its own key only, and flips it. */
  lemma ToggleOnlyKey(selection: map<string, bool>, key: string)
    ensures Toggled(selection, key).Keys == selection.Keys + {key}
    ensures Selected(Toggled(selection, key), key) == !Selected(selection, key)
    ensures forall k :: k != key ==> Selected(Toggled(selection, key), k) == Selected(selection, k)
  {
  }

  /** Toggling a key twice restores whether it is selected; a key never
      toggled before ends up present and false. */
  lemma ToggleTwice(selection: map<string, bool>, key: string)
    ensures forall k :: Selected(Toggled(Toggled(selection, key), key), k) == Selected(selection, k)
    ensures key !in selection ==> Toggled(Toggled(selection, key), key) == selection[key := false]
  {
  }

  /** The key round-trips through `split('-')` exactly when neither part
      contains a hyphen. */
  lemma {:induction false} ParseKeyRoundTrip(categoryId: string, widgetId: string)
    ensures ParseKey(SelectionKey(categoryId, widgetId)) == (categoryId, Some(widgetId))
      <==> '-' !in categoryId && '-' !in widgetId
  {
    var key := SelectionKey(categoryId, widgetId);
    assert key == categoryId + ['-'] + widgetId;
    if '-' in categoryId {
      assert key == categoryId + ("-" + widgetId);
      FirstPieceOfPrefixed(categoryId, "-" + widgetId, '-');
    } else {
      SplitAfterFree(categoryId, widgetId, '-');
      FirstPieceWhole(widgetId, '-');
    }
  }

  /** A resolved key names a catalog widget by its exact id, found in the
      catalog of the key's first piece; that id therefore has no hyphen. */
  lemma ResolveKeySound(catalog: Catalog, key: string)
    ensures ResolveKey(catalog, key).Some? ==>
      var w := ResolveKey(catalog, key).value;
      && ParseKey(key).0 in catalog
      && w in catalog[ParseKey(key).0]
      && ParseKey(key).1 == Some(w.id)
      && '-' !in w.id
  {
    var parts := Split(key, '-');
    SplitPiecesFree(key, '-');
    if |parts| >= 2 {
      assert '-' !in parts[1];
    }
  }

  /** Conversely, the key of a hyphen-free widget under a hyphen-free
      category resolves, to the first widget of that category's catalog
      with the same id, as `find` returns it. */
  lemma ResolveKeyComplete(catalog: Catalog, c: string, w: Widget)
    requires '-' !in c && '-' !in w.id && c in catalog && w in catalog[c]
    ensures var r := ResolveKey(catalog, SelectionKey(c, w.id));
      && r.Some? && r.value.id == w.id
      && exists i :: 0 <= i < |catalog[c]| && catalog[c][i] == r.value
           && forall j :: 0 <= j < i ==> catalog[c][j].id != w.id
  {
    ParseKeyRoundTrip(c, w.id);
  }

  /** Selecting such a widget makes the confirm loop add its catalog entry to
      its category: the hyphens alone keep the seed catalog from being added. */
  lemma SelectedCatalogWidgetAdded(catalog: Catalog, keys: seq<string>, selection: map<string, bool>,
                                   c: string, w: Widget)
    requires '-' !in c && '-' !in w.id && c in catalog && w in catalog[c]
    requires SelectionKey(c, w.id) in keys && Selected(selection, SelectionKey(c, w.id))
    ensures exists v :: v in catalog[c] && v.id == w.id && AddWidgetCall(c, v) in SelectionCalls(catalog, keys, selection)
  {
    var key := SelectionKey(c, w.id);
    ResolveKeyComplete(catalog, c, w);
    ParseKeyRoundTrip(c, w.id);
    var v := ResolveKey(catalog, key).value;
    SelectionCallsExact(catalog, keys, selection, c, v);
  }

  /** Every selection callback is an add. */
  lemma {:induction false} SelectionCallsAreAdds(catalog: Catalog, keys: seq<string>, selection: map<string, bool>)
    ensures forall i :: 0 <= i < |SelectionCalls(catalog, keys, selection)| ==>
      SelectionCalls(catalog, keys, selection)[i].AddWidgetCall?
    decreases |keys|
  {
    if keys != [] {
      SelectionCallsAreAdds(catalog, keys[1..], selection);
    }
  }

  /** The confirm loop adds `w` to `c` exactly when some selected entry's key
      parses to category `c` and resolves to `w`; unselected entries add
      nothing. */
  lemma {:induction false} SelectionCallsExact(catalog: Catalog, keys: seq<string>,
                                              selection: map<string, bool>, c: string, w: Widget)
    ensures AddWidgetCall(c, w) in SelectionCalls(catalog, keys, selection) <==>
      exists k :: k in keys && Selected(selection, k) && ParseKey(k).0 == c && ResolveKey(catalog, k) == Some(w)
    decreases |keys|
  {
    if keys != [] {
      SelectionCallsExact(catalog, keys[1..], selection, c, w);
      var k0 := keys[0];
      if Selected(selection, k0) && ParseKey(k0).0 == c && ResolveKey(catalog, k0) == Some(w) {
        assert k0 in keys;
      }
      forall k | k in keys[1..] ensures k in keys { }
      forall k | k in keys && k != k0 ensures k in keys[1..] {
        assert keys == [k0] + keys[1..];
      }
    }
  }

  /** When every catalog id contains a hyphen, the confirm loop adds nothing,
      whatever was selected. */
  lemma {:induction false} HyphenatedCatalogAddsNothing(catalog: Catalog, keys: seq<string>,
                                                       selection: map<string, bool>)
    requires forall c, w :: c in catalog && w in catalog[c] ==> '-' in w.id
    ensures SelectionCalls(catalog, keys, selection) == []
    decreases |keys|
  {
    if keys != [] {
      ResolveKeySound(catalog, keys[0]);
      HyphenatedCatalogAddsNothing(catalog, keys[1..], selection);
    }
  }

  /** With the seed catalog, confirming issues at most the custom add and then
      the close, whatever was toggled. */
  lemma SeedConfirmAddsNoSelection(keys: seq<string>, selection: map<string, bool>,
                                   showForm: bool, name: string, text: string, activeTab: string)
    ensures ConfirmCalls(Seed.Catalog, keys, selection, showForm, name, text, activeTab)
      == CustomCalls(showForm, name, text, activeTab) + [CloseCall]
  {
    Seed.CatalogIdsHyphenated();
    HyphenatedCatalogAddsNothing(Seed.Catalog, keys, selection);
  }

  /** Selecting `malware-scan` under `registry` parses to widget id `malware`,
      which the registry catalog does not have. */
  lemma MalwareScanKeyMisparsed()
    ensures SelectionKey("registry", "malware-scan") == "registry-malware-scan"
    ensures ParseKey("registry-malware-scan") == ("registry", Some("malware"))
    ensures ResolveKey(Seed.Catalog, "registry-malware-scan") == None
  {
    MalwareScanKeyText();
    MalwareScanKeyParsed();
    MalwareScanKeyUnresolved();
  }

  lemma MalwareScanKeyText()
    ensures SelectionKey("registry", "malware-scan") == "registry-malware-scan"
  {
    assert "registry" + "-" + "malware-scan" == "registry-malware-scan";
  }

  lemma MalwareScanKeyParsed()
    ensures ParseKey("registry-malware-scan") == ("registry", Some("malware"))
  {
    MalwareScanKeySplit();
  }

  lemma MalwareScanKeyUnresolved()
    ensures ResolveKey(Seed.Catalog, "registry-malware-scan") == None
  {
    Seed.CatalogIdsHyphenated();
    ResolveKeySound(Seed.Catalog, "registry-malware-scan");
  }

  lemma MalwareScanKeySplit()
    ensures Split("registry-malware-scan", '-') == ["registry", "malware", "scan"]
  {
    assert Join(["registry", "malware", "scan"], '-') == "registry-malware-scan";
    assert '-' !in "registry" && '-' !in "malware" && '-' !in "scan";
    SplitJoin(["registry", "malware", "scan"], '-');
  }

  /** `handleConfirm` closes exactly once, last; the custom add, when issued,
      carries the trimmed draft to the active tab and follows every selection
      add; it is issued exactly when the form is shown and neither field is
      blank. */
  lemma ConfirmCallsShape(catalog: Catalog, keys: seq<string>, selection: map<string, bool>,
                          showForm: bool, name: string, text: string, activeTab: string)
    ensures var r := ConfirmCalls(catalog, keys, selection, showForm, name, text, activeTab);
      && |r| >= 1 && r[|r| - 1] == CloseCall
      && (forall i :: 0 <= i < |r| - 1 ==> !r[i].CloseCall?)
      && (forall i, j :: 0 <= i < |r| && 0 <= j < |r| && r[i].AddCustomWidgetCall? && r[j].AddWidgetCall? ==> j < i)
      && (AddCustomWidgetCall(activeTab, Trim(name), Trim(text)) in r <==>
          showForm && (exists i :: 0 <= i < |name| && !IsWhitespace(name[i]))
                   && (exists i :: 0 <= i < |text| && !IsWhitespace(text[i])))
      && (forall i :: 0 <= i < |r| && r[i].AddCustomWidgetCall? ==>
          r[i] == AddCustomWidgetCall(activeTab, Trim(name), Trim(text)))
  {
    ConfirmCallsOrder(catalog, keys, selection, showForm, name, text, activeTab);
    ConfirmCallsCustom(catalog, keys, selection, showForm, name, text, activeTab);
  }

  /** The close comes last and once, and the custom add after every selection add. */
  lemma ConfirmCallsOrder(catalog: Catalog, keys: seq<string>, selection: map<string, bool>,
                          showForm: bool, name: string, text: string, activeTab: string)
    ensures var r := ConfirmCalls(catalog, keys, selection, showForm, name, text, activeTab);
      && |r| >= 1 && r[|r| - 1] == CloseCall
      && (forall i :: 0 <= i < |r| - 1 ==> !r[i].CloseCall?)
      && (forall i, j :: 0 <= i < |r| && 0 <= j < |r| && r[i].AddCustomWidgetCall? && r[j].AddWidgetCall? ==> j < i)
  {
    var s := SelectionCalls(catalog, keys, selection);
    SelectionCallsAreAdds(catalog, keys, selection);
    var r := ConfirmCalls(catalog, keys, selection, showForm, name, text, activeTab);
    assert forall i :: 0 <= i < |s| ==> r[i] == s[i];
  }

  /** The custom add carries the trimmed draft to the active tab, and is
      issued exactly when the form is shown and neither field is blank. */
  lemma ConfirmCallsCustom(catalog: Catalog, keys: seq<string>, selection: map<string, bool>,
                          showForm: bool, name: string, text: string, activeTab: string)
    ensures var r := ConfirmCalls(catalog, keys, selection, showForm, name, text, activeTab);
      && (AddCustomWidgetCall(activeTab, Trim(name), Trim(text)) in r <==>
          showForm && (exists i :: 0 <= i < |name| && !IsWhitespace(name[i]))
                   && (exists i :: 0 <= i < |text| && !IsWhitespace(text[i])))
      && (forall i :: 0 <= i < |r| && r[i].AddCustomWidgetCall? ==>
          r[i] == AddCustomWidgetCall(activeTab, Trim(name), Trim(text)))
  {
    CustomCallPlaced(catalog, keys, selection, showForm, name, text, activeTab);
    TrimEmptyIff(name);
    TrimEmptyIff(text);
  }

  /** The only custom add among the callbacks is the one `CustomCalls` issues. */
  lemma CustomCallPlaced(catalog: Catalog, keys: seq<string>, selection: map<string, bool>,
                          showForm: bool, name: string, text: string, activeTab: string)
    ensures var r := ConfirmCalls(catalog, keys, selection, showForm, name, text, activeTab);
      && (AddCustomWidgetCall(activeTab, Trim(name), Trim(text)) in r <==>
          CustomCalls(showForm, name, text, activeTab) != [])
      && (forall i :: 0 <= i < |r| && r[i].AddCustomWidgetCall? ==>
          r[i] == AddCustomWidgetCall(activeTab, Trim(name), Trim(text)))
  {
    SelectionCallsAreAdds(catalog, keys, selection);
    CustomAmongAdds(SelectionCalls(catalog, keys, selection), CustomCalls(showForm, name, text, activeTab),
      AddCustomWidgetCall(activeTab, Trim(name), Trim(text)));
  }

  /** Selection adds, then at most one custom add, then the close: the custom
      add is present exactly when it was issued, and is the only custom add. */
  lemma CustomAmongAdds(s: seq<Call>, cc: seq<Call>, c: Call)
    requires forall i :: 0 <= i < |s| ==> s[i].AddWidgetCall?
    requires c.AddCustomWidgetCall? && (cc == [] || cc == [c])
    ensures c in s + cc + [CloseCall] <==> cc != []
    ensures forall i :: 0 <= i < |s + cc + [CloseCall]| && (s + cc + [CloseCall])[i].AddCustomWidgetCall? ==>
      (s + cc + [CloseCall])[i] == c
  {
    var r := s + cc + [CloseCall];
    assert forall i :: 0 <= i < |s| ==> r[i] == s[i];
    if cc != [] {
      assert r[|s|] == c;
    }
  }

  /** `isWidgetAlreadyAdded` holds exactly when the first category with the id
      holds a placed widget with exactly that id. */
  lemma AlreadyAddedIff(data: DashboardData, categoryId: string, widgetId: string)
    ensures IsWidgetAlreadyAdded(data, categoryId, widgetId) <==>
      exists i :: IsFirst(data.categories, (c: Category) => c.id == categoryId, i)
        && exists w :: w in data.categories[i].widgets && w.id == widgetId
  {
    var p := (c: Category) => c.id == categoryId;
    var r := Find(data.categories, p);
    if r.Some? {
      var i :| IsFirst(data.categories, p, i) && data.categories[i] == r.value;
      forall j | IsFirst(data.categories, p, j) ensures j == i {
        IsFirstUnique(data.categories, p, i, j);
      }
    }
  }

  /** No category with the id: nothing counts as already added. */
  lemma NoCategoryNotAdded(data: DashboardData, categoryId: string, widgetId: string)
    requires forall c :: c in data.categories ==> c.id != categoryId
    ensures !IsWidgetAlreadyAdded(data, categoryId, widgetId)
  {
  }
}

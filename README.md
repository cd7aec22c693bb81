# Widget dashboard — a Dafny model of its composition logic

The dashboard shows categories of security widgets (CSPM, CWPP, registry
scans). Each category holds a list of placed widgets. Each widget has an id,
a name, a free-text body and one of four types.

A user can:
- remove a widget from a category;
- search all widgets by a case-insensitive substring of their name or text;
- open an "Add Widget" picker. It offers a fixed catalog per category and a
  form for a custom widget.

A card reads its widget's type, id and text. The type chooses the icon. The
text chooses the empty state; otherwise the type together with the id picks
the risk donut or the accounts ring, and every other widget is a line list.
The ring and the list split the text into lines. The list splits each line
into a label and a value at `(`, and colours the value by the first keyword
the label contains.

This project states that logic as plain state and transformations, and proves
its properties:

- `DashboardTypes` (types.dfy) holds the widget, category and dashboard
  records.
- `DashboardSeed` (seed.dfy) holds the initial data and the catalog,
  transcribed value for value.
- `DashboardState` (dashboard.dfy) holds the dashboard's state transitions as
  total functions on the state. The `Dashboard` class owns the one state cell
  and assigns their results, as the component's `setDashboardData(prev => …)`
  updates do. `Dispatch` applies the picker's callbacks one after another.
- `WidgetPicker` (picker.dfy) holds the picker session. It is the
  `AddWidgetModal` class: a tab, a selection map kept with its insertion
  order, and a draft custom widget. `HandleConfirm` is the entry loop. It
  returns the callbacks the picker issues, in order, as a sequence of `Call`
  values.
- `WidgetCard` (widget_card.dfy) holds the card's reading of a widget:
  icon, content kind, lines, label/value rows and colours.
- `Strings` (strings.dfy) and `Collections` (collections.dfy) model the
  JavaScript built-ins the components use: `toLowerCase`, `includes`,
  `trim`, `split`, `replace` with a string pattern, number-to-string,
  `filter` and `find`.

`Date.now()` is a parameter:
- The handlers take the timestamp as a natural number.
- `handleAddWidget` reads the clock inside its `map` callback, once for each
  category whose id matches (src/components/Dashboard.tsx:31-35). For an id
  that no category has, such as `ticket`, it is not read at all. The model
  gives one timestamp to every matching category.
- `handleAddCustomWidget` reads the clock for the custom id
  (src/components/Dashboard.tsx:44) before the add's updater reads it again
  for the placed id. The model takes these as two separate timestamps.
- `Dispatch` takes a clock `nat -> nat`. The index `k` counts the model's
  readings in call order: an add uses `clock(k)`, a custom add `clock(k)`
  and `clock(k + 1)`. Nothing is assumed about the values: they need not
  grow, nor differ.

### Behaviour of the code as written

The model follows the code. Four consequences are proved as lemmas.

- **Confirming in the picker never resolves a catalog widget.** The confirm
  loop recovers category and widget from the key with `key.split('-')` and
  keeps only the first two pieces. Every catalog id contains a hyphen, so no
  selection resolves and none is added (`SeedConfirmAddsNoSelection`,
  `SeedMalwareScanNotAdded`, and `SeedMalwareScanSession` through the
  components). For example, `registry-malware-scan` parses to widget id
  `malware` (`MalwareScanKeyMisparsed`). The hyphen is the whole cause: a
  selected widget whose id and category have none is added
  (`ResolveKeyComplete`, `SelectedCatalogWidgetAdded`).
- **"Already added" only sees seed-placed widgets.** A placed copy gets the
  id `<id>-<timestamp>`, so adding a catalog widget never makes it "already
  added" (`AddedCatalogWidgetNotAlreadyAdded`).
- **Removal drops every widget with the id, not only the first.** This
  follows `filter` in the code, including copies that share a timestamp
  (`SameTimestampCollides`).
- **The `ticket` tab adds nothing.** The picker offers a `ticket` catalog,
  but the dashboard has no `ticket` category, so adding there changes
  nothing (`SeedTicketAddIgnored`).

`Object.entries` walks the selection in insertion order. This is exact here:
every key contains a hyphen, so no key is an array index, and JavaScript puts
array-index keys first. `AddWidgetModal.entryOrder` records that order.

## Model

| member | source | states |
|---|---|---|
| DashboardState.AddWidget | src/components/Dashboard.tsx:28-39 | `handleAddWidget`'s update; `AddWidgetAppends` and `PlacedIdEncodesTime` state what it appends and where |
| DashboardState.AddCustomWidget | src/components/Dashboard.tsx:42-51 | `handleAddCustomWidget`'s update; `AddCustomWidgetPlaces` states the widget it appends |
| DashboardState.RemoveWidget | src/components/Dashboard.tsx:14-26 | `handleRemoveWidget`'s update; `RemoveWidgetFrame` states that every copy of each widget with another id stays, in order, and `RemoveIdempotent` and `RemoveNoMatch` complete it |
| DashboardState.FilteredCategories | src/components/Dashboard.tsx:58-64 | the search view; `FilterView` states that every copy of each matching widget stays, in order, and that the categories stay |
| DashboardState.ApplyCalls | src/components/Dashboard.tsx:153-161 | the picker's callbacks applied in order; `Dashboard.Dispatch`, `ApplyCustomThenClose` and `SeedConfirmOutcome` state their effect |
| DashboardState.AddWidgetAppends | src/components/Dashboard.tsx:28-39 | adding to category `c` appends exactly one widget to each category with id `c`. That widget is the placed copy. Earlier widgets stay, in order. Other categories, the category order and the catalog are unchanged |
| DashboardState.PlacedIdEncodesTime | src/components/Dashboard.tsx:35 | the copy keeps name, text and type. Its id is the original id, a hyphen, then decimal digits, so it differs from the original. The digits read back as the timestamp |
| DashboardState.AddToMissingCategory | src/components/Dashboard.tsx:29-38 | adding under an id that no category has leaves the data unchanged |
| DashboardState.SeedTicketAddIgnored | src/data/dashboardData.ts:4-59 | the catalog has `ticket`, but adding to `ticket` in the seed data changes nothing |
| DashboardState.AddCustomWidgetPlaces | src/components/Dashboard.tsx:42-51 | a custom add appends a metric widget with the given name and text to the category. Its id is `custom-<t1>-<t2>`. Other categories are unchanged |
| DashboardState.RemoveWidgetFrame | src/components/Dashboard.tsx:14-26 | removal keeps the other categories, their order and the catalog. In the named category, a widget stays exactly when its id differs, every copy of it stays, and what stays is an order-preserving subsequence |
| DashboardState.RemoveIdempotent | src/components/Dashboard.tsx:14-26 | removing twice is removing once |
| DashboardState.RemoveNoMatch | src/components/Dashboard.tsx:14-26 | removing an id that the category does not hold changes nothing |
| DashboardState.RemoveUndoesAdd | src/components/Dashboard.tsx:14-39 | removing the placed id right after an add restores the data, when no widget of the category had that id |
| DashboardState.SameTimestampCollides | src/components/Dashboard.tsx:35 | two adds of one widget at one timestamp place two widgets with the same id, and one removal drops both |
| DashboardState.AddKeepsAlreadyAdded | src/components/AddWidgetModal.tsx:61-64 | adding never changes "already added" for any id other than the new placed id |
| DashboardState.AddedCatalogWidgetNotAlreadyAdded | src/components/AddWidgetModal.tsx:61-64 | after adding widget `w`, "already added" for `w.id` is what it was before |
| DashboardState.SeedComplianceStaysSelectable | src/components/AddWidgetModal.tsx:61-64 | after adding `compliance-overview` to `cspm` in the seed data, it is still not "already added" |
| DashboardState.FilterView | src/components/Dashboard.tsx:58-64 | the search view has the same categories, with the same ids and names, in the same order. Each list is an order-preserving subsequence. A widget is kept, every copy of it, exactly when its lower-cased name or text includes the lower-cased term |
| DashboardState.FilterDrops | src/components/Dashboard.tsx:60-63 | a widget that matches neither by name nor by text is not in a category's view, and the view keeps that category's id |
| DashboardState.FilterKeeps | src/components/Dashboard.tsx:60-63 | a matching widget of a category stays in that category's view |
| DashboardState.EmptySearchKeepsAll | src/components/Dashboard.tsx:58-64 | the empty term keeps every widget |
| DashboardState.SeedCriticalSearch | src/components/Dashboard.tsx:60-63 | the term `critical` on the seed data drops `namespace-alerts` from `cwpp` and keeps `image-risk` in `registry` |
| DashboardState.NamespaceAlertsMisses | src/data/dashboardData.ts:27-32 | neither the name nor the text of `namespace-alerts` contains `critical`, in any case |
| DashboardState.ImageRiskMatches | src/data/dashboardData.ts:45-50 | the text of `image-risk` contains `critical`, ignoring case |
| DashboardState.RemoveShownCard | src/components/WidgetCard.tsx:119 | the card's remove button passes its category id and the widget's id. For a card in the search view, this removes that widget from the state itself and keeps every widget with another id |
| DashboardState.SeedConfirmOutcome | src/components/AddWidgetModal.tsx:41-59 | with the seed catalog, a confirm leaves the data unchanged; the one exception is a shown form with non-blank fields, which adds the trimmed draft to the active tab. Anything toggled is ignored |
| DashboardState.ApplyCustomThenClose | src/components/AddWidgetModal.tsx:53-58 | the end of a confirm adds the custom widget when the guard holds, and otherwise changes nothing |
| DashboardState.SeedMalwareScanNotAdded | src/components/AddWidgetModal.tsx:43-51 | selecting `malware-scan` under `registry` and confirming leaves the seed data unchanged |
| DashboardState.Dashboard.Displayed | src/components/Dashboard.tsx:111-147 | the categories as rendered, which are the search view of the state; `FilterView` and `RemoveShownCard` state what they show |
| DashboardState.SeedMalwareScanSession | src/components/AddWidgetModal.tsx:33-59 | through the components: a fresh dashboard, the picker opened on `registry`, `malware-scan` ticked and confirmed, ends with the seed data unchanged and the picker closed |
| DashboardState.Dashboard.constructor | src/components/Dashboard.tsx:9-12 | the state starts as the seed data, with an empty term and the picker closed |
| DashboardState.Dashboard.HandleRemoveWidget | src/components/Dashboard.tsx:14-26 | the new state is the removal applied to the old one, and the invariant is kept: the catalog and the category ids and names do not change |
| DashboardState.Dashboard.HandleAddWidget | src/components/Dashboard.tsx:28-40 | the new state is the add applied to the old one, and the invariant is kept |
| DashboardState.Dashboard.HandleAddCustomWidget | src/components/Dashboard.tsx:42-51 | the new state is the custom add applied to the old one, with the id built at one timestamp and placed at another |
| DashboardState.Dashboard.OpenAddWidgetModal | src/components/Dashboard.tsx:53-56 | the picker opens on the given category, or on none |
| DashboardState.Dashboard.CloseAddWidgetModal | src/components/Dashboard.tsx:157 | the picker's `onClose` closes the picker |
| DashboardState.Dashboard.SetSearchTerm | src/components/Dashboard.tsx:95 | only the term changes, never the data |
| DashboardState.Dashboard.ShowPicker | src/components/Dashboard.tsx:153-161 | while the picker is open, it is a fresh session over the current data, on the requested tab or `cspm`, with nothing selected, no entries, the form hidden and the draft name and text empty |
| DashboardState.Dashboard.Dispatch | src/components/Dashboard.tsx:157-159 | applying the callbacks in order gives the state that the sequential application defines, and keeps the invariant. The picker is closed afterwards exactly when a close was among them, or when it was already closed |
| DashboardState.Dashboard.ConfirmPicker | src/components/AddWidgetModal.tsx:41-59 | a session over the current data, as the dashboard renders it, applies on confirm exactly the callbacks that its selection and draft determine, and closes the picker |
| WidgetPicker.AddWidgetModal.constructor | src/components/AddWidgetModal.tsx:20-24 | the session starts on the requested tab, or on `cspm` when none was requested, with nothing selected and the form hidden and empty |
| WidgetPicker.AddWidgetModal.SelectTab | src/components/AddWidgetModal.tsx:93 | a tab button makes its category active |
| WidgetPicker.AddWidgetModal.HandleWidgetToggle | src/components/AddWidgetModal.tsx:33-39 | the entry at key `c-w` flips. A key seen for the first time goes last in iteration order |
| WidgetPicker.AddWidgetModal.ToggleCustomForm | src/components/AddWidgetModal.tsx:153 | the form's visibility flips |
| WidgetPicker.AddWidgetModal.SetCustomWidgetName | src/components/AddWidgetModal.tsx:169 | the draft name becomes the input |
| WidgetPicker.AddWidgetModal.SetCustomWidgetText | src/components/AddWidgetModal.tsx:180 | the draft text becomes the input |
| WidgetPicker.AddWidgetModal.HandleConfirm | src/components/AddWidgetModal.tsx:41-59 | the loop over the entries issues exactly the calls of the confirm specification: one add for each selected entry that resolves, in entry order, then the guarded custom add, then the close |
| WidgetPicker.AddWidgetModal.Dismiss | src/components/AddWidgetModal.tsx:73 | the X button, and likewise Cancel (line 194), issues only the close |
| WidgetPicker.SelectionKey | src/components/AddWidgetModal.tsx:34 | the selection key `c-w`; `ParseKeyRoundTrip` states when it parses back |
| WidgetPicker.ParseKey | src/components/AddWidgetModal.tsx:45 | the first two pieces of `key.split('-')`; `ParseKeyRoundTrip` and `MalwareScanKeyMisparsed` state what it recovers |
| WidgetPicker.ResolveKey | src/components/AddWidgetModal.tsx:45-46 | the catalog lookup of a parsed key; `ResolveKeySound` states what a hit is, `ResolveKeyComplete` that a hyphen-free catalog widget is found as the first with its id, and `SelectedCatalogWidgetAdded` that the loop then adds it |
| WidgetPicker.Toggled | src/components/AddWidgetModal.tsx:35-38 | the toggle's update; `ToggleOnlyKey` and `ToggleTwice` state its effect |
| WidgetPicker.SelectionCalls | src/components/AddWidgetModal.tsx:43-51 | the calls of the entry loop; `SelectionCallsAreAdds` and `SelectionCallsExact` state which adds it issues |
| WidgetPicker.CustomCalls | src/components/AddWidgetModal.tsx:53-56 | the guarded custom add; `ConfirmCallsCustom` states when it is issued and what it carries |
| WidgetPicker.ConfirmCalls | src/components/AddWidgetModal.tsx:41-59 | the calls of a confirm; `ConfirmCallsShape` states their order and content |
| WidgetPicker.IsWidgetAlreadyAdded | src/components/AddWidgetModal.tsx:61-64 | `isWidgetAlreadyAdded`; `AlreadyAddedIff` and `NoCategoryNotAdded` state when it holds |
| WidgetPicker.ToggleOnlyKey | src/components/AddWidgetModal.tsx:35-38 | a toggle flips its own key, adds it to the keys, and leaves every other key's value unchanged |
| WidgetPicker.ToggleTwice | src/components/AddWidgetModal.tsx:35-38 | toggling twice restores every key's value. A key that was new ends up present and false |
| WidgetPicker.ParseKeyRoundTrip | src/components/AddWidgetModal.tsx:34-45 | `split('-')` recovers the category and the widget from their key exactly when neither contains a hyphen |
| WidgetPicker.ResolveKeySound | src/components/AddWidgetModal.tsx:45-47 | a resolved key names a widget in the catalog of the key's first piece, whose id equals the second piece and has no hyphen |
| WidgetPicker.ResolveKeyComplete | src/components/AddWidgetModal.tsx:45-46 | the key of a widget under its category, neither holding a hyphen, resolves to the first widget of that catalog with the same id, as `find` returns it |
| WidgetPicker.SelectedCatalogWidgetAdded | src/components/AddWidgetModal.tsx:43-51 | a selected entry for such a widget makes the loop add that category's catalog widget with the id, so hyphens alone stop the seed adds |
| WidgetPicker.SelectionCallsAreAdds | src/components/AddWidgetModal.tsx:43-51 | the selection loop issues only add calls |
| WidgetPicker.SelectionCallsExact | src/components/AddWidgetModal.tsx:43-51 | the loop adds `w` to `c` exactly when some selected entry's key parses to `c` and resolves to `w`. Unselected entries add nothing |
| WidgetPicker.HyphenatedCatalogAddsNothing | src/components/AddWidgetModal.tsx:45-46 | when every catalog id contains a hyphen, the loop adds nothing, whatever was selected |
| WidgetPicker.SeedConfirmAddsNoSelection | src/data/dashboardData.ts:60-153 | with the seed catalog, a confirm issues at most the custom add, then the close |
| WidgetPicker.MalwareScanKeyMisparsed | src/components/AddWidgetModal.tsx:45-46 | the key of `malware-scan` under `registry` is `registry-malware-scan`. It parses to `registry` and `malware`, and resolves to nothing |
| WidgetPicker.MalwareScanKeySplit | src/components/AddWidgetModal.tsx:45 | `registry-malware-scan` splits into three pieces |
| WidgetPicker.ConfirmCallsShape | src/components/AddWidgetModal.tsx:53-58 | the close comes last and only once. The custom add follows every selection add and carries the trimmed draft to the active tab. It is issued exactly when the form is shown and neither field is blank |
| WidgetPicker.ConfirmCallsOrder | src/components/AddWidgetModal.tsx:43-58 | the close comes last and only once, and every custom add comes after every selection add |
| WidgetPicker.ConfirmCallsCustom | src/components/AddWidgetModal.tsx:53-56 | the custom add carries the trimmed draft to the active tab. It is issued exactly when the form is shown and both fields hold a non-whitespace character |
| WidgetPicker.AlreadyAddedIff | src/components/AddWidgetModal.tsx:61-64 | "already added" holds exactly when the first category with the id holds a widget with exactly that id |
| WidgetPicker.NoCategoryNotAdded | src/components/AddWidgetModal.tsx:61-64 | with no category of that id, nothing counts as already added |
| DashboardSeed.CatalogIdsHyphenated | src/data/dashboardData.ts:60-153 | every catalog widget id contains a hyphen |
| WidgetCard.WidgetIcon | src/components/WidgetCard.tsx:12-25 | every type maps to an icon that reads back as that type |
| WidgetCard.WidgetIconInjective | src/components/WidgetCard.tsx:12-25 | distinct types get distinct icons |
| WidgetCard.LabelColor | src/components/WidgetCard.tsx:92-98 | the value colour; `LabelColorIsFirstMatch` and `ColorPriority` state which keyword decides it |
| WidgetCard.LabelColorIsFirstMatch | src/components/WidgetCard.tsx:92-98 | the colour chain equals a first-match search over the keyword list `critical, high, failed, warning, passed` |
| WidgetCard.ColorPriority | src/components/WidgetCard.tsx:92-98 | a value gets keyword `k`'s colour exactly when the lower-cased label contains keyword `k` and no earlier keyword. It is gray exactly when the label contains none |
| WidgetCard.Lines | src/components/WidgetCard.tsx:72 | there is one line more than the text has newlines, no line has a newline, and the lines glue back to the text |
| WidgetCard.RingRows | src/components/WidgetCard.tsx:72-77 | the ring's rows; `RingShowsLines` states that there is one per line, in order, and only row 0 has the blue marker |
| WidgetCard.ParseLines | src/components/WidgetCard.tsx:87-110 | the list's rows; `ListParsesLines` states that there is one per line, in order, each the parse of its line |
| WidgetCard.ParseLine | src/components/WidgetCard.tsx:88-108 | one line of the list; `ParseLineShape` states when it splits and into what |
| WidgetCard.WidgetContent | src/components/WidgetCard.tsx:27-113 | `getWidgetContent`; `ContentPriority`, `RingShowsLines` and `ListParsesLines` state which kind is drawn and with which rows |
| WidgetCard.ContentPriority | src/components/WidgetCard.tsx:27-113 | empty-state text wins over type and id. Otherwise a chart with id `risk-assessment` is the donut. Otherwise a metric with id `cloud-accounts` is the ring. Everything else is the line list |
| WidgetCard.RingShowsLines | src/components/WidgetCard.tsx:60-82 | the ring shows every line of the text once, in order, with only the first line marked blue, and its rows glue back to the text |
| WidgetCard.ListParsesLines | src/components/WidgetCard.tsx:84-113 | the list has one row per line of the text, each the parse of that line |
| WidgetCard.ParseLineShape | src/components/WidgetCard.tsx:88-108 | a line becomes a label and value exactly when it has exactly one `(`. The label is the trimmed part before it. The value is the part after it with its first `)` removed. Any other line is shown as is |
| WidgetCard.ParseFormattedLine | src/components/WidgetCard.tsx:88-91 | a label, one `(` and a value without `(` parse back into the trimmed label and the value with its first `)` removed |
| WidgetCard.ParsePaddedLine | src/components/WidgetCard.tsx:88-91 | `label (value` gives back the label without the space |
| WidgetCard.FailedLineExample | src/components/WidgetCard.tsx:88-96 | `Failed (1689)` shows `1689` in red-500 |
| WidgetCard.FailedIsRed | src/components/WidgetCard.tsx:94-96 | the label `Failed` is red-500 |
| WidgetCard.NotAvailableLineExample | src/components/WidgetCard.tsx:88-98 | `Not available (36)` shows `36` in gray |
| WidgetCard.NoInitialsGray | src/components/WidgetCard.tsx:92-98 | a label that contains the first letter of no keyword, in either case, is gray |
| WidgetCard.SeedEmptyStates | src/components/WidgetCard.tsx:28-37 | both seed alert widgets show the empty state |
| WidgetCard.SeedRiskDonut | src/components/WidgetCard.tsx:39-58 | `risk-assessment` is drawn as the donut |
| WidgetCard.SeedAccountsRing | src/components/WidgetCard.tsx:60-82 | `cloud-accounts` is drawn as the ring with its two lines, blue then gray |
| WidgetCard.CloudAccountsLines | src/data/dashboardData.ts:9-14 | the `cloud-accounts` text has two lines |
| Strings.Lower | src/components/Dashboard.tsx:61-62 | `toLowerCase` keeps the length and leaves no capital letter: each capital becomes the letter 32 code points above it, and every other character stays |
| Strings.LowerIdempotent | src/components/Dashboard.tsx:61-62 | lower-casing twice is lower-casing once |
| Strings.LowerAppend | src/components/Dashboard.tsx:61-62 | lower-casing distributes over concatenation |
| Strings.Includes | src/components/Dashboard.tsx:61-62 | `includes`; `IncludesMiddle`, `IncludesBlocked` and `IncludesEmpty` state when it holds |
| Strings.IncludesMiddle | src/components/Dashboard.tsx:61-62 | a string is included in any string that has it as a middle part |
| Strings.IncludesBlocked | src/components/Dashboard.tsx:61-62 | a string is not included when one of its characters is absent from the prefix and the rest is too short |
| Strings.LowerLacks | src/components/Dashboard.tsx:61-62 | a string in which one letter of the term occurs in neither case does not include the term once lower-cased |
| Strings.IncludesEmpty | src/components/Dashboard.tsx:61-62 | the empty string is included in every string |
| Strings.TrimStart | src/components/AddWidgetModal.tsx:54 | the result is a suffix, everything dropped is whitespace, and the result does not start with whitespace |
| Strings.TrimEnd | src/components/AddWidgetModal.tsx:54 | the result is a prefix, everything dropped is whitespace, and the result does not end with whitespace |
| Strings.Trim | src/components/AddWidgetModal.tsx:54-55 | `trim`; `TrimIsSlice`, `TrimCutsWhitespace` and `TrimEmptyIff` state what it keeps and cuts |
| Strings.TrimIsSlice | src/components/AddWidgetModal.tsx:54-55 | `trim` returns the slice that starts after the leading whitespace, and its ends are not whitespace |
| Strings.TrimCutsWhitespace | src/components/AddWidgetModal.tsx:54-55 | everything `trim` cuts off, on either side, is whitespace |
| Strings.TrimEmptyIff | src/components/AddWidgetModal.tsx:54 | a trimmed string is empty exactly when the original is all whitespace |
| Strings.TrimIdempotent | src/components/AddWidgetModal.tsx:55 | trimming twice is trimming once |
| Strings.TrimPadded | src/components/WidgetCard.tsx:90 | a word followed by whitespace trims to the word |
| Strings.Split | src/components/AddWidgetModal.tsx:45 | `split` returns at least one piece |
| Strings.SplitPiecesFree | src/components/AddWidgetModal.tsx:45 | no piece contains the separator |
| Strings.JoinSplit | src/components/WidgetCard.tsx:72 | joining the pieces with the separator gives back the string |
| Strings.SplitJoin | src/components/AddWidgetModal.tsx:45 | splitting undoes joining of separator-free pieces |
| Strings.SplitCount | src/components/WidgetCard.tsx:88-89 | there is one piece more than the string has separators |
| Strings.SplitFree | src/components/WidgetCard.tsx:88-89 | a string without the separator splits into itself |
| Strings.SplitAfterFree | src/components/AddWidgetModal.tsx:45 | a separator-free prefix before a separator is the first piece |
| Strings.SplitInTwo | src/components/WidgetCard.tsx:88-89 | two separator-free pieces joined by one separator split back into exactly those two |
| Strings.SplitOnce | src/components/WidgetCard.tsx:88-89 | a string with exactly one separator splits into the part before it and the separator-free part after it |
| Strings.FirstPieceWhole | src/components/AddWidgetModal.tsx:45 | the first piece is the whole string exactly when the separator is absent |
| Strings.FirstPieceOfPrefixed | src/components/AddWidgetModal.tsx:45 | a prefix that contains the separator is cut short |
| Strings.IndexOf | src/components/WidgetCard.tsx:91 | the first position of a character, or the length when it is absent |
| Strings.RemoveFirst | src/components/WidgetCard.tsx:91 | `replace(')', '')` removes exactly the first occurrence, if there is one |
| Strings.IndexOfAfterFree | src/components/WidgetCard.tsx:91 | the first occurrence of a character after a prefix without it is at the end of that prefix |
| Strings.RemoveFirstAfterFree | src/components/WidgetCard.tsx:91 | removing the first occurrence drops exactly the one after a prefix without it |
| Strings.NatToString | src/components/Dashboard.tsx:35 | a timestamp prints as a non-empty string of decimal digits, with a leading `0` only for zero itself |
| Strings.NatToStringRoundTrip | src/components/Dashboard.tsx:35 | the printed digits read back as the number |
| Strings.NatToStringNoHyphen | src/components/Dashboard.tsx:35 | the printed timestamp has no hyphen |
| Collections.Filter | src/components/Dashboard.tsx:21 | `filter` keeps exactly the elements that satisfy the predicate |
| Collections.FilterCounts | src/components/Dashboard.tsx:21 | `filter` keeps every copy of an element that passes and no copy of one that does not |
| Collections.FilterSubsequence | src/components/Dashboard.tsx:21 | `filter` keeps the original order |
| Collections.FilterIdempotent | src/components/Dashboard.tsx:21 | filtering twice is filtering once |
| Collections.FilterAllKept | src/components/Dashboard.tsx:60-63 | a filter that keeps everything is the identity |
| Collections.FilterAppend | src/components/Dashboard.tsx:21 | filtering a concatenation filters each part |
| Collections.Find | src/components/AddWidgetModal.tsx:46 | `find` returns the first element that satisfies the predicate, or nothing when none does |
| Collections.IsFirstUnique | src/components/AddWidgetModal.tsx:62 | the first match is unique |

## Left out

- JSX markup, the Tailwind classes and layout are left out. This includes the icon tints and the marker and donut drawing. Only the choice of icon, content kind, marker and value colour is modelled.
- `getCategoryIcon` (src/components/Dashboard.tsx:66-79) is visual only.
- The lucide-react icons become the tags of `WidgetCard.Icon`. The `default` branch of `getWidgetIcon` is left out, because the four types are exhaustive.
- React `useState` and re-rendering are left out. Each state cell is a field, and each functional update is an assignment applied in order.
- `Date.now()` is a parameter. Placed ids are not claimed to be unique, because `SameTimestampCollides` shows that they are not.
- The number of clock readings is not modelled exactly: the code reads `Date.now()` once per matching category, so never for a missing category, while the model numbers one reading per add call and two per custom add. The clock is arbitrary, so this only changes which index a value has.
- `toLowerCase` and `trim` cover ASCII only. Case folding maps `A`-`Z`. Trimmed whitespace is space, tab, line feed, carriage return, vertical tab and form feed.
- The picker's disabled checkbox and its "(Already added)" marker (src/components/AddWidgetModal.tsx:109-147) are left out. Both are computed from `isWidgetAlreadyAdded`, which is modelled, but `disabled` also keeps the checkbox from being toggled (src/components/AddWidgetModal.tsx:129). The model has no such guard: `WidgetPicker.AddWidgetModal.HandleWidgetToggle` also accepts widgets the list would show disabled.
- The picker's widget list for the active tab is left out as rendering. Because of that, `WidgetPicker.AddWidgetModal.HandleWidgetToggle` accepts any category and widget id, not only those the list offers. Likewise the tab bar (src/components/AddWidgetModal.tsx:26-31, 88-104) is left out, so `WidgetPicker.AddWidgetModal.SelectTab` accepts any id, not only `cspm`, `cwpp`, `registry` and `ticket`.
- ResolveKey: does not model that `availableWidgets[categoryId]` in JavaScript also finds inherited prototype names such as `constructor`; the catalog is a map with exactly its own keys.

# GPSManager polygon store and right-click logic, in Dafny

GPSManager is a WPF map application: it shows a live position marker and lets
an operator draw, edit, rename and delete polygons on a map. This project
models the two parts of its main window (`GPSManager/MainWindow.xaml.cs`) that
hold logic of their own:

- **`DbPlaceholder`**, the in-memory polygon store: a list of polygon
  references with `InsertPolygonAndAssignID` (ID = largest stored ID + 1, or 0
  for an empty store, written into the polygon), `RemovePolygon` (first
  occurrence, by reference) and `UpdatePolygon` (first entry with the same ID
  swapped for the new object, unless it is that object). It is a Dafny class
  whose `polygons: seq<Polygon>` field the methods reassign; `Polygon` is a
  class whose `ID` field the insert writes in place. The read-only `Polygons`
  view is that field.
- **The window's right-click decisions**: `EndPolygonDrawing` (only in drawing
  mode: end the session, uncheck the tool button, store the drawn polygon),
  `OnMapRightClick` (always end both sessions; only if neither yielded
  anything, act on the polygons under the cursor: nothing, the single
  polygon's menu, or a menu listing every hit in order) and the item header
  of that menu (a fixed placeholder for a null or blank name).
- **The handlers that drive the two tools**: checking the tool button (end
  any edit, then begin drawing), unchecking it and pressing Escape (end the
  draw session), and closing the window (end any edit); and the three
  actions of a polygon's context menu: edit (the polygon becomes the editing
  target), rename (the name dialog, then `UpdatePolygon`) and delete
  (`RemovePolygon`).

Modules: `Polygons` (the polygon class, `Option`, the 32-bit `Int32`),
`Sequences` (the list primitives `IndexOf` and first-occurrence removal),
`Storage` (the store and its specification functions `NextId`, `FindById`,
`Updated`), `Menu` (header and menu items), `Controller` (the window and
stand-ins for its two tools).

Each state-changing method is specified by a function of the old state
(`NextId`, `RemoveFirst`, `Updated`), and the lemmas prove what the store
promises about those functions: the new ID is fresh, an update keeps the
multiset of IDs and never introduces a duplicate ID, removal cuts the first
occurrence and keeps the other entries in order, and so on.
`DrawThenRightClickScenario` composes the window's contracts: load, check the
tool, click three vertices, right-click (polygon 0 is stored), right-click on
empty map and on the stored polygon, edit it and right-click (the edit ends,
the store is as it was), then delete it twice (the second finds nothing).

C#'s `int` is 32 bits and unchecked: `Increment32` wraps `Int32.MaxValue + 1`
to `Int32.MinValue`, so the new ID is only guaranteed fresh while no stored
ID is `Int32.MaxValue` (`NextIdIsMaxPlusOne`), and `NextIdWrapsAtMaxValue`
shows the colliding case. An insert of a polygon that is already stored
re-numbers it and stores the reference twice; the model keeps this, so ID
uniqueness after an insert is stated for a polygon not already stored.

`PolygonTool` and `PolygonEditing` are not part of this model. They are
stand-ins holding only the state the window's decisions read: a drawing flag
and a count of placed vertices (beginning a session sets the flag and clears
the count, `AddVertex` stands for a map click the tool accepts while drawing,
ending a session yields a new polygon with
the unset ID -1 when at least three vertices were placed), and the polygon
being edited, or null (ending a session writes it back through
`UpdatePolygon` and reports whether one was active). The `Polygon` class is
not part of this model either; only its `ID` and `Name` are represented.

## Model

| member | source | states |
|---|---|---|
| `Sequences.IndexOf` | GPSManager/MainWindow.xaml.cs:95 | the first index of an element, or -1 exactly when it is absent; no earlier entry equals it |
| `Sequences.RemoveFirst` | GPSManager/MainWindow.xaml.cs:95 | removing an absent element leaves the list; removing a present one shortens it by one, takes away exactly one copy, and is the list with its first occurrence cut out, the others kept in order |
| `Sequences.RemoveOnlyOccurrence` | GPSManager/MainWindow.xaml.cs:93-96 | an element stored once is absent after one removal, so a second removal finds nothing and changes nothing |
| `Storage.MaxId` | GPSManager/MainWindow.xaml.cs:86 | the result is a stored ID and no stored ID exceeds it |
| `Storage.NextId` | GPSManager/MainWindow.xaml.cs:86-87 | 0 for an empty store; unless it wrapped to Int32.MinValue the new ID is above every stored ID, and it wraps only when Int32.MaxValue is stored |
| `Storage.Increment32` | GPSManager/MainWindow.xaml.cs:87 | unchecked 32-bit `+ 1`: one more below Int32.MaxValue, Int32.MinValue at it |
| `Storage.NextIdIsMaxPlusOne` | GPSManager/MainWindow.xaml.cs:86-87 | with no stored ID at Int32.MaxValue: 0 for an empty store, otherwise the largest ID plus one, above every stored ID, hence not in use |
| `Storage.NextIdWrapsAtMaxValue` | GPSManager/MainWindow.xaml.cs:86-87 | a store holding Int32.MaxValue then Int32.MinValue hands out Int32.MinValue, an ID in use |
| `Storage.InsertKeepsUniqueIds` | GPSManager/MainWindow.xaml.cs:86-89 | appending a polygon not yet stored, under the ID the store hands out, keeps the IDs unique (no stored ID at Int32.MaxValue) |
| `Storage.NextIdAfterSequentialIds` | GPSManager/MainWindow.xaml.cs:84-90 | a store whose entries carry 0, 1, ..., n-1 in order (n inserts, no removals) hands out n |
| `Storage.FindById` | GPSManager/MainWindow.xaml.cs:100 | the first index with the given ID, or -1 exactly when no entry has it |
| `Storage.Updated` | GPSManager/MainWindow.xaml.cs:100-109 | the list after an update has the same length; with no entry carrying the polygon's ID it is unchanged, otherwise it holds the polygon |
| `Storage.UpdateReplacesFirstMatch` | GPSManager/MainWindow.xaml.cs:100-109 | when the first ID match is another object, it is removed from its place and the polygon appended; the length is unchanged |
| `Storage.UpdateIsNoOpIff` | GPSManager/MainWindow.xaml.cs:100-110 | the list is unchanged if and only if no entry has the ID or the first match is the polygon itself |
| `Storage.RemoveKeepsUniqueIds` | GPSManager/MainWindow.xaml.cs:93-96 | removal never creates a duplicate ID |
| `Storage.UpdateKeepsUniqueIds` | GPSManager/MainWindow.xaml.cs:98-111 | update never creates a duplicate ID |
| `Storage.UpdateKeepsIds` | GPSManager/MainWindow.xaml.cs:105-109 | update keeps the multiset of stored IDs: the appended polygon carries the removed entry's ID |
| `Storage.DbPlaceholder.constructor` | GPSManager/MainWindow.xaml.cs:81 | a new store is empty |
| `Storage.DbPlaceholder.InsertPolygonAndAssignID` | GPSManager/MainWindow.xaml.cs:84-91 | returns `NextId` of the old list, writes it into the polygon (the only field it changes), appends the polygon; unique IDs stay unique when the polygon was not already stored and no ID is Int32.MaxValue |
| `Storage.DbPlaceholder.RemovePolygon` | GPSManager/MainWindow.xaml.cs:93-96 | returns whether the polygon was stored; the list loses its first occurrence only |
| `Storage.DbPlaceholder.UpdatePolygon` | GPSManager/MainWindow.xaml.cs:98-111 | returns whether some entry has the polygon's ID; the list becomes `Updated` of the old list |
| `Storage.InsertRemoveInsertScenario` | GPSManager/MainWindow.xaml.cs:84-96 | inserts into an empty store give 0 and 1; after removing the first, a second removal fails and the next insert gives 2, not 0 |
| `Menu.MenuHeader` | GPSManager/MainWindow.xaml.cs:341 | the header is the placeholder or the polygon's own name |
| `Menu.MenuHeaderIsNameOrPlaceholder` | GPSManager/MainWindow.xaml.cs:341 | the header is the placeholder exactly when the name is null, whitespace only, or the placeholder text; otherwise it is the name |
| `Menu.MenuHeaderNeverBlank` | GPSManager/MainWindow.xaml.cs:341 | no header is null or whitespace only |
| `Menu.BuildChoiceMenu` | GPSManager/MainWindow.xaml.cs:338-347 | one item per hit, in iteration order, each selecting its hit under that hit's header |
| `Controller.PolygonTool.BeginDrawing` | GPSManager/MainWindow.xaml.cs:260 | enters drawing mode with no vertices placed |
| `Controller.PolygonTool.EndDrawing` | GPSManager/MainWindow.xaml.cs:272 | leaves drawing mode; yields a fresh unstored polygon exactly when at least three vertices were placed |
| `Controller.PolygonEditing.BeginEditing` | GPSManager/MainWindow.xaml.cs:194 | the polygon becomes the edit target |
| `Controller.PolygonEditing.EndEditing` | GPSManager/MainWindow.xaml.cs:314 | returns whether an edit was active; an active target is written back by the store's update and the tool becomes idle |
| `Controller.MainWindow.constructor` | GPSManager/MainWindow.xaml.cs:123-134 | after loading, the store is empty, both tools idle with no vertices placed, the tool button unchecked, and the editing tool writes to the window's store |
| `Controller.MainWindow.EndPolygonDrawing` | GPSManager/MainWindow.xaml.cs:268-295 | outside drawing mode returns null and changes nothing; in it, ends the session, unchecks the button and stores and returns the drawn polygon if there is one |
| `Controller.MainWindow.OnMapRightClick` | GPSManager/MainWindow.xaml.cs:309-350 | both sessions end, the button is unchecked if drawing was active and otherwise untouched, and the store reflects the insert then the update; hits are used if and only if no polygon was drawn and no edit was active; then 0 hits do nothing, 1 opens its menu, more list every hit in order |
| `Controller.MainWindow.PolygonToolChecked` | GPSManager/MainWindow.xaml.cs:257-261 | any edit is written back and ended, then a draw session begins with no vertices |
| `Controller.MainWindow.PolygonToolUnchecked` | GPSManager/MainWindow.xaml.cs:263-266 | the button is unchecked, drawing has ended and a polygon drawn with at least three vertices is appended under the next ID |
| `Controller.MainWindow.OnKeyDown` | GPSManager/MainWindow.xaml.cs:114-121 | Escape while drawing ends the session as unchecking the button does (button unchecked, vertices cleared, a polygon of at least three vertices stored under the next ID); Escape outside drawing mode and any other key change nothing |
| `Controller.MainWindow.WindowClosed` | GPSManager/MainWindow.xaml.cs:383-387 | any edit is written back and ended; the draw session is left as it is |
| `Controller.MainWindow.RenamePolygonDialog` | GPSManager/MainWindow.xaml.cs:297-307 | reports whether the dialog was accepted; only an accepted dialog sets the name, to the one entered |
| `Controller.MainWindow.EditItemClicked` | GPSManager/MainWindow.xaml.cs:191-195 | the polygon becomes the editing tool's target |
| `Controller.MainWindow.RenameItemClicked` | GPSManager/MainWindow.xaml.cs:205-209 | the name is set as the dialog decides, then the store becomes `Updated` with the polygon; reports whether some entry carries its ID |
| `Controller.MainWindow.RemoveItemClicked` | GPSManager/MainWindow.xaml.cs:219-226 | reports whether the polygon was stored; the store loses its first occurrence only |
| `Controller.DrawThenRightClickScenario` | GPSManager/MainWindow.xaml.cs:257-349 | checking the tool, three clicks and a right-click store one polygon with ID 0 and end the session; a right-click on empty map then finds no polygon, and one over the stored polygon opens the menu of polygon 0; after choosing edit, a right-click ends the edit with no menu; deleting the polygon succeeds once and then finds nothing |

## Left out

- WPF plumbing: building the context menus and their items (the items' actions are modelled as `EditItemClicked`, `RenameItemClicked` and `RemoveItemClicked`), icons, the disabled "choose a polygon" label, `MessageBox`, the connection status colours and texts, `contextMenu.IsOpen`.
- The rename step of `EndPolygonDrawing` (line 278): the drawn polygon is stored under its unset name; the dialog itself is `RenamePolygonDialog`, with the operator's answer as input, used by the rename item.
- Map-layer updates after the menu actions: `UnhighlightAllPolygons` before editing (line 193), `polygonLayer.TryRemove` and `Refresh` after a delete (lines 223-224), and the `Refresh` inside the dialog (line 303).
- Highlighting: `UnhighlightAllPolygons` (lines 374-381), the highlight set by `OnPolygonRightClick` (lines 365-372) and toggled by menu focus (lines 343-344) are visual state of the map layer.
- `GgaProviderPlaceholder`, `InitializeGgaProvider` and the one-shot `OnGgaProvided` unsubscribe (lines 51-77, 151-161, 232-236): asynchronous timers and event subscription.
- `ZoomToPoint` and `GetPolygonsAt` (lines 238-243, 352-357): map projection and floating-point geometry in the Mapsui library; the polygons under the cursor are an input sequence of `OnMapRightClick`.
- `SqlException` handling and the commented-out database and TCP provider (lines 136-149, 280-290): `DbPlaceholder` never throws, so the error path does not arise.
- `ggaProvider?.Dispose()` in `Window_Closed` (line 385): releasing the position feed's connection; `WindowClosed` models only the edit write-back.
- Key events: the model's `OnKeyDown` takes whether the key is Escape rather than a key event; `base.OnKeyDown` is WPF's own handling.
- `PolygonTool`, `PolygonEditing`, `PolygonLayer` and `Polygon` are defined elsewhere and are not part of this model; the tools are stand-ins limited to the state described above, and equality of polygons is reference equality in `List.Remove` and `!=`.
- Unchecking the tool button re-enters `EndPolygonDrawing` through the button's `Unchecked` handler; since drawing mode has already ended that nested call returns null, so the model writes the button state as a plain field.

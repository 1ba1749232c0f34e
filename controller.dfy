/** The main window's decisions around the drawing and editing tools: ending a
    draw session (GPSManager/MainWindow.xaml.cs:268-295) and the right-click
    handler (lines 309-350). The two tools are not part of this model; they
    are reduced to the state the window's decisions depend on. */
module Controller {
  import opened Polygons
  import opened Storage
  import opened Menu
  import Sequences

  /** What a right-click on the map ends up doing. */
  datatype RightClickAction =
    | SessionEnded                        // a polygon was drawn or an edit was active; no hit test
    | NoPolygon                           // nothing under the cursor
    | PolygonMenu(target: Polygon)        // the context menu of the one polygon hit
    | ChoiceMenu(entries: seq<MenuEntry>) // a menu to pick one of several polygons

  /** The drawing tool, reduced to its mode flag and the number of vertices
      clicked so far. Beginning a session enters drawing mode with no
      vertices; a click while drawing adds one; ending a session leaves
      drawing mode and yields a new, not yet stored polygon when at least
      three vertices were placed. */
  class PolygonTool {
    var IsInDrawingMode: bool
    var pendingVertices: nat

    constructor ()
      ensures !IsInDrawingMode && pendingVertices == 0
    {
      IsInDrawingMode, pendingVertices := false, 0;
    }

    method BeginDrawing()
      modifies this`IsInDrawingMode, this`pendingVertices
      ensures IsInDrawingMode && pendingVertices == 0
    {
      IsInDrawingMode, pendingVertices := true, 0;
    }

    /** A click on the map: a vertex while drawing, otherwise ignored here. */
    method AddVertex()
      modifies this
      ensures IsInDrawingMode == old(IsInDrawingMode)
      ensures pendingVertices == if IsInDrawingMode then old(pendingVertices) + 1 else old(pendingVertices)
    {
      if IsInDrawingMode {
        pendingVertices := pendingVertices + 1;
      }
    }

    method EndDrawing() returns (polygon: Polygon?)
      modifies this
      ensures !IsInDrawingMode && pendingVertices == 0
      ensures polygon != null <==> old(pendingVertices) >= 3
      ensures polygon != null ==> fresh(polygon) && polygon.ID == -1
    {
      polygon := null;
      if pendingVertices >= 3 {
        polygon := new Polygon(None);
      }
      IsInDrawingMode, pendingVertices := false, 0;
    }
  }

  /** The editing tool, reduced to the polygon being edited (null when idle).
      Beginning a session makes the polygon the target; ending a session
      writes the target back through the store's update and reports whether a
      session was active. */
  class PolygonEditing {
    const storage: DbPlaceholder
    var target: Polygon?

    constructor (storage: DbPlaceholder)
      ensures this.storage == storage && target == null
    {
      this.storage := storage;
      target := null;
    }

    method BeginEditing(polygon: Polygon)
      modifies this
      ensures target == polygon
    {
      target := polygon;
    }

    method EndEditing() returns (wasEditing: bool)
      modifies this, storage
      ensures target == null
      ensures wasEditing <==> old(target) != null
      ensures storage.polygons ==
        if old(target) == null then old(storage.polygons)
        else Updated(old(storage.polygons), old(target))
      ensures storage.polygons ==
        old(if target == null then storage.polygons else Updated(storage.polygons, target))
    {
      var edited := target;
      wasEditing := edited != null;
      if edited != null {
        var _ := storage.UpdatePolygon(edited);
      }
      target := null;
    }
  }

  class MainWindow {
    const storage: DbPlaceholder
    const polygonTool: PolygonTool
    const polygonEditing: PolygonEditing
    var polygonToolButtonChecked: bool

    /** The editing tool writes to the window's own store. */
    ghost predicate Valid()
    {
      polygonEditing.storage == storage
    }

    /** The state after the window has loaded (lines 123-134): an empty
        store and both tools idle. */
    constructor ()
      ensures Valid() && fresh(storage) && fresh(polygonTool) && fresh(polygonEditing)
      ensures storage.polygons == []
      ensures !polygonTool.IsInDrawingMode && polygonEditing.target == null
      ensures !polygonToolButtonChecked && polygonTool.pendingVertices == 0
    {
      var db := new DbPlaceholder();
      storage := db;
      polygonTool := new PolygonTool();
      polygonEditing := new PolygonEditing(db);
      polygonToolButtonChecked := false;
    }

    /** Ends a draw session if one is active: unchecks the tool button and
        stores the drawn polygon, if any, returning it; outside drawing mode
        it returns null and changes nothing. (Unchecking the button re-enters
        this method through the button's handler; drawing mode has already
        ended by then, so that nested call returns null at once.) */
    method EndPolygonDrawing() returns (polygon: Polygon?)
      requires Valid()
      modifies this, polygonTool, storage
      ensures !old(polygonTool.IsInDrawingMode) ==>
        polygon == null && unchanged(this, polygonTool, storage)
      ensures old(polygonTool.IsInDrawingMode) ==>
        !polygonTool.IsInDrawingMode && polygonTool.pendingVertices == 0 && !polygonToolButtonChecked &&
        (polygon != null <==> old(polygonTool.pendingVertices) >= 3)
      ensures polygon == null ==> storage.polygons == old(storage.polygons)
      ensures polygon != null ==>
        fresh(polygon) && polygon.ID == old(NextId(storage.polygons)) &&
        storage.polygons == old(storage.polygons) + [polygon]
    {
      if polygonTool.IsInDrawingMode {
        polygon := polygonTool.EndDrawing();
        polygonToolButtonChecked := false;
        if polygon != null {
          var _ := storage.InsertPolygonAndAssignID(polygon);
        }
        return;
      }
      return null;
    }

    /** A right-click ends any draw session and any edit session, both
        always; only when no polygon was drawn and no edit was active (a draw
        session with too few vertices ends without a polygon) does it act on
        the polygons under the cursor, `hits`:
        none, the one polygon's menu, or a menu listing every hit in order.
        `drawn` is the polygon the draw session yielded, if any. */
    method OnMapRightClick(hits: seq<Polygon>) returns (action: RightClickAction, ghost drawn: Polygon?)
      requires Valid()
      modifies this, polygonTool, polygonEditing, storage
      ensures !polygonTool.IsInDrawingMode && polygonEditing.target == null
      ensures old(polygonTool.IsInDrawingMode) ==> polygonTool.pendingVertices == 0 && !polygonToolButtonChecked
      ensures !old(polygonTool.IsInDrawingMode) ==>
        polygonTool.pendingVertices == old(polygonTool.pendingVertices) &&
        polygonToolButtonChecked == old(polygonToolButtonChecked)
      ensures drawn != null <==>
        old(polygonTool.IsInDrawingMode) && old(polygonTool.pendingVertices) >= 3
      ensures drawn != null ==> fresh(drawn) && drawn.ID == old(NextId(storage.polygons))
      ensures var afterDraw := if drawn == null then old(storage.polygons) else old(storage.polygons) + [drawn];
        storage.polygons ==
          if old(polygonEditing.target) == null then afterDraw
          else Updated(afterDraw, old(polygonEditing.target))
      ensures action.SessionEnded? <==> drawn != null || old(polygonEditing.target) != null
      ensures action.NoPolygon? <==> !action.SessionEnded? && |hits| == 0
      ensures action.PolygonMenu? <==> !action.SessionEnded? && |hits| == 1
      ensures action.PolygonMenu? ==> action.target == hits[0]
      ensures action.ChoiceMenu? <==> !action.SessionEnded? && |hits| > 1
      ensures action.ChoiceMenu? ==>
        |action.entries| == |hits| &&
        forall i :: 0 <= i < |hits| ==>
          action.entries[i].target == hits[i] && action.entries[i].header == MenuHeader(hits[i].Name)
    {
      var drawResult := EndPolygonDrawing();
      drawn := drawResult;
      var wasntDrawing := drawResult == null;
      var endedEditing := polygonEditing.EndEditing();
      var wasntEditing := !endedEditing;
      if wasntDrawing && wasntEditing {
        var count := |hits|;
        if count == 0 {
          action := NoPolygon;
        } else if count == 1 {
          action := PolygonMenu(hits[0]);
        } else {
          var entries := BuildChoiceMenu(hits);
          action := ChoiceMenu(entries);
        }
      } else {
        action := SessionEnded;
      }
    }

    /** The tool button becomes checked (lines 257-261): an active edit is
        written back and ended first, then a draw session begins. */
    method PolygonToolChecked()
      requires Valid()
      modifies this, polygonTool, polygonEditing, storage
      ensures polygonToolButtonChecked
      ensures polygonTool.IsInDrawingMode && polygonTool.pendingVertices == 0
      ensures polygonEditing.target == null
      ensures storage.polygons ==
        old(if polygonEditing.target == null then storage.polygons
            else Updated(storage.polygons, polygonEditing.target))
    {
      var _ := polygonEditing.EndEditing();
      polygonTool.BeginDrawing();
      polygonToolButtonChecked := true;
    }

    /** The tool button becomes unchecked (lines 263-266): the draw session,
        if any, ends and its polygon is stored. */
    method PolygonToolUnchecked()
      requires Valid()
      modifies this, polygonTool, storage
      ensures !polygonToolButtonChecked && !polygonTool.IsInDrawingMode
      ensures old(polygonTool.IsInDrawingMode) ==> polygonTool.pendingVertices == 0
      ensures !old(polygonTool.IsInDrawingMode) ==> polygonTool.pendingVertices == old(polygonTool.pendingVertices)
      ensures if old(polygonTool.IsInDrawingMode) && old(polygonTool.pendingVertices) >= 3
        then var n := |old(storage.polygons)|;
          |storage.polygons| == n + 1 && storage.polygons[..n] == old(storage.polygons) &&
          fresh(storage.polygons[n]) && storage.polygons[n].ID == old(NextId(storage.polygons))
        else storage.polygons == old(storage.polygons)
    {
      polygonToolButtonChecked := false;
      var _ := EndPolygonDrawing();
    }

    /** A key press (lines 114-121): Escape ends the draw session as a
        right-click or unchecking the button does; any other key changes
        nothing. */
    method OnKeyDown(isEscape: bool)
      requires Valid()
      modifies this, polygonTool, storage
      ensures !isEscape ==> unchanged(this, polygonTool, storage)
      ensures isEscape && !old(polygonTool.IsInDrawingMode) ==> unchanged(this, polygonTool, storage)
      ensures isEscape ==> !polygonTool.IsInDrawingMode
      ensures isEscape && old(polygonTool.IsInDrawingMode) ==>
        !polygonToolButtonChecked && polygonTool.pendingVertices == 0
      ensures if isEscape && old(polygonTool.IsInDrawingMode) && old(polygonTool.pendingVertices) >= 3
        then var n := |old(storage.polygons)|;
          |storage.polygons| == n + 1 && storage.polygons[..n] == old(storage.polygons) &&
          fresh(storage.polygons[n]) && storage.polygons[n].ID == old(NextId(storage.polygons))
        else storage.polygons == old(storage.polygons)
    {
      if isEscape {
        var _ := EndPolygonDrawing();
      }
    }

    /** The rename dialog (lines 297-307), with the operator's answer as
        input: `confirmed` when the dialog was accepted, `entered` the name
        typed in. Only an accepted dialog changes the name. */
    method RenamePolygonDialog(polygon: Polygon, confirmed: bool, entered: Option<string>) returns (renamed: bool)
      modifies polygon`Name
      ensures renamed == confirmed
      ensures polygon.Name == if confirmed then entered else old(polygon.Name)
    {
      renamed := false;
      if confirmed {
        polygon.Name := entered;
        renamed := true;
      }
    }

    /** The "edit" item of a polygon's menu (lines 191-195): the polygon
        becomes the editing tool's target. */
    method EditItemClicked(polygon: Polygon)
      modifies polygonEditing
      ensures polygonEditing.target == polygon
    {
      polygonEditing.BeginEditing(polygon);
    }

    /** The "rename" item of a polygon's menu (lines 205-209): the dialog
        may rename the polygon in place, then the store is updated with it;
        `found` is whether some stored entry carries its ID. */
    method RenameItemClicked(polygon: Polygon, confirmed: bool, entered: Option<string>) returns (found: bool)
      modifies polygon`Name, storage
      ensures polygon.Name == if confirmed then entered else old(polygon.Name)
      ensures found <==> HasId(old(storage.polygons), polygon.ID)
      ensures storage.polygons == Updated(old(storage.polygons), polygon)
    {
      var _ := RenamePolygonDialog(polygon, confirmed, entered);
      found := storage.UpdatePolygon(polygon);
    }

    /** The "delete" item of a polygon's menu (lines 219-226): the polygon is
        removed from the store; `removed` is whether it was stored. */
    method RemoveItemClicked(polygon: Polygon) returns (removed: bool)
      modifies storage
      ensures removed <==> polygon in old(storage.polygons)
      ensures storage.polygons == Sequences.RemoveFirst(old(storage.polygons), polygon)
    {
      removed := storage.RemovePolygon(polygon);
    }

    /** The window closes (lines 383-387): an active edit is written back and
        ended; an active draw session is left as it is. */
    method WindowClosed()
      requires Valid()
      modifies polygonEditing, storage
      ensures polygonEditing.target == null
      ensures storage.polygons ==
        if old(polygonEditing.target) == null then old(storage.polygons)
        else Updated(old(storage.polygons), old(polygonEditing.target))
    {
      var _ := polygonEditing.EndEditing();
    }
  }

  /** A session as the operator sees it: after loading, checking the tool
      button and clicking three vertices, a right-click stores the drawn
      polygon under ID 0 and ends there; a right-click on empty map then
      finds no polygon, and one over the stored polygon opens its menu.
      Editing it and right-clicking ends the edit with no menu and the store
      as it was; deleting it then empties the store, and a second delete
      finds nothing. */
  method DrawThenRightClickScenario()
    returns (first: RightClickAction, second: RightClickAction, third: RightClickAction,
             fourth: RightClickAction, removed: bool, removedAgain: bool)
    ensures first == SessionEnded && second == NoPolygon
    ensures third.PolygonMenu? && third.target.ID == 0
    ensures fourth == SessionEnded
    ensures removed && !removedAgain
  {
    var window := new MainWindow();
    window.PolygonToolChecked();
    window.polygonTool.AddVertex();
    window.polygonTool.AddVertex();
    window.polygonTool.AddVertex();
    ghost var drawn, ignored;
    first, drawn := window.OnMapRightClick([]);
    assert drawn != null && drawn.ID == 0 && window.storage.polygons == [drawn];
    assert !window.polygonToolButtonChecked;
    second, ignored := window.OnMapRightClick([]);
    var stored := window.storage.polygons[0];
    third, ignored := window.OnMapRightClick([stored]);
    assert third == PolygonMenu(drawn) && window.storage.polygons == [drawn];
    window.EditItemClicked(stored);
    fourth, ignored := window.OnMapRightClick([stored]);
    assert window.storage.polygons == [drawn];
    removed := window.RemoveItemClicked(stored);
    assert window.storage.polygons == [];
    removedAgain := window.RemoveItemClicked(stored);
  }
}

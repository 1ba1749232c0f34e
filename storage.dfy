/** DbPlaceholder, the in-memory polygon store of the main window
    (GPSManager/MainWindow.xaml.cs:79-112): a list of polygon references,
    IDs assigned as one more than the largest stored ID, removal by
    reference and update by ID. */
module Storage {
  import opened Polygons
  import Sequences

  /** The IDs of `ps`, in list order. */
  function Ids(ps: seq<Polygon>): (ids: seq<Int32>)
    reads ps
    ensures |ids| == |ps|
    ensures forall k :: 0 <= k < |ps| ==> ids[k] == ps[k].ID
  {
    seq(|ps|, k requires 0 <= k < |ps| reads ps => ps[k].ID)
  }

  /** Some entry of `ps` carries the ID `id`. */
  predicate HasId(ps: seq<Polygon>, id: Int32)
    reads ps
  {
    exists k :: 0 <= k < |ps| && ps[k].ID == id
  }

  /** No two entries carry the same ID (so no polygon is stored twice). */
  predicate UniqueIds(ps: seq<Polygon>)
    reads ps
  {
    forall i, j :: 0 <= i < j < |ps| ==> ps[i].ID != ps[j].ID
  }

  /** No entry has the ID Int32.MaxValue, the one value whose successor wraps. */
  predicate BelowMax(ps: seq<Polygon>)
    reads ps
  {
    forall k :: 0 <= k < |ps| ==> ps[k].ID < MaxInt32
  }

  // ---------------------------------------------------------------------------
  // ID assignment

  /** The largest stored ID (LINQ's Max(p => p.ID) over a non-empty list). */
  function MaxId(ps: seq<Polygon>): (m: Int32)
    reads ps
    requires |ps| > 0
    ensures HasId(ps, m)
    ensures forall k :: 0 <= k < |ps| ==> ps[k].ID <= m
  {
    if |ps| == 1 then ps[0].ID
    else
      var rest := MaxId(ps[1..]);
      assert forall k :: 1 <= k < |ps| ==> ps[k] == ps[1..][k - 1];
      if rest < ps[0].ID then ps[0].ID else rest
  }

  /** C#'s unchecked `x + 1` on an `int`: two's-complement wrap-around. */
  function Increment32(x: Int32): (r: Int32)
    ensures x < MaxInt32 ==> r == x + 1
    ensures x == MaxInt32 ==> r == MinInt32
  {
    (x + 1 - MinInt32) % 0x1_0000_0000 + MinInt32
  }

  /** The ID that InsertPolygonAndAssignID hands out for a store holding `ps`:
      the largest stored ID plus one, where an empty store counts as -1. */
  function NextId(ps: seq<Polygon>): (id: Int32)
    reads ps
    ensures |ps| == 0 ==> id == 0
    ensures id == MinInt32 || forall k :: 0 <= k < |ps| ==> ps[k].ID < id
    ensures id == MinInt32 ==> HasId(ps, MaxInt32)
  {
    var maxId: Int32 := if |ps| != 0 then MaxId(ps) else -1;
    Increment32(maxId)
  }

  /** Unless some stored ID is Int32.MaxValue, the new ID is 0 for an empty
      store and otherwise the largest stored ID plus one, above every stored
      ID; in particular it is not in use. */
  lemma NextIdIsMaxPlusOne(ps: seq<Polygon>)
    requires BelowMax(ps)
    ensures |ps| == 0 ==> NextId(ps) == 0
    ensures |ps| > 0 ==> HasId(ps, NextId(ps) - 1)
    ensures forall k :: 0 <= k < |ps| ==> ps[k].ID < NextId(ps)
    ensures !HasId(ps, NextId(ps))
  {
    if |ps| > 0 {
      var m := MaxId(ps);
      var k :| 0 <= k < |ps| && ps[k].ID == m;
      assert m < MaxInt32;
    }
  }

  /** The wrap-around case: when Int32.MaxValue is stored, the next ID is
      Int32.MinValue, which can already be in use. */
  lemma NextIdWrapsAtMaxValue(p: Polygon, q: Polygon)
    requires p.ID == MaxInt32 && q.ID == MinInt32
    ensures NextId([p, q]) == q.ID
    ensures HasId([p, q], NextId([p, q]))
  {
    assert MaxId([p, q]) == MaxInt32;
  }

  /** Appending a polygon that is not yet stored, under the ID the store
      hands out, keeps the IDs unique. */
  lemma InsertKeepsUniqueIds(ps: seq<Polygon>, p: Polygon)
    requires UniqueIds(ps) && BelowMax(ps)
    requires p !in ps && p.ID == NextId(ps)
    ensures UniqueIds(ps + [p])
  {
    NextIdIsMaxPlusOne(ps);
  }

  /** A store whose entries carry the IDs 0, 1, ..., in order, such as one
      filled by inserts without removals, hands out its length next. */
  lemma NextIdAfterSequentialIds(ps: seq<Polygon>)
    requires |ps| < MaxInt32
    requires forall k :: 0 <= k < |ps| ==> ps[k].ID == k
    ensures NextId(ps) == |ps|
  {
    if |ps| > 0 {
      var m := MaxId(ps);
      assert ps[|ps| - 1].ID == |ps| - 1;
      var j :| 0 <= j < |ps| && ps[j].ID == m;
    }
  }

  // ---------------------------------------------------------------------------
  // Update by ID

  /** The index of the first entry with the ID `id`, or -1 (List.Find). */
  function FindById(ps: seq<Polygon>, id: Int32): (i: int)
    reads ps
    ensures -1 <= i < |ps|
    ensures i == -1 <==> !HasId(ps, id)
    ensures 0 <= i ==> ps[i].ID == id && forall k :: 0 <= k < i ==> ps[k].ID != id
  {
    if |ps| == 0 then -1
    else if ps[0].ID == id then 0
    else
      var j := FindById(ps[1..], id);
      assert forall k :: 1 <= k < |ps| ==> ps[k] == ps[1..][k - 1];
      if j == -1 then -1 else j + 1
  }

  /** The list UpdatePolygon leaves behind: the first entry with the polygon's
      ID, when it is another object, is removed and the polygon appended. */
  function Updated(ps: seq<Polygon>, p: Polygon): (r: seq<Polygon>)
    reads ps, p
    ensures |r| == |ps|
    ensures !HasId(ps, p.ID) ==> r == ps
    ensures HasId(ps, p.ID) ==> p in r
  {
    var i := FindById(ps, p.ID);
    if i == -1 || ps[i] == p then ps
    else Sequences.RemoveFirst(ps, ps[i]) + [p]
  }

  /** The first entry with the polygon's ID is the one cut out, whatever
      other entries share it; the length is unchanged. */
  lemma {:induction false} UpdateReplacesFirstMatch(ps: seq<Polygon>, p: Polygon)
    requires HasId(ps, p.ID)
    requires ps[FindById(ps, p.ID)] != p
    ensures var i := FindById(ps, p.ID);
      Updated(ps, p) == ps[..i] + ps[i + 1..] + [p]
    ensures |Updated(ps, p)| == |ps|
  {
    var i := FindById(ps, p.ID);
    var matched := ps[i];
    assert matched !in ps[..i] by {
      forall k | 0 <= k < i ensures ps[k] != matched {
        assert ps[k].ID != p.ID;
      }
    }
    assert Sequences.IndexOf(ps, matched) == i;
  }

  /** Update leaves the list as it was exactly when no entry carries the
      polygon's ID or the first such entry is the polygon itself; in every
      other case the list changes. */
  lemma UpdateIsNoOpIff(ps: seq<Polygon>, p: Polygon)
    ensures Updated(ps, p) == ps <==>
      !HasId(ps, p.ID) || ps[FindById(ps, p.ID)] == p
  {
    var i := FindById(ps, p.ID);
    if i != -1 && ps[i] != p {
      UpdateReplacesFirstMatch(ps, p);
      MoveToEndChanges(ps, i, p);
    }
  }

  /** Update never creates a duplicate ID. */
  lemma UpdateKeepsUniqueIds(ps: seq<Polygon>, p: Polygon)
    requires UniqueIds(ps)
    ensures UniqueIds(Updated(ps, p))
  {
    var i := FindById(ps, p.ID);
    if i != -1 && ps[i] != p {
      UpdateReplacesFirstMatch(ps, p);
      MoveToEndKeepsUniqueIds(ps, i, p);
    }
  }

  /** Update keeps the multiset of stored IDs. */
  lemma UpdateKeepsIds(ps: seq<Polygon>, p: Polygon)
    ensures multiset(Ids(Updated(ps, p))) == multiset(Ids(ps))
  {
    var i := FindById(ps, p.ID);
    var u := Updated(ps, p);
    if i != -1 && ps[i] != p {
      UpdateReplacesFirstMatch(ps, p);
      assert u == ps[..i] + ps[i + 1..] + [p];
      MoveToEndKeepsIds(ps, i, p);
    } else {
      assert u == ps;
    }
  }

  /** Removal never creates a duplicate ID. */
  lemma RemoveKeepsUniqueIds(ps: seq<Polygon>, x: Polygon)
    requires UniqueIds(ps)
    ensures UniqueIds(Sequences.RemoveFirst(ps, x))
  {
    if x in ps {
      CutKeepsUniqueIds(ps, Sequences.IndexOf(ps, x));
    }
  }

  /** Cutting out one entry keeps the IDs unique. */
  lemma CutKeepsUniqueIds(ps: seq<Polygon>, i: nat)
    requires i < |ps| && UniqueIds(ps)
    ensures UniqueIds(ps[..i] + ps[i + 1..])
  {
    var r := ps[..i] + ps[i + 1..];
    forall a, b | 0 <= a < b < |r| ensures r[a].ID != r[b].ID {
      var a' := if a < i then a else a + 1;
      var b' := if b < i then b else b + 1;
      assert r[a] == ps[a'] && r[b] == ps[b'];
    }
  }

  // The facts below are about the shape Update produces, the entry at
  // `i` moved out and a polygon with the same ID appended.

  /** Replacing an entry by a different object appended at the end changes
      the list. */
  lemma MoveToEndChanges(ps: seq<Polygon>, i: nat, p: Polygon)
    requires i < |ps| && ps[i] != p
    ensures ps[..i] + ps[i + 1..] + [p] != ps
  {
    var tail := ps[i..];
    ShiftDiffers(tail, p);
    var r := ps[..i] + ps[i + 1..] + [p];
    assert r[i..] == tail[1..] + [p];
  }

  /** Dropping the head of a sequence and appending an element other than
      that head never gives back the sequence. */
  lemma {:induction false} ShiftDiffers(s: seq<Polygon>, x: Polygon)
    requires |s| > 0 && s[0] != x
    ensures s[1..] + [x] != s
  {
    if |s| == 1 {
      assert (s[1..] + [x])[0] == x;
    } else if s[1] != s[0] {
      assert (s[1..] + [x])[0] == s[1];
    } else {
      ShiftDiffers(s[1..], x);
      assert (s[1..] + [x])[1..] == s[1..][1..] + [x];
    }
  }

  /** Moving the entry at `i` out and appending one with its ID keeps the
      IDs unique. */
  lemma MoveToEndKeepsUniqueIds(ps: seq<Polygon>, i: nat, p: Polygon)
    requires i < |ps| && p.ID == ps[i].ID && UniqueIds(ps)
    ensures UniqueIds(ps[..i] + ps[i + 1..] + [p])
  {
    var r := ps[..i] + ps[i + 1..] + [p];
    forall a, b | 0 <= a < b < |r| ensures r[a].ID != r[b].ID {
      var a' := if a < i then a else a + 1;
      var b' := if b == |ps| - 1 then i else if b < i then b else b + 1;
      assert r[a].ID == ps[a'].ID && r[b].ID == ps[b'].ID;
    }
  }

  /** Moving the entry at `i` out and appending one with its ID keeps the
      multiset of IDs. */
  lemma MoveToEndKeepsIds(ps: seq<Polygon>, i: nat, p: Polygon)
    requires i < |ps| && p.ID == ps[i].ID
    ensures multiset(Ids(ps[..i] + ps[i + 1..] + [p])) == multiset(Ids(ps))
  {
    var r := ps[..i] + ps[i + 1..] + [p];
    var ids, rids := Ids(ps), Ids(r);
    var moved := ids[..i] + ids[i + 1..] + [ids[i]];
    assert rids == moved by {
      forall k | 0 <= k < |r| ensures rids[k] == moved[k] {
        if k < i {
          assert r[k] == ps[k];
        } else if k < |ps| - 1 {
          assert r[k] == ps[k + 1];
        }
      }
    }
    assert ids == ids[..i] + [ids[i]] + ids[i + 1..];
  }

  // ---------------------------------------------------------------------------
  // The store

  class DbPlaceholder {
    /** The stored polygons, in order; the read-only `Polygons` view is this list. */
    var polygons: seq<Polygon>

    constructor ()
      ensures polygons == []
    {
      polygons := [];
    }

    /** Gives `polygon` the next ID, writes it into the polygon, appends the
        polygon and returns the ID. */
    method InsertPolygonAndAssignID(polygon: Polygon) returns (newId: Int32)
      modifies this, polygon`ID
      ensures newId == old(NextId(polygons))
      ensures polygon.ID == newId
      ensures polygons == old(polygons) + [polygon]
      ensures polygon !in old(polygons) && old(UniqueIds(polygons)) && old(BelowMax(polygons))
        ==> UniqueIds(polygons)
    {
      var maxId: Int32 := if |polygons| != 0 then MaxId(polygons) else -1;
      newId := Increment32(maxId);
      polygon.ID := newId;
      polygons := polygons + [polygon];
      if polygon !in old(polygons) && old(UniqueIds(polygons)) && old(BelowMax(polygons)) {
        InsertKeepsUniqueIds(old(polygons), polygon);
      }
    }

    /** Removes the first occurrence of `polygon` (by reference) and reports
        whether there was one. */
    method RemovePolygon(polygon: Polygon) returns (removed: bool)
      modifies this
      ensures removed <==> polygon in old(polygons)
      ensures polygons == Sequences.RemoveFirst(old(polygons), polygon)
    {
      var i := Sequences.IndexOf(polygons, polygon);
      removed := i != -1;
      if removed {
        polygons := polygons[..i] + polygons[i + 1..];
      }
    }

    /** Finds the first stored polygon with `polygon`'s ID; reports false when
        there is none, and otherwise swaps it for `polygon` unless it is
        `polygon` itself. */
    method UpdatePolygon(polygon: Polygon) returns (found: bool)
      modifies this
      ensures found <==> HasId(old(polygons), polygon.ID)
      ensures polygons == Updated(old(polygons), polygon)
      ensures polygons == old(Updated(polygons, polygon))
    {
      var i := FindById(polygons, polygon.ID);
      if i == -1 {
        return false;
      }
      var oldPolygon := polygons[i];
      if oldPolygon != polygon {
        var _ := RemovePolygon(oldPolygon);
        polygons := polygons + [polygon];
      }
      return true;
    }
  }

  /** Insert into an empty store twice, remove the first polygon twice, insert
      a third: the IDs are 0, 1 and 2 (0 is not reused), the first removal
      succeeds and the second finds nothing. */
  method InsertRemoveInsertScenario() returns (first: Int32, second: Int32, third: Int32,
                                               removed: bool, removedAgain: bool)
    ensures first == 0 && second == 1 && third == 2
    ensures removed && !removedAgain
  {
    var db := new DbPlaceholder();
    var a := new Polygon(None);
    var b := new Polygon(None);
    var c := new Polygon(None);
    first := db.InsertPolygonAndAssignID(a);
    NextIdAfterSequentialIds(db.polygons);
    second := db.InsertPolygonAndAssignID(b);
    removed := db.RemovePolygon(a);
    removedAgain := db.RemovePolygon(a);
    assert db.polygons == [b] && b.ID == 1;
    assert MaxId([b]) == 1;
    third := db.InsertPolygonAndAssignID(c);
  }
}

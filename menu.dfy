/** The labels of the right-click disambiguation menu
    (GPSManager/MainWindow.xaml.cs:332-348): one item per polygon under the
    cursor, headed by the polygon's name or by a fixed placeholder. */
module Menu {
  import opened Polygons

  /** The header of a polygon whose name is null or blank. */
  const Unnamed: string := "<безымянный полигон>"

  /** .NET's Char.IsWhiteSpace: the Unicode space, line and paragraph
      separators, the controls U+0009 to U+000D, and U+0085. */
  predicate IsWhiteSpace(c: char)
  {
    var n := c as int;
    n == 0x20 || 0x09 <= n <= 0x0D || n == 0x85 || n == 0xA0 || n == 0x1680
    || 0x2000 <= n <= 0x200A || n == 0x2028 || n == 0x2029 || n == 0x202F
    || n == 0x205F || n == 0x3000
  }

  /** .NET's string.IsNullOrWhiteSpace. */
  predicate IsNullOrWhiteSpace(s: Option<string>)
  {
    s.None? || forall i :: 0 <= i < |s.value| ==> IsWhiteSpace(s.value[i])
  }

  /** The header of a polygon's item in the disambiguation menu. */
  function MenuHeader(name: Option<string>): (header: string)
    ensures header == Unnamed || name == Some(header)
  {
    if IsNullOrWhiteSpace(name) then Unnamed else name.value
  }

  /** The header is the placeholder exactly when the name is null or blank,
      or is itself the placeholder text; any other header is the name. */
  lemma MenuHeaderIsNameOrPlaceholder(name: Option<string>)
    ensures MenuHeader(name) == Unnamed <==> IsNullOrWhiteSpace(name) || name == Some(Unnamed)
    ensures !IsNullOrWhiteSpace(name) ==> name == Some(MenuHeader(name))
  {
    if name == Some(Unnamed) {
      assert !IsWhiteSpace(Unnamed[0]);
    }
  }

  /** A header always holds a visible character, so no item of the menu is
      blank. */
  lemma MenuHeaderNeverBlank(name: Option<string>)
    ensures !IsNullOrWhiteSpace(Some(MenuHeader(name)))
  {
    if IsNullOrWhiteSpace(name) {
      assert !IsWhiteSpace(Unnamed[0]);
    }
  }

  /** One item of the disambiguation menu: the polygon it selects and its header. */
  datatype MenuEntry = MenuEntry(target: Polygon, header: string)

  /** Builds the items of the disambiguation menu, one per hit, in the order
      the hits are iterated (lines 338-347). */
  method BuildChoiceMenu(hits: seq<Polygon>) returns (entries: seq<MenuEntry>)
    ensures |entries| == |hits|
    ensures forall i :: 0 <= i < |hits| ==>
      entries[i].target == hits[i] && entries[i].header == MenuHeader(hits[i].Name)
  {
    entries := [];
    for i := 0 to |hits|
      invariant |entries| == i
      invariant forall k :: 0 <= k < i ==>
        entries[k].target == hits[k] && entries[k].header == MenuHeader(hits[k].Name)
    {
      var polygon := hits[i];
      entries := entries + [MenuEntry(polygon, MenuHeader(polygon.Name))];
    }
  }
}

/**
 * SetUtils.toString: the items of a set, in the order its iterator yields
 * them, written one after another with an optional separator between them.
 * A set is its iteration sequence; an item is the text its toString gives,
 * or None for a null item.
 */
module SetUtils {
  import opened Results
  import opened Text

  /** How one item is written: its toString, or "null" for a null item. */
  function Render(item: Option<string>): string {
    match item
    case Some(text) => text
    case None => "null"
  }

  /** The rendered items, in iteration order. */
  function Rendered(items: seq<Option<string>>): (r: seq<string>)
    ensures |r| == |items| && forall i :: 0 <= i < |items| ==> r[i] == Render(items[i])
  {
    seq(|items|, i requires 0 <= i < |items| => Render(items[i]))
  }

  /**
   * SetUtils.toString(set, separator): "" for a null or empty set; otherwise
   * the rendered items joined by the separator, or simply concatenated when
   * the separator is null.
   */
  method ToString(elements: Option<seq<Option<string>>>, separator: Option<string>) returns (r: string)
    ensures elements.None? || |elements.value| == 0 ==> r == ""
    ensures elements.Some? ==> r == Join(Rendered(elements.value), separator.GetOr(""))
  {
    if elements.None? || |elements.value| == 0 {
      return "";
    }
    var items := elements.value;
    ghost var sep := separator.GetOr("");
    ghost var rendered := Rendered(items);
    var sb: Option<string> := None;
    var i := 0;
    while i < |items|
      invariant 0 <= i <= |items|
      invariant i == 0 <==> sb.None?
      invariant sb.Some? ==> sb.value == Join(rendered[..i], sep)
    {
      var piece := if items[i].Some? then items[i].value else "null";
      assert piece == rendered[i];
      JoinPrefixStep(rendered, i, sep);
      if sb.None? {
        sb := Some(piece);
      } else if separator.Some? {
        sb := Some(sb.value + separator.value + piece);
      } else {
        assert sb.value + sep + piece == sb.value + piece;
        sb := Some(sb.value + piece);
      }
      i := i + 1;
    }
    assert rendered[..i] == rendered;
    r := sb.value;
  }

  /** A one-item set is written as that item alone, with no separator. */
  lemma SingleItem(item: Option<string>, separator: Option<string>)
    ensures Join(Rendered([item]), separator.GetOr("")) == Render(item)
  {
  }

  /**
   * With a non-null separator, n items are written with exactly n - 1
   * separators: the length is the items' lengths plus (n - 1) separators.
   */
  lemma SeparatorCount(items: seq<Option<string>>, separator: string)
    requires |items| > 0
    ensures |Join(Rendered(items), separator)| == TotalLength(Rendered(items)) + (|items| - 1) * |separator|
  {
    JoinLength(Rendered(items), separator);
  }

  /** A null separator concatenates: the length is exactly the items' lengths. */
  lemma NullSeparatorConcatenates(items: seq<Option<string>>)
    requires |items| > 0
    ensures |Join(Rendered(items), Option<string>.None.GetOr(""))| == TotalLength(Rendered(items))
  {
    JoinLength(Rendered(items), "");
  }

  /**
   * When neither the separator character nor the items contain it, the
   * written string splits back into exactly the rendered items, in order.
   */
  lemma ItemsRecoverable(items: seq<Option<string>>, separator: string)
    requires |items| > 0 && |separator| == 1
    requires forall i :: 0 <= i < |items| ==> !Contains(Render(items[i]), separator)
    ensures Split(Join(Rendered(items), separator), separator) == Rendered(items)
  {
    JoinSplit(Rendered(items), separator);
  }

  /** {"a", null} joined by "," is written "a,null". */
  lemma NullItemExample()
    ensures Join(Rendered([Some("a"), None]), ",") == "a,null"
  {
    assert Rendered([Some("a"), None]) == ["a", "null"];
    assert ["a", "null"][..1] == ["a"];
  }
}

/** The visibility resolver (`updateVisibleItems`): a scroll offset is ignored when it
    is within 50 units of the last accepted one; otherwise it becomes the new anchor and
    the first row that intersects the 800-unit viewport `[offset, offset + 800)` decides
    which category and subcategory are shown as visible. */
module Visibility {
  import opened Seqs
  import opened Catalog
  import opened Flatten
  import opened Layout

  const ThrottleThreshold: int := 50
  const ViewportHeight: int := 800

  /** Where row `k` starts: the heights of the rows before it. */
  function RowStart(rows: seq<Row>, k: nat): nat
    requires k <= |rows|
  {
    SumHeights(rows[..k])
  }

  /** Row `k`'s span `[start, start + height)` meets the viewport below `offsetY`. */
  predicate Intersects(rows: seq<Row>, k: nat, offsetY: int)
    requires k < |rows|
  {
    RowStart(rows, k) < offsetY + ViewportHeight && RowStart(rows, k) + Height(rows[k]) > offsetY
  }

  /** The first row, at index `from` or later, that intersects the viewport. */
  function FirstVisibleFrom(rows: seq<Row>, offsetY: int, from: nat): (r: Option<nat>)
    requires from <= |rows|
    ensures r.Some? ==> from <= r.value < |rows| && Intersects(rows, r.value, offsetY)
                        && forall j :: from <= j < r.value ==> !Intersects(rows, j, offsetY)
    ensures r.None? ==> forall j :: from <= j < |rows| ==> !Intersects(rows, j, offsetY)
    decreases |rows| - from
  {
    if from == |rows| then None
    else if Intersects(rows, from, offsetY) then Some(from)
    else FirstVisibleFrom(rows, offsetY, from + 1)
  }

  function FirstVisible(rows: seq<Row>, offsetY: int): Option<nat>
  {
    FirstVisibleFrom(rows, offsetY, 0)
  }

  /** The visible category and subcategory the resolver produces. */
  datatype Visible = Visible(category: Option<Category>, subCategory: Option<SubCategory>)

  /** A category header shows its category and no subcategory; a subcategory header or
      an items grid shows its category and its subcategory. */
  function VisibleOf(e: Entry): (v: Visible)
    ensures v.category == Some(e.category)
    ensures v.subCategory.Some? <==> !e.CategoryEntry?
    ensures v.subCategory.Some? ==> v.subCategory.value == e.subCategory
  {
    match e
    case CategoryEntry(c) => Visible(Some(c), None)
    case SubCategoryEntry(c, s) => Visible(Some(c), Some(s))
    case ItemsGridEntry(c, s, _) => Visible(Some(c), Some(s))
  }

  /** The pair decided by the first intersecting row, or nothing when no row meets the
      viewport. */
  function VisiblePair(rows: seq<Row>, offsetY: int): Visible
  {
    match FirstVisible(rows, offsetY)
    case None => Visible(None, None)
    case Some(k) => VisibleOf(rows[k].entry)
  }

  /** The loop of `updateVisibleItems`: walk the rows accumulating their heights and stop
      at the first one that meets the viewport. */
  method ResolveVisible(data: seq<Row>, offsetY: int) returns (v: Visible)
    ensures v == VisiblePair(data, offsetY)
  {
    var currentVisibleCategory: Option<Category> := None;
    var currentVisibleSubCategory: Option<SubCategory> := None;
    var accumulatedHeight := 0;
    var i := 0;
    while i < |data|
      invariant i <= |data|
      invariant accumulatedHeight == RowStart(data, i)
      invariant FirstVisible(data, offsetY) == FirstVisibleFrom(data, offsetY, i)
      invariant currentVisibleCategory.None? && currentVisibleSubCategory.None?
      decreases |data| - i
    {
      var item := data[i];
      var itemHeight := 0;
      if item.entry.CategoryEntry? {
        itemHeight := CategoryHeaderHeight;
      } else if item.entry.SubCategoryEntry? {
        itemHeight := SubCategoryHeaderHeight;
      } else {
        var itemCount := |item.entry.items|;
        var rows := (itemCount + 1) / 2;
        itemHeight := rows * ItemRowHeight;
      }
      var itemStart := accumulatedHeight;
      var itemEnd := accumulatedHeight + itemHeight;
      var viewportStart := offsetY;
      var viewportEnd := offsetY + ViewportHeight;
      if itemStart < viewportEnd && itemEnd > viewportStart {
        assert Intersects(data, i, offsetY);
        if item.entry.CategoryEntry? {
          currentVisibleCategory := Some(item.entry.category);
        } else {
          currentVisibleCategory := Some(item.entry.category);
          currentVisibleSubCategory := Some(item.entry.subCategory);
        }
        break;
      }
      OffsetStep(data, i);
      accumulatedHeight := accumulatedHeight + itemHeight;
      i := i + 1;
    }
    v := Visible(currentVisibleCategory, currentVisibleSubCategory);
  }

  /** Some row is visible exactly when there are rows and the viewport overlaps the
      list: the offset is above the total height and the viewport's bottom edge is below
      the top. */
  lemma VisibleIffOverlap(rows: seq<Row>, offsetY: int)
    ensures FirstVisible(rows, offsetY).Some?
        <==> rows != [] && offsetY < SumHeights(rows) && offsetY + ViewportHeight > 0
  {
    assert rows[..|rows|] == rows;
    match FirstVisible(rows, offsetY)
    case Some(k) =>
      OffsetStep(rows, k);
      OffsetMonotone(rows, k + 1, |rows|);
    case None =>
      if rows != [] && offsetY < SumHeights(rows) && offsetY + ViewportHeight > 0 {
        var k := FirstEndingAfter(rows, offsetY);
        OffsetStep(rows, k);
        assert Intersects(rows, k, offsetY);
        assert false;
      }
  }

  /** The first row whose end lies below `offsetY`, when the list extends that far;
      every row before it ends at or above `offsetY`. */
  lemma FirstEndingAfter(rows: seq<Row>, offsetY: int) returns (k: nat)
    requires rows != [] && offsetY < SumHeights(rows)
    ensures k < |rows| && RowStart(rows, k) + Height(rows[k]) > offsetY
    ensures k == 0 || RowStart(rows, k) <= offsetY
  {
    k := 0;
    while RowStart(rows, k) + Height(rows[k]) <= offsetY
      invariant k < |rows|
      invariant k == 0 || RowStart(rows, k) <= offsetY
      decreases |rows| - k
    {
      OffsetStep(rows, k);
      if k + 1 == |rows| {
        assert false;
      }
      k := k + 1;
    }
  }

  /** For an offset inside the list, the resolved row is the one spanning the top edge
      of the viewport. */
  lemma VisibleRowSpansTopEdge(rows: seq<Row>, offsetY: int, k: nat)
    requires 0 <= offsetY
    requires FirstVisible(rows, offsetY) == Some(k)
    ensures RowStart(rows, k) <= offsetY < RowStart(rows, k) + Height(rows[k])
  {
    if RowStart(rows, k) > offsetY {
      assert k > 0;
      OffsetStep(rows, k - 1);
      OffsetMonotone(rows, k - 1, k);
      assert Intersects(rows, k - 1, offsetY);
    }
  }

  /** The throttle: an offset within 50 of the anchor is ignored. */
  predicate Throttled(offsetY: int, lastScrollOffset: int)
  {
    -ThrottleThreshold < offsetY - lastScrollOffset < ThrottleThreshold
  }

  /** The anchor after one scroll event. */
  function NextAnchor(lastScrollOffset: int, offsetY: int): int
  {
    if Throttled(offsetY, lastScrollOffset) then lastScrollOffset else offsetY
  }

  /** The anchor after a run of scroll events. */
  function AnchorAfter(lastScrollOffset: int, offsets: seq<int>): int
  {
    if offsets == [] then lastScrollOffset
    else NextAnchor(AnchorAfter(lastScrollOffset, offsets[..|offsets| - 1]), offsets[|offsets| - 1])
  }

  /** Starting from the initial anchor 0, offsets strictly between -50 and 50 are all
      ignored: the anchor stays 0 until an offset outside that band arrives. */
  lemma {:induction false} SmallOffsetsIgnored(offsets: seq<int>)
    requires forall i :: 0 <= i < |offsets| ==> -ThrottleThreshold < offsets[i] < ThrottleThreshold
    ensures AnchorAfter(0, offsets) == 0
  {
    if offsets != [] {
      SmallOffsetsIgnored(offsets[..|offsets| - 1]);
    }
  }

  /** An accepted offset is never within 50 of the anchor it replaced. */
  lemma AcceptedOffsetsAreApart(lastScrollOffset: int, offsetY: int)
    requires NextAnchor(lastScrollOffset, offsetY) != lastScrollOffset
    ensures offsetY - lastScrollOffset >= ThrottleThreshold || lastScrollOffset - offsetY >= ThrottleThreshold
  {
  }

  // ---- The bundled fallback market ----

  /** At the top of the fallback market the first category's header is visible; at
      offset 700, inside the second category's header, the second category is. */
  lemma MockVisibility()
    ensures VisiblePair(FlatListData(MockCategories(), None), 0) == Visible(Some(MockCategory(1)), None)
    ensures VisiblePair(FlatListData(MockCategories(), None), 700) == Visible(Some(MockCategory(2)), None)
  {
    var rows := FlatListData(MockCategories(), None);
    MockFlattensToFifteenRows();
    MockCategoryRows(1);
    MockCategoryRows(2);
    MockCategoryHeight(1);
    UnpinnedFollowsInput(MockCategories());
    var es1 := CategoryEntries(MockCategory(1));
    assert rows[0].entry == CategoryEntry(MockCategory(1));
    assert RowStart(rows, 0) == 0 by { assert rows[..0] == []; }
    assert FirstVisible(rows, 0) == Some(0);
    assert rows[5].entry == CategoryEntry(MockCategory(2));
    assert rows[..5] == Numbered(es1) by {
      assert Entries(MockCategories())[..5] == es1;
    }
    NumberedHeight(es1);
    assert RowStart(rows, 5) == 680;
    forall j | 0 <= j < 5 ensures !Intersects(rows, j, 700) {
      OffsetStep(rows, j);
      OffsetMonotone(rows, j + 1, 5);
    }
    FirstVisibleFromSkips(rows, 700, 0, 5);
    assert FirstVisible(rows, 700) == Some(5);
  }

  lemma {:induction false} FirstVisibleFromSkips(rows: seq<Row>, offsetY: int, from: nat, target: nat)
    requires from <= target < |rows|
    requires forall j :: from <= j < target ==> !Intersects(rows, j, offsetY)
    requires Intersects(rows, target, offsetY)
    ensures FirstVisibleFrom(rows, offsetY, from) == Some(target)
    decreases target - from
  {
    if from < target {
      FirstVisibleFromSkips(rows, offsetY, from + 1, target);
    }
  }
}

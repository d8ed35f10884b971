/** The layout estimator: every row gets a fixed estimated height (120 for a category
    header, 80 for a subcategory header, 200 per line of a two-column items grid), and a
    row's offset is the sum of the heights of the rows before it. The list's
    `getItemLayout` and both `scrollToCategory` variants rely on these numbers. */
module Layout {
  import opened Seqs
  import opened Catalog
  import opened Flatten

  const CategoryHeaderHeight: nat := 120
  const SubCategoryHeaderHeight: nat := 80
  const ItemRowHeight: nat := 200
  const ScrollDurationMin: real := 300.0
  const ScrollDurationMax: real := 800.0

  /** `Math.ceil(itemCount / 2)`: the fewest two-column lines that hold the items. */
  function GridRows(itemCount: nat): (rows: nat)
    ensures itemCount <= 2 * rows <= itemCount + 1
  {
    (itemCount + 1) / 2
  }

  function EntryHeight(e: Entry): nat
  {
    match e
    case CategoryEntry(_) => CategoryHeaderHeight
    case SubCategoryEntry(_, _) => SubCategoryHeaderHeight
    case ItemsGridEntry(_, _, items) => GridRows(|items|) * ItemRowHeight
  }

  function Height(r: Row): nat
  {
    EntryHeight(r.entry)
  }

  /** Total estimated height of `rows`. */
  function SumHeights(rows: seq<Row>): nat
  {
    if rows == [] then 0 else SumHeights(rows[..|rows| - 1]) + Height(rows[|rows| - 1])
  }

  /** Total estimated height of the rows showing `es`. */
  function EntriesHeight(es: seq<Entry>): nat
  {
    if es == [] then 0 else EntriesHeight(es[..|es| - 1]) + EntryHeight(es[|es| - 1])
  }

  /** The offset of row `i + 1` is the offset of row `i` plus row `i`'s length. */
  lemma OffsetStep(rows: seq<Row>, i: nat)
    requires i < |rows|
    ensures SumHeights(rows[..i + 1]) == SumHeights(rows[..i]) + Height(rows[i])
  {
    assert rows[..i + 1][..i] == rows[..i];
  }

  /** Offsets never decrease along the list. */
  lemma {:induction false} OffsetMonotone(rows: seq<Row>, i: nat, j: nat)
    requires i <= j <= |rows|
    ensures SumHeights(rows[..i]) <= SumHeights(rows[..j])
    decreases j - i
  {
    if i < j {
      OffsetMonotone(rows, i, j - 1);
      OffsetStep(rows, j - 1);
    }
  }

  /** Every height is even, so every offset is even and halving one is exact. */
  lemma {:induction false} SumHeightsEven(rows: seq<Row>)
    ensures SumHeights(rows) % 2 == 0
  {
    if rows != [] {
      var init, last := rows[..|rows| - 1], rows[|rows| - 1];
      SumHeightsEven(init);
      var h := Height(last);
      assert h == 2 * (h / 2) by {
        if last.entry.ItemsGridEntry? {
          var g := GridRows(|last.entry.items|);
          assert h == 2 * (g * 100);
        }
      }
      var a := SumHeights(init);
      assert a == 2 * (a / 2);
      assert SumHeights(rows) == 2 * (a / 2 + h / 2);
    }
  }

  lemma {:induction false} SumHeightsAppend(a: seq<Row>, b: seq<Row>)
    ensures SumHeights(a + b) == SumHeights(a) + SumHeights(b)
    decreases |b|
  {
    if b == [] {
      assert a + b == a;
    } else {
      SumHeightsAppend(a, b[..|b| - 1]);
      assert (a + b)[..|a + b| - 1] == a + b[..|b| - 1];
    }
  }

  lemma {:induction false} EntriesHeightAppend(a: seq<Entry>, b: seq<Entry>)
    ensures EntriesHeight(a + b) == EntriesHeight(a) + EntriesHeight(b)
    decreases |b|
  {
    if b == [] {
      assert a + b == a;
    } else {
      EntriesHeightAppend(a, b[..|b| - 1]);
      assert (a + b)[..|a + b| - 1] == a + b[..|b| - 1];
    }
  }

  /** Numbering rows does not change their heights. */
  lemma {:induction false} NumberedHeight(es: seq<Entry>)
    ensures SumHeights(Numbered(es)) == EntriesHeight(es)
  {
    if es != [] {
      var init, e := es[..|es| - 1], es[|es| - 1];
      NumberedHeight(init);
      var rows := Numbered(es);
      assert rows[..|rows| - 1] == Numbered(init);
      assert Height(rows[|rows| - 1]) == EntryHeight(e);
    }
  }

  /** The `for` loop shared by `getItemLayout` and the offset variant of
      `scrollToCategory`: the heights of the first `count` rows, added one by one. */
  method OffsetBefore(data: seq<Row>, count: nat) returns (offset: nat)
    requires count <= |data|
    ensures offset == SumHeights(data[..count])
  {
    offset := 0;
    for i := 0 to count
      invariant offset == SumHeights(data[..i])
    {
      var prevItem := data[i];
      OffsetStep(data, i);
      if prevItem.entry.CategoryEntry? {
        offset := offset + CategoryHeaderHeight;
      } else if prevItem.entry.SubCategoryEntry? {
        offset := offset + SubCategoryHeaderHeight;
      } else {
        var prevItemCount := |prevItem.entry.items|;
        var prevRows := (prevItemCount + 1) / 2;
        offset := offset + prevRows * ItemRowHeight;
      }
    }
  }

  /** What `getItemLayout` returns. */
  datatype ItemLayout = ItemLayout(length: nat, offset: nat, index: int)

  /** `getItemLayout(data, index)`: an index with no row gives length and offset 0;
      otherwise the row's estimated height and the sum of the heights before it. */
  method GetItemLayout(data: seq<Row>, index: int) returns (layout: ItemLayout)
    ensures layout.index == index
    ensures !(0 <= index < |data|) ==> layout.length == 0 && layout.offset == 0
    ensures 0 <= index < |data| ==>
      layout.length == Height(data[index]) && layout.offset == SumHeights(data[..index])
  {
    if !(0 <= index < |data|) {
      return ItemLayout(0, 0, index);
    }
    var item := data[index];
    var itemHeight := 0;
    if item.entry.CategoryEntry? {
      itemHeight := CategoryHeaderHeight;
    } else if item.entry.SubCategoryEntry? {
      itemHeight := SubCategoryHeaderHeight;
    } else {
      var itemCount := |item.entry.items|;
      var rows := (itemCount + 1) / 2;
      itemHeight := rows * ItemRowHeight;
    }
    var offset := OffsetBefore(data, index);
    layout := ItemLayout(itemHeight, offset, index);
  }

  /** Consecutive layouts tile the list: each row starts where the previous one ends,
      and the last one ends at the total height. */
  lemma LayoutsTile(data: seq<Row>, i: nat)
    requires i < |data|
    ensures SumHeights(data[..i + 1]) == SumHeights(data[..i]) + Height(data[i])
    ensures SumHeights(data[..i]) + Height(data[i]) <= SumHeights(data)
    ensures i + 1 == |data| ==> SumHeights(data[..i]) + Height(data[i]) == SumHeights(data)
  {
    OffsetStep(data, i);
    OffsetMonotone(data, i + 1, |data|);
    assert data[..|data|] == data;
  }

  /** `min(max(distance / 2, 300), 800)`, the animation length of the offset scroll
      (in milliseconds): half the distance, clamped to [300, 800]. */
  function ScrollDuration(distance: nat): (d: real)
    ensures ScrollDurationMin <= d <= ScrollDurationMax
    ensures ScrollDurationMin <= distance as real / 2.0 <= ScrollDurationMax ==> d == distance as real / 2.0
    ensures distance as real / 2.0 < ScrollDurationMin ==> d == ScrollDurationMin
    ensures distance as real / 2.0 > ScrollDurationMax ==> d == ScrollDurationMax
  {
    var half := distance as real / 2.0;
    var atLeast := if half > ScrollDurationMin then half else ScrollDurationMin;
    if atLeast < ScrollDurationMax then atLeast else ScrollDurationMax
  }

  /** A longer scroll never animates faster. */
  lemma ScrollDurationMonotone(a: nat, b: nat)
    requires a <= b
    ensures ScrollDuration(a) <= ScrollDuration(b)
  {
  }

  /** The index of the first category header row for `categoryId` (`findIndex` on the
      rows, -1 as `None`). */
  function CategoryRowIndex(data: seq<Row>, categoryId: int): (r: Option<nat>)
    ensures r.Some? ==> r.value < |data| && IsCategoryRow(data[r.value], categoryId)
                        && forall j :: 0 <= j < r.value ==> !IsCategoryRow(data[j], categoryId)
    ensures r.None? ==> forall j :: 0 <= j < |data| ==> !IsCategoryRow(data[j], categoryId)
    decreases |data|
  {
    if data == [] then None
    else if IsCategoryRow(data[0], categoryId) then Some(0)
    else match CategoryRowIndex(data[1..], categoryId)
      case None => None
      case Some(i) => Some(i + 1)
  }

  predicate IsCategoryRow(r: Row, categoryId: int)
  {
    r.entry.CategoryEntry? && r.entry.category.id == categoryId
  }

  // ---- The bundled fallback market ----

  lemma MockCategoryHeight(id: int)
    ensures EntriesHeight(CategoryEntries(MockCategory(id))) == 680
  {
    var es := CategoryEntries(MockCategory(id));
    MockCategoryRows(id);
    assert es[..1][..0] == [];
    assert EntriesHeight(es[..1]) == 120;
    assert es[..2][..1] == es[..1];
    assert EntriesHeight(es[..2]) == 200;
    assert es[..3][..2] == es[..2];
    assert GridRows(|es[2].items|) == 1;
    assert EntriesHeight(es[..3]) == 400;
    assert es[..4][..3] == es[..3];
    assert EntriesHeight(es[..4]) == 480;
    assert es[..5] == es;
    assert GridRows(|es[4].items|) == 1;
  }

  /** Without a selection the fallback market is 2040 units tall: 680 per category. */
  lemma MockTotalHeight()
    ensures SumHeights(FlatListData(MockCategories(), None)) == 2040
  {
    var m := MockCategories();
    MockFlattensToFifteenRows();
    MockCategoryHeight(1);
    MockCategoryHeight(2);
    MockCategoryHeight(3);
    EntriesHeightAppend(CategoryEntries(MockCategory(1)), CategoryEntries(MockCategory(2)));
    EntriesHeightAppend(CategoryEntries(MockCategory(1)) + CategoryEntries(MockCategory(2)), CategoryEntries(MockCategory(3)));
    NumberedHeight(Entries(m));
    UnpinnedFollowsInput(m);
  }
}

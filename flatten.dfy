/** The hierarchy flattener (`getFlatListData`): the category tree becomes one list of
    rows for a single scroll surface. The selected category is moved to the front;
    then every category emits its header row, and every subcategory its header row
    followed, when it has items, by one items-grid row. Each row carries a string key
    (`category-{id}`, `subcategory-{id}`, `items-{id}`) and its position. */
module Flatten {
  import opened Seqs
  import opened Text
  import opened Catalog
  import Order

  /** What a row shows (the `type` tag with its payload). */
  datatype Entry =
    | CategoryEntry(category: Category)
    | SubCategoryEntry(category: Category, subCategory: SubCategory)
    | ItemsGridEntry(category: Category, subCategory: SubCategory, items: seq<Item>)

  /** A list row: its payload, its key and its `index`. */
  datatype Row = Row(entry: Entry, id: string, index: nat)

  function RowId(e: Entry): string
  {
    match e
    case CategoryEntry(c) => "category-" + IntToString(c.id)
    case SubCategoryEntry(_, s) => "subcategory-" + IntToString(s.id)
    case ItemsGridEntry(_, s, _) => "items-" + IntToString(s.id)
  }

  /** The rows of one subcategory: its header, then its items grid if it has items. */
  function SubCategoryBlock(c: Category, s: SubCategory): seq<Entry>
  {
    [SubCategoryEntry(c, s)] + (if s.items != [] then [ItemsGridEntry(c, s, s.items)] else [])
  }

  function SubCategoryEntries(c: Category, subs: seq<SubCategory>): seq<Entry>
  {
    if subs == [] then []
    else SubCategoryEntries(c, subs[..|subs| - 1]) + SubCategoryBlock(c, subs[|subs| - 1])
  }

  /** The rows of one category: its header, then the rows of its subcategories. */
  function CategoryEntries(c: Category): seq<Entry>
  {
    [CategoryEntry(c)] + SubCategoryEntries(c, c.subCategories)
  }

  function Entries(cats: seq<Category>): seq<Entry>
  {
    if cats == [] then [] else Entries(cats[..|cats| - 1]) + CategoryEntries(cats[|cats| - 1])
  }

  /** Rows for the entries, each keyed and numbered by its position. */
  function Numbered(es: seq<Entry>): seq<Row>
  {
    seq(|es|, i requires 0 <= i < |es| => Row(es[i], RowId(es[i]), i))
  }

  /** The category order of the list: the selected category first, the others in
      their order with its id filtered out. */
  function OrderedCategories(cats: seq<Category>, selected: Option<Category>): seq<Category>
  {
    Order.Pinned(cats, selected, CategoryId)
  }

  /** The rows `getFlatListData` returns for `categories` and the selected category. */
  function FlatListData(cats: seq<Category>, selected: Option<Category>): (rows: seq<Row>)
    ensures cats == [] ==> rows == []
    ensures forall i :: 0 <= i < |rows| ==> rows[i].index == i && rows[i].id == RowId(rows[i].entry)
  {
    if cats == [] then [] else Numbered(Entries(OrderedCategories(cats, selected)))
  }

  lemma NumberedSnoc(es: seq<Entry>, e: Entry)
    ensures Numbered(es + [e]) == Numbered(es) + [Row(e, RowId(e), |es|)]
  {
  }

  lemma EntriesSnoc(cats: seq<Category>, i: nat)
    requires i < |cats|
    ensures Entries(cats[..i + 1]) == Entries(cats[..i]) + CategoryEntries(cats[i])
  {
    assert cats[..i + 1][..i] == cats[..i];
  }

  lemma SubCategoryEntriesSnoc(c: Category, subs: seq<SubCategory>, i: nat)
    requires i < |subs|
    ensures SubCategoryEntries(c, subs[..i + 1]) == SubCategoryEntries(c, subs[..i]) + SubCategoryBlock(c, subs[i])
  {
    assert subs[..i + 1][..i] == subs[..i];
  }

  /** The `forEach` callback of `getFlatListData` for one category: push its header
      row, then each subcategory's header row and, when the subcategory has items, its
      grid row, numbering each by the length of the list so far. */
  method PushCategoryRows(data0: seq<Row>, ghost before: seq<Entry>, category: Category) returns (data: seq<Row>)
    requires data0 == Numbered(before)
    ensures data == Numbered(before + CategoryEntries(category))
  {
    ghost var es := before;
    data := data0;
    NumberedSnoc(es, CategoryEntry(category));
    data := data + [Row(CategoryEntry(category), "category-" + IntToString(category.id), |data|)];
    es := es + [CategoryEntry(category)];
    ghost var header := es;
    var subs := category.subCategories;
    for si := 0 to |subs|
      invariant es == header + SubCategoryEntries(category, subs[..si])
      invariant data == Numbered(es)
    {
      var subCategory := subs[si];
      SubCategoryEntriesSnoc(category, subs, si);
      NumberedSnoc(es, SubCategoryEntry(category, subCategory));
      data := data + [Row(SubCategoryEntry(category, subCategory), "subcategory-" + IntToString(subCategory.id), |data|)];
      es := es + [SubCategoryEntry(category, subCategory)];
      if |subCategory.items| > 0 {
        NumberedSnoc(es, ItemsGridEntry(category, subCategory, subCategory.items));
        data := data + [Row(ItemsGridEntry(category, subCategory, subCategory.items), "items-" + IntToString(subCategory.id), |data|)];
        es := es + [ItemsGridEntry(category, subCategory, subCategory.items)];
      }
    }
    assert subs[..|subs|] == subs;
    assert es == before + CategoryEntries(category);
  }

  /** `getFlatListData`: no rows without categories; otherwise the selected category
      is pinned first and every category's rows are pushed in that order. */
  method GetFlatListData(categories: seq<Category>, selectedCategory: Option<Category>) returns (data: seq<Row>)
    ensures data == FlatListData(categories, selectedCategory)
  {
    data := [];
    if |categories| == 0 {
      return;
    }
    var orderedCategories := categories;
    if selectedCategory.Some? {
      var selected := selectedCategory.value;
      orderedCategories := Order.Without(orderedCategories, selected.id, CategoryId);
      orderedCategories := [selected] + orderedCategories;
    }
    assert orderedCategories == OrderedCategories(categories, selectedCategory);
    for ci := 0 to |orderedCategories|
      invariant data == Numbered(Entries(orderedCategories[..ci]))
    {
      EntriesSnoc(orderedCategories, ci);
      data := PushCategoryRows(data, Entries(orderedCategories[..ci]), orderedCategories[ci]);
    }
    assert orderedCategories[..|orderedCategories|] == orderedCategories;
  }

  /** Flattening distributes over concatenation of category lists. */
  lemma {:induction false} EntriesAppend(a: seq<Category>, b: seq<Category>)
    ensures Entries(a + b) == Entries(a) + Entries(b)
    decreases |b|
  {
    if b == [] {
      assert a + b == a;
    } else {
      var init, last := b[..|b| - 1], b[|b| - 1];
      EntriesAppend(a, init);
      assert (a + b)[..|a + b| - 1] == a + init;
      assert (a + b)[|a + b| - 1] == last;
      assert Entries(a + b) == Entries(a + init) + CategoryEntries(last);
      assert Entries(b) == Entries(init) + CategoryEntries(last);
    }
  }

  /** With a category selected, row 0 is that category's header, even when the
      category is not among `cats`; the rest of the rows are those of the other
      categories in their order. */
  lemma SelectedCategoryLeads(cats: seq<Category>, p: Category)
    requires cats != []
    ensures var rows := FlatListData(cats, Some(p));
            |rows| > 0 && rows[0] == Row(CategoryEntry(p), RowId(CategoryEntry(p)), 0)
    ensures FlatListData(cats, Some(p))
            == Numbered(CategoryEntries(p) + Entries(Order.Without(cats, p.id, CategoryId)))
  {
    var rest := Order.Without(cats, p.id, CategoryId);
    assert OrderedCategories(cats, Some(p)) == [p] + rest;
    EntriesAppend([p], rest);
    assert [p][..0] == [];
    assert Entries([p]) == CategoryEntries(p);
  }

  /** With no category selected the list follows the input order. */
  lemma UnpinnedFollowsInput(cats: seq<Category>)
    ensures FlatListData(cats, None) == Numbered(Entries(cats))
  {
  }

  // ---- What the rows contain ----

  /** The categories whose header rows appear, in row order. */
  function CategoryHeaders(es: seq<Entry>): seq<Category>
  {
    if es == [] then []
    else CategoryHeaders(es[..|es| - 1]) + (if es[|es| - 1].CategoryEntry? then [es[|es| - 1].category] else [])
  }

  /** The subcategories whose header rows appear, in row order. */
  function SubCategoryHeaders(es: seq<Entry>): seq<SubCategory>
  {
    if es == [] then []
    else SubCategoryHeaders(es[..|es| - 1]) + (if es[|es| - 1].SubCategoryEntry? then [es[|es| - 1].subCategory] else [])
  }

  lemma {:induction false} HeadersAppend(a: seq<Entry>, b: seq<Entry>)
    ensures CategoryHeaders(a + b) == CategoryHeaders(a) + CategoryHeaders(b)
    ensures SubCategoryHeaders(a + b) == SubCategoryHeaders(a) + SubCategoryHeaders(b)
    decreases |b|
  {
    if b == [] {
      assert a + b == a;
    } else {
      HeadersAppend(a, b[..|b| - 1]);
      assert (a + b)[..|a + b| - 1] == a + b[..|b| - 1];
    }
  }

  /** What one subcategory block contributes: no category header, its own
      subcategory header and a grid of its items. */
  lemma BlockFacts(c: Category, s: SubCategory)
    ensures CategoryHeaders(SubCategoryBlock(c, s)) == []
    ensures SubCategoryHeaders(SubCategoryBlock(c, s)) == [s]
    ensures GridItemCount(SubCategoryBlock(c, s)) == |s.items|
  {
    var blk := SubCategoryBlock(c, s);
    var head := [SubCategoryEntry(c, s)];
    assert head[..0] == [];
    assert head[|head| - 1] == SubCategoryEntry(c, s);
    assert CategoryHeaders(head) == CategoryHeaders([]) + [];
    assert SubCategoryHeaders(head) == SubCategoryHeaders([]) + [s];
    assert GridItemCount(head) == GridItemCount([]) + 0;
    if s.items != [] {
      assert blk[..1] == head;
    } else {
      assert blk == head;
    }
  }

  lemma {:induction false} SubCategoryEntriesHeaders(c: Category, subs: seq<SubCategory>)
    ensures CategoryHeaders(SubCategoryEntries(c, subs)) == []
    ensures SubCategoryHeaders(SubCategoryEntries(c, subs)) == subs
  {
    if subs != [] {
      var init, s := subs[..|subs| - 1], subs[|subs| - 1];
      SubCategoryEntriesHeaders(c, init);
      HeadersAppend(SubCategoryEntries(c, init), SubCategoryBlock(c, s));
      BlockFacts(c, s);
      assert init + [s] == subs;
    }
  }

  /** Every category contributes exactly one header row, in list order, and every
      subcategory exactly one header row, in order. */
  lemma {:induction false} HeadersInOrder(cats: seq<Category>)
    ensures CategoryHeaders(Entries(cats)) == cats
    ensures SubCategoryHeaders(Entries(cats)) == AllSubCategories(cats)
  {
    if cats != [] {
      var init, c := cats[..|cats| - 1], cats[|cats| - 1];
      HeadersInOrder(init);
      HeadersAppend(Entries(init), CategoryEntries(c));
      HeadersAppend([CategoryEntry(c)], SubCategoryEntries(c, c.subCategories));
      SubCategoryEntriesHeaders(c, c.subCategories);
      assert [CategoryEntry(c)][..0] == [];
      assert init + [c] == cats;
    }
  }

  // ---- Row structure ----

  /** An items grid sits right after the header of its own subcategory, shows that
      subcategory's items, and is never empty. */
  ghost predicate GridsFollowTheirHeader(es: seq<Entry>)
  {
    forall k :: 0 <= k < |es| && es[k].ItemsGridEntry? ==>
      k > 0 && es[k - 1] == SubCategoryEntry(es[k].category, es[k].subCategory)
      && es[k].items == es[k].subCategory.items && es[k].items != []
  }

  /** A subcategory header is followed by an items grid exactly when the subcategory
      has at least one item: a row is a grid exactly when the row before it is the
      header of a subcategory with items, and the list does not end on such a header. */
  ghost predicate GridIffItems(es: seq<Entry>)
  {
    (forall k :: 0 <= k < |es| - 1 ==>
       (es[k + 1].ItemsGridEntry? <==> es[k].SubCategoryEntry? && es[k].subCategory.items != []))
    && (es != [] && es[|es| - 1].SubCategoryEntry? ==> es[|es| - 1].subCategory.items == [])
  }

  /** Subcategory and grid rows continue the category of the row before them, so the
      first row is a category header and each category's rows follow its header. */
  ghost predicate NestedInCategory(es: seq<Entry>)
  {
    forall k :: 0 <= k < |es| && !es[k].CategoryEntry? ==> k > 0 && es[k - 1].category == es[k].category
  }

  ghost predicate WellFormed(es: seq<Entry>)
  {
    GridsFollowTheirHeader(es) && GridIffItems(es) && NestedInCategory(es)
  }

  ghost predicate AllOfCategory(es: seq<Entry>, c: Category)
  {
    forall k :: 0 <= k < |es| ==> es[k].category == c
  }

  /** Appending the rows of one more subcategory of the same category keeps the list
      well formed. */
  lemma WellFormedExtend(a: seq<Entry>, c: Category, s: SubCategory)
    requires WellFormed(a) && AllOfCategory(a, c) && a != []
    ensures WellFormed(a + SubCategoryBlock(c, s)) && AllOfCategory(a + SubCategoryBlock(c, s), c)
  {
    var b := SubCategoryBlock(c, s);
    var r := a + b;
    var n := |a|;
    forall k | 0 <= k < |r| && r[k].ItemsGridEntry?
      ensures k > 0 && r[k - 1] == SubCategoryEntry(r[k].category, r[k].subCategory)
              && r[k].items == r[k].subCategory.items && r[k].items != []
    {
      if k < n {
        assert r[k] == a[k];
        assert r[k - 1] == a[k - 1];
      } else {
        assert k == n + 1;
      }
    }
    forall k | 0 <= k < |r| - 1
      ensures r[k + 1].ItemsGridEntry? <==> r[k].SubCategoryEntry? && r[k].subCategory.items != []
    {
      if k + 1 < n {
        assert r[k] == a[k] && r[k + 1] == a[k + 1];
      } else if k + 1 == n {
        assert r[k] == a[n - 1] && r[k + 1] == b[0];
      } else {
        assert r[k] == b[0] && r[k + 1] == b[1];
      }
    }
    assert r[|r| - 1] == b[|b| - 1];
    forall k | 0 <= k < |r| && !r[k].CategoryEntry?
      ensures k > 0 && r[k - 1].category == r[k].category
    {
      if k < n {
        assert r[k] == a[k];
        assert r[k - 1] == a[k - 1];
      } else {
        assert r[k - 1].category == c;
      }
    }
  }

  lemma {:induction false} CategoryBlockWellFormed(c: Category, subs: seq<SubCategory>)
    ensures WellFormed([CategoryEntry(c)] + SubCategoryEntries(c, subs))
    ensures AllOfCategory([CategoryEntry(c)] + SubCategoryEntries(c, subs), c)
  {
    if subs == [] {
      assert [CategoryEntry(c)] + SubCategoryEntries(c, subs) == [CategoryEntry(c)];
    } else {
      var init, s := subs[..|subs| - 1], subs[|subs| - 1];
      CategoryBlockWellFormed(c, init);
      WellFormedExtend([CategoryEntry(c)] + SubCategoryEntries(c, init), c, s);
      assert [CategoryEntry(c)] + SubCategoryEntries(c, subs)
          == ([CategoryEntry(c)] + SubCategoryEntries(c, init)) + SubCategoryBlock(c, s);
    }
  }

  /** Concatenating well-formed lists is well formed when the second starts with a
      category header. */
  lemma WellFormedAppend(a: seq<Entry>, b: seq<Entry>)
    requires WellFormed(a) && WellFormed(b)
    requires b != [] ==> b[0].CategoryEntry?
    ensures WellFormed(a + b)
  {
    var r := a + b;
    var n := |a|;
    forall k | 0 <= k < |r| && r[k].ItemsGridEntry?
      ensures k > 0 && r[k - 1] == SubCategoryEntry(r[k].category, r[k].subCategory)
              && r[k].items == r[k].subCategory.items && r[k].items != []
    {
      if k < n {
        assert r[k] == a[k];
        assert r[k - 1] == a[k - 1];
      } else {
        assert r[k] == b[k - n];
        assert r[k - 1] == b[k - n - 1];
      }
    }
    forall k | 0 <= k < |r| - 1
      ensures r[k + 1].ItemsGridEntry? <==> r[k].SubCategoryEntry? && r[k].subCategory.items != []
    {
      if k + 1 < n {
        assert r[k] == a[k] && r[k + 1] == a[k + 1];
      } else if k + 1 == n {
        assert r[k] == a[n - 1] && r[k + 1] == b[0];
      } else {
        assert r[k] == b[k - n] && r[k + 1] == b[k - n + 1];
      }
    }
    if b != [] {
      assert r[|r| - 1] == b[|b| - 1];
    } else {
      assert r == a;
    }
    forall k | 0 <= k < |r| && !r[k].CategoryEntry?
      ensures k > 0 && r[k - 1].category == r[k].category
    {
      if k < n {
        assert r[k] == a[k];
        assert r[k - 1] == a[k - 1];
      } else {
        assert r[k] == b[k - n];
        assert r[k - 1] == b[k - n - 1];
      }
    }
  }

  /** Every flattened list is well formed: each category's header is followed by its
      subcategories' rows, and an items grid follows a subcategory header exactly
      when that subcategory has items. */
  lemma {:induction false} EntriesWellFormed(cats: seq<Category>)
    ensures WellFormed(Entries(cats))
  {
    if cats != [] {
      var init, c := cats[..|cats| - 1], cats[|cats| - 1];
      EntriesWellFormed(init);
      CategoryBlockWellFormed(c, c.subCategories);
      WellFormedAppend(Entries(init), CategoryEntries(c));
    }
  }

  /** Every row belongs to one of the listed categories, and every subcategory or grid
      row to a subcategory of its row's category. */
  lemma {:induction false} EntriesOwnership(cats: seq<Category>)
    ensures forall e :: e in Entries(cats) ==>
      e.category in cats && (!e.CategoryEntry? ==> e.subCategory in e.category.subCategories)
  {
    if cats != [] {
      var init, c := cats[..|cats| - 1], cats[|cats| - 1];
      EntriesOwnership(init);
      SubCategoryEntriesOwnership(c, c.subCategories);
      assert cats == init + [c];
    }
  }

  lemma {:induction false} SubCategoryEntriesOwnership(c: Category, subs: seq<SubCategory>)
    ensures forall e :: e in SubCategoryEntries(c, subs) ==>
      e.category == c && !e.CategoryEntry? && e.subCategory in subs
  {
    if subs != [] {
      var init := subs[..|subs| - 1];
      SubCategoryEntriesOwnership(c, init);
      assert subs == init + [subs[|subs| - 1]];
    }
  }

  // ---- Item totals ----

  /** How many items the grid rows of `es` show. */
  function GridItemCount(es: seq<Entry>): nat
  {
    if es == [] then 0
    else GridItemCount(es[..|es| - 1]) + (if es[|es| - 1].ItemsGridEntry? then |es[|es| - 1].items| else 0)
  }

  lemma {:induction false} GridItemCountAppend(a: seq<Entry>, b: seq<Entry>)
    ensures GridItemCount(a + b) == GridItemCount(a) + GridItemCount(b)
    decreases |b|
  {
    if b == [] {
      assert a + b == a;
    } else {
      GridItemCountAppend(a, b[..|b| - 1]);
      assert (a + b)[..|a + b| - 1] == a + b[..|b| - 1];
    }
  }

  /** The item total printed in a category header equals the number of items its
      grids show. */
  lemma {:induction false} HeaderTotalMatchesGrids(c: Category, subs: seq<SubCategory>)
    ensures GridItemCount(SubCategoryEntries(c, subs)) == ItemTotal(subs)
  {
    if subs != [] {
      var init, s := subs[..|subs| - 1], subs[|subs| - 1];
      HeaderTotalMatchesGrids(c, init);
      GridItemCountAppend(SubCategoryEntries(c, init), SubCategoryBlock(c, s));
      BlockFacts(c, s);
      ItemTotalAppend(init, [s]);
      assert init + [s] == subs;
      assert [s][..0] == [];
    }
  }

  // ---- The bundled fallback market ----

  lemma MockCategoryRows(id: int)
    ensures CategoryEntries(MockCategory(id)) == [
      CategoryEntry(MockCategory(id)),
      SubCategoryEntry(MockCategory(id), MockCategory(id).subCategories[0]),
      ItemsGridEntry(MockCategory(id), MockCategory(id).subCategories[0], MockCategory(id).subCategories[0].items),
      SubCategoryEntry(MockCategory(id), MockCategory(id).subCategories[1]),
      ItemsGridEntry(MockCategory(id), MockCategory(id).subCategories[1], MockCategory(id).subCategories[1].items)]
  {
    var c := MockCategory(id);
    var subs := c.subCategories;
    assert subs[..1][..0] == [];
    assert subs[..1] == [subs[0]];
    assert SubCategoryEntries(c, subs[..1]) == SubCategoryBlock(c, subs[0]);
  }

  /** Flattening the fallback market without a selection gives 15 rows: each category
      contributes its header and two subcategories with one grid each. */
  lemma MockFlattensToFifteenRows()
    ensures |FlatListData(MockCategories(), None)| == 15
    ensures Entries(MockCategories())
         == CategoryEntries(MockCategory(1)) + CategoryEntries(MockCategory(2)) + CategoryEntries(MockCategory(3))
  {
    var m := MockCategories();
    MockCategoryRows(1);
    MockCategoryRows(2);
    MockCategoryRows(3);
    assert m[..1][..0] == [];
    assert Entries(m[..1]) == CategoryEntries(MockCategory(1));
    assert m[..2][..1] == m[..1];
    assert Entries(m[..2]) == CategoryEntries(MockCategory(1)) + CategoryEntries(MockCategory(2));
    assert m[..3] == m;
    assert Entries(m) == Entries(m[..2]) + CategoryEntries(MockCategory(3));
    assert |Entries(m)| == 15;
    assert m != [] && OrderedCategories(m, None) == m;
    assert FlatListData(m, None) == Numbered(Entries(m));
  }
}

/** The browse hierarchy the market-detail screen receives: categories, each with an
    ordered list of subcategories, each with an ordered list of items (the
    `Category`, `SubCategory` and `Item` records). Prices are decimals in the app; only
    which price is chosen matters here, so they are kept as `real`. */
module Catalog {
  import opened Seqs

  datatype Item = Item(id: int, name: string, description: string, price: real, image: string, subCategoryId: int)

  datatype SubCategory = SubCategory(id: int, name: string, categoryId: int, items: seq<Item>)

  datatype Category = Category(id: int, name: string, image: string, subCategories: seq<SubCategory>)

  function CategoryId(c: Category): int { c.id }

  function SubCategoryId(s: SubCategory): int { s.id }

  /** Every subcategory of every category, category by category (the
      `allSubCategories.push(...category.subCategories)` accumulation). */
  function AllSubCategories(cs: seq<Category>): seq<SubCategory>
  {
    if cs == [] then [] else AllSubCategories(cs[..|cs| - 1]) + cs[|cs| - 1].subCategories
  }

  /** A subcategory is listed exactly when one of the categories owns it. */
  lemma {:induction false} AllSubCategoriesMembers(cs: seq<Category>, s: SubCategory)
    ensures s in AllSubCategories(cs) <==> exists c :: c in cs && s in c.subCategories
  {
    if cs != [] {
      var init, last := cs[..|cs| - 1], cs[|cs| - 1];
      AllSubCategoriesMembers(init, s);
      assert cs == init + [last];
      if s in last.subCategories {
        assert last in cs;
      }
      if exists c :: c in cs && s in c.subCategories {
        var c :| c in cs && s in c.subCategories;
        if c != last {
          assert c in init;
        }
      }
    }
  }

  /** `category.subCategories.reduce((total, sub) => total + sub.items.length, 0)`:
      the item count shown in a category header. */
  function ItemTotal(subs: seq<SubCategory>): nat
  {
    if subs == [] then 0 else ItemTotal(subs[..|subs| - 1]) + |subs[|subs| - 1].items|
  }

  /** The total over a concatenation is the sum of the totals. */
  lemma {:induction false} ItemTotalAppend(a: seq<SubCategory>, b: seq<SubCategory>)
    ensures ItemTotal(a + b) == ItemTotal(a) + ItemTotal(b)
    decreases |b|
  {
    if b == [] {
      assert a + b == a;
    } else {
      ItemTotalAppend(a, b[..|b| - 1]);
      assert (a + b)[..|a + b| - 1] == a + b[..|b| - 1];
    }
  }

  /** A category has no items to show exactly when every subcategory is empty. */
  lemma {:induction false} ItemTotalZeroIffEmpty(subs: seq<SubCategory>)
    ensures ItemTotal(subs) == 0 <==> forall s :: s in subs ==> s.items == []
  {
    if subs != [] {
      ItemTotalZeroIffEmpty(subs[..|subs| - 1]);
      assert subs == subs[..|subs| - 1] + [subs[|subs| - 1]];
    }
  }

  function MockItem(id: int, subCategoryId: int): Item
  {
    Item(id, "", "", 0.0, "", subCategoryId)
  }

  function MockSubCategory(id: int, categoryId: int, firstItem: int): SubCategory
  {
    SubCategory(id, "", categoryId, [MockItem(firstItem, id), MockItem(firstItem + 1, id)])
  }

  function MockCategory(id: int): Category
  {
    Category(id, "", "", [MockSubCategory(id * 100 + 1, id, id * 1000 + 1),
                          MockSubCategory(id * 100 + 2, id, id * 1000 + 3)])
  }

  /** The shape of the bundled fallback market: categories 1, 2 and 3, each with two
      subcategories (`id*100+1`, `id*100+2`) of two items. Names, prices and images are
      left blank; nothing in the navigator depends on them. */
  function MockCategories(): seq<Category>
  {
    [MockCategory(1), MockCategory(2), MockCategory(3)]
  }
}

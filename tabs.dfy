/** The two tab bars above the list. The category bar shows the categories with the
    selected one pinned first; the subcategory bar shows either the visible category's
    subcategories or every subcategory, again with the selected one pinned first, and is
    not rendered when that list is empty. A tab is highlighted when the visible entity
    has its id, and when the visible entity changes the bar is scrolled so that its tab
    is centred. */
module Tabs {
  import opened Seqs
  import opened Catalog
  import opened Order
  import opened Flatten

  const CategoryTabWidth: nat := 120
  const CategoryTabsContainerWidth: nat := 300
  const SubCategoryTabWidth: nat := 100
  const SubCategoryTabsContainerWidth: nat := 250

  /** The subcategory tab bar: not rendered (`None`) for an empty list; otherwise the
      selected subcategory first, then the others whose id differs, in their order. */
  function SubCategoryTabOrder(subs: seq<SubCategory>, selected: Option<SubCategory>): (r: Option<seq<SubCategory>>)
    ensures r.None? <==> subs == []
    ensures r.Some? && selected.None? ==> r.value == subs
    ensures r.Some? && selected.Some? ==>
      |r.value| > 0 && r.value[0] == selected.value && IsSubsequence(r.value[1..], subs)
      && forall s :: s in r.value[1..] <==> s in subs && s.id != selected.value.id
  {
    if subs == [] then None else Some(Pinned(subs, selected, SubCategoryId))
  }

  /** Where the subcategory tabs come from: the visible category's subcategories, or
      every subcategory of every category when no category is visible. */
  function TabSource(categories: seq<Category>, visibleCategory: Option<Category>): seq<SubCategory>
  {
    if visibleCategory.Some? then visibleCategory.value.subCategories else AllSubCategories(categories)
  }

  /** `getCurrentSubCategoriesForTabs`: the tab source with the selected subcategory
      pinned first. */
  function TabSubCategories(categories: seq<Category>, visibleCategory: Option<Category>,
                            selectedSubCategory: Option<SubCategory>): seq<SubCategory>
  {
    Pinned(TabSource(categories, visibleCategory), selectedSubCategory, SubCategoryId)
  }

  /** The `allSubCategories.push(...category.subCategories)` loop. */
  method CollectSubCategories(categories: seq<Category>) returns (allSubCategories: seq<SubCategory>)
    ensures allSubCategories == AllSubCategories(categories)
  {
    allSubCategories := [];
    for i := 0 to |categories|
      invariant allSubCategories == AllSubCategories(categories[..i])
    {
      assert categories[..i + 1][..i] == categories[..i];
      allSubCategories := allSubCategories + categories[i].subCategories;
    }
    assert categories[..|categories|] == categories;
  }

  /** A subcategory is offered as a tab exactly when it is the selected one, or it
      belongs to the visible category (to any category when none is visible) and its id
      differs from the selected one's. */
  lemma TabSubCategoriesMembers(categories: seq<Category>, visibleCategory: Option<Category>,
                                selectedSubCategory: Option<SubCategory>, s: SubCategory)
    ensures s in TabSubCategories(categories, visibleCategory, selectedSubCategory)
        <==> selectedSubCategory == Some(s)
             || ((selectedSubCategory.None? || s.id != selectedSubCategory.value.id)
                 && (if visibleCategory.Some? then s in visibleCategory.value.subCategories
                     else exists c :: c in categories && s in c.subCategories))
  {
    AllSubCategoriesMembers(categories, s);
    var r := TabSubCategories(categories, visibleCategory, selectedSubCategory);
    if selectedSubCategory.Some? {
      assert r == [r[0]] + r[1..];
    }
  }

  /** The subcategory bar pins a list `getCurrentSubCategoriesForTabs` has already pinned
      with the same selection; the second pin changes nothing. A selected subcategory
      always keeps the bar on screen. */
  lemma DoublePinHarmless(categories: seq<Category>, visibleCategory: Option<Category>,
                          selectedSubCategory: Option<SubCategory>)
    ensures var tabs := TabSubCategories(categories, visibleCategory, selectedSubCategory);
            SubCategoryTabOrder(tabs, selectedSubCategory) == if tabs == [] then None else Some(tabs)
    ensures selectedSubCategory.Some? ==> TabSubCategories(categories, visibleCategory, selectedSubCategory) != []
  {
    PinnedIdempotent(TabSource(categories, visibleCategory), selectedSubCategory, SubCategoryId);
  }

  /** `smoothScrollCategoryTabsToVisible`: the centring position of `category`'s tab in
      the pinned category order, none when no tab has its id. */
  function CategoryTabTarget(categories: seq<Category>, selectedCategory: Option<Category>, category: Category): (x: Option<nat>)
    ensures x.None? <==> forall c :: c in OrderedCategories(categories, selectedCategory) ==> c.id != category.id
  {
    match IndexOfKey(OrderedCategories(categories, selectedCategory), category.id, CategoryId)
    case None => None
    case Some(i) => Some(CentreTarget(i, CategoryTabWidth, CategoryTabsContainerWidth))
  }

  /** `smoothScrollSubCategoryTabsToVisible`: the centring position of `subCategory`'s
      tab among the current subcategory tabs, none when no tab has its id. */
  function SubCategoryTabTarget(tabs: seq<SubCategory>, subCategory: SubCategory): (x: Option<nat>)
    ensures x.None? <==> forall s :: s in tabs ==> s.id != subCategory.id
  {
    match IndexOfKey(tabs, subCategory.id, SubCategoryId)
    case None => None
    case Some(i) => Some(CentreTarget(i, SubCategoryTabWidth, SubCategoryTabsContainerWidth))
  }

  /** The pinned (selected) tab is the first one, so the bar scrolls back to its start. */
  lemma SelectedTabsScrollToStart(categories: seq<Category>, selected: Category,
                                  tabs: seq<SubCategory>, selectedSub: SubCategory)
    requires tabs != [] && tabs[0].id == selectedSub.id
    ensures CategoryTabTarget(categories, Some(selected), selected) == Some(0)
    ensures SubCategoryTabTarget(tabs, selectedSub) == Some(0)
  {
    var ordered := OrderedCategories(categories, Some(selected));
    assert ordered[0] == selected;
    assert IndexOfKey(ordered, selected.id, CategoryId) == Some(0);
    assert IndexOfKey(tabs, selectedSub.id, SubCategoryId) == Some(0);
  }

  /** With unique category ids, tab `i` of the category bar is scrolled to
      `max(0, 120 * i - 90)`: tab 0 to 0, tab 1 to 30, tab 2 to 150. */
  lemma CategoryTabTargetAt(categories: seq<Category>, selectedCategory: Option<Category>, i: nat)
    requires UniqueKeys(categories, CategoryId)
    requires i < |OrderedCategories(categories, selectedCategory)|
    ensures var tab := OrderedCategories(categories, selectedCategory)[i];
            CategoryTabTarget(categories, selectedCategory, tab) == Some(if i < 1 then 0 else 120 * i - 90)
  {
    var ordered := OrderedCategories(categories, selectedCategory);
    PinnedKeepsUniqueKeys(categories, selectedCategory, CategoryId);
    var idx := IndexOfKey(ordered, ordered[i].id, CategoryId);
    assert idx == Some(i);
  }

  /** With unique ids in the tab list, subcategory tab `i` is scrolled to
      `max(0, 100 * i - 75)`: tab 0 to 0, tab 1 to 25, tab 2 to 125. */
  lemma SubCategoryTabTargetAt(tabs: seq<SubCategory>, i: nat)
    requires UniqueKeys(tabs, SubCategoryId)
    requires i < |tabs|
    ensures SubCategoryTabTarget(tabs, tabs[i]) == Some(if 100 * i >= 75 then 100 * i - 75 else 0)
  {
    var idx := IndexOfKey(tabs, tabs[i].id, SubCategoryId);
    assert idx == Some(i);
  }

  /** A category tab is highlighted exactly when the visible category has its id; with
      unique category ids at most one tab of the bar is highlighted. */
  lemma AtMostOneCategoryTabActive(categories: seq<Category>, selectedCategory: Option<Category>,
                                   visibleCategory: Option<Category>, i: nat, j: nat)
    requires UniqueKeys(categories, CategoryId)
    requires i < |OrderedCategories(categories, selectedCategory)| && j < |OrderedCategories(categories, selectedCategory)|
    requires IsActive(OrderedCategories(categories, selectedCategory)[i], visibleCategory, CategoryId)
    requires IsActive(OrderedCategories(categories, selectedCategory)[j], visibleCategory, CategoryId)
    ensures i == j
  {
    PinnedKeepsUniqueKeys(categories, selectedCategory, CategoryId);
    AtMostOneActive(OrderedCategories(categories, selectedCategory), visibleCategory, CategoryId, i, j);
  }

  /** The same for the subcategory bar, whose source list has unique ids. */
  lemma AtMostOneSubCategoryTabActive(categories: seq<Category>, visibleCategory: Option<Category>,
                                      selectedSubCategory: Option<SubCategory>,
                                      visibleSubCategory: Option<SubCategory>, i: nat, j: nat)
    requires UniqueKeys(TabSource(categories, visibleCategory), SubCategoryId)
    requires i < |TabSubCategories(categories, visibleCategory, selectedSubCategory)|
    requires j < |TabSubCategories(categories, visibleCategory, selectedSubCategory)|
    requires IsActive(TabSubCategories(categories, visibleCategory, selectedSubCategory)[i], visibleSubCategory, SubCategoryId)
    requires IsActive(TabSubCategories(categories, visibleCategory, selectedSubCategory)[j], visibleSubCategory, SubCategoryId)
    ensures i == j
  {
    PinnedKeepsUniqueKeys(TabSource(categories, visibleCategory), selectedSubCategory, SubCategoryId);
    AtMostOneActive(TabSubCategories(categories, visibleCategory, selectedSubCategory), visibleSubCategory, SubCategoryId, i, j);
  }
}

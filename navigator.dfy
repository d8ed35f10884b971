/** The market-detail screen's navigation state and its transitions: the initial
    selection from an optional deep-link category id, category and subcategory tab
    presses, scroll events fed to the visibility resolver, the scroll-to-category lookup
    and the category-detail request's outcome. Each handler is one atomic update; a
    value the handler reads is the state as it was when the handler started, as in the
    render that created it. */
module Navigator {
  import opened Seqs
  import opened Catalog
  import opened Order
  import opened Flatten
  import opened Layout
  import opened Visibility
  import opened Tabs
  import opened Normalise

  /** The offset scroll the component issues: a target offset and an animation length. */
  datatype ScrollCommand = ScrollCommand(offset: nat, duration: real)

  /** Where the initial-selection effect puts the selection: with a deep-link id that is
      present and non-zero, the first category with that id when there is one (and nothing
      otherwise); without one, the first category; nothing for an empty list. */
  function InitialCategory(categories: seq<Category>, selectedCategoryId: Option<int>): (r: Option<Category>)
    ensures r.Some? ==> r.value in categories
    ensures selectedCategoryId.Some? && selectedCategoryId.value != 0 ==>
      (r.Some? <==> exists c :: c in categories && c.id == selectedCategoryId.value)
      && (r.Some? ==> r.value.id == selectedCategoryId.value)
      && (r.Some? ==> exists i :: 0 <= i < |categories| && r.value == categories[i]
                                  && categories[i].id == selectedCategoryId.value
                                  && forall j :: 0 <= j < i ==> categories[j].id != selectedCategoryId.value)
    ensures !(selectedCategoryId.Some? && selectedCategoryId.value != 0) ==>
      r == if categories == [] then None else Some(categories[0])
  {
    if selectedCategoryId.Some? && selectedCategoryId.value != 0 && |categories| > 0 then
      FindByKey(categories, selectedCategoryId.value, CategoryId)
    else if |categories| > 0 then Some(categories[0])
    else None
  }

  /** A member of a pinned list is the pinned entity or one of the list's own. */
  lemma PinnedFrom<T(!new)>(xs: seq<T>, pin: Option<T>, key: T -> int, x: T)
    requires x in Pinned(xs, pin, key)
    ensures x in xs || pin == Some(x)
  {
    if pin.Some? {
      var r := Pinned(xs, pin, key);
      assert r == [r[0]] + r[1..];
    }
  }

  /** A category listed in the header rows has a header row of its own. */
  lemma {:induction false} HeaderHasRow(es: seq<Entry>, c: Category) returns (k: nat)
    requires c in CategoryHeaders(es)
    ensures k < |es| && es[k] == CategoryEntry(c)
  {
    var init, last := es[..|es| - 1], es[|es| - 1];
    if last.CategoryEntry? && last.category == c {
      k := |es| - 1;
    } else {
      k := HeaderHasRow(init, c);
      assert es[k] == init[k];
    }
  }

  /** `scrollToCategory` finds a row exactly when some category of the tab order has
      the id; for any other id it issues no scroll. */
  lemma CategoryRowFoundIff(categories: seq<Category>, selectedCategory: Option<Category>, categoryId: int)
    ensures CategoryRowIndex(FlatListData(categories, selectedCategory), categoryId).Some?
        <==> categories != [] && exists c :: c in OrderedCategories(categories, selectedCategory) && c.id == categoryId
  {
    var rows := FlatListData(categories, selectedCategory);
    var ordered := OrderedCategories(categories, selectedCategory);
    var es := Entries(ordered);
    if categories != [] && exists c :: c in ordered && c.id == categoryId {
      var c :| c in ordered && c.id == categoryId;
      HeadersInOrder(ordered);
      var k := HeaderHasRow(es, c);
      assert rows[k].entry == es[k];
      assert IsCategoryRow(rows[k], categoryId);
    }
    if CategoryRowIndex(rows, categoryId).Some? {
      var k := CategoryRowIndex(rows, categoryId).value;
      EntriesOwnership(ordered);
      assert rows[k].entry == es[k];
      assert es[k] in es;
    }
  }

  /** Scrolling to the offset of a category header puts that header at the top of the
      viewport, so the resolver then reports its category and no subcategory. */
  lemma ScrollLandsOnCategory(rows: seq<Row>, k: nat)
    requires k < |rows| && rows[k].entry.CategoryEntry?
    ensures VisiblePair(rows, SumHeights(rows[..k])) == Visible(Some(rows[k].entry.category), None)
  {
    var o := SumHeights(rows[..k]);
    forall j | 0 <= j < k ensures !Intersects(rows, j, o) {
      OffsetStep(rows, j);
      OffsetMonotone(rows, j + 1, k);
    }
    assert Intersects(rows, k, o);
    FirstVisibleFromSkips(rows, o, 0, k);
  }

  /** Whatever the resolver reports comes from the market's categories. */
  lemma VisiblePairOwned(categories: seq<Category>, selectedCategory: Option<Category>, offsetY: int)
    requires selectedCategory.Some? ==> selectedCategory.value in categories
    ensures var v := VisiblePair(FlatListData(categories, selectedCategory), offsetY);
            (v.category.Some? ==> v.category.value in categories)
            && (v.subCategory.Some? ==> v.subCategory.value in AllSubCategories(categories))
  {
    var rows := FlatListData(categories, selectedCategory);
    var ordered := OrderedCategories(categories, selectedCategory);
    match FirstVisible(rows, offsetY)
    case None =>
    case Some(k) =>
      var es := Entries(ordered);
      var e := rows[k].entry;
      assert e == es[k] && e in es;
      EntriesOwnership(ordered);
      PinnedFrom(categories, selectedCategory, CategoryId, e.category);
      if !e.CategoryEntry? {
        AllSubCategoriesMembers(categories, e.subCategory);
      }
  }

  /** With unique category ids, looking up the failed category's id among the categories
      finds the selected category itself, so the fallback leaves the selection as it was. */
  lemma FallbackFindsSelected(categories: seq<Category>, c: Category)
    requires UniqueKeys(categories, CategoryId) && c in categories
    ensures FindByKey(categories, c.id, CategoryId) == Some(c)
  {
    var i :| 0 <= i < |categories| && categories[i] == c;
    var j := IndexOfKey(categories, c.id, CategoryId).value;
    assert CategoryId(categories[j]) == CategoryId(categories[i]);
  }

  class MarketDetailController {
    const categories: seq<Category>
    var selectedCategory: Option<Category>
    var selectedSubCategory: Option<SubCategory>
    var visibleCategory: Option<Category>
    var visibleSubCategory: Option<SubCategory>
    var lastScrollOffset: int
    var categoryDetail: Option<CategoryDetail>
    var isLoadingCategory: bool
    var categoryError: Option<string>

    /** The selected and visible entities are always the market's own. */
    predicate Valid()
      reads this
    {
      (selectedCategory.Some? ==> selectedCategory.value in categories)
      && (visibleCategory.Some? ==> visibleCategory.value in categories)
      && (selectedSubCategory.Some? ==> selectedSubCategory.value in AllSubCategories(categories))
      && (visibleSubCategory.Some? ==> visibleSubCategory.value in AllSubCategories(categories))
    }

    /** The screen mounts with nothing selected or visible, the scroll anchor at 0, no
        category detail, not loading and no error. */
    constructor (categories: seq<Category>)
      ensures Valid()
      ensures this.categories == categories
      ensures selectedCategory.None? && selectedSubCategory.None?
      ensures visibleCategory.None? && visibleSubCategory.None?
      ensures lastScrollOffset == 0
      ensures categoryDetail.None? && !isLoadingCategory && categoryError.None?
    {
      this.categories := categories;
      selectedCategory := None;
      selectedSubCategory := None;
      visibleCategory := None;
      visibleSubCategory := None;
      lastScrollOffset := 0;
      categoryDetail := None;
      isLoadingCategory := false;
      categoryError := None;
    }

    /** Selects a category and makes it visible; its first subcategory, when it has
        one, becomes the selected and visible subcategory. */
    method SelectWithFirstSubCategory(category: Category)
      requires Valid() && category in categories
      modifies this
      ensures Valid()
      ensures selectedCategory == Some(category) && visibleCategory == Some(category)
      ensures category.subCategories != [] ==>
        selectedSubCategory == Some(category.subCategories[0]) && visibleSubCategory == Some(category.subCategories[0])
      ensures category.subCategories == [] ==>
        selectedSubCategory == old(selectedSubCategory) && visibleSubCategory == old(visibleSubCategory)
      ensures lastScrollOffset == old(lastScrollOffset) && categoryDetail == old(categoryDetail)
      ensures isLoadingCategory == old(isLoadingCategory) && categoryError == old(categoryError)
    {
      selectedCategory := Some(category);
      visibleCategory := Some(category);
      if |category.subCategories| > 0 {
        var firstSubCategory := category.subCategories[0];
        AllSubCategoriesMembers(categories, firstSubCategory);
        selectedSubCategory := Some(firstSubCategory);
        visibleSubCategory := Some(firstSubCategory);
      }
    }

    /** The initial-selection effect. A category found by the deep-link id is selected
        and a scroll to it is scheduled; without a deep link the first category is
        selected and no scroll is scheduled; a deep-link id that matches no category
        changes nothing. */
    method InitialSelection(selectedCategoryId: Option<int>) returns (scheduledScroll: Option<int>)
      requires Valid()
      modifies this
      ensures Valid()
      ensures InitialCategory(categories, selectedCategoryId).None? ==> unchanged(this) && scheduledScroll.None?
      ensures InitialCategory(categories, selectedCategoryId).Some? ==>
        var category := InitialCategory(categories, selectedCategoryId).value;
        selectedCategory == Some(category) && visibleCategory == Some(category)
        && (category.subCategories != [] ==>
              selectedSubCategory == Some(category.subCategories[0]) && visibleSubCategory == Some(category.subCategories[0]))
        && (category.subCategories == [] ==>
              selectedSubCategory == old(selectedSubCategory) && visibleSubCategory == old(visibleSubCategory))
        && lastScrollOffset == old(lastScrollOffset) && categoryDetail == old(categoryDetail)
        && isLoadingCategory == old(isLoadingCategory) && categoryError == old(categoryError)
      ensures scheduledScroll == if selectedCategoryId.Some? && selectedCategoryId.value != 0
                                  && InitialCategory(categories, selectedCategoryId).Some?
                                 then Some(selectedCategoryId.value) else None
    {
      scheduledScroll := None;
      if selectedCategoryId.Some? && selectedCategoryId.value != 0 && |categories| > 0 {
        var category := FindByKey(categories, selectedCategoryId.value, CategoryId);
        if category.Some? {
          SelectWithFirstSubCategory(category.value);
          scheduledScroll := Some(category.value.id);
        }
      } else if |categories| > 0 {
        SelectWithFirstSubCategory(categories[0]);
      }
    }

    /** `scrollToCategory` of the screen: the index of the category's header row in the
        current rows, none when no header has the id. */
    method ScrollToCategory(categoryId: int) returns (index: Option<nat>)
      ensures index == CategoryRowIndex(FlatListData(categories, selectedCategory), categoryId)
      ensures index.Some? ==> index.value < |FlatListData(categories, selectedCategory)|
    {
      var data := GetFlatListData(categories, selectedCategory);
      index := CategoryRowIndex(data, categoryId);
    }

    /** `scrollToCategory` of the mounted component: the header row's offset, with an
        animation of half that many milliseconds clamped to [300, 800]; no scroll when
        no header has the id. */
    method ScrollToCategoryByOffset(categoryId: int) returns (command: Option<ScrollCommand>)
      ensures var data := FlatListData(categories, selectedCategory);
              var index := CategoryRowIndex(data, categoryId);
              (command.None? <==> index.None?)
              && (command.Some? ==> command.value.offset == SumHeights(data[..index.value])
                                    && command.value.duration == ScrollDuration(command.value.offset))
    {
      var data := GetFlatListData(categories, selectedCategory);
      var categoryIndex := CategoryRowIndex(data, categoryId);
      if categoryIndex.Some? {
        var offset := OffsetBefore(data, categoryIndex.value);
        var scrollDistance := offset;
        command := Some(ScrollCommand(offset, ScrollDuration(scrollDistance)));
      } else {
        command := None;
      }
    }

    /** A category tab press: the tapped category becomes selected and visible with its
        first subcategory selected and visible (both cleared when it has none), and the
        list is scrolled to the tapped category's header in the rows the press started
        from, which always has one. */
    method OnCategoryPress(category: Category) returns (scrollIndex: Option<nat>)
      requires Valid() && category in OrderedCategories(categories, selectedCategory)
      modifies this
      ensures Valid()
      ensures selectedCategory == Some(category) && visibleCategory == Some(category)
      ensures category.subCategories != [] ==>
        selectedSubCategory == Some(category.subCategories[0]) && visibleSubCategory == Some(category.subCategories[0])
      ensures category.subCategories == [] ==> selectedSubCategory.None? && visibleSubCategory.None?
      ensures lastScrollOffset == old(lastScrollOffset) && categoryDetail == old(categoryDetail)
      ensures isLoadingCategory == old(isLoadingCategory) && categoryError == old(categoryError)
      ensures scrollIndex == CategoryRowIndex(FlatListData(categories, old(selectedCategory)), category.id)
      ensures scrollIndex.Some?
    {
      PinnedFrom(categories, selectedCategory, CategoryId, category);
      scrollIndex := ScrollToCategory(category.id);
      CategoryRowFoundIff(categories, selectedCategory, category.id);
      SelectWithFirstSubCategory(category);
      if |category.subCategories| == 0 {
        selectedSubCategory := None;
        visibleSubCategory := None;
      }
    }

    /** A subcategory tab press: only the selected and visible subcategory change. */
    method OnSubCategoryPress(subCategory: SubCategory)
      requires Valid() && subCategory in TabSubCategories(categories, visibleCategory, selectedSubCategory)
      modifies this
      ensures Valid()
      ensures selectedSubCategory == Some(subCategory) && visibleSubCategory == Some(subCategory)
      ensures selectedCategory == old(selectedCategory) && visibleCategory == old(visibleCategory)
      ensures lastScrollOffset == old(lastScrollOffset) && categoryDetail == old(categoryDetail)
      ensures isLoadingCategory == old(isLoadingCategory) && categoryError == old(categoryError)
    {
      TabSubCategoriesMembers(categories, visibleCategory, selectedSubCategory, subCategory);
      AllSubCategoriesMembers(categories, subCategory);
      selectedSubCategory := Some(subCategory);
      visibleSubCategory := Some(subCategory);
    }

    /** `updateVisibleItems`: an offset within 50 of the anchor changes nothing;
        otherwise it becomes the anchor and the visible pair is the one the resolver
        reports for the current rows. The selection is never touched. */
    method UpdateVisibleItems(offsetY: int)
      requires Valid()
      modifies this
      ensures Valid()
      ensures Throttled(offsetY, old(lastScrollOffset)) ==> unchanged(this)
      ensures !Throttled(offsetY, old(lastScrollOffset)) ==>
        lastScrollOffset == offsetY
        && Visible(visibleCategory, visibleSubCategory) == VisiblePair(FlatListData(categories, selectedCategory), offsetY)
      ensures selectedCategory == old(selectedCategory) && selectedSubCategory == old(selectedSubCategory)
      ensures categoryDetail == old(categoryDetail) && isLoadingCategory == old(isLoadingCategory)
      ensures categoryError == old(categoryError)
    {
      var delta := offsetY - lastScrollOffset;
      if (if delta < 0 then -delta else delta) < ThrottleThreshold {
        return;
      }
      lastScrollOffset := offsetY;
      var data := GetFlatListData(categories, selectedCategory);
      var current := ResolveVisible(data, offsetY);
      VisiblePairOwned(categories, selectedCategory, offsetY);
      visibleCategory := current.category;
      visibleSubCategory := current.subCategory;
    }

    /** `getCurrentSubCategoriesForTabs`: the visible category's subcategories, or every
        subcategory when no category is visible, with the selected one pinned first. */
    method CurrentSubCategoriesForTabs() returns (subCategories: seq<SubCategory>)
      ensures subCategories == TabSubCategories(categories, visibleCategory, selectedSubCategory)
    {
      if visibleCategory.Some? {
        subCategories := visibleCategory.value.subCategories;
      } else {
        subCategories := CollectSubCategories(categories);
      }
      if selectedSubCategory.Some? {
        var selected := selectedSubCategory.value;
        PinnedSome(subCategories, selected, SubCategoryId);
        subCategories := [selected] + Filter(subCategories, KeyDiffers(selected.id, SubCategoryId));
      }
    }

    /** The detail-loading effect: a selected category with a non-zero id starts a
        request for that id, clearing the error; otherwise nothing happens. */
    method BeginLoadCategoryDetail() returns (request: Option<int>)
      requires Valid()
      modifies this
      ensures Valid()
      ensures request == if selectedCategory.Some? && selectedCategory.value.id != 0
                         then Some(selectedCategory.value.id) else None
      ensures request.Some? ==> isLoadingCategory && categoryError.None?
      ensures request.None? ==> unchanged(this)
      ensures selectedCategory == old(selectedCategory) && selectedSubCategory == old(selectedSubCategory)
      ensures visibleCategory == old(visibleCategory) && visibleSubCategory == old(visibleSubCategory)
      ensures lastScrollOffset == old(lastScrollOffset) && categoryDetail == old(categoryDetail)
    {
      request := None;
      if selectedCategory.Some? && selectedCategory.value.id != 0 {
        isLoadingCategory := true;
        categoryError := None;
        request := Some(selectedCategory.value.id);
      }
    }

    /** A successful response is stored and loading ends. */
    method CategoryDetailLoaded(detail: CategoryDetail)
      requires Valid()
      modifies this
      ensures Valid()
      ensures categoryDetail == Some(detail) && !isLoadingCategory && categoryError == old(categoryError)
      ensures selectedCategory == old(selectedCategory) && selectedSubCategory == old(selectedSubCategory)
      ensures visibleCategory == old(visibleCategory) && visibleSubCategory == old(visibleSubCategory)
      ensures lastScrollOffset == old(lastScrollOffset)
    {
      categoryDetail := Some(detail);
      isLoadingCategory := false;
    }

    /** A failed request: the error banner gets the classified message, the category
        with the requested id (when there is one) is selected again from the market's
        own list, and loading ends. */
    method CategoryDetailFailed(categoryId: int, error: HttpError)
      requires Valid()
      modifies this
      ensures Valid()
      ensures categoryError == Some(CategoryErrorMessage(error)) && !isLoadingCategory
      ensures selectedCategory == match FindByKey(categories, categoryId, CategoryId)
                                  case Some(c) => Some(c)
                                  case None => old(selectedCategory)
      ensures selectedSubCategory == old(selectedSubCategory)
      ensures visibleCategory == old(visibleCategory) && visibleSubCategory == old(visibleSubCategory)
      ensures lastScrollOffset == old(lastScrollOffset) && categoryDetail == old(categoryDetail)
    {
      categoryError := Some(CategoryErrorMessage(error));
      var fallbackCategory := FindByKey(categories, categoryId, CategoryId);
      if fallbackCategory.Some? {
        selectedCategory := fallbackCategory;
      }
      isLoadingCategory := false;
    }
  }
}

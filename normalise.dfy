/** What the market-detail screen does with a category-detail response: the API's
    subcategories and products are turned into the app's `SubCategory` and `Item`
    records (hidden ones dropped, names chosen through a chain of languages, a price and
    an image picked), and a failed request is turned into the message of the error
    banner. */
module Normalise {
  import opened Seqs
  import opened Text
  import opened Catalog

  /** A name in the API's four languages; a missing translation is the empty string. */
  datatype LocalizedName = LocalizedName(ar: string, enUS: string, he: string, fr: string)

  datatype ProductImage = ProductImage(serverImageUrl: string, smallImageUrl: string)

  /** The fields of an API product the screen reads; a price of 0 stands for a missing one. */
  datatype Product = Product(
    id: int, name: LocalizedName, description: Option<LocalizedName>, hide: bool,
    basePrice: real, discountPrice: real, productImages: seq<ProductImage>)

  datatype MarketSubCategory = MarketSubCategory(id: int, name: LocalizedName, hide: bool, products: seq<Product>)

  /** A category-detail response; `marketSubcategories` may be missing. */
  datatype CategoryDetail = CategoryDetail(id: int, marketSubcategories: Option<seq<MarketSubCategory>>)

  /** `c0 || c1 || ... || fallback` on strings: the first non-empty candidate, else the
      fallback. */
  function FirstNonEmpty(candidates: seq<string>, fallback: string): (r: string)
    ensures r == fallback || r in candidates
  {
    if candidates == [] then fallback
    else if candidates[0] != [] then candidates[0]
    else FirstNonEmpty(candidates[1..], fallback)
  }

  /** The first non-empty candidate wins. */
  lemma {:induction false} FirstNonEmptyPicksFirst(candidates: seq<string>, fallback: string, i: nat)
    requires i < |candidates| && candidates[i] != []
    requires forall j :: 0 <= j < i ==> candidates[j] == []
    ensures FirstNonEmpty(candidates, fallback) == candidates[i]
  {
    if i > 0 {
      FirstNonEmptyPicksFirst(candidates[1..], fallback, i - 1);
    }
  }

  /** With every candidate empty the fallback is used. */
  lemma {:induction false} FirstNonEmptyFallsBack(candidates: seq<string>, fallback: string)
    requires forall j :: 0 <= j < |candidates| ==> candidates[j] == []
    ensures FirstNonEmpty(candidates, fallback) == fallback
  {
    if candidates != [] {
      FirstNonEmptyFallsBack(candidates[1..], fallback);
    }
  }

  /** `name['en-US'] || name.ar || name.he || name.fr || fallback`. */
  function DisplayName(n: LocalizedName, fallback: string): string
  {
    FirstNonEmpty([n.enUS, n.ar, n.he, n.fr], fallback)
  }

  /** A subcategory or product name is never empty: the fallback names the id. */
  lemma DisplayNameNonEmpty(n: LocalizedName, prefix: string, id: int)
    ensures DisplayName(n, prefix + IntToString(id)) != []
  {
    var r := DisplayName(n, prefix + IntToString(id));
    var cs := [n.enUS, n.ar, n.he, n.fr];
    if r in cs {
      var i :| 0 <= i < |cs| && cs[i] == r;
      if r == [] {
        FirstNonEmptyNonEmpty(cs, prefix + IntToString(id));
      }
    }
  }

  lemma {:induction false} FirstNonEmptyNonEmpty(candidates: seq<string>, fallback: string)
    requires fallback != []
    ensures FirstNonEmpty(candidates, fallback) != []
  {
    if candidates != [] && candidates[0] == [] {
      FirstNonEmptyNonEmpty(candidates[1..], fallback);
    }
  }

  /** `product.discountPrice || product.basePrice || 0`: the discount price when there is
      one, else the base price (which is 0 when both are missing). */
  function PickPrice(discountPrice: real, basePrice: real): (p: real)
    ensures discountPrice != 0.0 ==> p == discountPrice
    ensures discountPrice == 0.0 ==> p == basePrice
  {
    if discountPrice != 0.0 then discountPrice else if basePrice != 0.0 then basePrice else 0.0
  }

  /** The first image's server URL, else its small URL, else `items/product-{id}.jpg`. */
  function ProductImageOf(p: Product): (image: string)
    ensures image != []
  {
    var fallback := "items/product-" + IntToString(p.id) + ".jpg";
    if p.productImages == [] then fallback
    else
      FirstNonEmptyNonEmpty([p.productImages[0].serverImageUrl, p.productImages[0].smallImageUrl], fallback);
      FirstNonEmpty([p.productImages[0].serverImageUrl, p.productImages[0].smallImageUrl], fallback)
  }

  function ToItem(p: Product, subCategoryId: int): Item
  {
    Item(p.id,
         DisplayName(p.name, "Product " + IntToString(p.id)),
         match p.description case None => "" case Some(d) => DisplayName(d, ""),
         PickPrice(p.discountPrice, p.basePrice),
         ProductImageOf(p),
         subCategoryId)
  }

  function ProductToItem(subCategoryId: int): Product -> Item
  {
    p => ToItem(p, subCategoryId)
  }

  predicate ProductShown(p: Product)
  {
    !p.hide
  }

  predicate SubCategoryShown(s: MarketSubCategory)
  {
    !s.hide
  }

  /** One API subcategory as the app's record: its non-hidden products, in order. */
  function ToSubCategory(s: MarketSubCategory, categoryId: int): SubCategory
  {
    SubCategory(s.id,
                DisplayName(s.name, "Subcategory " + IntToString(s.id)),
                categoryId,
                Map(Filter(s.products, ProductShown), ProductToItem(s.id)))
  }

  function SubCategoryToModel(categoryId: int): MarketSubCategory -> SubCategory
  {
    s => ToSubCategory(s, categoryId)
  }

  /** `getCurrentSubCategories`: the detail's subcategories when it has them (hidden ones
      dropped), else the selected category's own subcategories, else none. */
  function CurrentSubCategories(detail: Option<CategoryDetail>, selected: Option<Category>): (r: seq<SubCategory>)
    ensures detail.Some? && detail.value.marketSubcategories.Some? ==>
      |r| == |Filter(detail.value.marketSubcategories.value, SubCategoryShown)|
      && forall s :: s in r ==> s.categoryId == detail.value.id
    ensures (detail.None? || detail.value.marketSubcategories.None?) && selected.Some? ==> r == selected.value.subCategories
    ensures (detail.None? || detail.value.marketSubcategories.None?) && selected.None? ==> r == []
  {
    if detail.Some? && detail.value.marketSubcategories.Some? then
      Map(Filter(detail.value.marketSubcategories.value, SubCategoryShown), SubCategoryToModel(detail.value.id))
    else if selected.Some? then selected.value.subCategories
    else []
  }

  /** The normalised subcategories are, position by position, the non-hidden API
      subcategories in their order, each tagged with the detail's category id, named
      through the language chain (falling back to `Subcategory {id}`) and holding its
      non-hidden products. */
  lemma NormalisedSubCategoriesAreTheShownOnes(detail: CategoryDetail, selected: Option<Category>)
    requires detail.marketSubcategories.Some?
    ensures var subs := detail.marketSubcategories.value;
            var kept := Filter(subs, SubCategoryShown);
            var r := CurrentSubCategories(Some(detail), selected);
            |r| == |kept| && IsSubsequence(kept, subs)
            && (forall s :: s in kept <==> s in subs && !s.hide)
            && (forall i :: 0 <= i < |r| ==>
                  r[i] == ToSubCategory(kept[i], detail.id)
                  && r[i].id == kept[i].id && r[i].categoryId == detail.id
                  && r[i].name == DisplayName(kept[i].name, "Subcategory " + IntToString(kept[i].id))
                  && r[i].name != []
                  && |r[i].items| == |Filter(kept[i].products, ProductShown)|)
  {
    var subs := detail.marketSubcategories.value;
    FilterIsSubsequence(subs, SubCategoryShown);
    FilterMembers(subs, SubCategoryShown);
    var kept := Filter(subs, SubCategoryShown);
    forall i | 0 <= i < |kept| {
      DisplayNameNonEmpty(kept[i].name, "Subcategory ", kept[i].id);
    }
  }

  /** A subcategory's items are, position by position, its non-hidden products in their
      order, each tagged with the subcategory's id, named through the language chain
      (falling back to `Product {id}`), priced by the discount-then-base rule and given
      a non-empty image path. */
  lemma ItemsAreTheShownProducts(s: MarketSubCategory, categoryId: int)
    ensures var kept := Filter(s.products, ProductShown);
            var items := ToSubCategory(s, categoryId).items;
            |items| == |kept| && IsSubsequence(kept, s.products)
            && (forall p :: p in kept <==> p in s.products && !p.hide)
            && (forall i :: 0 <= i < |items| ==>
                  items[i] == ToItem(kept[i], s.id)
                  && items[i].id == kept[i].id && items[i].subCategoryId == s.id
                  && items[i].name == DisplayName(kept[i].name, "Product " + IntToString(kept[i].id))
                  && items[i].name != []
                  && items[i].price == PickPrice(kept[i].discountPrice, kept[i].basePrice)
                  && (kept[i].discountPrice != 0.0 ==> items[i].price == kept[i].discountPrice)
                  && (kept[i].discountPrice == 0.0 ==> items[i].price == kept[i].basePrice)
                  && items[i].image == ProductImageOf(kept[i]) && items[i].image != [])
  {
    FilterIsSubsequence(s.products, ProductShown);
    FilterMembers(s.products, ProductShown);
    var kept := Filter(s.products, ProductShown);
    forall i | 0 <= i < |kept| {
      DisplayNameNonEmpty(kept[i].name, "Product ", kept[i].id);
    }
  }

  // ---- Error classification ----

  /** What a failed request reports: the HTTP status of a response, whether a request
      went out, and the error's message (empty when it has none). */
  datatype HttpError = HttpError(response: Option<int>, request: bool, message: string)

  const CategoryLoadFailed: string := "Failed to load category details"
  const CategoryNotFound: string := "Category not found"
  const ServerErrorCategory: string := "Server error loading category"
  const RequestFailedCategory: string := "Request failed loading category"
  const NetworkErrorCategory: string := "Network error loading category"

  /** The message of the error banner after a failed category-detail request. A
      response decides by its status (404, 500, any other status from 400 up, which is
      named in the message; below 400 the default); without a response a request that
      went out is a network error; otherwise the error's own message, else the default. */
  function CategoryErrorMessage(e: HttpError): (msg: string)
    ensures e.response == Some(404) ==> msg == CategoryNotFound
    ensures e.response == Some(500) ==> msg == ServerErrorCategory
    ensures e.response.Some? && e.response.value >= 400 && e.response.value != 404 && e.response.value != 500 ==>
      msg == "Request failed (" + IntToString(e.response.value) + ")"
    ensures e.response.Some? && e.response.value < 400 ==> msg == CategoryLoadFailed
    ensures e.response.None? && e.request ==> msg == NetworkErrorCategory
    ensures e.response.None? && !e.request ==> msg == (if e.message != [] then "Error: " + e.message else CategoryLoadFailed)
  {
    match e.response
    case Some(status) =>
      if status == 404 then CategoryNotFound
      else if status == 500 then ServerErrorCategory
      else if status >= 400 then "Request failed (" + IntToString(status) + ")"
      else CategoryLoadFailed
    case None =>
      if e.request then NetworkErrorCategory
      else if e.message != [] then "Error: " + e.message
      else CategoryLoadFailed
  }

  /** The same chain with the constant message for other statuses from 400 up. */
  function CategoryErrorMessageWithConstants(e: HttpError): string
  {
    match e.response
    case Some(status) =>
      if status == 404 then CategoryNotFound
      else if status == 500 then ServerErrorCategory
      else if status >= 400 then RequestFailedCategory
      else CategoryLoadFailed
    case None =>
      if e.request then NetworkErrorCategory
      else if e.message != [] then "Error: " + e.message
      else CategoryLoadFailed
  }

  /** Every failure produces a non-empty message, so the error banner always shows. */
  lemma ErrorBannerAlwaysShown(e: HttpError)
    ensures CategoryErrorMessage(e) != [] && CategoryErrorMessageWithConstants(e) != []
  {
  }

  /** A response's status alone decides the message: whether a request went out and
      the error's text do not matter once there is a response. */
  lemma ResponseStatusDecides(e1: HttpError, e2: HttpError)
    requires e1.response.Some? && e1.response == e2.response
    ensures CategoryErrorMessage(e1) == CategoryErrorMessage(e2)
    ensures CategoryErrorMessageWithConstants(e1) == CategoryErrorMessageWithConstants(e2)
  {
  }

  /** The two variants of the classifier differ exactly on the statuses from 400 up
      other than 404 and 500. */
  lemma VariantsDifferOnlyOnOtherClientStatuses(e: HttpError)
    ensures CategoryErrorMessage(e) != CategoryErrorMessageWithConstants(e)
        <==> e.response.Some? && e.response.value >= 400 && e.response.value != 404 && e.response.value != 500
  {
    if e.response.Some? && e.response.value >= 400 && e.response.value != 404 && e.response.value != 500 {
      var m := "Request failed (" + IntToString(e.response.value) + ")";
      assert m[15] == '(';
      assert RequestFailedCategory[15] == 'l';
    }
  }
}

# Market-detail navigator of the Haat app, in Dafny

The Haat app's market-detail screen shows a market's catalogue as one long vertical list.
It also has two horizontal tab bars, one for categories and one for subcategories. The
list and the tabs are kept in step. This project models the logic behind that screen,
together with the small pure helpers it relies on:

- **Flattener** (`flatten.dfy`, `getFlatListData`). It turns the category, subcategory and
  item tree into rows. Each category gets a header row. Each subcategory gets a header
  row, plus an items-grid row only when it has items. The selected category's block is
  pinned first. Rows are numbered in order. `GetFlatListData` keeps the source's push
  loops and is proved equal to the specification function `FlatListData`.
- **Layout estimator** (`layout.dfy`, `getItemLayout` and the offset loop of
  `scrollToCategory`). Row heights are estimated: 120 for a category header, 80 for a
  subcategory header, and `ceil(n/2) * 200` for a grid of `n` items. A row's offset is the
  sum of the heights before it.
- **Visibility resolver** (`visibility.dfy`, `updateVisibleItems`).
  - A scroll offset within 50 of the last accepted offset is ignored.
  - Otherwise the first row meeting the 800-unit viewport decides the visible category
    and subcategory.
- **Navigation controller** (`navigator.dfy`, class `MarketDetailController`). It holds
  the screen's state: the selected and visible category and subcategory, the scroll
  anchor, the category detail, the loading flag and the error banner. Its methods are:
  - the initial selection from an optional deep-link id;
  - the two tab presses;
  - scroll events;
  - both variants of `scrollToCategory`: the row index used by
    `screens/MarketDetail.tsx`, and the offset plus animation length used by
    `components/MarketDetail.tsx`, which `App.tsx` mounts;
  - the tab source list;
  - the start, success and failure of the category-detail request.
- **Tab bars** (`tabs.dfy`, `order.dfy`). The selected entity is pinned first and the
  others keep their order. A tab is highlighted when its id matches the visible entity.
  Centring is `max(0, index * tabWidth - containerWidth / 2 + tabWidth / 2)`.
- **Normalisation and error messages** (`normalise.dfy`).
  - The API's category detail becomes `SubCategory` and `Item` records. Hidden entries
    are dropped. Names fall back through en-US, ar, he and fr. The discount price wins
    over the base price. An image path is chosen, with a fallback.
  - A failed request becomes the error banner's text.
- **`getImageUrl`** (`api.dfy`) and the **category list screen** (`marketslist.dfy`). The
  list screen has a search filter, a result-count subtitle, a no-results panel and the
  card margin rule.

Neither screen calls `getCurrentSubCategories`. The category detail a request stores is
therefore never shown: the list and both tab bars are built from the market's own
categories. `Normalise.CurrentSubCategories` models that unused function on its own,
and the controller only stores the detail.

The code has no flag that suppresses visibility updates during a programmatic scroll
and no retry loop for the initial scroll. Auto-selection always takes
`subCategories[0]`, even when it has no items. A subcategory press only changes the
subcategory selection and issues no scroll. The visibility resolver never touches the
selection.

Each handler is one atomic update. A value a handler reads is the state as it was when
the handler started, as in the React render that created it. That is why a category
press scrolls to the pressed category's header in the rows as they were before the
press.

## Model

| member | source | states |
|---|---|---|
| Seqs.FilterIsSubsequence | screens/MarketsList.tsx:42-44 | `filter` keeps an order-preserving selection of its input |
| Seqs.FilterMembers | screens/MarketDetail.tsx:268 | an element survives `filter` exactly when it was in the input and passes the predicate |
| Text.TrimEmptyIffBlank | screens/MarketsList.tsx:37 | `trim()` is empty exactly when the string is all white space |
| Text.TrimLower | screens/MarketsList.tsx:41 | lower-casing then trimming equals trimming then lower-casing |
| Catalog.AllSubCategoriesMembers | screens/MarketDetail.tsx:372-379 | the accumulated list holds a subcategory exactly when some category owns it |
| Catalog.ItemTotalAppend | components/MarketDetail.tsx:368-370 | the header's item total is additive over subcategory lists |
| Catalog.ItemTotalZeroIffEmpty | components/MarketDetail.tsx:368-370 | the item total is 0 exactly when every subcategory is empty |
| Order.Without | components/CategoryTabs.tsx:20 | the filtered list keeps the entities whose id differs from the key, in order |
| Order.Pinned | components/CategoryTabs.tsx:19-21 | no pin leaves the list as is; a pin comes first, followed by an ordered selection of the input holding exactly the entities with a different id |
| Order.PinnedLength | components/CategoryTabs.tsx:19-21 | the pinned list has 1 plus the number of entities whose id differs from the pinned one |
| Order.PinnedIsPermutation | components/CategoryTabs.tsx:19-21 | when the pinned entity's id occurs once in the input, the pinned list is a permutation of the input |
| Order.PinnedIdempotent | components/SubCategoryTabs.tsx:21-23 | pinning twice with the same selection is pinning once |
| Order.PinnedKeepsUniqueKeys | components/CategoryTabs.tsx:19-21 | pinning keeps ids unique |
| Order.AtMostOneActive | components/CategoryTabs.tsx:35 | with unique ids at most one tab matches the visible entity's id |
| Order.IndexOfKey | screens/MarketDetail.tsx:478 | `findIndex` by id gives the first position with that id, or none when no element has it |
| Order.FindByKey | screens/MarketDetail.tsx:153-161 | `find` by id gives the first element with that id, or none when no element has it |
| Order.CentreTarget | screens/MarketDetail.tsx:485 | the centring position is `max(0, index * tabWidth - containerWidth / 2 + tabWidth / 2)` |
| Order.CentreTargetMonotone | screens/MarketDetail.tsx:485 | tabs further right never get a smaller scroll position |
| Flatten.FlatListData | screens/MarketDetail.tsx:241-337 | no categories give no rows; every row's index is its position and its id is the kind prefix plus the entity id |
| Flatten.GetFlatListData | screens/MarketDetail.tsx:241-337 | the push loops build exactly the specified rows |
| Flatten.PushCategoryRows | screens/MarketDetail.tsx:275-325 | one category's pushes append exactly that category's block, numbered on from the rows before |
| Flatten.EntriesAppend | screens/MarketDetail.tsx:275 | the rows of a concatenation of categories are the concatenation of their rows |
| Flatten.SelectedCategoryLeads | screens/MarketDetail.tsx:263-272 | with a selection, row 0 is the selected category's header, even when it is not in the input; then come the blocks of the other categories without its id, in input order |
| Flatten.UnpinnedFollowsInput | screens/MarketDetail.tsx:263-275 | without a selection the blocks follow the input order |
| Flatten.HeadersInOrder | screens/MarketDetail.tsx:275-325 | the category headers are exactly the categories in order, and the subcategory headers exactly all their subcategories in order |
| Flatten.EntriesWellFormed | screens/MarketDetail.tsx:292-322 | a grid row directly follows its subcategory's header; a subcategory header is followed by a grid exactly when it has items; every other row sits in its category's block |
| Flatten.EntriesOwnership | screens/MarketDetail.tsx:275-322 | every row belongs to a listed category, and every subcategory or grid row to one of its category's subcategories |
| Flatten.HeaderTotalMatchesGrids | components/MarketDetail.tsx:368-370 | a category header's item total equals the number of items its grid rows show |
| Flatten.MockCategoryRows | data/mockData.ts:6-166 | each fallback category flattens to header, subcategory, grid, subcategory, grid |
| Flatten.MockFlattensToFifteenRows | data/mockData.ts:6-166 | the fallback market flattens to 15 rows when nothing is selected |
| Layout.GridRows | screens/MarketDetail.tsx:662-664 | `ceil(n/2)` is the fewest two-column lines holding `n` items |
| Layout.OffsetBefore | screens/MarketDetail.tsx:667-680 | the offset loop sums the estimated heights of the rows before the index |
| Layout.GetItemLayout | screens/MarketDetail.tsx:648-687 | an index with no row gives length and offset 0; otherwise the row's height and the heights before it; the index is echoed |
| Layout.OffsetStep | screens/MarketDetail.tsx:667-680 | the offset of row `i + 1` is the offset of row `i` plus row `i`'s length |
| Layout.OffsetMonotone | screens/MarketDetail.tsx:667-680 | offsets never decrease along the list |
| Layout.LayoutsTile | screens/MarketDetail.tsx:648-687 | consecutive layouts tile the list without gaps, inside its total height, and the last row ends exactly at the total height |
| Layout.SumHeightsEven | constants/index.ts:28-38 | with these constants every offset is even |
| Layout.SumHeightsAppend | screens/MarketDetail.tsx:667-680 | the height of concatenated rows is the sum of the heights |
| Layout.NumberedHeight | screens/MarketDetail.tsx:279-313 | numbering rows does not change their heights |
| Layout.ScrollDuration | components/MarketDetail.tsx:705-706 | the animation is half the distance, clamped to [300, 800] |
| Layout.ScrollDurationMonotone | components/MarketDetail.tsx:705-706 | a longer scroll never animates faster |
| Layout.CategoryRowIndex | screens/MarketDetail.tsx:552-554 | the first category header row with the id, or none when no header has it |
| Layout.MockCategoryHeight | data/mockData.ts:6-166 | each fallback category's block is 680 units tall |
| Layout.MockTotalHeight | data/mockData.ts:6-166 | the unpinned fallback market is 2040 units tall |
| Visibility.FirstVisibleFrom | screens/MarketDetail.tsx:408-445 | the first row, from a given index on, whose span meets `[offset, offset + 800)`; none when no row does |
| Visibility.VisibleOf | screens/MarketDetail.tsx:428-440 | a category header yields its category and no subcategory; a subcategory header or grid yields its category and subcategory |
| Visibility.ResolveVisible | screens/MarketDetail.tsx:401-445 | the loop with `break` yields the pair of the first intersecting row, or nothing |
| Visibility.VisibleIffOverlap | screens/MarketDetail.tsx:422-428 | some row is visible exactly when there are rows, the offset is above the total height, and the viewport's bottom edge is below 0 |
| Visibility.FirstEndingAfter | screens/MarketDetail.tsx:422-428 | inside the list, some row ends below the offset and every row before it ends at or above it |
| Visibility.VisibleRowSpansTopEdge | screens/MarketDetail.tsx:422-428 | for a non-negative offset the resolved row spans the viewport's top edge |
| Visibility.SmallOffsetsIgnored | screens/MarketDetail.tsx:394-399 | from the initial anchor 0, offsets strictly between -50 and 50 are all ignored |
| Visibility.AcceptedOffsetsAreApart | screens/MarketDetail.tsx:394-399 | an accepted offset is at least 50 away from the anchor it replaces |
| Visibility.MockVisibility | data/mockData.ts:6-166 | at offset 0 the first fallback category is visible; at offset 700 the second is |
| Visibility.FirstVisibleFromSkips | screens/MarketDetail.tsx:408-445 | the scan skips rows that do not intersect and stops at the first that does |
| Tabs.SubCategoryTabOrder | components/SubCategoryTabs.tsx:19-23 | an empty list renders no bar; otherwise the selected subcategory comes first, then the others with a different id, in order |
| Tabs.CollectSubCategories | screens/MarketDetail.tsx:372-379 | the push loop collects every category's subcategories in order |
| Tabs.TabSubCategoriesMembers | screens/MarketDetail.tsx:357-390 | a subcategory is offered exactly when it is the selected one, or it belongs to the visible category (to any category when none is visible) and its id differs from the selected one's |
| Tabs.DoublePinHarmless | components/SubCategoryTabs.tsx:21-23 | re-pinning the already pinned tab list changes nothing, and a selected subcategory always keeps the bar shown |
| Tabs.CategoryTabTarget | screens/MarketDetail.tsx:469-496 | no scroll exactly when no tab in the pinned category order has the id |
| Tabs.SubCategoryTabTarget | screens/MarketDetail.tsx:498-522 | no scroll exactly when no subcategory tab has the id |
| Tabs.SubCategoryTabTargetAt | screens/MarketDetail.tsx:498-522 | with unique ids, subcategory tab `i` is scrolled to `max(0, 100 * i - 75)` |
| Tabs.SelectedTabsScrollToStart | screens/MarketDetail.tsx:469-522 | the pinned first tab of either bar scrolls the bar to 0 |
| Tabs.CategoryTabTargetAt | screens/MarketDetail.tsx:469-496 | with unique ids, category tab `i` is scrolled to `max(0, 120 * i - 90)` |
| Tabs.AtMostOneCategoryTabActive | components/CategoryTabs.tsx:35-40 | with unique ids at most one category tab is highlighted |
| Tabs.AtMostOneSubCategoryTabActive | components/SubCategoryTabs.tsx:37-43 | with unique ids in the source list at most one subcategory tab is highlighted |
| Normalise.FirstNonEmptyPicksFirst | components/MarketDetail.tsx:239 | the `a \|\| b \|\| ...` chain yields its first non-empty candidate |
| Normalise.FirstNonEmptyFallsBack | components/MarketDetail.tsx:239 | with every candidate empty the chain yields its fallback |
| Normalise.DisplayNameNonEmpty | components/MarketDetail.tsx:239-245 | subcategory and product names are never empty |
| Normalise.PickPrice | components/MarketDetail.tsx:247 | the discount price when non-zero, else the base price |
| Normalise.ProductImageOf | components/MarketDetail.tsx:248 | the chosen image path is never empty |
| Normalise.CurrentSubCategories | components/MarketDetail.tsx:230-262 | with detail data the result has one record per non-hidden API subcategory, each carrying the detail's category id; otherwise the selected category's subcategories, else none |
| Normalise.NormalisedSubCategoriesAreTheShownOnes | components/MarketDetail.tsx:235-243 | the result is, position by position, the non-hidden API subcategories in order: same id, the detail's category id, the language-chain name (never empty) and one item per non-hidden product |
| Normalise.ItemsAreTheShownProducts | components/MarketDetail.tsx:241-250 | a subcategory's items are, position by position, its non-hidden products in order: same id, the subcategory's id, the language-chain name (never empty), the discount price when non-zero else the base price, and a non-empty image path |
| Normalise.CategoryErrorMessage | components/MarketDetail.tsx:200-214 | the message for 404, 500, other statuses from 400 up, statuses below 400, a request with no response, and an error with or without its own message |
| Normalise.ErrorBannerAlwaysShown | components/MarketDetail.tsx:200-216 | every failure yields a non-empty banner message |
| Normalise.ResponseStatusDecides | components/MarketDetail.tsx:202-209 | once there is a response, its status alone decides the message |
| Normalise.VariantsDifferOnlyOnOtherClientStatuses | screens/MarketDetail.tsx:176-191 | this screen's chain differs from the mounted component's exactly on statuses from 400 up other than 404 and 500 |
| Api.GetImageUrl | services/api.ts:32-36 | an empty path gives the empty string; an `http` path is kept |
| Api.BaseIsAbsolute | services/api.ts:5 | the image host's address starts with `http` |
| Api.ImageUrlShape | services/api.ts:32-36 | the result is empty exactly when the path is; otherwise it is absolute and ends with the path, and a relative path is prefixed with the image host |
| Api.GetImageUrlIdempotent | services/api.ts:33-35 | resolving a resolved URL changes nothing |
| MarketsList.FilteredIsOrderedSelection | screens/MarketsList.tsx:36-45 | a blank query returns the list unchanged; any result is an order-preserving selection of it |
| MarketsList.FilteredMembers | screens/MarketsList.tsx:36-45 | a category is listed exactly when the query is blank or its lower-cased name contains the trimmed, lower-cased query |
| MarketsList.QueryCaseAndPaddingIgnored | screens/MarketsList.tsx:41 | the query's case and surrounding white space do not change the result |
| MarketsList.NoResultsIff | screens/MarketsList.tsx:113 | the no-results panel shows exactly when the query is not blank and no name contains it |
| MarketsList.CountWordAsWrittenIsMisspelt | screens/MarketsList.tsx:101 | the written count word is `categoryy` or `categoryies`, never an English word |
| MarketsList.CountWord | screens/MarketsList.tsx:101 | `category` for one match, `categories` otherwise |
| MarketsList.SectionSubtitle | screens/MarketsList.tsx:99-104 | a blank query gives `What are you craving today?`; otherwise `Found`, the count, the count word as written and the query as typed, in quotes |
| MarketsList.SectionSubtitleIntended | screens/MarketsList.tsx:99-104 | the same subtitle with the count word meant |
| MarketsList.SubtitleAsWrittenDiffersFromIntended | screens/MarketsList.tsx:99-104 | the written and intended subtitles agree exactly when the query is blank; otherwise both end with the quoted query as typed and the written one starts `Found {count} category` |
| MarketsList.CardMarginsAlternate | screens/MarketsList.tsx:130 | the left card of each row has a 16-unit right margin and the right card none |
| Navigator.InitialCategory | screens/MarketDetail.tsx:78-114 | a present, non-zero deep-link id selects the first category with that id, or nothing when none has it; otherwise the first category, or nothing for an empty list |
| Navigator.PinnedFrom | screens/MarketDetail.tsx:263-272 | every category in the pinned order is the selected one or an input category |
| Navigator.HeaderHasRow | screens/MarketDetail.tsx:279-284 | each listed category has its own header row |
| Navigator.CategoryRowFoundIff | screens/MarketDetail.tsx:541-572 | a header row is found exactly when some category in the pinned order has the id; otherwise nothing is scrolled |
| Navigator.ScrollLandsOnCategory | components/MarketDetail.tsx:676-719 | scrolling to a category header's offset makes the resolver report that category and no subcategory |
| Navigator.VisiblePairOwned | screens/MarketDetail.tsx:401-456 | the resolver only reports the market's own categories and subcategories |
| Navigator.FallbackFindsSelected | components/MarketDetail.tsx:219-225 | with unique ids, the fallback lookup finds the selected category itself |
| Navigator.MarketDetailController.constructor | screens/MarketDetail.tsx:37-45 | the screen mounts with nothing selected or visible, anchor 0, no detail, not loading and no error |
| Navigator.MarketDetailController.SelectWithFirstSubCategory | screens/MarketDetail.tsx:83-92 | the category becomes selected and visible, and so does its first subcategory when there is one |
| Navigator.MarketDetailController.InitialSelection | screens/MarketDetail.tsx:78-114 | the state follows `InitialCategory`; no target leaves all state unchanged; only a deep link schedules a scroll |
| Navigator.MarketDetailController.ScrollToCategory | screens/MarketDetail.tsx:541-572 | the index of the first header row with the id in the current rows, or none |
| Navigator.MarketDetailController.ScrollToCategoryByOffset | components/MarketDetail.tsx:663-720 | no command exactly when no header has the id; otherwise the header's offset with the clamped duration |
| Navigator.MarketDetailController.OnCategoryPress | screens/MarketDetail.tsx:586-604 | the tapped category and its first subcategory (both subcategory fields cleared when it has none) become selected and visible; the scroll targets its header in the rows before the press, which always exists |
| Navigator.MarketDetailController.OnSubCategoryPress | screens/MarketDetail.tsx:612-616 | only the selected and visible subcategory change |
| Navigator.MarketDetailController.UpdateVisibleItems | screens/MarketDetail.tsx:392-467 | a throttled offset changes nothing; otherwise the anchor moves and the visible pair is the resolver's; the selection never changes |
| Navigator.MarketDetailController.CurrentSubCategoriesForTabs | screens/MarketDetail.tsx:357-390 | the tab source list with the selected subcategory pinned first |
| Navigator.MarketDetailController.BeginLoadCategoryDetail | screens/MarketDetail.tsx:71-76 | a selected category with a non-zero id starts a request for that id, sets loading and clears the error; otherwise nothing happens |
| Navigator.MarketDetailController.CategoryDetailLoaded | components/MarketDetail.tsx:186-196 | the detail is stored and loading ends |
| Navigator.MarketDetailController.CategoryDetailFailed | components/MarketDetail.tsx:196-228 | the banner gets the classified message, the category with the id is selected again when it exists, and loading ends |

## Left out

- JSX, styles and the presentation components carry no logic beyond what is modelled here. These are the headers, grids, cards, market header, spinner, image fallback, and the list component under `components/`.
- The network layer is left out: the axios instance, `getMarketDetail`, `getCategoryDetail` and the `await`. Only what is done with a response or an error is modelled. `App.tsx`'s fetch, retry, mock fallback and its copy of the error chain are not part of this model.
- Timers are not modelled as delays.
  - The 100 to 500 ms `setTimeout` delays become results returned by the handler: a scheduled scroll id, a row index or a `ScrollCommand`.
  - The component's `onLayout` scroll to the top is not part of this model.
  - The platform calls `scrollToIndex`, `scrollToOffset` and `scrollTo` are not issued.
- The effects that react to a change of visible category or subcategory are not modelled as triggers. Their tab centring is modelled as `Tabs.CategoryTabTarget` and `Tabs.SubCategoryTabTarget`.
- The effect that starts a category-detail request when the selection changes is `BeginLoadCategoryDetail`, called explicitly. React's effect re-runs, batching and reference comparisons are not modelled. The `!==` checks before the visible-state setters only skip redundant writes, so the model always writes.
- Null refs (`flatListRef.current` and the tab scroll-view refs) are taken to be present.
- Floating point is not modelled. Offsets are integers. Prices are kept as `real`, and only which price is chosen is modelled. A `NaN` price or offset is not considered. Card widths and `toFixed` are left out.
- Rendered heights are not modelled; category header rows render nothing on screen. The model uses the estimated heights the code computes with.
- `toLowerCase` is ASCII-only here; Unicode case folding is not modelled.
- `console.log` diagnostics are left out.
- Optional `subCategories`, `items` and `productImages` are modelled as always-present lists, where a missing list is the empty list.
- The screen's own error chain says `Request failed loading category` for other statuses from 400 up, where the mounted component says `Request failed ({status})`. The controller uses the component's chain. The other chain is `Normalise.CategoryErrorMessageWithConstants`, related to it by `Normalise.VariantsDifferOnlyOnOtherClientStatuses`.
- Order.CentreTarget: requires even tab and container widths so that halving is exact. All four widths the screens use (120, 300, 100, 250) are even.
- Navigator.MarketDetailController.OnCategoryPress: requires the tapped category to be one the category bar shows, which is the only way the handler is called.
- Navigator.MarketDetailController.OnSubCategoryPress: requires the tapped subcategory to be one the subcategory bar shows, for the same reason.

## Findings

| source | as written | input that shows it | evidently intended | confidence | as-written member | corrected member |
|---|---|---|---|---|---|---|
| screens/MarketsList.tsx:101 | the count word is `category` followed by `ies` (count not 1) or `y` (count 1) | a search matching 1 category reads "Found 1 categoryy"; 2 matches read "Found 2 categoryies" | `category` for one match, `categories` otherwise | high; not executed | MarketsList.CountWordAsWrittenIsMisspelt | MarketsList.CountWord |

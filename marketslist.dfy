/** The category list screen: a search box filters the categories by name, a subtitle
    counts the matches, a "no categories found" panel replaces an empty result, and the
    cards are laid out two to a row with a gap after the left card only. */
module MarketsList {
  import opened Seqs
  import opened Text
  import opened Catalog

  const GridColumns: nat := 2
  const GridSpacing: nat := 16

  /** `category.name.toLowerCase().includes(query)`. */
  function NameContains(query: string): Category -> bool
  {
    (c: Category) => Contains(Lower(c.name), query)
  }

  /** `filteredCategories`: a blank query keeps every category; otherwise the query is
      lower-cased and trimmed and the categories whose lower-cased name contains it are
      kept, in order. */
  function FilteredCategories(categories: seq<Category>, searchQuery: string): seq<Category>
  {
    if Trim(searchQuery) == [] then categories
    else Filter(categories, NameContains(Trim(Lower(searchQuery))))
  }

  /** A blank query shows the whole list; any result is the input with some categories
      left out and the rest in their order. */
  lemma FilteredIsOrderedSelection(categories: seq<Category>, searchQuery: string)
    ensures IsBlank(searchQuery) ==> FilteredCategories(categories, searchQuery) == categories
    ensures IsSubsequence(FilteredCategories(categories, searchQuery), categories)
  {
    TrimEmptyIffBlank(searchQuery);
    if Trim(searchQuery) == [] {
      SubsequenceRefl(categories);
    } else {
      FilterIsSubsequence(categories, NameContains(Trim(Lower(searchQuery))));
    }
  }

  lemma {:induction false} SubsequenceRefl<T>(xs: seq<T>)
    ensures IsSubsequence(xs, xs)
  {
    if xs != [] {
      SubsequenceRefl(xs[..|xs| - 1]);
    }
  }

  /** A category is listed exactly when the query is blank or its lower-cased name
      contains the trimmed, lower-cased query. */
  lemma FilteredMembers(categories: seq<Category>, searchQuery: string, c: Category)
    ensures c in FilteredCategories(categories, searchQuery)
        <==> c in categories && (IsBlank(searchQuery) || Contains(Lower(c.name), Lower(Trim(searchQuery))))
  {
    TrimEmptyIffBlank(searchQuery);
    TrimLower(searchQuery);
    FilterMembers(categories, NameContains(Trim(Lower(searchQuery))));
  }

  /** The filter ignores the case of the query and white space around it. */
  lemma QueryCaseAndPaddingIgnored(categories: seq<Category>, searchQuery: string, pad: char)
    requires IsWhitespace(pad)
    ensures FilteredCategories(categories, Lower(searchQuery)) == FilteredCategories(categories, searchQuery)
    ensures FilteredCategories(categories, [pad] + searchQuery) == FilteredCategories(categories, searchQuery)
    ensures FilteredCategories(categories, searchQuery + [pad]) == FilteredCategories(categories, searchQuery)
  {
    TrimLower(searchQuery);
    TrimLower(Lower(searchQuery));
    LowerIdempotent(searchQuery);
    TrimEmptyIffBlank(searchQuery);
    TrimEmptyIffBlank(Lower(searchQuery));
    PaddedTrim(searchQuery, pad);
    TrimLower([pad] + searchQuery);
    TrimLower(searchQuery + [pad]);
  }

  /** The "no categories found" panel: nothing matched a non-blank query. */
  predicate ShowNoResults(filtered: seq<Category>, searchQuery: string)
  {
    |filtered| == 0 && Trim(searchQuery) != []
  }

  /** The panel shows exactly when the query is not blank and no category name contains
      it. */
  lemma NoResultsIff(categories: seq<Category>, searchQuery: string)
    ensures ShowNoResults(FilteredCategories(categories, searchQuery), searchQuery)
        <==> !IsBlank(searchQuery) && forall c :: c in categories ==> !Contains(Lower(c.name), Lower(Trim(searchQuery)))
  {
    TrimEmptyIffBlank(searchQuery);
    var r := FilteredCategories(categories, searchQuery);
    forall c | c in categories {
      FilteredMembers(categories, searchQuery, c);
    }
    if r != [] {
      FilteredMembers(categories, searchQuery, r[0]);
    }
  }

  /** The count word as the subtitle writes it: `category` followed by `ies` for any
      count but one and by `y` for one. */
  function CountWordAsWritten(count: nat): string
  {
    "category" + (if count != 1 then "ies" else "y")
  }

  /** The count word meant: `category` for one match, `categories` otherwise. */
  function CountWord(count: nat): (w: string)
    ensures count == 1 <==> w == "category"
    ensures count != 1 <==> w == "categories"
  {
    if count == 1 then "category" else "categories"
  }

  /** The written count word is never an English word: one match reads `categoryy`, any
      other count `categoryies`. */
  lemma CountWordAsWrittenIsMisspelt(count: nat)
    ensures CountWordAsWritten(count) != CountWord(count)
    ensures CountWordAsWritten(count) != "category" && CountWordAsWritten(count) != "categories"
    ensures CountWordAsWritten(1) == "categoryy" && CountWordAsWritten(2) == "categoryies"
  {
    assert |CountWordAsWritten(count)| > 9 || CountWordAsWritten(count)[8] == 'y';
    assert "categories"[8] == 'e';
  }

  /** The subtitle under the section title, as the screen writes it: a blank query
      invites the user to browse; otherwise it reports the count with the written count
      word and quotes the query as typed, padding included. */
  function SectionSubtitle(filteredCount: nat, searchQuery: string): (subtitle: string)
    ensures Trim(searchQuery) == [] ==> subtitle == "What are you craving today?"
    ensures Trim(searchQuery) != [] ==>
      subtitle == "Found " + IntToString(filteredCount) + " " + CountWordAsWritten(filteredCount)
                  + " for \"" + searchQuery + "\""
  {
    SubtitleOf(filteredCount, CountWordAsWritten(filteredCount), searchQuery)
  }

  /** The subtitle with the count word meant. */
  function SectionSubtitleIntended(filteredCount: nat, searchQuery: string): (subtitle: string)
    ensures Trim(searchQuery) == [] ==> subtitle == "What are you craving today?"
    ensures Trim(searchQuery) != [] ==>
      subtitle == "Found " + IntToString(filteredCount) + " " + CountWord(filteredCount)
                  + " for \"" + searchQuery + "\""
  {
    SubtitleOf(filteredCount, CountWord(filteredCount), searchQuery)
  }

  function SubtitleOf(filteredCount: nat, word: string, searchQuery: string): string
  {
    if Trim(searchQuery) == [] then "What are you craving today?"
    else "Found " + IntToString(filteredCount) + " " + word + " for \"" + searchQuery + "\""
  }

  /** The two subtitles agree on a blank query and differ on every other one, whatever
      the count: the written one always carries the misspelt word. Both end with the
      query exactly as typed. */
  lemma SubtitleAsWrittenDiffersFromIntended(filteredCount: nat, searchQuery: string)
    ensures Trim(searchQuery) == [] <==>
      SectionSubtitle(filteredCount, searchQuery) == SectionSubtitleIntended(filteredCount, searchQuery)
    ensures Trim(searchQuery) != [] ==>
      var written := SectionSubtitle(filteredCount, searchQuery);
      var intended := SectionSubtitleIntended(filteredCount, searchQuery);
      StartsWith(written, "Found " + IntToString(filteredCount) + " category")
      && |searchQuery| + 1 < |written| && written[|written| - |searchQuery| - 1..] == searchQuery + "\""
      && |searchQuery| + 1 < |intended| && intended[|intended| - |searchQuery| - 1..] == searchQuery + "\""
  {
    if Trim(searchQuery) != [] {
      var head := "Found " + IntToString(filteredCount) + " ";
      var tail := " for \"" + searchQuery + "\"";
      var w := CountWordAsWritten(filteredCount);
      var c := CountWord(filteredCount);
      CountWordAsWrittenIsMisspelt(filteredCount);
      ThreeParts(head, w, tail);
      ThreeParts(head, c, tail);
      QuotedTail(searchQuery);
      assert w == "category" + w[8..];
      assert head + w == (head + "category") + w[8..];
      assert head + "category" == "Found " + IntToString(filteredCount) + " category";
      assert (head + w + tail)[..|head| + 8] == head + "category";
      if head + w + tail == head + c + tail {
        assert false;
      }
    }
  }

  /** A string built from three parts gives each part back. */
  lemma ThreeParts(head: string, word: string, tail: string)
    ensures var s := head + word + tail;
            s[..|head| + |word|] == head + word && s[|head|..|head| + |word|] == word
            && s[|head| + |word|..] == tail
  {
  }

  /** The quoted query ends the subtitle. */
  lemma QuotedTail(searchQuery: string)
    ensures var tail := " for \"" + searchQuery + "\"";
            |searchQuery| + 1 < |tail| && tail[|tail| - |searchQuery| - 1..] == searchQuery + "\""
  {
    var tail := " for \"" + searchQuery + "\"";
    assert tail == " for \"" + (searchQuery + "\"");
  }

  /** `(index + 1) % GRID_CONFIG.COLUMNS === 0 ? 0 : GRID_CONFIG.SPACING`. */
  function CardRightMargin(index: nat): nat
  {
    if (index + 1) % GridColumns == 0 then 0 else GridSpacing
  }

  /** Cards fill rows of two: the left card of each row (an even index) has a 16-unit
      gap after it and the right card (an odd index) none. */
  lemma CardMarginsAlternate(row: nat)
    ensures CardRightMargin(2 * row) == GridSpacing
    ensures CardRightMargin(2 * row + 1) == 0
  {
    assert (2 * row + 1) % 2 == 1;
    assert 2 * row + 2 == 2 * (row + 1);
  }
}

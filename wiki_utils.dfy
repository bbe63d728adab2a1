/**
 * Wikipedia constants and the title tests that tell list, disambiguation and category
 * pages apart from articles.
 */
module WikiUtils {
  import opened JavaLang

  /** The number of documents the document frequencies were counted over. */
  const WIKIPEDIA_DF_SIZE: int := 4532295
  const WIKIPEDIA_ARTICLES_SIZE: int := 4399390

  const LIST_PREFIX: string := "List of "
  const LOWER_LIST_PREFIX: string := "list of"
  const DISAMBIGUATION_MARK: string := "(disambiguation)"
  const CATEGORY_MARK: string := ":"

  /** isListPage: the capitalised prefix carries a trailing space, the lower-case one does not. */
  predicate IsListPage(title: string)
  {
    StartsWith(title, LIST_PREFIX) || StartsWith(title, LOWER_LIST_PREFIX)
  }

  /** isDisambiguationPage: title.contains("(disambiguation)"), a search from the start. */
  predicate IsDisambiguationPage(title: string)
  {
    IndexOfFrom(title, DISAMBIGUATION_MARK, 0) >= 0
  }

  /** isCategoryPage: title.contains(":"). */
  predicate IsCategoryPage(title: string)
  {
    IndexOfFrom(title, CATEGORY_MARK, 0) >= 0
  }

  /** The searches hold exactly when the mark occurs somewhere in the title; a category title is any title with a colon. */
  lemma PageTestsMeaning(title: string)
    ensures IsDisambiguationPage(title) <==> Contains(title, DISAMBIGUATION_MARK)
    ensures IsCategoryPage(title) <==> ':' in title
  {
    if ':' in title {
      var i :| 0 <= i < |title| && title[i] == ':';
      assert OccursAt(title, CATEGORY_MARK, i);
    }
    if IsCategoryPage(title) {
      var i := IndexOfFrom(title, CATEGORY_MARK, 0);
      assert title[i..i + 1] == CATEGORY_MARK;
      assert title[i] == ':';
    }
  }

  /** isListPage holds exactly for the titles built from one of the two prefixes. */
  lemma ListPageMeaning(title: string)
    ensures IsListPage(title) <==>
      (exists rest :: title == LIST_PREFIX + rest) || (exists rest :: title == LOWER_LIST_PREFIX + rest)
  {
    if StartsWith(title, LIST_PREFIX) {
      assert title == LIST_PREFIX + title[|LIST_PREFIX|..];
    }
    if StartsWith(title, LOWER_LIST_PREFIX) {
      assert title == LOWER_LIST_PREFIX + title[|LOWER_LIST_PREFIX|..];
    }
    if exists rest :: title == LIST_PREFIX + rest {
      var rest :| title == LIST_PREFIX + rest;
      assert title[..|LIST_PREFIX|] == LIST_PREFIX;
    }
    if exists rest :: title == LOWER_LIST_PREFIX + rest {
      var rest :| title == LOWER_LIST_PREFIX + rest;
      assert title[..|LOWER_LIST_PREFIX|] == LOWER_LIST_PREFIX;
    }
  }

  /**
   * The three tests are independent: one title can pass all of them, and a lower-case
   * "list of" needs no space after it while the capitalised prefix does.
   */
  lemma PageTestsIndependent()
    ensures var title := LIST_PREFIX + "A:B " + DISAMBIGUATION_MARK;
      IsListPage(title) && IsDisambiguationPage(title) && IsCategoryPage(title)
    ensures IsListPage("list ofs") && !IsListPage("List ofs")
  {
    var title := LIST_PREFIX + "A:B " + DISAMBIGUATION_MARK;
    assert title[..|LIST_PREFIX|] == LIST_PREFIX;
    PageTestsMeaning(title);
    assert OccursAt(title, DISAMBIGUATION_MARK, 12) by {
      assert title[12..28] == DISAMBIGUATION_MARK;
    }
    assert title[9] == ':';
    assert "list ofs"[..7] == LOWER_LIST_PREFIX;
    assert "List ofs"[..8] != LIST_PREFIX by {
      assert "List ofs"[7] != LIST_PREFIX[7];
    }
    assert "List ofs"[..7] != LOWER_LIST_PREFIX by {
      assert "List ofs"[0] != LOWER_LIST_PREFIX[0];
    }
  }
}

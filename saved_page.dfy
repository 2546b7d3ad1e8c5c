/** The saved-searches page of app/saved/page.js: named search texts kept in local storage
    under "saved-searches", newest first, each with a link that runs it on the companies
    page. */
module SavedPage {
  import opened Wrappers
  import opened JsText
  import opened UriComponent

  /** A saved search: its id (the save time), name, search text and ISO creation time. */
  datatype SavedSearch = SavedSearch(id: int, name: string, query: string, createdAt: string)

  /** What the card shows for the query: the query, or "(empty)" when there is none. */
  function QueryLabel(query: string): (r: string)
    ensures query == "" ==> r == "(empty)"
    ensures query != "" ==> r == query
  {
    if query != "" then query else "(empty)"
  }

  const SearchLinkPrefix := "/companies?search="

  /** The Run Search link: the companies page, with the query as its `search` parameter
      when there is one. */
  function RunSearchHref(query: string): (r: string)
    ensures query == "" ==> r == "/companies"
    ensures query != "" ==> StartsWith(r, SearchLinkPrefix) && r[|SearchLinkPrefix|..] == Encode(query)
  {
    if query != "" then SearchLinkPrefix + Encode(query) else "/companies"
  }

  /** The link's parameter value is made of unreserved characters and escapes only, so the
      query can never leak into another parameter or a fragment. */
  lemma RunSearchHrefIsOneParameter(query: string)
    requires query != ""
    ensures var value := RunSearchHref(query)[|SearchLinkPrefix|..];
      forall k | 0 <= k < |value| :: IsEncodedChar(value[k])
  {
    EncodedCharsOnly(query);
  }

  /** A query of letters, digits and `-_.!~*'()` appears in the link as it is. */
  lemma RunSearchHrefOfPlainQuery(query: string)
    requires query != "" && forall k | 0 <= k < |query| :: IsUnreserved(query[k])
    ensures RunSearchHref(query) == SearchLinkPrefix + query
  {
    EncodeUnreserved(query);
  }

  /** The page's state and the part of local storage it owns: the saved searches, the two
      inputs and the stored "saved-searches" entry (None while nothing is stored). */
  class SavedSearchesPage {
    var searches: seq<SavedSearch>
    var name: string
    var query: string
    var stored: Option<seq<SavedSearch>>

    /** `JSON.parse(localStorage.getItem(STORAGE_KEY) || "[]")`. */
    function StoredSearches(): seq<SavedSearch>
      reads this
    {
      if stored.Some? then stored.value else []
    }

    /** The state always equals what is stored. */
    ghost predicate Valid()
      reads this
    {
      searches == StoredSearches()
    }

    constructor(stored: Option<seq<SavedSearch>>)
      ensures this.stored == stored && searches == (if stored.Some? then stored.value else [])
      ensures name == "" && query == ""
      ensures Valid()
    {
      this.stored := stored;
      searches := if stored.Some? then stored.value else [];
      name := "";
      query := "";
    }

    /** `persist`: the new searches become both the state and the stored value. */
    method Persist(next: seq<SavedSearch>)
      modifies this
      ensures searches == next && stored == Some(next)
      ensures name == old(name) && query == old(query)
      ensures Valid()
    {
      searches := next;
      stored := Some(next);
    }

    /** The name input's `onChange`. */
    method SetName(value: string)
      modifies this
      ensures name == value
      ensures query == old(query) && searches == old(searches) && stored == old(stored)
    {
      name := value;
    }

    /** The search-text input's `onChange`. */
    method SetQuery(value: string)
      modifies this
      ensures query == value
      ensures name == old(name) && searches == old(searches) && stored == old(stored)
    {
      query := value;
    }

    /** `saveSearch` at time `now` (`timestamp` is its ISO form): a blank name changes
        nothing; otherwise the trimmed name and query go in front of the older searches and
        both inputs are cleared. */
    method SaveSearch(now: int, timestamp: string)
      modifies this
      ensures Trim(old(name)) == "" ==>
                searches == old(searches) && stored == old(stored)
                && name == old(name) && query == old(query)
      ensures Trim(old(name)) != "" ==>
                |searches| == |old(searches)| + 1
                && searches[0] == SavedSearch(now, Trim(old(name)), Trim(old(query)), timestamp)
                && searches[1..] == old(searches)
                && name == "" && query == ""
      ensures Trim(old(name)) != "" || old(Valid()) ==> Valid()
    {
      var trimmedName := Trim(name);
      if trimmedName == "" {
        return;
      }
      var nextSearch := SavedSearch(now, trimmedName, Trim(query), timestamp);
      Persist([nextSearch] + searches);
      name := "";
      query := "";
    }
  }
}

/** The lists page of app/lists/page.js: named lists of company ids kept in local storage
    under "vc-lists", a form that creates a list, and a picker that adds a company to one. */
module ListsPage {
  import opened Wrappers
  import opened JsText
  import opened Sequences
  import opened CompanyData

  /** A list as stored: its id (the creation time), its name and the ids of its companies. */
  datatype CompanyList = CompanyList(id: int, name: string, companyIds: seq<int>)

  /** The `map` in `addCompanyToList`: the lists with `companyId` added to every list whose
      id is `listId`. */
  function AddCompany(lists: seq<CompanyList>, listId: int, companyId: int): (r: seq<CompanyList>)
    ensures |r| == |lists|
    ensures forall k | 0 <= k < |lists| :: r[k].id == lists[k].id && r[k].name == lists[k].name
    ensures forall k | 0 <= k < |lists| && lists[k].id != listId :: r[k] == lists[k]
    ensures forall k | 0 <= k < |lists| && lists[k].id == listId ::
              companyId in r[k].companyIds
              && (companyId in lists[k].companyIds ==> r[k] == lists[k])
              && (companyId !in lists[k].companyIds ==> r[k].companyIds == lists[k].companyIds + [companyId])
  {
    seq(|lists|, k requires 0 <= k < |lists| =>
      if lists[k].id != listId || companyId in lists[k].companyIds then lists[k]
      else lists[k].(companyIds := lists[k].companyIds + [companyId]))
  }

  /** Adding the same company twice is adding it once. */
  lemma AddCompanyIdempotent(lists: seq<CompanyList>, listId: int, companyId: int)
    ensures AddCompany(AddCompany(lists, listId, companyId), listId, companyId) == AddCompany(lists, listId, companyId)
  {
    var once := AddCompany(lists, listId, companyId);
    var twice := AddCompany(once, listId, companyId);
    assert forall k | 0 <= k < |lists| :: twice[k] == once[k];
  }

  /** Every list's ids are free of duplicates. */
  predicate IdsUnique(lists: seq<CompanyList>) {
    forall k | 0 <= k < |lists| :: NoDuplicates(lists[k].companyIds)
  }

  lemma AppendFresh(ids: seq<int>, x: int)
    requires NoDuplicates(ids) && x !in ids
    ensures NoDuplicates(ids + [x])
  {
    var r := ids + [x];
    forall i, j | 0 <= i < j < |r|
      ensures r[i] != r[j]
    {
      if j == |ids| {
        assert r[i] == ids[i];
      } else {
        assert r[i] == ids[i] && r[j] == ids[j];
      }
    }
  }

  /** Adding a company never creates a duplicate id in a list. */
  lemma AddCompanyKeepsIdsUnique(lists: seq<CompanyList>, listId: int, companyId: int)
    requires IdsUnique(lists)
    ensures IdsUnique(AddCompany(lists, listId, companyId))
  {
    var r := AddCompany(lists, listId, companyId);
    forall k | 0 <= k < |r|
      ensures NoDuplicates(r[k].companyIds)
    {
      if lists[k].id == listId && companyId !in lists[k].companyIds {
        AppendFresh(lists[k].companyIds, companyId);
      }
    }
  }

  /** `listCompanies`: the companies of the dataset whose id is in the list, in dataset
      order. */
  function ListCompanies(companies: seq<Company>, list: CompanyList): seq<Company> {
    Filter(companies, (c: Company) => c.id in list.companyIds)
  }

  /** `available`: the companies the picker still offers. */
  function Available(companies: seq<Company>, list: CompanyList): seq<Company> {
    Filter(companies, (c: Company) => c.id !in list.companyIds)
  }

  /** The list's companies and the available ones split the dataset: neither shares a
      company with the other, both keep the dataset's order, and together they hold every
      company as often as the dataset does. */
  lemma ListSplitsCompanies(companies: seq<Company>, list: CompanyList)
    ensures var inList, offered := ListCompanies(companies, list), Available(companies, list);
      && (forall c | c in inList :: c !in offered)
      && IsSubsequence(inList, companies) && IsSubsequence(offered, companies)
      && multiset(inList) + multiset(offered) == multiset(companies)
  {
    var inList, offered := ListCompanies(companies, list), Available(companies, list);
    FilterPartition(companies, (c: Company) => c.id in list.companyIds, (c: Company) => c.id !in list.companyIds);
    forall c | c in inList
      ensures c !in offered
    {
      var k :| 0 <= k < |inList| && inList[k] == c;
      assert c.id in list.companyIds;
      assert forall j | 0 <= j < |offered| :: offered[j].id !in list.companyIds;
    }
  }

  /** Once a company has been added to a list, the list shows it and the picker no longer
      offers it. */
  lemma AddedCompanyMoves(companies: seq<Company>, lists: seq<CompanyList>, k: nat, c: Company)
    requires k < |lists| && c in companies
    ensures var list := AddCompany(lists, lists[k].id, c.id)[k];
      c in ListCompanies(companies, list) && c !in Available(companies, list)
  {
  }

  /** The page's state and the part of local storage it owns: the lists, the new-list input
      and the stored "vc-lists" entry (None while nothing is stored). */
  class ListsPage {
    var lists: seq<CompanyList>
    var newListName: string
    var stored: Option<seq<CompanyList>>

    /** `JSON.parse(localStorage.getItem(STORAGE_KEY) || "[]")`. */
    function StoredLists(): seq<CompanyList>
      reads this
    {
      if stored.Some? then stored.value else []
    }

    /** The state always equals what is stored. */
    ghost predicate Valid()
      reads this
    {
      lists == StoredLists()
    }

    /** The lists start as the stored ones (none when nothing is stored). */
    constructor(stored: Option<seq<CompanyList>>)
      ensures this.stored == stored && lists == (if stored.Some? then stored.value else [])
      ensures newListName == ""
      ensures Valid()
    {
      this.stored := stored;
      lists := if stored.Some? then stored.value else [];
      newListName := "";
    }

    /** `persist`: the new lists become both the state and the stored value. */
    method Persist(next: seq<CompanyList>)
      modifies this
      ensures lists == next && stored == Some(next)
      ensures newListName == old(newListName)
      ensures Valid()
    {
      lists := next;
      stored := Some(next);
    }

    /** The input's `onChange`. */
    method SetNewListName(value: string)
      modifies this
      ensures newListName == value
      ensures lists == old(lists) && stored == old(stored)
    {
      newListName := value;
    }

    /** `createList` at time `now`: a blank name changes nothing; otherwise one empty list
        with the trimmed name is appended and the input is cleared. */
    method CreateList(now: int)
      modifies this
      ensures Trim(old(newListName)) == "" ==>
                lists == old(lists) && stored == old(stored) && newListName == old(newListName)
      ensures Trim(old(newListName)) != "" ==>
                lists == old(lists) + [CompanyList(now, Trim(old(newListName)), [])]
                && newListName == ""
      ensures IdsUnique(old(lists)) ==> IdsUnique(lists)
      ensures Trim(old(newListName)) != "" || old(Valid()) ==> Valid()
    {
      var name := Trim(newListName);
      if name == "" {
        return;
      }
      var next := lists + [CompanyList(now, name, [])];
      Persist(next);
      newListName := "";
    }

    /** `addCompanyToList`: the company joins the list with that id unless already there;
        no other list changes. */
    method AddCompanyToList(listId: int, companyId: int)
      modifies this
      ensures lists == AddCompany(old(lists), listId, companyId)
      ensures newListName == old(newListName)
      ensures IdsUnique(old(lists)) ==> IdsUnique(lists)
      ensures Valid()
    {
      if IdsUnique(lists) {
        AddCompanyKeepsIdsUnique(lists, listId, companyId);
      }
      Persist(AddCompany(lists, listId, companyId));
    }
  }
}

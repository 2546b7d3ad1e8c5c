/** The profile page's client part, app/components/CompanyProfileClient.js: the notes kept
    in local storage under "company-notes-<id>", the Save Company button that adds the
    company to the stored "saved-companies" entry once, and the Enrich Company flag. */
module CompanyProfile {
  import opened Wrappers
  import opened JsText
  import opened JsNumbers
  import opened Sequences
  import opened CompanyData

  /** The storage key of a company's notes. */
  function NotesKey(id: int): (key: string)
    ensures StartsWith(key, "company-notes-") && key[|"company-notes-"|..] == IntToString(id)
  {
    "company-notes-" + IntToString(id)
  }

  /** Different companies keep their notes under different keys. */
  lemma NotesKeyInjective(a: int, b: int)
    requires NotesKey(a) == NotesKey(b)
    ensures a == b
  {
    assert NotesKey(a)[|"company-notes-"|..] == IntToString(a);
    assert NotesKey(b)[|"company-notes-"|..] == IntToString(b);
    IntToStringInjective(a, b);
  }

  /** `savedCompanies.some((item) => item.id === id)`. */
  predicate HasId(companies: seq<Company>, id: int) {
    exists k | 0 <= k < |companies| :: companies[k].id == id
  }

  predicate IdsDistinct(companies: seq<Company>) {
    forall i, j | 0 <= i < j < |companies| :: companies[i].id != companies[j].id
  }

  /** The saved companies after saving `company`: unchanged when one with its id is already
      there, otherwise with `company` appended. */
  function SaveInto(saved: seq<Company>, company: Company): (r: seq<Company>)
    ensures HasId(saved, company.id) ==> r == saved
    ensures !HasId(saved, company.id) ==> r == saved + [company]
  {
    if HasId(saved, company.id) then saved else saved + [company]
  }

  /** After a save the company's id is among the saved ones, whatever was there before. */
  lemma SaveIntoHasId(saved: seq<Company>, company: Company)
    ensures HasId(SaveInto(saved, company), company.id)
  {
    if !HasId(saved, company.id) {
      assert SaveInto(saved, company)[|saved|] == company;
    }
  }

  /** Saving twice is saving once. */
  lemma SaveIntoIdempotent(saved: seq<Company>, company: Company)
    ensures SaveInto(SaveInto(saved, company), company) == SaveInto(saved, company)
  {
    SaveIntoHasId(saved, company);
  }

  /** Saving keeps the saved ids distinct. */
  lemma SaveIntoKeepsIdsDistinct(saved: seq<Company>, company: Company)
    requires IdsDistinct(saved)
    ensures IdsDistinct(SaveInto(saved, company))
  {
    if !HasId(saved, company.id) {
      var r := saved + [company];
      forall i, j | 0 <= i < j < |r|
        ensures r[i].id != r[j].id
      {
        assert r[i] == saved[i];
        if j < |saved| {
          assert r[j] == saved[j];
        }
      }
    }
  }

  /** The component's state over one company, and the parts of local storage it uses: the
      notes entries and the "saved-companies" entry (None while nothing is stored). */
  class CompanyProfile {
    const company: Company
    var notes: string
    var isSaved: bool
    var enriched: bool
    var noteStore: map<string, string>
    var savedCompanies: Option<seq<Company>>

    /** `JSON.parse(localStorage.getItem("saved-companies") || "[]")`. */
    function StoredCompanies(): seq<Company>
      reads this
    {
      if savedCompanies.Some? then savedCompanies.value else []
    }

    /** `localStorage.getItem(key) || ""` for this company's notes. */
    function StoredNotes(): string
      reads this
    {
      var key := NotesKey(company.id);
      if key in noteStore then noteStore[key] else ""
    }

    /** The notes shown are the stored ones, and the page says "saved" exactly when the
        stored list holds the company. */
    ghost predicate Valid()
      reads this
    {
      notes == StoredNotes() && (isSaved <==> HasId(StoredCompanies(), company.id))
    }

    /** The initial state: the stored notes (or none), saved when the stored list holds the
        company's id, not enriched. */
    constructor(company: Company, noteStore: map<string, string>, savedCompanies: Option<seq<Company>>)
      ensures this.company == company && this.noteStore == noteStore && this.savedCompanies == savedCompanies
      ensures notes == (if NotesKey(company.id) in noteStore then noteStore[NotesKey(company.id)] else "")
      ensures isSaved <==> HasId(if savedCompanies.Some? then savedCompanies.value else [], company.id)
      ensures !enriched
      ensures Valid()
    {
      this.company := company;
      this.noteStore := noteStore;
      this.savedCompanies := savedCompanies;
      var key := NotesKey(company.id);
      notes := if key in noteStore then noteStore[key] else "";
      isSaved := HasId(if savedCompanies.Some? then savedCompanies.value else [], company.id);
      enriched := false;
    }

    /** `persistNotes`: the text becomes the notes and is stored under this company's key;
        no other key changes. */
    method PersistNotes(next: string)
      modifies this
      ensures notes == next && noteStore == old(noteStore)[NotesKey(company.id) := next]
      ensures isSaved == old(isSaved) && savedCompanies == old(savedCompanies) && enriched == old(enriched)
      ensures notes == StoredNotes()
      ensures old(Valid()) ==> Valid()
    {
      notes := next;
      noteStore := noteStore[NotesKey(company.id) := next];
    }

    /** `saveCompany`: the stored list is read afresh (another tab may have changed it);
        nothing happens when it already holds the company's id, otherwise the company is
        appended to it and the page says "saved". */
    method SaveCompany()
      modifies this
      ensures HasId(old(StoredCompanies()), company.id) ==>
                savedCompanies == old(savedCompanies) && isSaved == old(isSaved)
      ensures !HasId(old(StoredCompanies()), company.id) ==>
                savedCompanies == Some(old(StoredCompanies()) + [company]) && isSaved
      ensures StoredCompanies() == SaveInto(old(StoredCompanies()), company)
      ensures HasId(StoredCompanies(), company.id)
      ensures isSaved == (old(isSaved) || !HasId(old(StoredCompanies()), company.id))
      ensures notes == old(notes) && noteStore == old(noteStore) && enriched == old(enriched)
      ensures old(Valid()) ==> Valid() && isSaved
    {
      var saved := StoredCompanies();
      SaveIntoHasId(saved, company);
      if HasId(saved, company.id) {
        return;
      }
      var updated := saved + [company];
      savedCompanies := Some(updated);
      isSaved := true;
    }

    /** The Enrich Company button: the flag is set and never cleared. */
    method Enrich()
      modifies this
      ensures enriched
      ensures notes == old(notes) && isSaved == old(isSaved)
      ensures noteStore == old(noteStore) && savedCompanies == old(savedCompanies)
    {
      enriched := true;
    }
  }
}

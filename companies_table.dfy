/** The companies table of app/components/CompaniesTable.js: the search filter, the
    insight counts, pagination five rows at a time, and each row's signals, badges and
    momentum sparkline. */
module CompaniesTable {
  import opened Wrappers
  import opened JsText
  import opened JsNumbers
  import opened Sequences
  import opened CompanyData

  const PageSize: nat := 5

  // ---------------------------------------------------------------- search

  /** The query the table filters by: the search box trimmed and lower-cased. */
  function Query(search: string): string {
    Lower(Trim(search))
  }

  /** A company matches a query when its name, industry, location or stage contains it,
      ignoring case. */
  predicate Matches(c: Company, query: string) {
    Contains(Lower(c.name), query) || Contains(Lower(c.industry), query)
    || Contains(Lower(c.location), query) || Contains(Lower(c.stage), query)
  }

  /** The companies matching `query`, in their original order: exactly the matching
      ones, each as often as the input holds it. */
  function MatchingCompanies(companies: seq<Company>, query: string): (r: seq<Company>)
    ensures |r| <= |companies|
    ensures IsSubsequence(r, companies)
    ensures forall c | c in r :: c in companies && Matches(c, query)
    ensures forall c | c in companies && Matches(c, query) :: c in r
    ensures forall c :: multiset(r)[c] == if Matches(c, query) then multiset(companies)[c] else 0
  {
    if companies == [] then []
    else
      var rest := MatchingCompanies(companies[1..], query);
      assert companies == [companies[0]] + companies[1..];
      if Matches(companies[0], query) then [companies[0]] + rest else rest
  }

  /** `filteredCompanies`: every company for a blank query, otherwise the matching ones in
      their original order. */
  function FilterCompanies(companies: seq<Company>, search: string): (r: seq<Company>)
    ensures Query(search) == "" ==> r == companies
    ensures Query(search) != "" ==> r == MatchingCompanies(companies, Query(search))
  {
    var query := Query(search);
    if query == "" then companies else MatchingCompanies(companies, query)
  }

  /** Refining a query never brings a company back: whatever a query containing `q` keeps,
      `q` keeps too. */
  lemma RefinedQueryNarrows(companies: seq<Company>, q: string, refined: string)
    requires Contains(refined, q)
    ensures forall c | c in MatchingCompanies(companies, refined) :: c in MatchingCompanies(companies, q)
  {
    forall c | c in MatchingCompanies(companies, refined)
      ensures c in MatchingCompanies(companies, q)
    {
      if Contains(Lower(c.name), refined) {
        ContainsTransitive(Lower(c.name), refined, q);
      } else if Contains(Lower(c.industry), refined) {
        ContainsTransitive(Lower(c.industry), refined, q);
      } else if Contains(Lower(c.location), refined) {
        ContainsTransitive(Lower(c.location), refined, q);
      } else {
        ContainsTransitive(Lower(c.stage), refined, q);
      }
    }
  }

  // ---------------------------------------------------------------- insights

  /** `new Set(values.filter(Boolean))`: the distinct non-empty values. */
  function DistinctFilled(values: seq<string>): (r: set<string>)
    ensures forall v :: v in r <==> v in values && v != ""
    ensures |r| <= |values|
  {
    if values == [] then {}
    else
      var rest := DistinctFilled(values[1..]);
      assert values == [values[0]] + values[1..];
      if values[0] == "" then rest else rest + {values[0]}
  }

  /** No distinct value is left exactly when every value is empty. */
  lemma DistinctFilledEmpty(values: seq<string>)
    ensures |DistinctFilled(values)| == 0 <==> forall k | 0 <= k < |values| :: values[k] == ""
  {
    if |DistinctFilled(values)| != 0 {
      var v :| v in DistinctFilled(values);
      var k :| 0 <= k < |values| && values[k] == v;
    } else {
      assert forall k | 0 <= k < |values| :: values[k] !in DistinctFilled(values);
    }
  }

  /** `companies.map((company) => company.industry)`. */
  function Industries(companies: seq<Company>): seq<string> {
    seq(|companies|, k requires 0 <= k < |companies| => companies[k].industry)
  }

  /** `companies.map((company) => company.location)`. */
  function Locations(companies: seq<Company>): seq<string> {
    seq(|companies|, k requires 0 <= k < |companies| => companies[k].location)
  }

  /** The distinct industries are the non-empty industries of the companies. */
  lemma DistinctIndustries(companies: seq<Company>)
    ensures DistinctFilled(Industries(companies))
      == set k | 0 <= k < |companies| && companies[k].industry != "" :: companies[k].industry
    ensures |DistinctFilled(Industries(companies))| == 0
      <==> forall k | 0 <= k < |companies| :: companies[k].industry == ""
  {
    var values := Industries(companies);
    DistinctFilledEmpty(values);
    assert forall k | 0 <= k < |companies| :: values[k] == companies[k].industry;
  }

  /** The distinct regions are the non-empty locations of the companies. */
  lemma DistinctLocations(companies: seq<Company>)
    ensures DistinctFilled(Locations(companies))
      == set k | 0 <= k < |companies| && companies[k].location != "" :: companies[k].location
    ensures |DistinctFilled(Locations(companies))| == 0
      <==> forall k | 0 <= k < |companies| :: companies[k].location == ""
  {
    var values := Locations(companies);
    DistinctFilledEmpty(values);
    assert forall k | 0 <= k < |companies| :: values[k] == companies[k].location;
  }

  datatype Insights = Insights(totalCompanies: nat, industriesCount: nat, regionsCount: nat)

  /** `insights`: the number of companies and of distinct non-empty industries and
      locations among them. */
  function ComputeInsights(companies: seq<Company>): (r: Insights)
    ensures r.totalCompanies == |companies|
    ensures r.industriesCount <= r.totalCompanies && r.regionsCount <= r.totalCompanies
    ensures r.industriesCount == 0 <==> forall k | 0 <= k < |companies| :: companies[k].industry == ""
    ensures r.regionsCount == 0 <==> forall k | 0 <= k < |companies| :: companies[k].location == ""
    ensures r.industriesCount
      == |set k | 0 <= k < |companies| && companies[k].industry != "" :: companies[k].industry|
    ensures r.regionsCount
      == |set k | 0 <= k < |companies| && companies[k].location != "" :: companies[k].location|
  {
    DistinctIndustries(companies);
    DistinctLocations(companies);
    Insights(|companies|, |DistinctFilled(Industries(companies))|, |DistinctFilled(Locations(companies))|)
  }

  // ---------------------------------------------------------------- pagination

  /** `Math.max(1, Math.ceil(n / PAGE_SIZE))`: one page for no rows, otherwise just enough
      pages of five to hold them all. */
  function TotalPages(n: nat): (t: nat)
    ensures t >= 1
    ensures n == 0 ==> t == 1
    ensures n > 0 ==> (t - 1) * PageSize < n <= t * PageSize
  {
    if n == 0 then 1 else (n + PageSize - 1) / PageSize
  }

  /** `Math.min(page, totalPages)`. */
  function SafePage(page: int, totalPages: nat): (p: int)
    ensures p <= totalPages && p <= page
    ensures p == page || p == totalPages
  {
    if page < totalPages then page else totalPages
  }

  /** The rows shown on `page`. */
  function PageRows<T>(rows: seq<T>, page: int): seq<T> {
    var p := SafePage(page, TotalPages(|rows|));
    Slice(rows, (p - 1) * PageSize, p * PageSize)
  }

  /** A page shows the rows from the page's first index up to five more, clamped at the end;
      every page before the last one is full, and the last one is never empty. */
  lemma PageRowsShape<T>(rows: seq<T>, page: int)
    requires 1 <= page <= TotalPages(|rows|)
    ensures var from := (page - 1) * PageSize;
      var to := if page * PageSize < |rows| then page * PageSize else |rows|;
      from <= to && PageRows(rows, page) == rows[from..to]
    ensures |PageRows(rows, page)| <= PageSize
    ensures page < TotalPages(|rows|) ==> |PageRows(rows, page)| == PageSize
    ensures |rows| > 0 ==> |PageRows(rows, page)| > 0
  {
    var t := TotalPages(|rows|);
    assert SafePage(page, t) == page;
    if |rows| > 0 {
      assert (page - 1) * PageSize <= (t - 1) * PageSize;
    }
    if page < t {
      assert page * PageSize <= (t - 1) * PageSize;
    }
  }

  /** Pages `page` to `last`, one after the other. */
  function PagesFrom<T>(rows: seq<T>, page: nat, last: nat): seq<T>
    decreases last + 1 - page
  {
    if page < 1 || page > last then [] else PageRows(rows, page) + PagesFrom(rows, page + 1, last)
  }

  /** A page followed by the rows after it is the rows from the page's start. */
  lemma PageThenRest<T>(rows: seq<T>, page: nat)
    requires 1 <= page <= TotalPages(|rows|)
    ensures var from, next := (page - 1) * PageSize, page * PageSize;
      PageRows(rows, page) + (if next < |rows| then rows[next..] else [])
      == if from < |rows| then rows[from..] else []
  {
    var t := TotalPages(|rows|);
    var from, next := (page - 1) * PageSize, page * PageSize;
    PageRowsShape(rows, page);
    if next < |rows| {
      assert rows[from..] == rows[from..next] + rows[next..];
    } else if |rows| > 0 {
      assert from <= (t - 1) * 5 < |rows|;
    }
  }

  lemma {:induction false} PagesFromSuffix<T>(rows: seq<T>, page: nat)
    requires 1 <= page
    ensures var from := (page - 1) * PageSize;
      PagesFrom(rows, page, TotalPages(|rows|)) == if from < |rows| then rows[from..] else []
    decreases TotalPages(|rows|) + 1 - page
  {
    var t := TotalPages(|rows|);
    if page <= t {
      PagesFromSuffix(rows, page + 1);
      PageThenRest(rows, page);
    } else {
      assert (page - 1) * PageSize >= t * 5 >= |rows|;
    }
  }

  /** Paging through the table from the first to the last page shows every filtered row
      exactly once, in order. */
  lemma PagesCoverRows<T>(rows: seq<T>)
    ensures PagesFrom(rows, 1, TotalPages(|rows|)) == rows
  {
    PagesFromSuffix(rows, 1);
    assert rows[0..] == rows;
  }

  /** The table's state: the search box and the current page, over a fixed list of
      companies. */
  class CompaniesTable {
    const companies: seq<Company>
    var search: string
    var page: int

    function Filtered(): seq<Company>
      reads this`search
    {
      FilterCompanies(companies, search)
    }

    function PageCount(): nat
      reads this`search
    {
      TotalPages(|Filtered()|)
    }

    /** The rows the table shows. */
    function Rows(): seq<Company>
      reads this
    {
      PageRows(Filtered(), page)
    }

    /** The page stays within the pages the current search produces. */
    ghost predicate Valid()
      reads this
    {
      1 <= page <= PageCount()
    }

    /** The search starts from the `search` URL parameter (missing or empty: no search),
        on page 1. */
    constructor(companies: seq<Company>, searchParam: Option<string>)
      ensures this.companies == companies
      ensures search == (if searchParam.Some? then searchParam.value else "")
      ensures page == 1
      ensures Valid()
    {
      this.companies := companies;
      search := if searchParam.Some? then searchParam.value else "";
      page := 1;
    }

    /** `onSearch`: a new search starts again on page 1. */
    method OnSearch(value: string)
      modifies this
      ensures search == value && page == 1
      ensures Valid()
    {
      search := value;
      page := 1;
    }

    /** The Previous button: one page back, not before page 1. */
    method Previous()
      requires Valid()
      modifies this
      ensures search == old(search)
      ensures page == if old(page) > 1 then old(page) - 1 else 1
      ensures Valid()
    {
      page := if page - 1 > 1 then page - 1 else 1;
    }

    /** The Next button: one page on, not past the last page. */
    method Next()
      requires Valid()
      modifies this
      ensures search == old(search)
      ensures page == if old(page) < PageCount() then old(page) + 1 else PageCount()
      ensures Valid()
    {
      var total := TotalPages(|FilterCompanies(companies, search)|);
      page := if total < page + 1 then total else page + 1;
    }
  }

  // ---------------------------------------------------------------- row decorations

  /** `buildSignals(company)`: reach, sector and stage. */
  method RowSignals(company: Company) returns (signals: seq<string>)
    ensures |signals| == 3
    ensures signals[0] == "Global" <==> company.location == "USA"
    ensures signals[0] == "Global" || signals[0] == "Regional"
    ensures signals[1] == "Fintech" <==> company.industry == "Fintech"
    ensures signals[1] == "SaaS" <==> company.industry == "Productivity"
    ensures signals[1] == "Startup" <==> company.industry != "Fintech" && company.industry != "Productivity"
    ensures signals[2] == company.stage
  {
    signals := [];
    signals := signals + [if company.location == "USA" then "Global" else "Regional"];
    signals := signals + [if company.industry == "Fintech" then "Fintech"
                          else if company.industry == "Productivity" then "SaaS" else "Startup"];
    signals := signals + [company.stage];
  }

  /** The stage badge's classes in one colour. */
  function StageBadge(colour: string, border: string): (r: string)
    ensures colour != "" ==> |r| > 3 && r[3] == colour[0]
  {
    var r := "bg-" + colour + "-50 text-" + colour + "-600 px-2 py-1 rounded-md text-xs font-medium border border-" + colour + "-" + border;
    assert colour != "" ==> r[3] == ("bg-" + colour)[3];
    r
  }

  predicate IsColouredStage(stage: string) {
    stage == "Series B" || stage == "Series C" || stage == "Series D"
  }

  /** `getStageBadgeClasses`: blue, purple and green for Series B, C and D, slate otherwise. */
  function StageBadgeClasses(stage: string): (r: string)
    ensures stage == "Series B" ==> r == StageBadge("blue", "100")
    ensures stage == "Series C" ==> r == StageBadge("purple", "100")
    ensures stage == "Series D" ==> r == StageBadge("green", "100")
    ensures !IsColouredStage(stage) <==> r == StageBadge("slate", "200")
  {
    var other := StageBadge("slate", "200");
    assert StageBadge("blue", "100")[3] != other[3] && StageBadge("purple", "100")[3] != other[3]
      && StageBadge("green", "100")[3] != other[3];
    if stage == "Series B" then StageBadge("blue", "100")
    else if stage == "Series C" then StageBadge("purple", "100")
    else if stage == "Series D" then StageBadge("green", "100")
    else other
  }

  /** Two stages with the same badge are the same stage or both uncoloured. */
  lemma StageBadgeTellsStagesApart(a: string, b: string)
    requires StageBadgeClasses(a) == StageBadgeClasses(b)
    ensures a == b || (!IsColouredStage(a) && !IsColouredStage(b))
  {
    var blue, purple, green := StageBadge("blue", "100"), StageBadge("purple", "100"), StageBadge("green", "100");
    assert blue[3] == 'b' && purple[3] == 'p' && green[3] == 'g';
  }

  /** The industry badge's classes in one colour. */
  function IndustryBadge(colour: string, border: string): (r: string)
    ensures colour != "" ==> |r| > 7 && r[7] == colour[0]
  {
    var r := "border-" + colour + "-" + border + " bg-" + colour + "-50 text-" + colour + "-700";
    assert colour != "" ==> r[7] == ("border-" + colour)[7];
    r
  }

  /** `getIndustryBadgeClasses`: emerald when the industry mentions fintech (in any case),
      else indigo when it mentions product, else slate. */
  function IndustryBadgeClasses(industry: string): (r: string)
    ensures r == IndustryBadge("emerald", "100") <==> Contains(Lower(industry), "fintech")
    ensures r == IndustryBadge("indigo", "100") <==>
              !Contains(Lower(industry), "fintech") && Contains(Lower(industry), "product")
    ensures r == IndustryBadge("slate", "200") <==>
              !Contains(Lower(industry), "fintech") && !Contains(Lower(industry), "product")
  {
    var emerald, indigo, slate := IndustryBadge("emerald", "100"), IndustryBadge("indigo", "100"), IndustryBadge("slate", "200");
    assert emerald[7] == 'e' && indigo[7] == 'i' && slate[7] == 's';
    var lower := Lower(industry);
    if Contains(lower, "fintech") then emerald
    else if Contains(lower, "product") then indigo
    else slate
  }

  /** The industry badge does not depend on letter case. */
  lemma IndustryBadgeIgnoresCase(industry: string)
    ensures IndustryBadgeClasses(industry) == IndustryBadgeClasses(Lower(industry))
  {
    LowerIdempotent(industry);
  }

  /** A fintech mention wins over a product mention wherever the two appear. */
  lemma FintechBeforeProduct(before: string, between: string, after: string)
    ensures IndustryBadgeClasses(before + "product" + between + "fintech" + after) == IndustryBadge("emerald", "100")
  {
    var s := before + "product" + between + "fintech" + after;
    var pre := before + "product" + between;
    assert s == pre + "fintech" + after;
    assert Lower(s) == Lower(pre) + "fintech" + Lower(after) by {
      LowerAppend(pre + "fintech", after);
      LowerAppend(pre, "fintech");
    }
    ContainsMiddle(Lower(pre), "fintech", Lower(after));
  }

  // ---------------------------------------------------------------- sparkline

  /** `String(seed).split("")` followed by `charCodeAt(0)`: the UTF-16 code units of the
      seed, a character beyond the Basic Multilingual Plane giving its two surrogates. */
  function Utf16Units(s: string): (units: seq<nat>)
    ensures |units| >= |s|
  {
    if s == [] then []
    else
      var cp := s[0] as int;
      (if cp < 0x10000 then [cp] else [0xD800 + (cp - 0x10000) / 0x400, 0xDC00 + (cp - 0x10000) % 0x400])
      + Utf16Units(s[1..])
  }

  /** The heights: one per code unit among the first six, shifted by seven per position and
      reduced into 6..17, padded with 10 up to six. */
  function SparklineValues(seed: string): seq<int> {
    var units := Utf16Units(seed);
    var n := if |units| < 6 then |units| else 6;
    var values := seq(n, k requires 0 <= k < n => ((units[k] + k * 7) % 12) + 6);
    if n < 6 then values + seq(6 - n, _ => 10) else values
  }

  /** The points of the line: x advancing by 14, y measured down from 24. */
  function SparklinePoints(seed: string): seq<(int, int)> {
    var values := SparklineValues(seed);
    seq(|values|, k requires 0 <= k < |values| => (k * 14, 24 - values[k]))
  }

  function PointText(p: (int, int)): string {
    IntToString(p.0) + "," + IntToString(p.1)
  }

  /** `buildSparklinePoints(seed)`: the SVG path through the points. */
  function SparklinePath(seed: string): string {
    var points := SparklinePoints(seed);
    "M " + Join(seq(|points|, k requires 0 <= k < |points| => PointText(points[k])), " L ")
  }

  /** Every sparkline has six points 14 apart from x = 0, inside the 24-high view box
      (y from 7 to 18), sitting at y = 14 where the name has run out. */
  lemma SparklineShape(seed: string)
    ensures var points := SparklinePoints(seed);
      && |points| == 6
      && (forall k | 0 <= k < 6 :: points[k].0 == 14 * k && 7 <= points[k].1 <= 18)
      && (forall k | |Utf16Units(seed)| <= k < 6 :: points[k].1 == 14)
  {
    var values := SparklineValues(seed);
    assert |values| == 6;
    assert forall k | 0 <= k < 6 :: 6 <= values[k] <= 17;
  }

  /** The path is a move to the first point followed by line segments. */
  lemma SparklinePathStart(seed: string)
    ensures StartsWith(SparklinePath(seed), "M " + PointText((0, 24 - SparklineValues(seed)[0])))
  {
    var points := SparklinePoints(seed);
    var texts := seq(|points|, k requires 0 <= k < |points| => PointText(points[k]));
    assert |points| == 6 && points[0] == (0, 24 - SparklineValues(seed)[0]);
    JoinStart(texts, " L ");
    StartsWithBoth("M ", Join(texts, " L "), texts[0]);
  }

  /** The name "Acme": code units 65, 99, 109, 101 give heights 11, 16, 9, 8 and two
      padded ones. */
  lemma SparklineExample()
    ensures SparklineValues("Acme") == [11, 16, 9, 8, 10, 10]
  {
    assert Utf16Units("Acme") == [65, 99, 109, 101] by {
      assert "Acme"[1..] == "cme" && "cme"[1..] == "me" && "me"[1..] == "e" && "e"[1..] == "";
    }
  }
}

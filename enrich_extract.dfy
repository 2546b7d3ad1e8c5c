/** The metadata extraction of the enrichment endpoint (app/api/enrich/route.js): the string
    sanitiser, the page title and the meta description. Each regular expression is modelled
    by a leftmost search that makes the same choices the backtracking matcher makes, next to
    a declarative statement of when the pattern matches. */
module EnrichExtract {
  import opened Wrappers
  import opened JsText
  import opened JsValues

  // ---------------------------------------------------------------------------------------
  // sanitizeString

  /** Free of leading and trailing white space, no white space but single plain spaces. */
  predicate IsSanitized(s: string) {
    IsCollapsed(s) && (s == [] || (!IsSpace(s[0]) && !IsSpace(s[|s| - 1])))
  }

  /** Every character of `r` other than a plain space occurs in `s`. */
  predicate CharsFrom(r: string, s: string) {
    forall k | 0 <= k < |r| :: r[k] == ' ' || r[k] in s
  }

  lemma NonSpaceMember(s: string, c: char)
    requires c in NonSpace(s)
    ensures c in s
    decreases |s|
  {
    if s != [] && !(IsSpace(s[0]) == false && c == s[0]) {
      assert NonSpace(s) == (if IsSpace(s[0]) then [] else [s[0]]) + NonSpace(s[1..]);
      if c != s[0] || IsSpace(s[0]) {
        NonSpaceMember(s[1..], c);
      }
    }
  }

  lemma InNonSpace(s: string, k: nat)
    requires k < |s| && !IsSpace(s[k])
    ensures s[k] in NonSpace(s)
    decreases k
  {
    if k > 0 {
      InNonSpace(s[1..], k - 1);
      assert NonSpace(s) == (if IsSpace(s[0]) then [] else [s[0]]) + NonSpace(s[1..]);
    }
  }

  /** `sanitizeString(value)`: "" for a non-string; otherwise every run of white space
      becomes one space and the ends are trimmed. */
  function SanitizeString(value: JsValue): (r: string)
    ensures !value.Str? ==> r == ""
    ensures IsSanitized(r)
    ensures value.Str? ==> NonSpace(r) == NonSpace(value.s)
    ensures value.Str? ==> CharsFrom(r, value.s)
  {
    if !value.Str? then ""
    else
      var c := CollapseSpaces(value.s);
      TrimKeepsCollapsed(c);
      TrimKeepsContent(c);
      CollapseKeepsContent(value.s);
      var r := Trim(c);
      assert CharsFrom(r, value.s) by {
        forall k | 0 <= k < |r| && r[k] != ' '
          ensures r[k] in value.s
        {
          InNonSpace(r, k);
          NonSpaceMember(value.s, r[k]);
        }
      }
      r
  }

  /** Sanitising a sanitised string changes nothing. */
  lemma SanitizeIdempotent(s: string)
    ensures SanitizeString(Str(SanitizeString(Str(s)))) == SanitizeString(Str(s))
  {
    var once := SanitizeString(Str(s));
    CollapseFixpoint(once);
    TrimFixpoint(once);
  }

  // ---------------------------------------------------------------------------------------
  // Scanning helpers

  /** `s` holds `pat` at offset `i`, ignoring ASCII case (`pat` is written in lower case),
      as the `/i` flag compares these ASCII patterns. */
  predicate MatchesAt(s: string, i: nat, pat: string) {
    i + |pat| <= |s| && forall k | 0 <= k < |pat| :: LowerChar(s[i + k]) == pat[k]
  }

  predicate NoGtIn(s: string, lo: nat, hi: nat) {
    forall j | lo <= j < hi && j < |s| :: s[j] != '>'
  }

  predicate IsQuote(c: char) {
    c == '"' || c == '\''
  }

  /** The first `>` at or after `from`. */
  function FindGt(s: string, from: nat): (r: Option<nat>)
    ensures r.Some? ==> from <= r.value < |s| && s[r.value] == '>' && NoGtIn(s, from, r.value)
    ensures r.None? ==> NoGtIn(s, from, |s|)
    decreases |s| - from
  {
    if from >= |s| then None else if s[from] == '>' then Some(from) else FindGt(s, from + 1)
  }

  /** The first quote character at or after `from`. */
  function FindQuote(s: string, from: nat): (r: Option<nat>)
    ensures r.Some? ==> from <= r.value < |s| && IsQuote(s[r.value])
    ensures r.Some? ==> forall j | from <= j < r.value :: !IsQuote(s[j])
    ensures r.None? ==> forall j | from <= j < |s| :: !IsQuote(s[j])
    decreases |s| - from
  {
    if from >= |s| then None else if IsQuote(s[from]) then Some(from) else FindQuote(s, from + 1)
  }

  /** The first offset at or after `from` where `pat` occurs, ignoring ASCII case. */
  function FindAt(s: string, from: nat, pat: string): (r: Option<nat>)
    ensures r.Some? ==> from <= r.value && MatchesAt(s, r.value, pat)
    ensures r.Some? ==> forall j | from <= j < r.value :: !MatchesAt(s, j, pat)
    ensures r.None? ==> forall j | from <= j :: !MatchesAt(s, j, pat)
    decreases |s| - from
  {
    if from + |pat| > |s| then None
    else if MatchesAt(s, from, pat) then Some(from)
    else FindAt(s, from + 1, pat)
  }

  // ---------------------------------------------------------------------------------------
  // extractTitle: /<title[^>]*>([\s\S]*?)<\/title>/i

  /** The title pattern matches at `i` and captures `s[open..close]`: `<title`, then
      non-`>` characters up to a `>` at `open - 1`, then the shortest text up to `</title>`. */
  ghost predicate TitleMatch(s: string, i: nat, open: nat, close: nat) {
    && MatchesAt(s, i, "<title")
    && i + 6 < open <= close
    && MatchesAt(s, close, "</title>")
    && s[open - 1] == '>' && NoGtIn(s, i + 6, open - 1)
    && forall j | open <= j < close :: !MatchesAt(s, j, "</title>")
  }

  lemma GtBound(s: string, lo: nat, hi: nat, g: nat)
    requires NoGtIn(s, lo, hi) && lo <= g < |s| && s[g] == '>'
    ensures hi <= g
  {
  }

  lemma NoGtJoin(s: string, lo: nat, mid: nat, hi: nat)
    requires lo <= mid <= hi && NoGtIn(s, lo, mid) && NoGtIn(s, mid, hi)
    ensures NoGtIn(s, lo, hi)
  {
  }

  lemma GtFound(s: string, from: nat, h: nat)
    requires from <= h < |s| && s[h] == '>'
    ensures FindGt(s, from).Some? && FindGt(s, from).value <= h
  {
  }

  lemma FirstMatchBound(s: string, lo: nat, hi: nat, pat: string, j: nat)
    requires forall k | lo <= k < hi :: !MatchesAt(s, k, pat)
    requires lo <= j && MatchesAt(s, j, pat)
    ensures hi <= j
  {
  }

  /** At a given offset the title pattern has at most one match. */
  lemma TitleMatchUnique(s: string, i: nat, o1: nat, c1: nat, o2: nat, c2: nat)
    requires TitleMatch(s, i, o1, c1) && TitleMatch(s, i, o2, c2)
    ensures o1 == o2 && c1 == c2
  {
    GtBound(s, i + 6, o2 - 1, o1 - 1);
    GtBound(s, i + 6, o1 - 1, o2 - 1);
    FirstMatchBound(s, o1, c1, "</title>", c2);
    FirstMatchBound(s, o2, c2, "</title>", c1);
  }

  /** The match of the title pattern at offset `i` as (open, close), if there is one. */
  function TitleAt(s: string, i: nat): (r: Option<(nat, nat)>)
    ensures r.Some? ==> TitleMatch(s, i, r.value.0, r.value.1)
    ensures r.None? ==> forall o: nat, c: nat :: !TitleMatch(s, i, o, c)
  {
    if !MatchesAt(s, i, "<title") then None
    else
      match FindGt(s, i + 6)
      case None => None
      case Some(g) =>
        forall o: nat, c: nat | TitleMatch(s, i, o, c)
          ensures o == g + 1
        {
          GtBound(s, i + 6, o - 1, g);
          GtBound(s, i + 6, g, o - 1);
        }
        match FindAt(s, g + 1, "</title>")
        case None => None
        case Some(e) => Some((g + 1, e))
  }

  /** The leftmost match of the title pattern at or after `from`, as (start, open, close). */
  function TitleSearch(s: string, from: nat): (r: Option<(nat, nat, nat)>)
    ensures r.Some? ==> from <= r.value.0 && TitleMatch(s, r.value.0, r.value.1, r.value.2)
    ensures r.Some? ==> forall i: nat, o: nat, c: nat | from <= i < r.value.0 :: !TitleMatch(s, i, o, c)
    ensures r.None? ==> forall i: nat, o: nat, c: nat | from <= i :: !TitleMatch(s, i, o, c)
    decreases |s| - from
  {
    if from + 6 > |s| then None
    else
      match TitleAt(s, from)
      case Some(m) => Some((from, m.0, m.1))
      case None => TitleSearch(s, from + 1)
  }

  /** The text the title pattern captures, or "" when it does not match. */
  function TitleCapture(html: string): string {
    match TitleSearch(html, 0)
    case Some(m) => html[m.1..m.2]
    case None => ""
  }

  /** `extractTitle(html)`: "" for an empty page, else the sanitised text of the first match
      of the title pattern, or "" when it does not match. */
  function ExtractTitle(html: string): (r: string)
    ensures html == "" ==> r == ""
    ensures IsSanitized(r)
  {
    if html == "" then "" else SanitizeString(Str(TitleCapture(html)))
  }

  /** The title is the sanitised text captured by the leftmost match of the pattern. */
  lemma TitleOfFirstMatch(html: string, i: nat, open: nat, close: nat)
    requires TitleMatch(html, i, open, close)
    requires forall i': nat, o: nat, c: nat | i' < i :: !TitleMatch(html, i', o, c)
    ensures ExtractTitle(html) == SanitizeString(Str(html[open..close]))
  {
    var m := TitleSearch(html, 0);
    assert m.Some?;
    assert m.value.0 <= i;
    assert i <= m.value.0;
    TitleMatchUnique(html, i, open, close, m.value.1, m.value.2);
  }

  /** A page on which the title pattern never matches has the empty title. */
  lemma TitleWithoutMatch(html: string)
    requires forall i: nat, o: nat, c: nat :: !TitleMatch(html, i, o, c)
    ensures ExtractTitle(html) == ""
  {
    assert TitleSearch(html, 0).None?;
  }

  // ---------------------------------------------------------------------------------------
  // extractMetaDescription
  //   /<meta[^>]+name=["']description["'][^>]+content=["']([^"']*)["'][^>]*>/i, else
  //   /<meta[^>]+content=["']([^"']*)["'][^>]+name=["']description["'][^>]*>/i

  /** `name=` quote `description` quote, ignoring ASCII case, at `a` (18 characters). */
  predicate NameAttrAt(s: string, a: nat) {
    && a + 18 <= |s|
    && MatchesAt(s, a, "name=") && IsQuote(s[a + 5])
    && MatchesAt(s, a + 6, "description") && IsQuote(s[a + 17])
  }

  /** `content=` quote, ignoring ASCII case, at `b` (9 characters); the value starts at `b + 9`. */
  predicate ContentOpenAt(s: string, b: nat) {
    b + 9 <= |s| && MatchesAt(s, b, "content=") && IsQuote(s[b + 8])
  }

  lemma NameAttrHasNoGt(s: string, a: nat)
    requires NameAttrAt(s, a)
    ensures NoGtIn(s, a, a + 18)
  {
    forall j | a <= j < a + 18 ensures s[j] != '>' {
      if j < a + 5 {
        assert LowerChar(s[a + (j - a)]) == "name="[j - a];
      } else if a + 6 <= j < a + 17 {
        assert LowerChar(s[a + 6 + (j - a - 6)]) == "description"[j - a - 6];
      }
    }
  }

  lemma ContentOpenHasNoGt(s: string, b: nat)
    requires ContentOpenAt(s, b)
    ensures NoGtIn(s, b, b + 9)
  {
    forall j | b <= j < b + 9 ensures s[j] != '>' {
      if j < b + 8 {
        assert LowerChar(s[b + (j - b)]) == "content="[j - b];
      }
    }
  }

  /** The attribute value `[^"']*` from `from` up to the first quote. */
  function ValueAt(s: string, from: nat): (v: string)
    requires FindQuote(s, from).Some?
    ensures forall k | 0 <= k < |v| :: !IsQuote(v[k])
  {
    var e := FindQuote(s, from).value;
    assert forall k | 0 <= k < e - from :: s[from..e][k] == s[from + k];
    s[from..e]
  }

  /** The value started at `from` is closed by a quote, and a `>` follows (`["'][^>]*>`). */
  predicate ClosedValue(s: string, from: nat) {
    match FindQuote(s, from)
    case None => false
    case Some(e) => FindGt(s, e + 1).Some?
  }

  /** The name-first pattern matches at `i` with its name attribute at `a` and its content
      attribute at `b`; it captures `ValueAt(s, b + 9)`. The value may run past a `>`. */
  ghost predicate NameFirstMatch(s: string, i: nat, a: nat, b: nat) {
    && MatchesAt(s, i, "<meta") && i + 5 < a && NoGtIn(s, i + 5, a) && NameAttrAt(s, a)
    && a + 18 < b && NoGtIn(s, a + 18, b) && ContentOpenAt(s, b) && ClosedValue(s, b + 9)
  }

  /** The match the greedy `[^>]+` parts prefer at `i`: the last possible name attribute, and
      for it the last possible content attribute. */
  ghost predicate NameFirstPreferred(s: string, i: nat, a: nat, b: nat) {
    && NameFirstMatch(s, i, a, b)
    && forall a': nat, b': nat | NameFirstMatch(s, i, a', b') :: a' < a || (a' == a && b' <= b)
  }

  /** The content-first pattern matches at `i` with its content attribute at `b` and its
      name attribute at `a`; it captures `ValueAt(s, b + 9)`. */
  ghost predicate ContentFirstMatch(s: string, i: nat, b: nat, a: nat) {
    && MatchesAt(s, i, "<meta") && i + 5 < b && NoGtIn(s, i + 5, b) && ContentOpenAt(s, b)
    && FindQuote(s, b + 9).Some?
    && var e := FindQuote(s, b + 9).value;
       e + 1 < a && NoGtIn(s, e + 1, a) && NameAttrAt(s, a) && FindGt(s, a + 18).Some?
  }

  /** The match the greedy `[^>]+` parts prefer at `i`: the last possible content attribute
      (the name attribute chosen after it does not change the capture). */
  ghost predicate ContentFirstPreferred(s: string, i: nat, b: nat, a: nat) {
    && ContentFirstMatch(s, i, b, a)
    && forall b': nat, a': nat | ContentFirstMatch(s, i, b', a') :: b' <= b
  }

  /** Every name-first match at `i` ends its content attribute before the first `>` after
      `<meta`. */
  lemma NameFirstBounds(s: string, i: nat, a: nat, b: nat)
    requires NameFirstMatch(s, i, a, b)
    ensures FindGt(s, i + 5).Some? && b + 9 <= FindGt(s, i + 5).value
  {
    NameAttrHasNoGt(s, a);
    ContentOpenHasNoGt(s, b);
    NoGtJoin(s, i + 5, a, a + 18);
    NoGtJoin(s, i + 5, a + 18, b);
    NoGtJoin(s, i + 5, b, b + 9);
    var e := FindQuote(s, b + 9).value;
    var h := FindGt(s, e + 1).value;
    GtFound(s, i + 5, h);
    GtBound(s, i + 5, b + 9, FindGt(s, i + 5).value);
  }

  /** Every content-first match at `i` has its content attribute before the first `>` after
      `<meta`. */
  lemma ContentFirstBounds(s: string, i: nat, b: nat, a: nat)
    requires ContentFirstMatch(s, i, b, a)
    ensures FindGt(s, i + 5).Some? && b + 9 <= FindGt(s, i + 5).value
  {
    ContentOpenHasNoGt(s, b);
    NoGtJoin(s, i + 5, b, b + 9);
    var h := FindGt(s, a + 18).value;
    GtFound(s, i + 5, h);
    GtBound(s, i + 5, b + 9, FindGt(s, i + 5).value);
  }

  lemma NameFirstPreferredUnique(s: string, i: nat, a1: nat, b1: nat, a2: nat, b2: nat)
    requires NameFirstPreferred(s, i, a1, b1) && NameFirstPreferred(s, i, a2, b2)
    ensures a1 == a2 && b1 == b2
  {
  }

  /** The last content attribute in `(lo, hi]` whose value is closed. */
  function LastContentIn(s: string, lo: nat, hi: nat): (r: Option<nat>)
    ensures r.Some? ==> lo < r.value <= hi && ContentOpenAt(s, r.value) && ClosedValue(s, r.value + 9)
    ensures forall b | lo < b <= hi && ContentOpenAt(s, b) && ClosedValue(s, b + 9) :: r.Some? && b <= r.value
    decreases hi
  {
    if hi <= lo then None
    else if ContentOpenAt(s, hi) && ClosedValue(s, hi + 9) then Some(hi)
    else LastContentIn(s, lo, hi - 1)
  }

  /** The last name attribute in `(lo, hi]`. */
  function LastNameAttrIn(s: string, lo: nat, hi: nat): (r: Option<nat>)
    ensures r.Some? ==> lo < r.value <= hi && NameAttrAt(s, r.value)
    ensures forall a | lo < a <= hi && NameAttrAt(s, a) :: r.Some? && a <= r.value
    decreases hi
  {
    if hi <= lo then None
    else if NameAttrAt(s, hi) then Some(hi)
    else LastNameAttrIn(s, lo, hi - 1)
  }

  /** The preferred name-first match at `i` whose name attribute is at or before `a`; `g` is
      the first `>` after `<meta`. */
  function NameFirstBelow(s: string, i: nat, g: nat, a: nat): (r: Option<(nat, nat)>)
    requires MatchesAt(s, i, "<meta") && FindGt(s, i + 5) == Some(g) && a <= g
    ensures r.Some? ==> NameFirstMatch(s, i, r.value.0, r.value.1) && r.value.0 <= a
    ensures forall a': nat, b': nat | a' <= a && NameFirstMatch(s, i, a', b') ::
              r.Some? && (a' < r.value.0 || (a' == r.value.0 && b' <= r.value.1))
    decreases a
  {
    if a <= i + 5 then None
    else if NameAttrAt(s, a) then
      forall b': nat | NameFirstMatch(s, i, a, b')
        ensures b' <= g
      {
        NameFirstBounds(s, i, a, b');
      }
      match LastContentIn(s, a + 18, g)
      case Some(b) => Some((a, b))
      case None => NameFirstBelow(s, i, g, a - 1)
    else
      NameFirstBelow(s, i, g, a - 1)
  }

  /** The preferred name-first match at `i`, as (a, b). */
  function NameFirstAt(s: string, i: nat): (r: Option<(nat, nat)>)
    ensures r.Some? ==> NameFirstPreferred(s, i, r.value.0, r.value.1)
    ensures r.None? ==> forall a: nat, b: nat :: !NameFirstMatch(s, i, a, b)
  {
    if !MatchesAt(s, i, "<meta") then None
    else
      forall a: nat, b: nat | NameFirstMatch(s, i, a, b)
        ensures FindGt(s, i + 5).Some? && b + 9 <= FindGt(s, i + 5).value
      {
        NameFirstBounds(s, i, a, b);
      }
      match FindGt(s, i + 5)
      case None => None
      case Some(g) => NameFirstBelow(s, i, g, g)
  }

  /** A name attribute completing a content-first match at `i` with its content attribute
      at `b`, if there is one. */
  function ContentFirstWith(s: string, i: nat, g: nat, b: nat): (r: Option<nat>)
    requires MatchesAt(s, i, "<meta") && FindGt(s, i + 5) == Some(g) && i + 5 < b <= g
    ensures r.Some? ==> ContentFirstMatch(s, i, b, r.value)
    ensures r.None? ==> forall a: nat :: !ContentFirstMatch(s, i, b, a)
  {
    if !(ContentOpenAt(s, b) && FindQuote(s, b + 9).Some?) then None
    else
      var e := FindQuote(s, b + 9).value;
      match FindGt(s, e + 1)
      case None =>
        assert forall a: nat | e + 1 < a && NameAttrAt(s, a) :: FindGt(s, a + 18).None?;
        None
      case Some(h) =>
        forall a: nat | e + 1 < a && NoGtIn(s, e + 1, a) && NameAttrAt(s, a)
          ensures a <= h
        {
          GtBound(s, e + 1, a, h);
        }
        match LastNameAttrIn(s, e + 1, h)
        case Some(a) =>
          NameAttrHasNoGt(s, a);
          GtFound(s, a + 18, h);
          Some(a)
        case None => None
  }

  /** The preferred content-first match at `i` whose content attribute is at or before `b`,
      as (b, a); `g` is the first `>` after `<meta`. */
  function ContentFirstBelow(s: string, i: nat, g: nat, b: nat): (r: Option<(nat, nat)>)
    requires MatchesAt(s, i, "<meta") && FindGt(s, i + 5) == Some(g) && b <= g
    ensures r.Some? ==> ContentFirstMatch(s, i, r.value.0, r.value.1) && r.value.0 <= b
    ensures forall b': nat, a': nat | b' <= b && ContentFirstMatch(s, i, b', a') ::
              r.Some? && b' <= r.value.0
    decreases b
  {
    if b <= i + 5 then None
    else
      match ContentFirstWith(s, i, g, b)
      case Some(a) => Some((b, a))
      case None => ContentFirstBelow(s, i, g, b - 1)
  }

  /** The preferred content-first match at `i`, as (b, a). */
  function ContentFirstAt(s: string, i: nat): (r: Option<(nat, nat)>)
    ensures r.Some? ==> ContentFirstPreferred(s, i, r.value.0, r.value.1)
    ensures r.None? ==> forall b: nat, a: nat :: !ContentFirstMatch(s, i, b, a)
  {
    if !MatchesAt(s, i, "<meta") then None
    else
      forall b: nat, a: nat | ContentFirstMatch(s, i, b, a)
        ensures FindGt(s, i + 5).Some? && b + 9 <= FindGt(s, i + 5).value
      {
        ContentFirstBounds(s, i, b, a);
      }
      match FindGt(s, i + 5)
      case None => None
      case Some(g) => ContentFirstBelow(s, i, g, g)
  }

  /** The leftmost name-first match at or after `from`, as (i, a, b). */
  function NameFirstSearch(s: string, from: nat): (r: Option<(nat, nat, nat)>)
    ensures r.Some? ==> from <= r.value.0 && NameFirstPreferred(s, r.value.0, r.value.1, r.value.2)
    ensures r.Some? ==> forall i: nat, a: nat, b: nat | from <= i < r.value.0 :: !NameFirstMatch(s, i, a, b)
    ensures r.None? ==> forall i: nat, a: nat, b: nat | from <= i :: !NameFirstMatch(s, i, a, b)
    decreases |s| - from
  {
    if from + 5 > |s| then None
    else
      match NameFirstAt(s, from)
      case Some(m) => Some((from, m.0, m.1))
      case None => NameFirstSearch(s, from + 1)
  }

  /** The leftmost content-first match at or after `from`, as (i, b, a). */
  function ContentFirstSearch(s: string, from: nat): (r: Option<(nat, nat, nat)>)
    ensures r.Some? ==> from <= r.value.0 && ContentFirstPreferred(s, r.value.0, r.value.1, r.value.2)
    ensures r.Some? ==> forall i: nat, b: nat, a: nat | from <= i < r.value.0 :: !ContentFirstMatch(s, i, b, a)
    ensures r.None? ==> forall i: nat, b: nat, a: nat | from <= i :: !ContentFirstMatch(s, i, b, a)
    decreases |s| - from
  {
    if from + 5 > |s| then None
    else
      match ContentFirstAt(s, from)
      case Some(m) => Some((from, m.0, m.1))
      case None => ContentFirstSearch(s, from + 1)
  }

  /** The value the first of the two patterns to match captures, or "" when neither does. */
  function MetaCapture(html: string): (v: string)
    ensures forall k | 0 <= k < |v| :: !IsQuote(v[k])
  {
    match NameFirstSearch(html, 0)
    case Some(m) => ValueAt(html, m.2 + 9)
    case None =>
      match ContentFirstSearch(html, 0)
      case Some(m) => ValueAt(html, m.1 + 9)
      case None => ""
  }

  /** Sanitising adds no character but spaces. */
  lemma SanitizeKeepsQuotesOut(v: string)
    requires forall k | 0 <= k < |v| :: !IsQuote(v[k])
    ensures forall k | 0 <= k < |SanitizeString(Str(v))| :: !IsQuote(SanitizeString(Str(v))[k])
  {
    var r := SanitizeString(Str(v));
    forall k | 0 <= k < |r| ensures !IsQuote(r[k]) {
      if r[k] != ' ' {
        var j :| 0 <= j < |v| && v[j] == r[k];
      }
    }
  }

  /** `extractMetaDescription(html)`: "" for an empty page; else the sanitised value of the
      first match of the name-first pattern, or failing that of the content-first pattern,
      or "" when neither matches. */
  function ExtractMetaDescription(html: string): (r: string)
    ensures html == "" ==> r == ""
    ensures IsSanitized(r)
    ensures forall k | 0 <= k < |r| :: !IsQuote(r[k])
  {
    if html == "" then ""
    else
      SanitizeKeepsQuotesOut(MetaCapture(html));
      SanitizeString(Str(MetaCapture(html)))
  }

  /** The leftmost, preferred name-first match is the one the search finds. */
  lemma NameFirstSearchFinds(html: string, i: nat, a: nat, b: nat)
    requires NameFirstPreferred(html, i, a, b)
    requires forall i': nat, a': nat, b': nat | i' < i :: !NameFirstMatch(html, i', a', b')
    ensures NameFirstSearch(html, 0) == Some((i, a, b))
  {
    var m := NameFirstSearch(html, 0);
    assert NameFirstMatch(html, i, a, b);
    assert m.Some?;
    assert NameFirstMatch(html, m.value.0, m.value.1, m.value.2);
    assert m.value.0 <= i;
    assert i <= m.value.0;
    NameFirstPreferredUnique(html, i, a, b, m.value.1, m.value.2);
  }

  /** The leftmost, preferred content-first match is the one the search finds, as far as
      its position and its content attribute go. */
  lemma ContentFirstSearchFinds(html: string, i: nat, b: nat, a: nat)
    requires ContentFirstPreferred(html, i, b, a)
    requires forall i': nat, b': nat, a': nat | i' < i :: !ContentFirstMatch(html, i', b', a')
    ensures ContentFirstSearch(html, 0).Some?
    ensures ContentFirstSearch(html, 0).value.0 == i && ContentFirstSearch(html, 0).value.1 == b
  {
    var m := ContentFirstSearch(html, 0);
    assert ContentFirstMatch(html, i, b, a);
    assert m.Some?;
    assert ContentFirstMatch(html, m.value.0, m.value.1, m.value.2);
    assert m.value.0 <= i;
    assert i <= m.value.0;
    assert m.value.1 <= b && b <= m.value.1;
  }

  /** Whenever the name-first pattern matches anywhere, the description is the sanitised
      value of its leftmost, preferred match, whatever content-first matches the page has. */
  lemma DescriptionFromNameFirst(html: string, i: nat, a: nat, b: nat)
    requires NameFirstPreferred(html, i, a, b)
    requires forall i': nat, a': nat, b': nat | i' < i :: !NameFirstMatch(html, i', a', b')
    ensures ExtractMetaDescription(html) == SanitizeString(Str(ValueAt(html, b + 9)))
  {
    NameFirstSearchFinds(html, i, a, b);
    assert html != "";
    assert MetaCapture(html) == ValueAt(html, b + 9);
  }

  /** When the name-first pattern matches nowhere, the description is the sanitised value of
      the leftmost, preferred content-first match. */
  lemma DescriptionFromContentFirst(html: string, i: nat, b: nat, a: nat)
    requires forall i': nat, a': nat, b': nat :: !NameFirstMatch(html, i', a', b')
    requires ContentFirstPreferred(html, i, b, a)
    requires forall i': nat, b': nat, a': nat | i' < i :: !ContentFirstMatch(html, i', b', a')
    ensures ExtractMetaDescription(html) == SanitizeString(Str(ValueAt(html, b + 9)))
  {
    assert NameFirstSearch(html, 0).None?;
    ContentFirstSearchFinds(html, i, b, a);
    assert html != "";
    assert MetaCapture(html) == ValueAt(html, b + 9);
  }

  /** A page on which neither pattern matches has the empty description. */
  lemma DescriptionWithoutMatch(html: string)
    requires forall i: nat, a: nat, b: nat :: !NameFirstMatch(html, i, a, b)
    requires forall i: nat, b: nat, a: nat :: !ContentFirstMatch(html, i, b, a)
    ensures ExtractMetaDescription(html) == ""
  {
    assert NameFirstSearch(html, 0).None?;
    assert ContentFirstSearch(html, 0).None?;
  }
}

/** The deterministic enrichment of app/api/enrich/route.js: the domain keyword, the summary,
    the "what they do" lines, the keywords, the technical signals and the text block the
    endpoint answers with. */
module EnrichHeuristics {
  import opened JsText
  import opened Sequences

  /** The parts of a parsed `URL` the endpoint reads: `protocol`, `hostname` and the
      serialisation `toString()`. */
  datatype Url = Url(protocol: string, hostname: string, href: string)

  const ValidationClause := "Further validation is recommended from additional public sources."
  const PositioningFallback := "Primary positioning could not be confirmed from website metadata."
  const FetchedSentence := "Website fetched successfully for enrichment."
  const TitlePresent := "Title metadata is present."
  const TitleMissing := "Title metadata is missing."
  const DescriptionPresent := "Meta description is present."
  const DescriptionMissing := "Meta description is missing."

  // ---------------------------------------------------------------------------------------
  // getDomainKeyword

  /** `host.replace(/^www\./, "")`: one leading `www.`, matched case-sensitively. */
  function StripWww(host: string): (r: string)
    ensures StartsWith(host, "www.") ==> r == host[4..]
    ensures !StartsWith(host, "www.") ==> r == host
  {
    if StartsWith(host, "www.") then host[4..] else host
  }

  /** `getDomainKeyword(url)`: the host without one leading `www.`, up to its first dot. */
  function DomainKeyword(url: Url): (r: string)
    ensures '.' !in r
    ensures StartsWith(StripWww(url.hostname), r)
    ensures |r| == |StripWww(url.hostname)| || StripWww(url.hostname)[|r|] == '.'
  {
    Split(StripWww(url.hostname), '.')[0]
  }

  lemma FirstLabel(first: string, rest: string)
    requires '.' !in first
    ensures Split(first + "." + rest, '.')[0] == first
  {
    IndexOfAfter(first, '.', rest);
    assert (first + "." + rest)[..|first|] == first;
  }

  lemma NotWwwPrefix(first: string, rest: string)
    requires '.' !in first && first != "www"
    ensures !StartsWith(first + "." + rest, "www.")
  {
    var host := first + "." + rest;
    if |first| >= 4 {
      assert host[3] == first[3] && first[3] != '.';
    } else if |first| == 3 {
      assert host[..3] == first;
    } else {
      assert host[|first|] == '.';
    }
  }

  /** The keyword of `label.rest` and of `www.label.rest` is `label` (for a label other than
      `www` itself, whose own dot would be stripped). */
  lemma DomainKeywordOfHost(protocol: string, href: string, first: string, rest: string)
    requires '.' !in first && first != "www"
    ensures DomainKeyword(Url(protocol, first + "." + rest, href)) == first
    ensures DomainKeyword(Url(protocol, "www." + first + "." + rest, href)) == first
  {
    var host := first + "." + rest;
    NotWwwPrefix(first, rest);
    FirstLabel(first, rest);
    assert StripWww(host) == host;
    var long := "www." + first + "." + rest;
    assert long == "www." + host;
    Affixes("www.", host);
    assert long[4..] == host;
    assert StripWww(long) == host;
  }

  /** "www.acme.com" gives "acme". */
  lemma DomainKeywordExample(protocol: string, href: string)
    ensures DomainKeyword(Url(protocol, "www.acme.com", href)) == "acme"
  {
    DomainKeywordOfHost(protocol, href, "acme", "com");
    assert "www." + "acme" + "." + "com" == "www.acme.com";
  }

  // ---------------------------------------------------------------------------------------
  // buildSummary and buildWhatTheyDo

  lemma Affixes(a: string, b: string)
    ensures StartsWith(a + b, a) && EndsWith(a + b, b)
  {
    assert (a + b)[..|a|] == a;
    assert (a + b)[|a + b| - |b|..] == b;
  }

  /** `a + b + c` starts with `a`, contains `b` and ends with `c`. */
  lemma Parts(a: string, b: string, c: string)
    ensures StartsWith(a + b + c, a) && Contains(a + b + c, b) && EndsWith(a + b + c, c)
  {
    assert (a + b + c)[..|a|] == a;
    assert (a + b + c)[|a| + |b|..] == c;
    ContainsMiddle(a, b, c);
  }

  /** A text that ends with `t + u` ends with `u`. */
  lemma EndsWithTail(s: string, t: string, u: string)
    requires EndsWith(s, t + u)
    ensures EndsWith(s, u)
  {
    var w := s[|s| - |t + u|..];
    assert s[|s| - |u|..] == w[|t|..];
    assert w[|t|..] == u;
  }

  /** The summary built from a title: `${title} appears to be an active company website for
      ${domain}.` and the closing clause. */
  function TitleSummary(title: string, domain: string): (r: string)
    ensures EndsWith(r, ValidationClause)
    ensures StartsWith(r, title + " appears to be an active company website for ")
    ensures Contains(r, domain)
  {
    var head := title + " appears to be an active company website for ";
    var tail := ". " + ValidationClause;
    Parts(head, domain, tail);
    EndsWithTail(head + domain + tail, ". ", ValidationClause);
    head + domain + tail
  }

  /** The summary built from the domain alone. */
  function DomainSummary(domain: string): (r: string)
    ensures EndsWith(r, ValidationClause)
    ensures StartsWith(r, domain + " appears to be an active company domain.")
  {
    var head := domain + " appears to be an active company domain.";
    Parts(head, " ", ValidationClause);
    head + " " + ValidationClause
  }

  /** `buildSummary(url, title, description)`: the description, else the title, else the
      domain, always followed by the closing clause. */
  function BuildSummary(url: Url, title: string, description: string): (r: string)
    ensures EndsWith(r, ValidationClause)
    ensures description != "" ==> StartsWith(r, description + " ")
    ensures description == "" && title != "" ==>
              StartsWith(r, title + " appears to be an active company website for ")
              && Contains(r, DomainKeyword(url))
    ensures description == "" && title == "" ==>
              StartsWith(r, DomainKeyword(url) + " appears to be an active company domain.")
  {
    var domain := DomainKeyword(url);
    if description != "" then
      Affixes(description + " ", ValidationClause);
      description + " " + ValidationClause
    else if title != "" then TitleSummary(title, domain)
    else DomainSummary(domain)
  }

  /** `buildWhatTheyDo(url, title, description)`. */
  /** `${pre}${x}${post}`, which contains `x`. */
  function Around(pre: string, x: string, post: string): (r: string)
    ensures Contains(r, x)
  {
    ContainsMiddle(pre, x, post);
    pre + x + post
  }

  const TitleUnavailable := "Website title is unavailable."
  const ContentAvailable := "Public website content is available for diligence review."
  const ManualValidation := "Requires manual validation of product, target users, and business model."

  function BuildWhatTheyDo(url: Url, title: string, description: string): (r: seq<string>)
    ensures |r| == 5
    ensures r[0] == (if description != "" then description else PositioningFallback)
    ensures title != "" ==> Contains(r[1], title)
    ensures title == "" ==> r[1] == TitleUnavailable
    ensures Contains(r[2], DomainKeyword(url))
  {
    var domain := DomainKeyword(url);
    var titleHint :=
      if title != "" then Around("Website title suggests focus around: ", title, ".") else TitleUnavailable;
    [ if description != "" then description else PositioningFallback,
      titleHint,
      Around("Operates under the ", domain, " brand/domain presence."),
      ContentAvailable,
      ManualValidation ]
  }

  // ---------------------------------------------------------------------------------------
  // buildKeywords

  predicate IsKeywordChar(c: char) {
    ('a' <= c <= 'z') || ('0' <= c <= '9')
  }

  /** One character through `.toLowerCase().replace(/[^a-z0-9\s]/g, " ")`. Only the ASCII
      letters, LATIN CAPITAL LETTER I WITH DOT ABOVE (lowered to `i` and a combining dot) and
      KELVIN SIGN (lowered to `k`) lower-case into `[a-z]`; every other character outside
      `[a-z0-9\s]` becomes one space per UTF-16 code unit. */
  function KeywordFoldChar(c: char): (r: string)
    ensures 1 <= |r| <= 2
    ensures forall k | 0 <= k < |r| :: IsKeywordChar(r[k]) || IsSpace(r[k])
  {
    if 'A' <= c <= 'Z' then [LowerChar(c)]
    else if IsKeywordChar(c) || IsSpace(c) then [c]
    else if c == '\U{130}' then "i "
    else if c == '\U{212A}' then "k"
    else if c as int >= 0x10000 then "  "
    else " "
  }

  /** `s.toLowerCase().replace(/[^a-z0-9\s]/g, " ")`. */
  function KeywordFold(s: string): (r: string)
    ensures forall k | 0 <= k < |r| :: IsKeywordChar(r[k]) || IsSpace(r[k])
  {
    if s == [] then []
    else
      var head, tail := KeywordFoldChar(s[0]), KeywordFold(s[1..]);
      assert forall k | |head| <= k < |head| + |tail| :: (head + tail)[k] == tail[k - |head|];
      head + tail
  }

  /** On ASCII letters, digits and white space the fold is plain lower-casing. */
  lemma {:induction false} KeywordFoldOfAlnum(s: string)
    requires forall k | 0 <= k < |s| :: IsKeywordChar(LowerChar(s[k])) || IsSpace(s[k])
    ensures KeywordFold(s) == Lower(s)
  {
    if s != [] {
      KeywordFoldOfAlnum(s[1..]);
      assert Lower(s) == [LowerChar(s[0])] + Lower(s[1..]);
    }
  }

  /** The words of the title and description: the pieces of the folded text longer than
      three characters. */
  function Tokens(title: string, description: string): (words: seq<string>)
    ensures forall k | 0 <= k < |words| ::
              |words[k]| > 3 && forall j | 0 <= j < |words[k]| :: IsKeywordChar(words[k][j])
  {
    var folded := KeywordFold(title + " " + description);
    SplitSpacesChars(folded, IsKeywordChar);
    Filter(SplitSpaces(folded), (t: string) => |t| > 3)
  }

  /** A non-empty word of `[a-z0-9]`. */
  predicate IsKeywordWord(w: string) {
    w != [] && forall j | 0 <= j < |w| :: IsKeywordChar(w[j])
  }

  /** The fold works character by character, so it distributes over concatenation. */
  lemma {:induction false} KeywordFoldAppend(a: string, b: string)
    ensures KeywordFold(a + b) == KeywordFold(a) + KeywordFold(b)
    decreases |a|
  {
    if a == [] {
      assert a + b == b;
    } else {
      assert (a + b)[0] == a[0] && (a + b)[1..] == a[1..] + b;
      KeywordFoldAppend(a[1..], b);
      AppendAssoc(KeywordFoldChar(a[0]), KeywordFold(a[1..]), KeywordFold(b));
    }
  }

  /** A word of `[a-z0-9]` goes through the fold unchanged. */
  lemma {:induction false} KeywordFoldOfWord(w: string)
    requires forall j | 0 <= j < |w| :: IsKeywordChar(w[j])
    ensures KeywordFold(w) == w
    decreases |w|
  {
    if w != [] {
      KeywordFoldOfWord(w[1..]);
      assert w == [w[0]] + w[1..];
    }
  }

  /** Such words joined by single spaces go through the fold unchanged. */
  lemma {:induction false} KeywordFoldOfJoin(ws: seq<string>)
    requires |ws| >= 1 && forall k | 0 <= k < |ws| :: IsKeywordWord(ws[k])
    ensures KeywordFold(Join(ws, " ")) == Join(ws, " ")
    decreases |ws|
  {
    KeywordFoldOfWord(ws[0]);
    if |ws| > 1 {
      var more := ws[1..];
      assert ws == [ws[0]] + more;
      JoinCons(ws[0], more, " ");
      KeywordFoldOfJoin(more);
      KeywordFoldAppend(ws[0] + " ", Join(more, " "));
      KeywordFoldAppend(ws[0], " ");
      assert KeywordFold(" ") == " ";
    }
  }

  /** The folded `title + " " + description` splits first into the words of such a title. */
  lemma FoldedTitleSplit(ws: seq<string>, description: string)
    requires |ws| >= 1 && forall k | 0 <= k < |ws| :: IsKeywordWord(ws[k])
    ensures var x := KeywordFold(description);
      SplitSpaces(KeywordFold(Join(ws, " ") + " " + description)) == ws + SplitSpaces(TrimStart(x))
  {
    var title := Join(ws, " ");
    KeywordFoldOfJoin(ws);
    KeywordFoldAppend(title + " ", description);
    KeywordFoldAppend(title, " ");
    assert KeywordFold(" ") == " ";
    forall k | 0 <= k < |ws| ensures NoSpace(ws[k]) {
      assert forall j | 0 <= j < |ws[k]| :: IsKeywordChar(ws[k][j]);
    }
    SplitJoinThen(ws, KeywordFold(description));
  }

  /** In a title made of `[a-z0-9]` words separated by single spaces, every word longer
      than three characters is one of the words `buildKeywords` picks from. */
  lemma TitleWordsAreTokens(ws: seq<string>, description: string)
    requires |ws| >= 1 && forall k | 0 <= k < |ws| :: IsKeywordWord(ws[k])
    ensures forall w | w in ws && |w| > 3 :: w in Tokens(Join(ws, " "), description)
  {
    var title := Join(ws, " ");
    FoldedTitleSplit(ws, description);
    var pieces := SplitSpaces(KeywordFold(title + " " + description));
    forall w | w in ws && |w| > 3 ensures w in Tokens(title, description) {
      assert w in pieces;
    }
  }

  /** `buildKeywords(url, title, description)`, fallback list included. */
  function BuildKeywords(url: Url, title: string, description: string): (r: seq<string>)
    ensures 1 <= |r| <= 5
    ensures r[0] == DomainKeyword(url)
  {
    var domain := DomainKeyword(url);
    var unique := Dedup([domain] + Tokens(title, description));
    var first := Slice(unique, 0, 5);
    if |first| > 0 then first else [domain, "startup", "company", "product", "market"]
  }

  /** The fallback list is never used: the de-duplicated words always start with the domain
      keyword, so their first five are never empty. */
  lemma KeywordsNeverFallBack(url: Url, title: string, description: string)
    ensures var unique := Dedup([DomainKeyword(url)] + Tokens(title, description));
      BuildKeywords(url, title, description) == unique[..if |unique| < 5 then |unique| else 5]
  {
    var unique := Dedup([DomainKeyword(url)] + Tokens(title, description));
    assert |unique| > 0;
  }

  /** The keywords hold no duplicate, begin with the domain keyword, continue with words of
      the title and description (each longer than three characters and made of `[a-z0-9]`),
      and leave a word out only when all five places are taken. */
  lemma KeywordsShape(url: Url, title: string, description: string)
    ensures var r := BuildKeywords(url, title, description);
      && NoDuplicates(r)
      && (forall k | 1 <= k < |r| :: r[k] in Tokens(title, description))
      && (forall k | 1 <= k < |r| ::
            |r[k]| > 3 && forall j | 0 <= j < |r[k]| :: IsKeywordChar(r[k][j]))
      && (forall w | w in Tokens(title, description) :: w in r || |r| == 5)
  {
    var domain := DomainKeyword(url);
    var words := Tokens(title, description);
    var all := [domain] + words;
    var unique := Dedup(all);
    var r := BuildKeywords(url, title, description);
    KeywordsNeverFallBack(url, title, description);
    var n := if |unique| < 5 then |unique| else 5;
    assert r == unique[..n];
    forall k | 1 <= k < |r| ensures r[k] in words {
      assert r[k] == unique[k] && unique[k] in all;
      assert unique[k] != unique[0];
    }
    forall w | w in words ensures w in r || |r| == 5 {
      assert w in all;
    }
  }

  // ---------------------------------------------------------------------------------------
  // buildSignals

  /** `buildSignals(fetchWarning, title, description)`. */
  function BuildSignals(warning: string, title: string, description: string): (r: seq<string>)
    ensures |r| == 3
    ensures r[0] == (if warning != "" then warning else FetchedSentence)
    ensures r[1] == TitlePresent <==> title != ""
    ensures r[2] == DescriptionPresent <==> description != ""
  {
    [ if warning != "" then warning else FetchedSentence,
      if title != "" then TitlePresent else TitleMissing,
      if description != "" then DescriptionPresent else DescriptionMissing ]
  }

  // ---------------------------------------------------------------------------------------
  // The result text

  function OrUnavailable(s: string): string {
    if s != "" then s else "Unavailable"
  }

  function Bullets(items: seq<string>): (r: seq<string>)
    ensures |r| == |items|
    ensures forall k | 0 <= k < |r| :: r[k] == "- " + items[k]
  {
    if items == [] then [] else ["- " + items[0]] + Bullets(items[1..])
  }

  /** The array literal of the result: headed sections, the spread lists as bullets. */
  function Assemble(summary: string, what: seq<string>, keywords: seq<string>, signals: seq<string>,
                    sources: seq<string>, title: string, description: string): (lines: seq<string>)
    ensures |lines| == |what| + |signals| + |sources| + 14
  {
    ["Summary: " + summary, "", "What they do:"]
    + Bullets(what)
    + ["", "Keywords:", "- " + Join(keywords, ", "), "", "Signals:"]
    + Bullets(signals)
    + ["", "Sources:"]
    + Bullets(sources)
    + ["", "Metadata:", "- Title: " + OrUnavailable(title), "- Description: " + OrUnavailable(description)]
  }

  /** Where each part of the result lands, for five "what they do" items, three signals and
      one source: 23 lines in all. */
  lemma AssembleLayout(summary: string, what: seq<string>, keywords: seq<string>, signals: seq<string>,
                       sources: seq<string>, title: string, description: string)
    requires |what| == 5 && |signals| == 3 && |sources| == 1
    ensures var lines := Assemble(summary, what, keywords, signals, sources, title, description);
      && |lines| == 23
      && lines[0] == "Summary: " + summary && lines[2] == "What they do:"
      && (forall k | 3 <= k < 8 :: lines[k] == "- " + what[k - 3])
      && lines[9] == "Keywords:" && lines[10] == "- " + Join(keywords, ", ")
      && lines[12] == "Signals:"
      && (forall k | 13 <= k < 16 :: lines[k] == "- " + signals[k - 13])
      && lines[17] == "Sources:" && lines[18] == "- " + sources[0] && lines[19] == ""
      && lines[20] == "Metadata:"
      && lines[21] == "- Title: " + (if title == "" then "Unavailable" else title)
      && lines[22] == "- Description: " + (if description == "" then "Unavailable" else description)
  {
    var lines := Assemble(summary, what, keywords, signals, sources, title, description);
    var w, g, c := Bullets(what), Bullets(signals), Bullets(sources);
    var p0 := ["Summary: " + summary, "", "What they do:"];
    var p1 := ["", "Keywords:", "- " + Join(keywords, ", "), "", "Signals:"];
    var p2 := ["", "Sources:"];
    var p3 := ["", "Metadata:", "- Title: " + OrUnavailable(title), "- Description: " + OrUnavailable(description)];
    assert lines == p0 + w + p1 + g + p2 + c + p3;
    assert forall k | 3 <= k < 8 :: lines[k] == w[k - 3];
    assert forall k | 13 <= k < 16 :: lines[k] == g[k - 13];
    assert lines[18] == c[0];
  }

  /** The lines of the result before they are joined. */
  function ResultLines(url: Url, title: string, description: string, warning: string): (lines: seq<string>)
    ensures |lines| == 23
  {
    Assemble(BuildSummary(url, title, description), BuildWhatTheyDo(url, title, description),
             BuildKeywords(url, title, description), BuildSignals(warning, title, description),
             [url.href], title, description)
  }

  /** The text block of a successful answer. */
  function ResultText(url: Url, title: string, description: string, warning: string): string {
    Join(ResultLines(url, title, description, warning), "\n")
  }

  /** The result has 23 lines; exactly one source is listed, the serialised URL; an empty
      title or description is printed as "Unavailable". */
  lemma ResultLayout(url: Url, title: string, description: string, warning: string)
    ensures var lines := ResultLines(url, title, description, warning);
      && |lines| == 23
      && lines[17] == "Sources:" && lines[18] == "- " + url.href && lines[19] == ""
      && (forall k | 3 <= k < 8 :: lines[k] == "- " + BuildWhatTheyDo(url, title, description)[k - 3])
      && (forall k | 13 <= k < 16 :: lines[k] == "- " + BuildSignals(warning, title, description)[k - 13])
      && lines[21] == "- Title: " + (if title == "" then "Unavailable" else title)
      && lines[22] == "- Description: " + (if description == "" then "Unavailable" else description)
  {
    AssembleLayout(BuildSummary(url, title, description), BuildWhatTheyDo(url, title, description),
                   BuildKeywords(url, title, description), BuildSignals(warning, title, description),
                   [url.href], title, description);
  }
}

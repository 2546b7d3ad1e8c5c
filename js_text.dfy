/** Strings as the JavaScript code sees them: the white-space class `\s` (which is also what
    `String.prototype.trim` removes), `trim`, `replace(/\s+/g, " ")`, ASCII case folding,
    `includes`, `startsWith`, `split` and `join`. */
module JsText {

  /** The characters of ECMAScript's WhiteSpace and LineTerminator productions: tab, vertical
      tab, form feed, the byte-order mark, the Unicode space separators, LF, CR, and the line
      and paragraph separators. `\s` and `trim` use exactly this set. */
  predicate IsSpace(c: char) {
    c == '\t' || c == '\n' || c == '\U{B}' || c == '\U{C}' || c == '\r' || c == ' '
    || c == '\U{A0}' || c == '\U{1680}' || ('\U{2000}' <= c <= '\U{200A}')
    || c == '\U{2028}' || c == '\U{2029}' || c == '\U{202F}' || c == '\U{205F}'
    || c == '\U{3000}' || c == '\U{FEFF}'
  }

  predicate AllSpace(s: string) {
    forall k | 0 <= k < |s| :: IsSpace(s[k])
  }

  predicate NoSpace(s: string) {
    forall k | 0 <= k < |s| :: !IsSpace(s[k])
  }

  /** The characters of `s` that are not white space, in order. */
  function NonSpace(s: string): string {
    if s == [] then [] else (if IsSpace(s[0]) then [] else [s[0]]) + NonSpace(s[1..])
  }

  lemma {:induction false} NonSpaceAppend(a: string, b: string)
    ensures NonSpace(a + b) == NonSpace(a) + NonSpace(b)
  {
    if a != [] {
      assert (a + b)[0] == a[0];
      assert (a + b)[1..] == a[1..] + b;
      NonSpaceAppend(a[1..], b);
    } else {
      assert a + b == b;
    }
  }

  lemma {:induction false} NonSpaceOfAllSpace(s: string)
    requires AllSpace(s)
    ensures NonSpace(s) == []
  {
    if s != [] {
      NonSpaceOfAllSpace(s[1..]);
    }
  }

  lemma {:induction false} NonSpaceOfNoSpace(s: string)
    requires NoSpace(s)
    ensures NonSpace(s) == s
  {
    if s != [] {
      NonSpaceOfNoSpace(s[1..]);
    }
  }

  /** The number of white-space characters `s` starts with. */
  function LeadingSpaces(s: string): (n: nat)
    ensures n <= |s| && AllSpace(s[..n]) && (n < |s| ==> !IsSpace(s[n]))
  {
    if |s| > 0 && IsSpace(s[0]) then 1 + LeadingSpaces(s[1..]) else 0
  }

  /** `s` without its leading white space. */
  function TrimStart(s: string): (r: string)
    ensures |s| > 0 && IsSpace(s[0]) ==> |r| < |s|
  {
    s[LeadingSpaces(s)..]
  }

  /** `s` without its trailing white space. */
  function TrimEnd(s: string): (r: string)
    ensures |r| <= |s| && r == s[..|r|]
    ensures AllSpace(s[|r|..])
    ensures r == [] || !IsSpace(r[|r| - 1])
  {
    if |s| > 0 && IsSpace(s[|s| - 1]) then TrimEnd(s[..|s| - 1]) else s
  }

  /** `s.trim()`. */
  function Trim(s: string): (r: string)
    ensures r == [] || (!IsSpace(r[0]) && !IsSpace(r[|r| - 1]))
    ensures var i := LeadingSpaces(s);
      i + |r| <= |s| && r == s[i..i + |r|] && AllSpace(s[i + |r|..])
  {
    var i, t := LeadingSpaces(s), TrimStart(s);
    var r := TrimEnd(t);
    assert r == t[..|r|] == s[i..i + |r|];
    assert t[|r|..] == s[i + |r|..];
    r
  }

  /** Trimming removes white space only. */
  lemma TrimKeepsContent(s: string)
    ensures NonSpace(Trim(s)) == NonSpace(s)
  {
    var t := TrimStart(s);
    assert s == s[..|s| - |t|] + t;
    NonSpaceAppend(s[..|s| - |t|], t);
    NonSpaceOfAllSpace(s[..|s| - |t|]);
    var r := TrimEnd(t);
    assert t == r + t[|r|..];
    NonSpaceAppend(r, t[|r|..]);
    NonSpaceOfAllSpace(t[|r|..]);
  }

  /** Every white-space character of `s` is a plain space and no two of them are adjacent:
      the shape `replace(/\s+/g, " ")` leaves. */
  predicate IsCollapsed(s: string) {
    && (forall k | 0 <= k < |s| :: IsSpace(s[k]) ==> s[k] == ' ')
    && (forall k | 0 <= k < |s| - 1 :: !IsSpace(s[k]) || !IsSpace(s[k + 1]))
  }

  lemma CollapsedCons(x: char, t: string)
    requires IsCollapsed(t)
    requires IsSpace(x) ==> x == ' ' && (t == [] || !IsSpace(t[0]))
    ensures IsCollapsed([x] + t)
  {
    var s := [x] + t;
    forall k | 0 <= k < |s| - 1
      ensures !IsSpace(s[k]) || !IsSpace(s[k + 1])
    {
      if k > 0 {
        assert s[k] == t[k - 1] && s[k + 1] == t[k];
      }
    }
  }

  /** `s.replace(/\s+/g, " ")`: every maximal run of white space becomes a single space. */
  function CollapseSpaces(s: string): (r: string)
    ensures IsCollapsed(r)
    ensures |r| == 0 <==> |s| == 0
    ensures |s| > 0 ==> (IsSpace(r[0]) <==> IsSpace(s[0]))
    decreases |s|
  {
    if s == [] then []
    else if IsSpace(s[0]) then
      var t := CollapseSpaces(TrimStart(s));
      CollapsedCons(' ', t);
      [' '] + t
    else
      var t := CollapseSpaces(s[1..]);
      CollapsedCons(s[0], t);
      [s[0]] + t
  }

  /** Collapsing changes white space only. */
  lemma {:induction false} CollapseKeepsContent(s: string)
    ensures NonSpace(CollapseSpaces(s)) == NonSpace(s)
    decreases |s|
  {
    if s == [] {
    } else if IsSpace(s[0]) {
      var t := TrimStart(s);
      CollapseKeepsContent(t);
      NonSpaceAppend([' '], CollapseSpaces(t));
      assert s == s[..|s| - |t|] + t;
      NonSpaceAppend(s[..|s| - |t|], t);
      NonSpaceOfAllSpace(s[..|s| - |t|]);
    } else {
      CollapseKeepsContent(s[1..]);
      NonSpaceAppend([s[0]], CollapseSpaces(s[1..]));
    }
  }

  /** A string already in collapsed shape is left alone by the replacement. */
  lemma {:induction false} CollapseFixpoint(s: string)
    requires IsCollapsed(s)
    ensures CollapseSpaces(s) == s
    decreases |s|
  {
    if s != [] {
      CollapsedSuffix(s, 1);
      CollapseFixpoint(s[1..]);
      if IsSpace(s[0]) {
        assert |s| > 1 ==> !IsSpace(s[1]);
        assert TrimStart(s[1..]) == s[1..];
        assert TrimStart(s) == s[1..];
        assert CollapseSpaces(s) == [' '] + CollapseSpaces(s[1..]);
      } else {
        assert CollapseSpaces(s) == [s[0]] + CollapseSpaces(s[1..]);
      }
      assert s == [s[0]] + s[1..];
    }
  }

  lemma CollapsedSuffix(s: string, i: nat)
    requires IsCollapsed(s) && i <= |s|
    ensures IsCollapsed(s[i..])
  {
    var t := s[i..];
    forall k | 0 <= k < |t| - 1
      ensures !IsSpace(t[k]) || !IsSpace(t[k + 1])
    {
      assert t[k] == s[i + k] && t[k + 1] == s[i + k + 1];
    }
  }

  lemma CollapsedPrefix(s: string, j: nat)
    requires IsCollapsed(s) && j <= |s|
    ensures IsCollapsed(s[..j])
  {
    var t := s[..j];
    forall k | 0 <= k < |t| - 1
      ensures !IsSpace(t[k]) || !IsSpace(t[k + 1])
    {
      assert t[k] == s[k] && t[k + 1] == s[k + 1];
    }
  }

  lemma TrimKeepsCollapsed(s: string)
    requires IsCollapsed(s)
    ensures IsCollapsed(Trim(s))
  {
    var t := TrimStart(s);
    CollapsedSuffix(s, |s| - |t|);
    CollapsedPrefix(t, |TrimEnd(t)|);
  }

  lemma TrimFixpoint(s: string)
    requires s == [] || (!IsSpace(s[0]) && !IsSpace(s[|s| - 1]))
    ensures Trim(s) == s
  {
  }

  /** ASCII `toLowerCase` of one character. */
  function LowerChar(c: char): (r: char)
    ensures 'A' <= c <= 'Z' ==> 'a' <= r <= 'z'
    ensures !('A' <= c <= 'Z') ==> r == c
  {
    if 'A' <= c <= 'Z' then (c as int + 32) as char else c
  }

  /** `s.toLowerCase()`, for the ASCII letters. */
  function Lower(s: string): (r: string)
    ensures |r| == |s|
  {
    if s == [] then [] else [LowerChar(s[0])] + Lower(s[1..])
  }

  /** Lower-casing works character by character. */
  lemma {:induction false} LowerAt(s: string)
    ensures forall k | 0 <= k < |s| :: Lower(s)[k] == LowerChar(s[k])
  {
    if s != [] {
      LowerAt(s[1..]);
    }
  }

  lemma LowerAppend(a: string, b: string)
    ensures Lower(a + b) == Lower(a) + Lower(b)
  {
    LowerAt(a + b);
    LowerAt(a);
    LowerAt(b);
    assert forall k | 0 <= k < |a + b| :: Lower(a + b)[k] == (Lower(a) + Lower(b))[k];
  }

  /** Lower-casing twice is lower-casing once. */
  lemma LowerIdempotent(s: string)
    ensures Lower(Lower(s)) == Lower(s)
  {
    LowerAt(s);
    LowerAt(Lower(s));
    assert forall k | 0 <= k < |s| :: Lower(Lower(s))[k] == Lower(s)[k];
  }

  predicate StartsWith(s: string, p: string) {
    |p| <= |s| && s[..|p|] == p
  }

  predicate EndsWith(s: string, p: string) {
    |p| <= |s| && s[|s| - |p|..] == p
  }

  /** `s.includes(t)`. */
  predicate Contains(s: string, t: string)
    decreases |s|
  {
    StartsWith(s, t) || (|s| > 0 && Contains(s[1..], t))
  }

  /** `includes` finds `t` exactly when it occurs at some offset. */
  lemma {:induction false} ContainsAt(s: string, t: string, i: nat)
    requires i + |t| <= |s| && s[i..i + |t|] == t
    ensures Contains(s, t)
    decreases i
  {
    if i > 0 {
      assert s[1..][i - 1..i - 1 + |t|] == s[i..i + |t|];
      ContainsAt(s[1..], t, i - 1);
    }
  }

  lemma ContainsMiddle(a: string, b: string, c: string)
    ensures Contains(a + b + c, b)
  {
    assert (a + b + c)[|a|..|a| + |b|] == b;
    ContainsAt(a + b + c, b, |a|);
  }

  /** Where `includes` found `t`: an offset at which `t` occurs in `s`. */
  lemma {:induction false} ContainsWitness(s: string, t: string) returns (i: nat)
    requires Contains(s, t)
    ensures i + |t| <= |s| && s[i..i + |t|] == t
    decreases |s|
  {
    if StartsWith(s, t) {
      i := 0;
    } else {
      var j := ContainsWitness(s[1..], t);
      assert s[1..][j..j + |t|] == s[j + 1..j + 1 + |t|];
      i := j + 1;
    }
  }

  /** A string contains whatever one of its substrings contains. */
  lemma ContainsTransitive(a: string, b: string, c: string)
    requires Contains(a, b) && Contains(b, c)
    ensures Contains(a, c)
  {
    var i := ContainsWitness(a, b);
    var j := ContainsWitness(b, c);
    assert forall k | 0 <= k < |c| :: a[i + j + k] == b[j + k] == c[k];
    assert a[i + j..i + j + |c|] == c;
    ContainsAt(a, c, i + j);
  }

  /** Index of the first white-space character of `s`, or `|s|` when there is none. */
  function FirstSpace(s: string): (j: nat)
    ensures j <= |s| && NoSpace(s[..j]) && (j < |s| ==> IsSpace(s[j]))
  {
    if s == [] || IsSpace(s[0]) then 0 else 1 + FirstSpace(s[1..])
  }

  /** `s.split(/\s+/)`: the pieces between maximal runs of white space; a run at either end
      leaves an empty piece on that side, and the empty string gives one empty piece. */
  function SplitSpaces(s: string): (parts: seq<string>)
    ensures |parts| >= 1
    ensures forall k | 0 <= k < |parts| :: NoSpace(parts[k])
    decreases |s|
  {
    var j := FirstSpace(s);
    if j == |s| then [s] else [s[..j]] + SplitSpaces(TrimStart(s[j..]))
  }

  function Concat(parts: seq<string>): string {
    if parts == [] then "" else parts[0] + Concat(parts[1..])
  }

  lemma TrimStartKeepsContent(t: string)
    ensures NonSpace(TrimStart(t)) == NonSpace(t)
  {
    var rest := TrimStart(t);
    assert t == t[..|t| - |rest|] + rest;
    NonSpaceAppend(t[..|t| - |rest|], rest);
    NonSpaceOfAllSpace(t[..|t| - |rest|]);
  }

  lemma ConcatCons(p: string, parts: seq<string>)
    ensures Concat([p] + parts) == p + Concat(parts)
  {
    assert ([p] + parts)[1..] == parts;
  }

  /** The pieces of `split(/\s+/)` hold, in order, exactly the non-white-space characters. */
  lemma {:induction false} SplitSpacesContent(s: string)
    ensures Concat(SplitSpaces(s)) == NonSpace(s)
    decreases |s|
  {
    var j := FirstSpace(s);
    if j == |s| {
      assert s[..j] == s;
      NonSpaceOfNoSpace(s);
    } else {
      var rest := TrimStart(s[j..]);
      SplitSpacesContent(rest);
      ConcatCons(s[..j], SplitSpaces(rest));
      NonSpaceOfNoSpace(s[..j]);
      assert s == s[..j] + s[j..];
      NonSpaceAppend(s[..j], s[j..]);
      TrimStartKeepsContent(s[j..]);
    }
  }

  /** A property that every non-white-space character of `s` has holds of every character of
      every piece of `s.split(/\s+/)`. */
  lemma {:induction false} SplitSpacesChars(s: string, ok: char -> bool)
    requires forall k | 0 <= k < |s| :: ok(s[k]) || IsSpace(s[k])
    ensures forall p, k | p in SplitSpaces(s) && 0 <= k < |p| :: ok(p[k])
    decreases |s|
  {
    var j := FirstSpace(s);
    if j < |s| {
      var t := s[j..];
      var rest := TrimStart(t);
      assert forall k | 0 <= k < |rest| :: rest[k] == s[j + |t| - |rest| + k];
      SplitSpacesChars(rest, ok);
      assert SplitSpaces(s) == [s[..j]] + SplitSpaces(rest);
    }
  }

  /** Index of the first `c` in `s`, or `|s|` when there is none. */
  function IndexOf(s: string, c: char): (j: nat)
    ensures j <= |s| && c !in s[..j] && (j < |s| ==> s[j] == c)
  {
    if s == [] || s[0] == c then 0 else 1 + IndexOf(s[1..], c)
  }

  /** `s.split(c)` for a one-character separator. */
  function Split(s: string, c: char): (parts: seq<string>)
    ensures |parts| >= 1
    ensures forall k | 0 <= k < |parts| :: c !in parts[k]
    ensures StartsWith(s, parts[0]) && (|parts[0]| == |s| || s[|parts[0]|] == c)
    decreases |s|
  {
    var j := IndexOf(s, c);
    if j == |s| then [s] else [s[..j]] + Split(s[j + 1..], c)
  }

  /** `xs.join(sep)`. */
  function Join(xs: seq<string>, sep: string): string {
    if |xs| == 0 then "" else if |xs| == 1 then xs[0] else xs[0] + sep + Join(xs[1..], sep)
  }

  /** A `join` starts with its first piece. */
  lemma JoinStart(xs: seq<string>, sep: string)
    requires |xs| >= 1
    ensures StartsWith(Join(xs, sep), xs[0])
  {
    if |xs| > 1 {
      assert Join(xs, sep)[..|xs[0]|] == xs[0];
    }
  }

  /** The same text put in front of a text and of its prefix keeps the prefix relation. */
  lemma StartsWithBoth(p: string, s: string, t: string)
    requires StartsWith(s, t)
    ensures StartsWith(p + s, p + t)
  {
    assert (p + s)[..|p + t|] == p + s[..|t|];
  }

  lemma {:induction false} IndexOfAfter(a: string, c: char, b: string)
    requires c !in a
    ensures IndexOf(a + [c] + b, c) == |a|
  {
    if a != [] {
      assert (a + [c] + b)[1..] == a[1..] + [c] + b;
      IndexOfAfter(a[1..], c, b);
    }
  }

  // ---------------------------------------------------------------- words

  /** Words `ws` with the white-space runs `seps` between them: `ws[0] + seps[0] + ws[1] + …`. */
  function Weave(ws: seq<string>, seps: seq<string>): string
    requires |ws| == |seps| + 1
    decreases |seps|
  {
    if seps == [] then ws[0] else ws[0] + seps[0] + Weave(ws[1..], seps[1..])
  }

  /** The shape of the pieces `split(/\s+/)` gives: at least one, none holding white space,
      and only the first and the last possibly empty. */
  predicate IsSplitShape(ws: seq<string>) {
    && |ws| >= 1
    && (forall k | 0 <= k < |ws| :: NoSpace(ws[k]))
    && (forall k | 0 < k < |ws| - 1 :: ws[k] != [])
  }

  /** Each separator is a non-empty run of white space. */
  predicate AreRuns(seps: seq<string>) {
    forall k | 0 <= k < |seps| :: seps[k] != [] && AllSpace(seps[k])
  }

  lemma SplitNoSpace(s: string)
    requires NoSpace(s)
    ensures SplitSpaces(s) == [s]
  {
    assert FirstSpace(s) == |s|;
    assert s[..|s|] == s;
  }

  lemma TrimStartNoLead(s: string)
    requires s == [] || !IsSpace(s[0])
    ensures TrimStart(s) == s
  {
  }

  lemma TrimStartCons(s: string)
    requires s != [] && IsSpace(s[0])
    ensures TrimStart(s) == TrimStart(s[1..])
  {
    assert s[LeadingSpaces(s)..] == s[1..][LeadingSpaces(s[1..])..];
  }

  /** Leading white space goes whatever follows it. */
  lemma {:induction false} TrimStartAfterRun(sep: string, x: string)
    requires AllSpace(sep)
    ensures TrimStart(sep + x) == TrimStart(x)
    decreases |sep|
  {
    if sep == [] {
      assert sep + x == x;
    } else {
      TrimStartCons(sep + x);
      assert (sep + x)[1..] == sep[1..] + x;
      TrimStartAfterRun(sep[1..], x);
    }
  }

  /** Trailing white space is all `trimEnd` removes. */
  lemma {:induction false} TrimEndAllSpace(u: string, v: string)
    requires AllSpace(v)
    ensures TrimEnd(u + v) == TrimEnd(u)
    decreases |v|
  {
    if v == [] {
      assert u + v == u;
    } else {
      var w := v[..|v| - 1];
      assert (u + v)[..|u + v| - 1] == u + w;
      TrimEndAllSpace(u, w);
    }
  }

  /** When `v` has something besides white space, `trimEnd` does not reach into `u`. */
  lemma {:induction false} TrimEndKeep(u: string, v: string)
    requires TrimEnd(v) != []
    ensures TrimEnd(u + v) == u + TrimEnd(v)
    decreases |v|
  {
    var w := v[..|v| - 1];
    assert (u + v)[..|u + v| - 1] == u + w;
    if IsSpace(v[|v| - 1]) {
      TrimEndKeep(u, w);
    }
  }

  /** Trimming a word, one space and a text that does not start with white space. */
  lemma TrimWordThen(a: string, x: string)
    requires a != [] && NoSpace(a) && (x == [] || !IsSpace(x[0]))
    ensures Trim(a + " " + x) == if TrimEnd(x) == [] then a else a + " " + TrimEnd(x)
  {
    var u := a + " ";
    assert (u + x)[0] == a[0];
    TrimStartNoLead(u + x);
    if TrimEnd(x) == [] {
      assert x[|TrimEnd(x)|..] == x;
      TrimEndAllSpace(u, x);
      assert u[..|u| - 1] == a;
    } else {
      TrimEndKeep(u, x);
    }
  }

  /** A leading space makes no difference to `trim`. */
  lemma TrimLeadSpace(x: string)
    ensures Trim(" " + x) == Trim(x)
  {
    TrimStartAfterRun(" ", x);
  }

  /** A word followed by a run of white space is the first piece of `split(/\s+/)`. */
  lemma SplitHead(w: string, sep: string, x: string)
    requires NoSpace(w) && sep != [] && AllSpace(sep)
    ensures SplitSpaces(w + sep + x) == [w] + SplitSpaces(TrimStart(x))
  {
    var s := w + sep + x;
    assert s[|w|] == sep[0];
    assert forall k | 0 <= k < |w| :: s[k] == w[k];
    var j := FirstSpace(s);
    assert j == |w|;
    assert s[..j] == w && s[j..] == sep + x;
    TrimStartAfterRun(sep, x);
  }

  lemma JoinCons(a: string, xs: seq<string>, sep: string)
    requires |xs| >= 1
    ensures Join([a] + xs, sep) == a + sep + Join(xs, sep)
  {
    assert ([a] + xs)[1..] == xs;
  }

  /** `split(/\s+/)` gives back the words of a woven text. */
  lemma {:induction false} SplitSpacesOfWeave(ws: seq<string>, seps: seq<string>)
    requires |ws| == |seps| + 1 && IsSplitShape(ws) && AreRuns(seps)
    ensures SplitSpaces(Weave(ws, seps)) == ws
    decreases |seps|
  {
    if seps == [] {
      SplitNoSpace(ws[0]);
      assert ws == [ws[0]];
    } else {
      ShapeTail(ws);
      assert AreRuns(seps[1..]) by {
        assert forall k | 0 <= k < |seps| - 1 :: seps[1..][k] == seps[k + 1];
      }
      SplitSpacesOfWeave(ws[1..], seps[1..]);
      UnweaveStep(ws, seps);
    }
  }

  lemma ShapeTail(ws: seq<string>)
    requires IsSplitShape(ws) && |ws| > 1
    ensures IsSplitShape(ws[1..])
  {
    assert forall k | 0 <= k < |ws| - 1 :: ws[1..][k] == ws[k + 1];
  }

  /** The step of `SplitSpacesOfWeave`: the first word and its run are split off first. */
  lemma UnweaveStep(ws: seq<string>, seps: seq<string>)
    requires |ws| == |seps| + 1 && |seps| > 0 && IsSplitShape(ws) && AreRuns(seps)
    requires SplitSpaces(Weave(ws[1..], seps[1..])) == ws[1..]
    ensures SplitSpaces(Weave(ws, seps)) == ws
  {
    var rest := Weave(ws[1..], seps[1..]);
    assert NoSpace(ws[0]) && seps[0] != [] && AllSpace(seps[0]);
    SplitHead(ws[0], seps[0], rest);
    if ws[1] != [] {
      assert rest[0] == ws[1][0];
      assert !IsSpace(ws[1][0]);
    } else {
      assert |seps| == 1;
    }
    TrimStartNoLead(rest);
    assert ws == [ws[0]] + ws[1..];
  }

  /** The first piece of a text that does not start with white space is not empty, unless
      the text is. */
  lemma SplitFirstNonEmpty(s: string)
    requires s != [] && !IsSpace(s[0])
    ensures SplitSpaces(s)[0] != []
  {
    assert FirstSpace(s) > 0;
  }

  lemma WeaveCons(w: string, sep: string, ws: seq<string>, seps: seq<string>)
    requires |ws| == |seps| + 1
    ensures Weave([w] + ws, [sep] + seps) == w + sep + Weave(ws, seps)
  {
    assert ([w] + ws)[1..] == ws && ([sep] + seps)[1..] == seps;
  }

  /** One step of `split(/\s+/)`: the first word, then the pieces after the run that ends it. */
  lemma SplitStep(s: string)
    requires FirstSpace(s) < |s|
    ensures var j := FirstSpace(s);
      SplitSpaces(s) == [s[..j]] + SplitSpaces(TrimStart(s[j..]))
  {
  }

  /** The pieces of `s` and the runs between them, as `SplitSpacesWeave` states them. */
  ghost predicate WovenFrom(s: string, seps: seq<string>) {
    var ws := SplitSpaces(s);
    |ws| == |seps| + 1 && IsSplitShape(ws) && AreRuns(seps) && Weave(ws, seps) == s
  }

  /** Every text is its `split(/\s+/)` pieces woven with the white-space runs between them. */
  lemma {:induction false} SplitSpacesWeave(s: string) returns (seps: seq<string>)
    ensures WovenFrom(s, seps)
    decreases |s|
  {
    var j := FirstSpace(s);
    if j == |s| {
      seps := [];
      assert s[..j] == s;
    } else {
      var more := SplitSpacesWeave(TrimStart(s[j..]));
      seps := WovenStep(s, more);
    }
  }

  /** The step of `SplitSpacesWeave`: the first word and the run after it go in front of the
      pieces and runs of the rest. */
  lemma WovenStep(s: string, more: seq<string>) returns (seps: seq<string>)
    requires FirstSpace(s) < |s| && WovenFrom(TrimStart(s[FirstSpace(s)..]), more)
    ensures WovenFrom(s, seps)
  {
    var j := FirstSpace(s);
    var word, t := s[..j], s[j..];
    var n := LeadingSpaces(t);
    var run, rest := t[..n], t[n..];
    seps := [run] + more;
    var tail := SplitSpaces(rest);
    SplitStep(s);
    if rest != [] {
      SplitFirstNonEmpty(rest);
    }
    SplitAt(s, j);
    SplitAt(t, n);
    AppendAssoc(word, run, rest);
    WeaveStep(word, run, tail, more);
  }

  /** A word and a run in front of a woven text of the split shape give one of the split
      shape. */
  lemma WeaveStep(word: string, run: string, tail: seq<string>, more: seq<string>)
    requires NoSpace(word) && run != [] && AllSpace(run)
    requires |tail| == |more| + 1 && IsSplitShape(tail) && AreRuns(more)
    requires |tail| > 1 ==> tail[0] != []
    ensures var ws, seps := [word] + tail, [run] + more;
      && |ws| == |seps| + 1 && IsSplitShape(ws) && AreRuns(seps)
      && Weave(ws, seps) == word + run + Weave(tail, more)
  {
    ShapeCons(word, tail);
    var seps := [run] + more;
    assert forall k | 0 < k < |seps| :: seps[k] == more[k - 1];
    WeaveCons(word, run, tail, more);
  }

  /** A word in front of pieces of the split shape whose first piece is not empty (or which
      are just one piece) keeps the shape. */
  lemma ShapeCons(w: string, tail: seq<string>)
    requires NoSpace(w) && IsSplitShape(tail) && (|tail| > 1 ==> tail[0] != [])
    ensures IsSplitShape([w] + tail)
  {
    var ws := [w] + tail;
    assert forall k | 0 < k < |ws| :: ws[k] == tail[k - 1];
  }

  /** `xs.join(sep)` is `xs` woven with `sep` between every two pieces. */
  lemma {:induction false} JoinIsWeave(xs: seq<string>, sep: string)
    requires |xs| >= 1
    ensures Join(xs, sep) == Weave(xs, seq(|xs| - 1, _ => sep))
    decreases |xs|
  {
    if |xs| > 1 {
      JoinIsWeave(xs[1..], sep);
      assert seq(|xs| - 1, _ => sep)[1..] == seq(|xs| - 2, _ => sep);
    }
  }

  /** `split(/\s+/)` undoes `join(" ")` on pieces of the shape it produces. */
  lemma SplitSpacesOfJoin(ws: seq<string>)
    requires IsSplitShape(ws)
    ensures SplitSpaces(Join(ws, " ")) == ws
  {
    JoinIsWeave(ws, " ");
    SplitSpacesOfWeave(ws, seq(|ws| - 1, _ => " "));
  }

  /** Collapsing leaves the word at the front of the text as it is. */
  lemma {:induction false} CollapseWord(s: string)
    ensures var j := FirstSpace(s);
      CollapseSpaces(s) == s[..j] + CollapseSpaces(s[j..])
    decreases |s|
  {
    if s != [] && !IsSpace(s[0]) {
      var j, t := FirstSpace(s), s[1..];
      assert j == 1 + FirstSpace(t);
      CollapseWord(t);
      assert t[..j - 1] == s[1..j] && t[j - 1..] == s[j..];
      assert s[..j] == [s[0]] + s[1..j];
    }
  }

  /** One step of collapsing: the first word, one space for the run after it, and the rest. */
  lemma CollapseStep(s: string)
    requires FirstSpace(s) < |s|
    ensures var j := FirstSpace(s);
      CollapseSpaces(s) == s[..j] + [' '] + CollapseSpaces(TrimStart(s[j..]))
  {
    var j := FirstSpace(s);
    CollapseWord(s);
    CollapseRun(s[j..]);
    AppendAssoc(s[..j], [' '], CollapseSpaces(TrimStart(s[j..])));
  }

  /** A run of white space at the front collapses to one space. */
  lemma CollapseRun(t: string)
    requires t != [] && IsSpace(t[0])
    ensures CollapseSpaces(t) == [' '] + CollapseSpaces(TrimStart(t))
  {
  }

  lemma SplitAt<T>(xs: seq<T>, n: nat)
    requires n <= |xs|
    ensures xs == xs[..n] + xs[n..]
  {
  }

  lemma AppendAssoc<T>(a: seq<T>, b: seq<T>, c: seq<T>)
    ensures a + (b + c) == a + b + c
  {
  }

  /** `replace(/\s+/g, " ")` is `split(/\s+/)` followed by `join(" ")`: each maximal run of
      white space becomes one space, where the run was. */
  lemma {:induction false} CollapseIsJoin(s: string)
    ensures CollapseSpaces(s) == Join(SplitSpaces(s), " ")
    decreases |s|
  {
    var j := FirstSpace(s);
    if j == |s| {
      CollapseWord(s);
      assert s[..j] == s;
    } else {
      var rest := TrimStart(s[j..]);
      CollapseStep(s);
      CollapseIsJoin(rest);
      JoinCons(s[..j], SplitSpaces(rest), " ");
    }
  }

  /** Words, then one space and anything: `split(/\s+/)` gives the words first. */
  lemma {:induction false} SplitJoinThen(ws: seq<string>, x: string)
    requires |ws| >= 1 && forall k | 0 <= k < |ws| :: ws[k] != [] && NoSpace(ws[k])
    ensures SplitSpaces(Join(ws, " ") + " " + x) == ws + SplitSpaces(TrimStart(x))
    decreases |ws|
  {
    if |ws| == 1 {
      assert Join(ws, " ") == ws[0] && ws == [ws[0]];
      SplitHead(ws[0], " ", x);
    } else {
      var w, more := ws[0], ws[1..];
      var j := Join(more, " ");
      var y := j + " " + x;
      assert ws == [w] + more;
      JoinCons(w, more, " ");
      AppendAssoc(w + " ", j + " ", x);
      AppendAssoc(w + " ", j, " ");
      assert Join(ws, " ") + " " + x == w + " " + y;
      SplitHead(w, " ", y);
      JoinStart(more, " ");
      assert y[0] == more[0][0];
      TrimStartNoLead(y);
      SplitJoinThen(more, x);
      AppendAssoc([w], more, SplitSpaces(TrimStart(x)));
    }
  }
}

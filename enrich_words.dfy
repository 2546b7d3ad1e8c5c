/** The words of a sanitised string: `replace(/\s+/g, " ").trim()` keeps the non-empty
    pieces of `split(/\s+/)`, in order, with one space between each two. */

module EnrichWords {
  import opened JsText
  import opened JsValues
  import opened Sequences
  import opened EnrichExtract

  /** A piece of `split(/\s+/)` that is a word, not the empty piece at either end. */
  function IsWord(t: string): bool {
    t != []
  }

  /** Trimming the pieces joined by one space leaves the words joined by one space. */
  lemma {:induction false} TrimJoinParts(ps: seq<string>)
    requires IsSplitShape(ps)
    ensures Trim(Join(ps, " ")) == Join(Filter(ps, IsWord), " ")
    decreases |ps|
  {
    if |ps| == 1 {
      assert ps == [ps[0]] + [];
      FilterCons(ps[0], [], IsWord);
      TrimFixpoint(ps[0]);
    } else {
      var a, q := ps[0], ps[1..];
      var x := Join(q, " ");
      assert ps == [a] + q;
      JoinCons(a, q, " ");
      FilterCons(a, q, IsWord);
      ShapeTail(ps);
      TrimJoinParts(q);
      var f := Filter(q, IsWord);
      if q[0] != [] {
        JoinStart(q, " ");
        assert x[0] == q[0][0];
      } else {
        assert |q| == 1 && x == [];
      }
      TrimStartNoLead(x);
      assert Trim(x) == TrimEnd(x);
      if a == [] {
        assert a + " " + x == " " + x;
        TrimLeadSpace(x);
      } else {
        TrimWordThen(a, x);
        if f != [] {
          JoinStart(f, " ");
          assert IsWord(f[0]);
          JoinCons(a, f, " ");
        } else {
          assert [a] + f == [a];
        }
      }
    }
  }

  /** The sanitised string is the words of the input, in order, joined by single spaces. */
  lemma SanitizeWords(s: string)
    ensures SanitizeString(Str(s)) == Join(Filter(SplitSpaces(s), IsWord), " ")
  {
    CollapseIsJoin(s);
    var seps := SplitSpacesWeave(s);
    TrimJoinParts(SplitSpaces(s));
  }
}

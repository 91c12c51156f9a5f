/** The resource map's search box: `handleSearch` and `handleReset`. */
module HomeschoolMapPage {
  import opened Wrappers
  import Text
  import Seqs

  /** The part of a resource the search reads. */
  datatype MapResource = MapResource(id: string, title: Option<string>, state: Option<string>)

  /** The page state the two handlers set. */
  datatype MapView = MapView(
    query: string,
    shown: seq<MapResource>,
    selected: Option<MapResource>,
    multiSelection: Option<seq<MapResource>>)

  /** A separator of `/[\s,]+/`. */
  predicate IsSeparator(c: char) {
    Text.IsSpace(c) || c == ','
  }

  /** The longest prefix of `q` without a separator. */
  function Word(q: string): (w: string)
    ensures |w| <= |q| && w == q[..|w|]
    ensures forall i :: 0 <= i < |w| ==> !IsSeparator(w[i])
    ensures |w| < |q| ==> IsSeparator(q[|w|])
  {
    if q != [] && !IsSeparator(q[0]) then [q[0]] + Word(q[1..]) else []
  }

  /** `q.split(/[\s,]+/).filter(Boolean)`: the maximal runs of non-separators. */
  function Terms(q: string): seq<string>
    decreases |q|
  {
    if q == [] then []
    else if IsSeparator(q[0]) then Terms(q[1..])
    else
      var w := Word(q);
      [w] + Terms(q[|w|..])
  }

  /** All strings of `ss`, one after another. */
  function Concat(ss: seq<string>): string {
    if ss == [] then [] else ss[0] + Concat(ss[1..])
  }

  /**
   * The terms are non-empty, hold no separator, and between them hold every
   * non-separator character of the query, in order.
   */
  lemma {:induction false} TermsSpec(q: string)
    ensures forall i :: 0 <= i < |Terms(q)| ==> Terms(q)[i] != []
    ensures forall i, j :: 0 <= i < |Terms(q)| && 0 <= j < |Terms(q)[i]| ==> !IsSeparator(Terms(q)[i][j])
    ensures Concat(Terms(q)) == Seqs.Filter(q, c => !IsSeparator(c))
    decreases |q|
  {
    var notSep := c => !IsSeparator(c);
    if q == [] {
    } else if IsSeparator(q[0]) {
      TermsSpec(q[1..]);
    } else {
      var w := Word(q);
      var rest := q[|w|..];
      TermsSpec(rest);
      assert Terms(q) == [w] + Terms(rest);
      assert q == w + rest;
      Seqs.FilterAppend(w, rest, notSep);
      Seqs.FilterAll(w, notSep);
      assert Concat(Terms(q)) == w + Concat(Terms(rest));
    }
  }

  /** `res.title?.toLowerCase() || ""` and likewise for the state. */
  function SearchName(r: MapResource): string { Text.Lower(r.title.GetOr("")) }
  function SearchState(r: MapResource): string { Text.Lower(r.state.GetOr("")) }

  /** Every term occurs in the lower-cased title or in the lower-cased state. */
  predicate MatchesAll(r: MapResource, terms: seq<string>) {
    forall i :: 0 <= i < |terms| ==> Text.Contains(SearchName(r), terms[i]) || Text.Contains(SearchState(r), terms[i])
  }

  /** The resources that match every term, in their original order. */
  function FilterByTerms(all: seq<MapResource>, terms: seq<string>): (r: seq<MapResource>)
    ensures forall x :: x in r <==> x in all && MatchesAll(x, terms)
  {
    Seqs.Filter(all, x => MatchesAll(x, terms))
  }

  /** `handleSearch`: a blank query shows everything; selections are cleared either way. */
  function HandleSearch(all: seq<MapResource>, view: MapView): (v: MapView)
    ensures v.query == view.query && v.selected.None? && v.multiSelection.None?
    ensures Text.Normalize(view.query) == [] ==> v.shown == all
    ensures Text.Normalize(view.query) != [] ==> v.shown == FilterByTerms(all, Terms(Text.Normalize(view.query)))
  {
    var query := Text.Normalize(view.query);
    if query == [] then MapView(view.query, all, None, None)
    else MapView(view.query, FilterByTerms(all, Terms(query)), None, None)
  }

  /** The search result is an order-preserving selection of all resources. */
  lemma SearchKeepsOrder(all: seq<MapResource>, view: MapView)
    ensures Seqs.IsSubsequence(HandleSearch(all, view).shown, all)
  {
    var query := Text.Normalize(view.query);
    if query != [] {
      Seqs.FilterIsSubsequence(all, x => MatchesAll(x, Terms(query)));
    } else {
      Seqs.SubsequenceRefl(all);
    }
  }

  /** A query of separators only has no terms, so it filters nothing out. */
  lemma NoTermsKeepsAll(all: seq<MapResource>)
    ensures FilterByTerms(all, []) == all
  {
    Seqs.FilterAll(all, x => MatchesAll(x, []));
  }

  /** Adding a term never adds a resource to the result. */
  lemma MoreTermsNarrow(all: seq<MapResource>, terms: seq<string>, t: string)
    ensures Seqs.IsSubsequence(FilterByTerms(all, terms + [t]), FilterByTerms(all, terms))
    ensures |FilterByTerms(all, terms + [t])| <= |FilterByTerms(all, terms)|
  {
    var p := x => MatchesAll(x, terms + [t]);
    var q := x => MatchesAll(x, terms);
    forall x | p(x) ensures q(x) {
      forall i | 0 <= i < |terms| ensures Text.Contains(SearchName(x), terms[i]) || Text.Contains(SearchState(x), terms[i]) {
        assert (terms + [t])[i] == terms[i];
      }
    }
    Seqs.FilterStrongerSubsequence(all, p, q);
    Seqs.FilterStronger(all, p, q);
  }

  /** `handleReset`: the query is emptied and every resource is shown with nothing selected. */
  function HandleReset(all: seq<MapResource>, view: MapView): (v: MapView)
    ensures v.query == "" && v.shown == all && v.selected.None? && v.multiSelection.None?
  {
    MapView("", all, None, None)
  }

  /** After a reset, searching shows everything again. */
  lemma SearchAfterReset(all: seq<MapResource>, view: MapView)
    ensures HandleSearch(all, HandleReset(all, view)) == HandleReset(all, view)
  {
    assert Text.Trim("") == "";
  }
}

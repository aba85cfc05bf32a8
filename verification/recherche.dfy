/** The search page: one tool found by a part of its MABIC or its reference. */
module Recherche {
  import opened Options
  import Text
  import Seqs
  import opened Catalogue

  /** The page state: the search field and the tool shown (None for `null`). */
  datatype SearchState = SearchState(term: string, result: Option<Tool>)

  /** The search test: the lower-cased MABIC or reference contains the lower-cased term. */
  predicate Matches(t: Tool, term: string) {
    Text.Contains(Text.Lower(t.mabic), Text.Lower(term)) || Text.Contains(Text.Lower(t.reference), Text.Lower(term))
  }

  ghost predicate IsFirstMatch(db: seq<Tool>, term: string, i: int) {
    0 <= i < |db| && Matches(db[i], term) && forall j :: 0 <= j < i ==> !Matches(db[j], term)
  }

  /** The `find` of `handleSearch`. */
  function FindByTerm(db: seq<Tool>, term: string): (r: Option<Tool>)
    ensures r.Some? ==> exists i :: IsFirstMatch(db, term, i) && db[i] == r.value
    ensures r.None? <==> forall j :: 0 <= j < |db| ==> !Matches(db[j], term)
  {
    match Seqs.FindFirst(db, t => Matches(t, term))
    case Some(i) =>
      assert IsFirstMatch(db, term, i);
      Some(db[i])
    case None => None
  }

  /**
   * `handleSearch` (CHERCHER or Enter). A blank term leaves everything as it
   * was, including an earlier result; otherwise the result becomes the first
   * matching tool, or None.
   */
  function Search(db: seq<Tool>, st: SearchState): (r: SearchState)
    ensures r.term == st.term
    ensures Text.IsBlank(st.term) ==> r == st
    ensures !Text.IsBlank(st.term) && r.result.Some? ==>
      exists i :: IsFirstMatch(db, st.term, i) && db[i] == r.result.value
    ensures !Text.IsBlank(st.term) ==>
      (r.result.None? <==> forall j :: 0 <= j < |db| ==> !Matches(db[j], st.term))
  {
    if Text.IsBlank(st.term) then st else st.(result := FindByTerm(db, st.term))
  }

  /** The search field's `onChange`; the shown result stays until the next search. */
  function EditTerm(st: SearchState, text: string): (r: SearchState)
    ensures r.term == text && r.result == st.result
  {
    st.(term := text)
  }

  /** The "Aucun outil trouvé" card: a non-empty field (not trimmed) and no result. */
  predicate NotFoundShown(st: SearchState) {
    st.term != "" && st.result.None?
  }

  /** Searching for the same term in another letter case gives the same result. */
  lemma SearchIgnoresCase(db: seq<Tool>, a: SearchState, b: SearchState)
    requires Text.Lower(a.term) == Text.Lower(b.term) && a.result == b.result
    ensures Search(db, a).result == Search(db, b).result
  {
    Text.BlankIgnoresCase(a.term, b.term);
    assert forall t :: Matches(t, a.term) == Matches(t, b.term);
    var ra, rb := FindByTerm(db, a.term), FindByTerm(db, b.term);
    if ra.Some? && rb.Some? {
      var i :| IsFirstMatch(db, a.term, i) && db[i] == ra.value;
      var j :| IsFirstMatch(db, b.term, j) && db[j] == rb.value;
      assert !(i < j) && !(j < i);
    }
  }

  /** After a search on a non-blank term, the not-found card shows exactly when no tool matches. */
  lemma NotFoundAfterSearch(db: seq<Tool>, st: SearchState)
    requires !Text.IsBlank(st.term)
    ensures NotFoundShown(Search(db, st)) <==> forall j :: 0 <= j < |db| ==> !Matches(db[j], st.term)
  {
  }

  /** A whitespace-only term with no earlier result shows the not-found card, although nothing was searched. */
  lemma NotFoundForWhitespaceTerm(db: seq<Tool>, st: SearchState)
    requires st.term != "" && Text.IsBlank(st.term) && st.result.None?
    ensures NotFoundShown(Search(db, st))
  {
  }

  /**
   * Whatever the exit and entry pages identify by its exact MABIC, the search
   * page finds with the same text: some tool, at the same catalogue position
   * or earlier. "Some character is not whitespace" is the non-blank test
   * (see `Text.BlankIffAllWhitespace`).
   */
  lemma LookupHitIsSearchHit(db: seq<Tool>, st: SearchState, i: int)
    requires 0 <= i < |db| && MabicMatches(db[i], st.term)
    requires exists k :: 0 <= k < |st.term| && !Text.IsWhitespace(st.term[k])
    ensures Search(db, st).result.Some?
    ensures exists k :: IsFirstMatch(db, st.term, k) && k <= i
  {
    Text.BlankIffAllWhitespace(st.term);
    Text.ContainsSelf(Text.Lower(st.term));
    assert Matches(db[i], st.term);
    var found := FindByTerm(db, st.term);
    assert found.Some?;
    var k :| IsFirstMatch(db, st.term, k) && db[k] == found.value;
    assert k <= i;
  }
}

/** SiglumAutoCompleteTextField: the suggestions the siglum text field's autocomplete request
  * answers with. */
module SiglumAutoComplete {
  import opened Wrappers
  import opened Text
  import opened SqlLike
  import SiglumDao

  /** `MAXIMUM_RESULTS`. */
  const MaximumResults: nat := 10

  function Min(a: nat, b: nat): nat {
    if a < b then a else b
  }

  /** The names of the first sigla found, at most `MaximumResults` of them, in the DAO's order. */
  function SuggestionNames(found: seq<SiglumDao.SiglumRow>): (r: seq<string>)
    ensures |r| == Min(|found|, MaximumResults)
    ensures forall i :: 0 <= i < |r| ==> r[i] == found[i].data.name
  {
    seq(Min(|found|, MaximumResults), i requires 0 <= i < Min(|found|, MaximumResults) => found[i].data.name)
  }

  /** `SiglumAutoCompleteBehavior.onRequest`: the sigla whose name is LIKE the `term` parameter
    * followed by `%` (a missing parameter reads as `null`), and the names of the first ten of them
    * appended to the JSON array one after the other. */
  method OnRequest(t: SiglumDao.SiglumTable, term: Option<string>) returns (names: seq<string>)
    ensures names == SuggestionNames(SiglumDao.FindAll(t, term))
  {
    var sigla := SiglumDao.FindAll(t, term);
    names := [];
    for i := 0 to Min(|sigla|, MaximumResults)
      invariant |names| == i
      invariant forall j :: 0 <= j < i ==> names[j] == sigla[j].data.name
    {
      names := names + [sigla[i].data.name];
    }
  }

  /** A term without wildcards is completed only to names that start with it, and when fewer than
    * ten sigla match, every one of them is suggested. */
  lemma SuggestionsStartWithTheTerm(t: SiglumDao.SiglumTable, term: string)
    requires NoWildcards(term)
    ensures forall i :: 0 <= i < |SuggestionNames(SiglumDao.FindAll(t, Some(term)))| ==>
              StartsWith(SuggestionNames(SiglumDao.FindAll(t, Some(term)))[i], term)
    ensures |SiglumDao.FindAll(t, Some(term))| <= MaximumResults ==>
              forall i :: 0 <= i < |t.rows| && StartsWith(t.rows[i].data.name, term) ==>
                t.rows[i].data.name in SuggestionNames(SiglumDao.FindAll(t, Some(term)))
  {
    var found := SiglumDao.FindAll(t, Some(term));
    var names := SuggestionNames(found);
    SiglumDao.FindAllIsPrefixSearch(t, term);
    forall i | 0 <= i < |t.rows| && StartsWith(t.rows[i].data.name, term) && |found| <= MaximumResults
      ensures t.rows[i].data.name in names
    {
      var k :| 0 <= k < |found| && found[k] == t.rows[i];
      assert names[k] == t.rows[i].data.name;
    }
  }
}

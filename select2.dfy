/** The custom matcher the select2 widgets use to filter their options by the typed term. */
module Select2 {
  import opened Wrappers
  import Text

  /** One option: its `id` and `text` properties, either of which may be undefined. */
  datatype OptionData = OptionData(id: Option<string>, text: Option<string>)

  /**
   * `select2__match_custom`: a blank term (undefined counts as blank) keeps
   * every option; an option without text is hidden; otherwise the option
   * is kept when the untrimmed term occurs in its text or, failing that, in
   * its id. Reading the id of an option without one is a TypeError.
   */
  function MatchCustom(term: Option<string>, data: OptionData): (r: Result<Option<OptionData>>)
    ensures term.None? || Text.JsTrim(term.value) == [] ==> r == Ok(Some(data))
    ensures r.Ok? && r.value.Some? ==> r.value.value == data
    ensures term.Some? && Text.JsTrim(term.value) != [] ==>
              (data.text.None? ==> r == Ok(None))
              && (data.text.Some? && Text.IsSubstring(term.value, data.text.value) ==> r == Ok(Some(data)))
              && (data.text.Some? && !Text.IsSubstring(term.value, data.text.value) ==>
                    (data.id.None? ==> r.Err? && r.error.TypeError?)
                    && (data.id.Some? ==> (r == Ok(Some(data)) <==> Text.IsSubstring(term.value, data.id.value)))
                    && (data.id.Some? ==> r.Ok?))
  {
    var t := if term.Some? then term.value else "";
    if Text.JsTrim(t) == [] then Ok(Some(data))
    else if data.text.None? then Ok(None)
    else if Text.IsSubstring(t, data.text.value) then Ok(Some(data))
    else if data.id.None? then Err(TypeError("Cannot read properties of undefined (reading 'indexOf')"))
    else if Text.IsSubstring(t, data.id.value) then Ok(Some(data))
    else Ok(None)
  }

  /** A term occurring in the option's text always shows it, whatever its id. */
  lemma TextMatchShows(term: string, text: string, id: Option<string>)
    requires Text.IsSubstring(term, text)
    ensures MatchCustom(Some(term), OptionData(id, Some(text))) == Ok(Some(OptionData(id, Some(text))))
  {
  }

  /** Matching is case-sensitive: an upper-case term does not find its lower-case spelling. */
  lemma CaseSensitive()
    ensures MatchCustom(Some("A"), OptionData(Some("b"), Some("a"))) == Ok(None)
  {
    assert !Text.IsSubstring("A", "a") by {
      assert "a"[..1][0] != "A"[0];
      assert !Text.IsSubstring("A", "");
    }
    assert !Text.IsSubstring("A", "b") by {
      assert "b"[..1][0] != "A"[0];
      assert !Text.IsSubstring("A", "");
    }
  }

  /** Every option the matcher keeps contains the term in its text or its id. */
  lemma KeptOptionsContainTerm(term: string, data: OptionData)
    requires Text.JsTrim(term) != []
    requires MatchCustom(Some(term), data) == Ok(Some(data))
    ensures (data.text.Some? && Text.IsSubstring(term, data.text.value)) || (data.id.Some? && Text.IsSubstring(term, data.id.value))
  {
  }
}

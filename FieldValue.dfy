/** The defaulting rule of `get_field_value` (scraping.py:19-35). The XPath
    query itself (the first `<strong>` sibling after a `<label>` whose
    normalized text is the label) is a browser call; its outcome arrives
    here as `found`: the element's raw text, or `None` when the query found
    nothing or raised. */
module FieldValue {
  import opened Wrappers
  import opened Text

  /** The sentinel of a field that could not be extracted. */
  const NotAvailable: string := "N/A"

  /** The stripped text that was found, or `defaultValue` when nothing was
      found or the text is empty or whitespace only. Total: it never fails. */
  function GetFieldValue(found: Option<string>, defaultValue: string := NotAvailable): (r: string)
    ensures found.None? ==> r == defaultValue
    ensures found.Some? && AllWhitespace(found.value) ==> r == defaultValue
    ensures found.Some? && !AllWhitespace(found.value) ==>
      r == Strip(found.value) && r != [] && IsTrimmed(r)
  {
    match found
    case None => defaultValue
    case Some(raw) =>
      var text := Strip(raw);
      if text != [] then text else defaultValue
  }

  /** A value found with whitespace around it comes back as its core, exactly. */
  lemma GetFieldValuePadded(lead: string, core: string, trail: string, defaultValue: string)
    requires AllWhitespace(lead) && AllWhitespace(trail)
    requires core != [] && IsTrimmed(core)
    ensures GetFieldValue(Some(lead + core + trail), defaultValue) == core
  {
    StripPadded(lead, core, trail);
  }

  /** With a trimmed default, such as "N/A", the result never has whitespace
      at either end, and asking again about it changes nothing. */
  lemma GetFieldValueTrimmed(found: Option<string>, defaultValue: string)
    requires IsTrimmed(defaultValue) && defaultValue != []
    ensures IsTrimmed(GetFieldValue(found, defaultValue))
    ensures GetFieldValue(Some(GetFieldValue(found, defaultValue)), defaultValue) == GetFieldValue(found, defaultValue)
  {
    StripTrimmed(GetFieldValue(found, defaultValue));
  }
}

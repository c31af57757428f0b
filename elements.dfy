// An XML element of the ElementTree API as the Rekordbox and Traktor readers
// and writers see it: the map of its attributes, read with element.get.

module Elements {
  import opened Wrappers

  /** The attributes of an XML element, by name. */
  type Attrs = map<string, string>

  /** element.get(k). */
  function Attr(el: Attrs, k: string): (r: Option<string>)
    ensures r.Some? <==> k in el
    ensures r.Some? ==> r.value == el[k]
  {
    if k in el then Some(el[k]) else None
  }
}

/** The parts of a DOM tree the recommendation parser reads. */
module Xml {
  import opened Wrappers
  import opened Text

  /** An element, as seen by `getElementsByTagName`: its descendant elements
      in document order, each with its tag name and its text content. */
  datatype Element = Element(descendants: seq<(string, string)>)

  /** A response body: Java's `null`, or text with what the DOM parser makes
      of it: the document's `item` elements in document order, or nothing
      when parsing throws. */
  datatype Body = NullBody | Text(text: string, items: Option<seq<Element>>)

  /** The text of the first descendant named `tag`, if there is one. */
  function FirstText(e: seq<(string, string)>, tag: string): (r: Option<string>)
    ensures r.None? <==> forall i :: 0 <= i < |e| ==> e[i].0 != tag
    ensures forall i :: 0 <= i < |e| && e[i].0 == tag && (forall j :: 0 <= j < i ==> e[j].0 != tag)
                        ==> r == Some(e[i].1)
  {
    if e == [] then None
    else if e[0].0 == tag then Some(e[0].1)
    else FirstText(e[1..], tag)
  }
}

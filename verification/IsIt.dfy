/**
 * `IsIt::is_it`: a value cell is recognised by its label, the element
 * just before it.
 */
module IsItTrait {
  import opened Base
  import opened Strings
  import opened Dom
  import opened Leaves

  /**
   * The value of `leaf` under the label `field`, read with `textGetter`:
   * present when the element before it is a `th` whose lower-cased text is
   * exactly `field` and the leaf itself is a `td` or an `a`.
   */
  function IsIt(field: string, leaf: Leaf, textGetter: Node -> string): (r: Option<string>)
    ensures r.Some? <==>
      leaf.prev.Some? && leaf.prev.value.Element? && leaf.prev.value.tag == "th"
      && ToLower(JoinedText(leaf.prev.value)) == field
      && leaf.node.Element? && (leaf.node.tag == "td" || leaf.node.tag == "a")
    ensures r.Some? ==> r.value == textGetter(leaf.node)
  {
    match leaf.prev
    case None => None
    case Some(prev) =>
      var prevText := ToLower(JoinedText(prev));
      var prevName := if prev.Element? then prev.tag else "";
      var curName := if leaf.node.Element? then leaf.node.tag else "";
      if prevText == field && prevName == "th" && (curName == "td" || curName == "a") then
        Some(textGetter(leaf.node))
      else
        None
  }

  /** A label with an upper-case letter never matches: labels are compared after lower-casing. */
  lemma UpperCaseLabelNeverMatches(field: string, leaf: Leaf, textGetter: Node -> string)
    requires exists i :: 0 <= i < |field| && IsUpper(field[i])
    ensures IsIt(field, leaf, textGetter).None?
  {
  }

  /** An empty value is still a match: `Some("")`, not `None`. */
  lemma EmptyValueStillMatches(field: string, leaf: Leaf, textGetter: Node -> string)
    requires IsIt(field, leaf, textGetter).Some? && textGetter(leaf.node) == ""
    ensures IsIt(field, leaf, textGetter) == Some("")
  {
  }
}

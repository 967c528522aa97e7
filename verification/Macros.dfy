/**
 * The two macros of the builders.
 *
 * `match_and_set!` is written once per label inside a builder's loop: when
 * the label matches the leaf, it stores a value (in a field, in a local,
 * or by running a closure) and `continue`s, so later labels are not tried.
 * A run of such invocations is a first-match dispatch over a label table,
 * `FirstMatch`; each builder turns the match into its own assignment.
 *
 * `selector!` is an Option-chaining helper for CSS queries.
 */
module Macros {
  import opened Base
  import opened Dom
  import opened Leaves
  import opened IsItTrait

  /** One `match_and_set!` invocation: the label and what it sets. */
  datatype Entry<F> = Entry(labelText: string, field: F)

  /** The invocation that fired: its position in the table, what it sets, and the text `is_it` returned. */
  datatype Match<F> = Match(index: nat, field: F, text: string)

  /** The invocations of `table` run in order on `leaf`: the first label that matches wins. */
  function FirstMatch<F>(table: seq<Entry<F>>, leaf: Leaf, textGetter: Node -> string): (r: Option<Match<F>>)
    ensures r.Some? ==> r.value.index < |table| && r.value.field == table[r.value.index].field
    ensures r.Some? ==> IsIt(table[r.value.index].labelText, leaf, textGetter) == Some(r.value.text)
    ensures r.Some? ==> forall j :: 0 <= j < r.value.index ==> IsIt(table[j].labelText, leaf, textGetter).None?
    ensures r.None? <==> forall j :: 0 <= j < |table| ==> IsIt(table[j].labelText, leaf, textGetter).None?
  {
    FirstMatchFrom(table, leaf, textGetter, 0)
  }

  function FirstMatchFrom<F>(table: seq<Entry<F>>, leaf: Leaf, textGetter: Node -> string, k: nat): (r: Option<Match<F>>)
    requires k <= |table|
    ensures r.Some? ==> k <= r.value.index < |table| && r.value.field == table[r.value.index].field
    ensures r.Some? ==> IsIt(table[r.value.index].labelText, leaf, textGetter) == Some(r.value.text)
    ensures r.Some? ==> forall j :: k <= j < r.value.index ==> IsIt(table[j].labelText, leaf, textGetter).None?
    ensures r.None? <==> forall j :: k <= j < |table| ==> IsIt(table[j].labelText, leaf, textGetter).None?
    decreases |table| - k
  {
    if k == |table| then None
    else match IsIt(table[k].labelText, leaf, textGetter)
      case Some(text) => Some(Match(k, table[k].field, text))
      case None => FirstMatchFrom(table, leaf, textGetter, k + 1)
  }

  predicate DistinctLabels<F>(table: seq<Entry<F>>)
  {
    forall i, j :: 0 <= i < j < |table| ==> table[i].labelText != table[j].labelText
  }

  /**
   * With distinct labels a leaf answers to one label at most, so the
   * table order never decides between two: the entry whose label matches
   * is the one that fires.
   */
  lemma MatchingLabelFires<F>(table: seq<Entry<F>>, leaf: Leaf, textGetter: Node -> string, j: nat)
    requires DistinctLabels(table) && j < |table| && IsIt(table[j].labelText, leaf, textGetter).Some?
    ensures FirstMatch(table, leaf, textGetter) == Some(Match(j, table[j].field, IsIt(table[j].labelText, leaf, textGetter).value))
  {
  }

  /** An entry fires when its label matches and no earlier entry carries the same label. */
  lemma FirstLabelFires<F>(table: seq<Entry<F>>, leaf: Leaf, textGetter: Node -> string, j: nat)
    requires j < |table| && IsIt(table[j].labelText, leaf, textGetter).Some?
    requires forall i :: 0 <= i < j ==> table[i].labelText != table[j].labelText
    ensures FirstMatch(table, leaf, textGetter) == Some(Match(j, table[j].field, IsIt(table[j].labelText, leaf, textGetter).value))
  {
  }

  /** The texts (read with the builders' text getter) of the leaves that `table` sends to `field`, in document order. */
  function LabelledTexts<F(==)>(leaves: seq<Leaf>, table: seq<Entry<F>>, field: F): (r: seq<string>)
    ensures |r| <= |leaves|
    decreases |leaves|
  {
    if leaves == [] then []
    else
      var init := LabelledTexts(leaves[..|leaves| - 1], table, field);
      match FirstMatch(table, leaves[|leaves| - 1], JoinedText)
      case Some(m) => if m.field == field then init + [m.text] else init
      case None => init
  }

  /** The last leaf adds its text when the table sends it to `field`. */
  lemma LabelledStep<F>(leaves: seq<Leaf>, table: seq<Entry<F>>, field: F)
    requires leaves != []
    ensures var m := FirstMatch(table, leaves[|leaves| - 1], JoinedText);
      LabelledTexts(leaves, table, field)
      == LabelledTexts(leaves[..|leaves| - 1], table, field) + (if m.Some? && m.value.field == field then [m.value.text] else [])
  {
  }

  /** The last text sent to `field`, if any. */
  function LastText<F(==)>(leaves: seq<Leaf>, table: seq<Entry<F>>, field: F): (r: Option<string>)
    ensures r.None? <==> LabelledTexts(leaves, table, field) == []
  {
    var texts := LabelledTexts(leaves, table, field);
    if texts == [] then None else Some(texts[|texts| - 1])
  }

  /** The last text sent to `field` over one more leaf: the leaf's own, when it goes to `field`. */
  lemma LastTextStep<F>(leaves: seq<Leaf>, table: seq<Entry<F>>, field: F)
    requires leaves != []
    ensures var m := FirstMatch(table, leaves[|leaves| - 1], JoinedText);
      LastText(leaves, table, field)
      == if m.Some? && m.value.field == field then Some(m.value.text) else LastText(leaves[..|leaves| - 1], table, field)
  {
    LabelledStep(leaves, table, field);
  }

  /** A CSS query: the elements under `scope` that `selector` selects, or None when `selector` does not parse. */
  type Select = (string, Node) -> Option<seq<Node>>

  /** The iterator method a `get_and_text`/`get_as` arm picks its element with. */
  datatype Which = Next | Last

  function Pick(ns: seq<Node>, which: Which): (r: Option<Node>)
    ensures r.Some? <==> ns != []
    ensures r.Some? ==> r.value == (if which == Next then ns[0] else ns[|ns| - 1])
  {
    if ns == [] then None else if which == Next then Some(ns[0]) else Some(ns[|ns| - 1])
  }

  /** `selector!(select ...)`: the body runs on the selection, unless the selector does not parse. */
  function SelectArm<T>(select: Select, selector: string, scope: Node, body: seq<Node> -> Option<T>): (r: Option<T>)
    ensures select(selector, scope).None? ==> r.None?
    ensures select(selector, scope).Some? ==> r == body(select(selector, scope).value)
  {
    match select(selector, scope)
    case None => None
    case Some(elements) => body(elements)
  }

  /** The element a `get_and_text`/`get_as` arm works on. */
  function Picked(select: Select, selector: string, which: Which, scope: Node): (r: Option<Node>)
    ensures r.Some? <==> select(selector, scope).Some? && select(selector, scope).value != []
  {
    match select(selector, scope)
    case None => None
    case Some(elements) => Pick(elements, which)
  }

  /** `selector!(get_and_text ...)`: the body runs on the picked element's text, if there is one. */
  function GetAndText<T>(select: Select, selector: string, which: Which, scope: Node,
                         innerText: Node -> Option<string>, body: string -> Option<T>): (r: Option<T>)
    ensures Picked(select, selector, which, scope).None? ==> r.None?
    ensures Picked(select, selector, which, scope).Some? && innerText(Picked(select, selector, which, scope).value).None? ==> r.None?
    ensures Picked(select, selector, which, scope).Some? && innerText(Picked(select, selector, which, scope).value).Some? ==>
      r == body(innerText(Picked(select, selector, which, scope).value).value)
  {
    match Picked(select, selector, which, scope)
    case None => None
    case Some(element) =>
      match innerText(element)
      case None => None
      case Some(text) => body(text)
  }

  /**
   * `selector!(get_as ...)`: present exactly when an element is picked and
   * has text, whatever `func` makes of it; a failed parse inside `func`
   * is still a present value.
   */
  function GetAs<U>(select: Select, selector: string, which: Which, scope: Node,
                    innerText: Node -> Option<string>, func: string -> U): (r: Option<U>)
    ensures r.Some? <==> Picked(select, selector, which, scope).Some? && innerText(Picked(select, selector, which, scope).value).Some?
    ensures r.Some? ==> r.value == func(innerText(Picked(select, selector, which, scope).value).value)
  {
    match Picked(select, selector, which, scope)
    case None => None
    case Some(element) =>
      match innerText(element)
      case None => None
      case Some(text) => Some(func(text))
  }
}

/** Filtering the option list by typed text, and the visibility test built on it. */
module Filtering {
  import opened Seqs
  import opened Text
  import opened Options

  /** An option matches a normalised query when its normalised full label contains it (`indexOf != -1`). */
  function LabelMatches(o: Option, query: string): (r: bool)
    ensures r <==> IsSubstring(query, Normalize(o.fullLabel))
  {
    SubstringIndex(Normalize(o.fullLabel), query) != -1
  }

  /** The filter callback `onFilter` passes to `filter`. */
  function MatchesQuery(query: string): Option -> bool
  {
    (o: Option) => LabelMatches(o, query)
  }

  /**
   * The options `onFilter` leaves visible: those whose normalised label contains
   * the normalised query, in list order.
   */
  function VisibleOptions(options: seq<Option>, query: string): (r: seq<Option>)
    ensures forall i :: 0 <= i < |r| ==> r[i] in options && IsSubstring(query, Normalize(r[i].fullLabel))
    ensures forall i :: 0 <= i < |options| && IsSubstring(query, Normalize(options[i].fullLabel)) ==>
              options[i] in r
  {
    Filter(options, MatchesQuery(query))
  }

  /** The empty query hides nothing. */
  lemma VisibleOptionsEmptyQuery(options: seq<Option>)
    ensures VisibleOptions(options, "") == options
  {
    forall o | o in options ensures MatchesQuery("")(o) {
      EmptyOccursFirst(Normalize(o.fullLabel));
    }
    FilterAll(options, MatchesQuery(""));
  }

  /** Filtering keeps list order: the visible part of a concatenation is the concatenation of the visible parts. */
  lemma VisibleOptionsAppend(a: seq<Option>, b: seq<Option>, query: string)
    ensures VisibleOptions(a + b, query) == VisibleOptions(a, query) + VisibleOptions(b, query)
  {
    FilterAppend(a, b, MatchesQuery(query));
  }

  /**
   * `isOptionVisible`: every option while no filter is set, otherwise whether
   * some visible option has the same value.
   */
  function IsVisible(filterValue: string, visible: seq<Option>, option: Option): (r: bool)
    ensures filterValue == "" ==> r
    ensures filterValue != "" ==> (r <==> exists i :: 0 <= i < |visible| && visible[i].value == option.value)
  {
    if filterValue != "" then FindOptionByValue(visible, option.value) != null else true
  }

  /**
   * After filtering `options` by `text`, an option is visible exactly when the
   * normalised text is empty or some option with its value has a matching label.
   */
  lemma VisibleAfterFilter(options: seq<Option>, text: string, option: Option)
    ensures IsVisible(Normalize(text), VisibleOptions(options, Normalize(text)), option)
            <==> Normalize(text) == "" ||
                 exists i :: 0 <= i < |options| && options[i].value == option.value &&
                             IsSubstring(Normalize(text), Normalize(options[i].fullLabel))
  {
  }
}

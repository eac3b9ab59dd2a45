/** The selection: an ordered list of option values, toggled one value at a time. */
module Selection {
  import opened Nullables
  import opened Seqs
  import opened Options

  /**
   * `getSelectedOptionIndex`: -1 while the selection is null or empty,
   * otherwise the position of the first occurrence of `v`, or -1.
   */
  function SelectedIndex(selection: Nullable<seq<string>>, v: string): (r: int)
    ensures r == -1 <==> !(selection.NonNull? && v in selection.value)
    ensures r != -1 ==> selection.NonNull? && 0 <= r < |selection.value| &&
                        selection.value[r] == v && v !in selection.value[..r]
  {
    if HasItems(selection) then IndexOf(selection.value, v) else -1
  }

  /** `isOptionSelected`: false for a null or empty selection, else membership of the option's value. */
  function IsSelected(selection: Nullable<seq<string>>, o: Option): (r: bool)
    ensures r <==> selection.NonNull? && o.value in selection.value
    ensures !HasItems(selection) ==> !r
  {
    SelectedIndex(selection, o.value) != -1
  }

  /**
   * The edit `onOptionClick` makes: push `v` when absent, otherwise splice out
   * its first occurrence.
   */
  function Toggle(selection: seq<string>, v: string): (r: seq<string>)
    ensures v !in selection ==> r == selection + [v]
    ensures v in selection ==>
      |r| == |selection| - 1 &&
      (exists i :: 0 <= i < |selection| && selection[i] == v && v !in selection[..i] &&
                   r == selection[..i] + selection[i + 1..])
  {
    var i := IndexOf(selection, v);
    if i == -1 then selection + [v] else selection[..i] + selection[i + 1..]
  }

  /** Removing one occurrence: the multiset of values loses exactly one `v`. */
  lemma ToggleRemovesOne(selection: seq<string>, v: string)
    requires v in selection
    ensures multiset(Toggle(selection, v)) == multiset(selection) - multiset{v}
  {
    var i := IndexOf(selection, v);
    assert selection == selection[..i] + [v] + selection[i + 1..];
  }

  /** Toggling keeps a duplicate-free selection duplicate-free. */
  lemma ToggleKeepsDistinct(selection: seq<string>, v: string)
    requires Distinct(selection)
    ensures Distinct(Toggle(selection, v))
  {
  }

  /** Toggling a value that is not selected, twice, restores the selection exactly. */
  lemma ToggleTwice(selection: seq<string>, v: string)
    requires v !in selection
    ensures Toggle(Toggle(selection, v), v) == selection
  {
  }

  /**
   * On a duplicate-free selection a toggle flips whether `v` is selected and
   * leaves every other value's membership as it was.
   */
  lemma ToggleMembership(selection: seq<string>, v: string, w: string)
    requires Distinct(selection)
    ensures w in Toggle(selection, v) <==> if w == v then v !in selection else w in selection
  {
  }
}

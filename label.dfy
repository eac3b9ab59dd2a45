/** The summary label: the selected options' labels joined with ", ". */
module Labels {
  import opened Nullables
  import opened Text
  import opened Options

  /** The separator `updateLabel` joins with. */
  const Separator: string := ", "

  /**
   * One entry of the label: the label of the first option with value `v`,
   * read under the short-label key when it is set and under the label key
   * otherwise. A stale value maps to `undefined`, which `join` prints as the
   * empty string.
   */
  function Entry(options: seq<Option>, v: string, useShortLabel: bool): (r: string)
    ensures (forall i :: 0 <= i < |options| ==> options[i].value != v) ==> r == ""
    ensures forall i :: FirstWithValue(options, v, i) ==>
              r == if useShortLabel then options[i].shortLabel else options[i].fullLabel
  {
    var o := FindOptionByValue(options, v);
    if o == null then "" else if useShortLabel then o.shortLabel else o.fullLabel
  }

  /** The `map` over the selection: one entry per selected value, in selection order. */
  function Entries(options: seq<Option>, selection: seq<string>, useShortLabel: bool): (r: seq<string>)
    ensures |r| == |selection|
    ensures forall k :: 0 <= k < |selection| ==> r[k] == Entry(options, selection[k], useShortLabel)
  {
    if selection == [] then []
    else [Entry(options, selection[0], useShortLabel)] + Entries(options, selection[1..], useShortLabel)
  }

  /**
   * `updateLabel`'s string: the default label unless both the options and the
   * selection are present and non-empty; a single selected value is labelled
   * by its entry alone (`LabelAppend` gives the rest).
   */
  function Label(options: Nullable<seq<Option>>, selection: Nullable<seq<string>>,
                 defaultLabel: string, useShortLabel: bool): (r: string)
    ensures !HasItems(options) || !HasItems(selection) ==> r == defaultLabel
    ensures HasItems(options) && selection.NonNull? && |selection.value| == 1 ==>
              r == Entry(options.value, selection.value[0], useShortLabel)
  {
    if HasItems(options) && HasItems(selection)
    then Join(Entries(options.value, selection.value, useShortLabel), Separator)
    else defaultLabel
  }

  /** Selecting one more value appends the separator and that value's entry to the label. */
  lemma LabelAppend(options: seq<Option>, selection: seq<string>, v: string,
                    defaultLabel: string, useShortLabel: bool)
    requires options != [] && selection != []
    ensures Label(NonNull(options), NonNull(selection + [v]), defaultLabel, useShortLabel)
            == Label(NonNull(options), NonNull(selection), defaultLabel, useShortLabel)
               + Separator + Entry(options, v, useShortLabel)
  {
    var before := Entries(options, selection, useShortLabel);
    var entry := Entry(options, v, useShortLabel);
    var after := Entries(options, selection + [v], useShortLabel);
    assert after == before + [entry] by {
      forall k | 0 <= k < |after| ensures after[k] == (before + [entry])[k] {
        if k < |selection| {
          assert (selection + [v])[k] == selection[k];
        }
      }
    }
    JoinAppend(before, Separator, entry);
  }

  /**
   * The worked examples: with Apple ("a") and Banana ("b") the label is the
   * default for no selection, "Apple" for ["a"] and "Apple, Banana" for ["a", "b"].
   */
  lemma LabelExamples(apple: Option, banana: Option, useShortLabel: bool)
    requires apple.value == "a" && apple.fullLabel == "Apple" && apple.shortLabel == "Apple"
    requires banana.value == "b" && banana.fullLabel == "Banana" && banana.shortLabel == "Banana"
    ensures Label(NonNull([apple, banana]), NonNull([]), "None", useShortLabel) == "None"
    ensures Label(NonNull([apple, banana]), NonNull(["a"]), "None", useShortLabel) == "Apple"
    ensures Label(NonNull([apple, banana]), NonNull(["a", "b"]), "None", useShortLabel) == "Apple, Banana"
  {
    var options := [apple, banana];
    assert FirstWithValue(options, "a", 0);
    assert FirstWithValue(options, "b", 1);
    assert Entry(options, "a", useShortLabel) == "Apple";
    assert Entry(options, "b", useShortLabel) == "Banana";
    assert ["a"] + ["b"] == ["a", "b"];
    LabelAppend(options, ["a"], "b", "None", useShortLabel);
    assert "Apple" + Separator + "Banana" == "Apple, Banana";
  }

  /**
   * A stale value contributes an empty entry: with the same options the
   * label is "" for ["z"] and "Apple, " for ["a", "z"].
   */
  lemma StaleLabelExamples(apple: Option, banana: Option, useShortLabel: bool)
    requires apple.value == "a" && apple.fullLabel == "Apple" && apple.shortLabel == "Apple"
    requires banana.value == "b" && banana.fullLabel == "Banana" && banana.shortLabel == "Banana"
    ensures Label(NonNull([apple, banana]), NonNull(["z"]), "None", useShortLabel) == ""
    ensures Label(NonNull([apple, banana]), NonNull(["a", "z"]), "None", useShortLabel) == "Apple, "
  {
    var options := [apple, banana];
    assert FirstWithValue(options, "a", 0);
    assert Entry(options, "a", useShortLabel) == "Apple";
    assert Entry(options, "z", useShortLabel) == "";
    assert ["a"] + ["z"] == ["a", "z"];
    LabelAppend(options, ["a"], "z", "None", useShortLabel);
    assert "Apple" + Separator + "" == "Apple, ";
  }
}

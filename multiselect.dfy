/**
 * The current component: it filters, labels and reorders a working copy of
 * the host's options and keeps a "no value selected" flag.
 */
module MultiSelectComponent {
  import opened Nullables
  import opened Text
  import opened Options
  import opened Selection
  import opened Labels
  import opened Filtering
  import opened Reorder

  class MultiSelect {
    /** The host's option list (input). */
    var options: seq<Option>
    /** Whether the short-label key is set; when it is not, labels use the full label. */
    const useShortLabel: bool
    /** The label shown when nothing is selected (input). */
    const defaultLabel: string
    /** Whether opening the panel moves the selected options to the top (input). */
    const selectedOptionsFirst: bool

    /** The working copy of `options`; null until the host first supplies a non-empty list. */
    var innerOptions: Nullable<seq<Option>>
    /** The selected values, in the order they were selected; null until the form writes a value. */
    var innerValue: Nullable<seq<string>>
    var valuesAsString: string
    /** The normalised filter text; empty means no filter. */
    var filterValue: string
    var visibleOptions: seq<Option>
    var panelVisible: bool
    var noValueSelected: bool

    /** The summary label and the flag agree with the working copy and the selection. */
    ghost predicate LabelInSync()
      reads this
    {
      valuesAsString == Label(innerOptions, innerValue, defaultLabel, useShortLabel) &&
      noValueSelected == !(HasItems(innerOptions) && HasItems(innerValue))
    }

    /** The working copy holds exactly the host's options, in some order. */
    ghost predicate CopyIsPermutation()
      reads this
    {
      innerOptions.NonNull? && multiset(innerOptions.value) == multiset(options)
    }

    constructor (defaultLabel: string, useShortLabel: bool, selectedOptionsFirst: bool)
      ensures this.defaultLabel == defaultLabel && this.useShortLabel == useShortLabel
      ensures this.selectedOptionsFirst == selectedOptionsFirst
      ensures options == [] && innerOptions == Null && innerValue == Null
      ensures valuesAsString == "" && filterValue == "" && visibleOptions == []
      ensures !panelVisible && noValueSelected
    {
      this.defaultLabel := defaultLabel;
      this.useShortLabel := useShortLabel;
      this.selectedOptionsFirst := selectedOptionsFirst;
      options := [];
      innerOptions := Null;
      innerValue := Null;
      valuesAsString := "";
      filterValue := "";
      visibleOptions := [];
      panelVisible := false;
      noValueSelected := true;
    }

    /**
     * The host binds a new options list and `ngOnChanges` runs: a non-empty
     * list is copied into the working copy and the label recomputed; an empty
     * one leaves both as they were.
     */
    method OnOptionsChange(newOptions: seq<Option>)
      modifies this`options, this`innerOptions, this`valuesAsString, this`noValueSelected
      ensures options == newOptions
      ensures |newOptions| > 0 ==> innerOptions == NonNull(newOptions) && LabelInSync() && CopyIsPermutation()
      ensures |newOptions| == 0 ==>
        innerOptions == old(innerOptions) && valuesAsString == old(valuesAsString) &&
        noValueSelected == old(noValueSelected)
    {
      options := newOptions;
      if |newOptions| > 0 {
        innerOptions := NonNull(newOptions);
        UpdateLabel();
      }
    }

    /** `writeValue`: the form replaces the selection wholesale; the label follows. */
    method WriteValue(value: Nullable<seq<string>>)
      modifies this`innerValue, this`valuesAsString, this`noValueSelected
      ensures innerValue == value && LabelInSync()
    {
      innerValue := value;
      UpdateLabel();
    }

    /** `onCloseClick`: the close control closes the panel. */
    method OnCloseClick()
      modifies this`panelVisible
      ensures !panelVisible
    {
      Hide();
    }

    /** `onFilter`: stores the normalised text and keeps the working-copy options whose label contains it. */
    method OnFilter(text: string)
      requires innerOptions.NonNull?
      modifies this`filterValue, this`visibleOptions
      ensures filterValue == Normalize(text)
      ensures visibleOptions == VisibleOptions(innerOptions.value, filterValue)
    {
      filterValue := Normalize(text);
      visibleOptions := VisibleOptions(innerOptions.value, filterValue);
    }

    /** `isOptionVisible`: true while no filter is set, else whether a visible option has the same value. */
    function IsOptionVisible(option: Option): (r: bool)
      reads this
      ensures filterValue == "" ==> r
      ensures filterValue != "" ==> (r <==> exists i :: 0 <= i < |visibleOptions| && visibleOptions[i].value == option.value)
    {
      IsVisible(filterValue, visibleOptions, option)
    }

    /**
     * `onOptionClick`: appends the option's value when it is not selected,
     * otherwise removes its first occurrence; then recomputes the label.
     * No change listener is called.
     */
    method OnOptionClick(option: Option)
      requires innerValue.NonNull?
      modifies this`innerValue, this`valuesAsString, this`noValueSelected
      ensures innerValue == NonNull(Toggle(old(innerValue.value), option.value))
      ensures LabelInSync()
    {
      var index := GetSelectedOptionIndex(option);
      if index == -1 {
        innerValue := NonNull(innerValue.value + [option.value]);
      } else {
        innerValue := NonNull(innerValue.value[..index] + innerValue.value[index + 1..]);
      }
      UpdateLabel();
    }

    /** `isOptionSelected`: false for a null or empty selection, else membership of the option's value. */
    function IsOptionSelected(option: Option): (r: bool)
      reads this
      ensures r <==> innerValue.NonNull? && option.value in innerValue.value
      ensures !HasItems(innerValue) ==> !r
    {
      GetSelectedOptionIndex(option) != -1
    }

    /**
     * `getSelectedOptionIndex`: -1 while the selection is null or empty or
     * lacks the option's value, otherwise the first position of that value.
     */
    function GetSelectedOptionIndex(option: Option): (r: int)
      reads this
      ensures r == -1 <==> !(innerValue.NonNull? && option.value in innerValue.value)
      ensures r != -1 ==> innerValue.NonNull? && 0 <= r < |innerValue.value| &&
                          innerValue.value[r] == option.value && option.value !in innerValue.value[..r]
    {
      SelectedIndex(innerValue, option.value)
    }

    /** `updateLabel`: recomputes the summary label and the "no value selected" flag; a second call changes nothing. */
    method UpdateLabel()
      modifies this`valuesAsString, this`noValueSelected
      ensures LabelInSync()
      ensures old(LabelInSync()) ==> valuesAsString == old(valuesAsString) && noValueSelected == old(noValueSelected)
    {
      if HasItems(innerOptions) && HasItems(innerValue) {
        valuesAsString := Join(Entries(innerOptions.value, innerValue.value, useShortLabel), Separator);
        noValueSelected := false;
      } else {
        valuesAsString := defaultLabel;
        noValueSelected := true;
      }
    }

    /**
     * `sortSelectedOptionsFirst`: when enabled, the working copy becomes its
     * selected options followed by the host's options not among them; a
     * permutation of the host's options stays one.
     */
    method SortSelectedOptionsFirst()
      requires selectedOptionsFirst ==> innerOptions.NonNull?
      modifies this`innerOptions
      ensures selectedOptionsFirst ==>
        innerOptions == NonNull(SelectedFirst(old(innerOptions.value), options, innerValue))
      ensures !selectedOptionsFirst ==> innerOptions == old(innerOptions)
      ensures old(CopyIsPermutation()) ==> CopyIsPermutation()
    {
      if selectedOptionsFirst {
        ghost var before := innerOptions;
        innerOptions := NonNull(SelectedFirst(innerOptions.value, options, innerValue));
        if before.NonNull? && multiset(before.value) == multiset(options) {
          SelectedFirstIsPermutation(before.value, options, innerValue);
        }
      }
    }

    method Hide()
      modifies this`panelVisible
      ensures !panelVisible
    {
      panelVisible := false;
    }

    /** `show`: reorders the working copy (when enabled) and opens the panel; the label is not recomputed. */
    method Show()
      requires selectedOptionsFirst ==> innerOptions.NonNull?
      modifies this`innerOptions, this`panelVisible
      ensures panelVisible
      ensures selectedOptionsFirst ==>
        innerOptions == NonNull(SelectedFirst(old(innerOptions.value), options, innerValue))
      ensures !selectedOptionsFirst ==> innerOptions == old(innerOptions)
      ensures old(CopyIsPermutation()) ==> CopyIsPermutation()
    {
      SortSelectedOptionsFirst();
      panelVisible := true;
    }

    /**
     * The document-wide click handler, with `inside` standing for "the target
     * lies within the component": an inside click opens a closed panel (and
     * reorders), an inside click on an open panel changes nothing, and an
     * outside click closes it. The selection is never touched.
     */
    method OnDocumentClick(inside: bool)
      requires inside && !panelVisible && selectedOptionsFirst ==> innerOptions.NonNull?
      modifies this`innerOptions, this`panelVisible
      ensures panelVisible == inside
      ensures inside && !old(panelVisible) && selectedOptionsFirst ==>
        innerOptions == NonNull(SelectedFirst(old(innerOptions.value), options, innerValue))
      ensures !(inside && !old(panelVisible) && selectedOptionsFirst) ==> innerOptions == old(innerOptions)
      ensures old(CopyIsPermutation()) ==> CopyIsPermutation()
    {
      if inside {
        if !panelVisible {
          Show();
        }
      } else {
        Hide();
      }
    }
  }
}

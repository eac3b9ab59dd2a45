/**
 * The older component: it filters and labels the host's option list directly,
 * with no working copy, no reorder and no "no value selected" flag.
 */
module LegacyMultiSelect {
  import opened Nullables
  import opened Text
  import opened Options
  import opened Selection
  import opened Labels
  import opened Filtering

  class MultiSelect {
    /** The host's option list (input); null until the host binds one. */
    var options: Nullable<seq<Option>>
    /** Whether the short-label key is set; when it is not, labels use the full label. */
    const useShortLabel: bool
    /** The label shown when nothing is selected (input). */
    const defaultLabel: string

    /** The selected values, in the order they were selected; null until the form writes a value. */
    var innerValue: Nullable<seq<string>>
    var valuesAsString: string
    /** The normalised filter text; empty means no filter. */
    var filterValue: string
    var visibleOptions: seq<Option>
    var panelVisible: bool

    /** The summary label agrees with the options and the selection. */
    ghost predicate LabelInSync()
      reads this
    {
      valuesAsString == Label(options, innerValue, defaultLabel, useShortLabel)
    }

    constructor (defaultLabel: string, useShortLabel: bool)
      ensures this.defaultLabel == defaultLabel && this.useShortLabel == useShortLabel
      ensures options == Null && innerValue == Null
      ensures valuesAsString == "" && filterValue == "" && visibleOptions == []
      ensures !panelVisible
    {
      this.defaultLabel := defaultLabel;
      this.useShortLabel := useShortLabel;
      options := Null;
      innerValue := Null;
      valuesAsString := "";
      filterValue := "";
      visibleOptions := [];
      panelVisible := false;
    }

    /**
     * The host binds a new options list and `ngOnChanges` runs: the label is
     * recomputed only when the new list is non-empty.
     */
    method OnOptionsChange(newOptions: seq<Option>)
      modifies this`options, this`valuesAsString
      ensures options == NonNull(newOptions)
      ensures |newOptions| > 0 ==> LabelInSync()
      ensures |newOptions| == 0 ==> valuesAsString == old(valuesAsString)
    {
      options := NonNull(newOptions);
      if |newOptions| > 0 {
        UpdateLabel();
      }
    }

    /** `writeValue`: the form replaces the selection wholesale; the label follows. */
    method WriteValue(value: Nullable<seq<string>>)
      modifies this`innerValue, this`valuesAsString
      ensures innerValue == value && LabelInSync()
    {
      innerValue := value;
      UpdateLabel();
    }

    /** `onCloseClick`: the close control closes the panel. */
    method OnCloseClick()
      modifies this`panelVisible
      ensures !panelVisible
    {
      Hide();
    }

    /** `onFilter`: stores the normalised text and keeps the options whose label contains it. */
    method OnFilter(text: string)
      requires options.NonNull?
      modifies this`filterValue, this`visibleOptions
      ensures filterValue == Normalize(text)
      ensures visibleOptions == VisibleOptions(options.value, filterValue)
    {
      filterValue := Normalize(text);
      visibleOptions := VisibleOptions(options.value, filterValue);
    }

    /** `isOptionVisible`: true while no filter is set, else whether a visible option has the same value. */
    function IsOptionVisible(option: Option): (r: bool)
      reads this
      ensures filterValue == "" ==> r
      ensures filterValue != "" ==> (r <==> exists i :: 0 <= i < |visibleOptions| && visibleOptions[i].value == option.value)
    {
      IsVisible(filterValue, visibleOptions, option)
    }

    /**
     * `onOptionClick`: appends the option's value when it is not selected,
     * otherwise removes its first occurrence; then recomputes the label.
     * The options and the panel are untouched and no change listener is called.
     */
    method OnOptionClick(option: Option)
      requires innerValue.NonNull?
      modifies this`innerValue, this`valuesAsString
      ensures innerValue == NonNull(Toggle(old(innerValue.value), option.value))
      ensures LabelInSync()
    {
      var index := GetSelectedOptionIndex(option);
      if index == -1 {
        innerValue := NonNull(innerValue.value + [option.value]);
      } else {
        innerValue := NonNull(innerValue.value[..index] + innerValue.value[index + 1..]);
      }
      UpdateLabel();
    }

    /** `isOptionSelected`: false for a null or empty selection, else membership of the option's value. */
    function IsOptionSelected(option: Option): (r: bool)
      reads this
      ensures r <==> innerValue.NonNull? && option.value in innerValue.value
      ensures !HasItems(innerValue) ==> !r
    {
      GetSelectedOptionIndex(option) != -1
    }

    /**
     * `getSelectedOptionIndex`: -1 while the selection is null or empty or
     * lacks the option's value, otherwise the first position of that value.
     */
    function GetSelectedOptionIndex(option: Option): (r: int)
      reads this
      ensures r == -1 <==> !(innerValue.NonNull? && option.value in innerValue.value)
      ensures r != -1 ==> innerValue.NonNull? && 0 <= r < |innerValue.value| &&
                          innerValue.value[r] == option.value && option.value !in innerValue.value[..r]
    {
      SelectedIndex(innerValue, option.value)
    }

    /** `updateLabel`: recomputes the summary label from the options and the selection; a second call changes nothing. */
    method UpdateLabel()
      modifies this`valuesAsString
      ensures LabelInSync()
      ensures old(LabelInSync()) ==> valuesAsString == old(valuesAsString)
    {
      if HasItems(options) && HasItems(innerValue) {
        valuesAsString := Join(Entries(options.value, innerValue.value, useShortLabel), Separator);
      } else {
        valuesAsString := defaultLabel;
      }
    }

    method Hide()
      modifies this`panelVisible
      ensures !panelVisible
    {
      panelVisible := false;
    }

    /** `show`: opens the panel; the options keep their order. */
    method Show()
      modifies this`panelVisible
      ensures panelVisible
    {
      panelVisible := true;
    }

    /**
     * The document-wide click handler, with `inside` standing for "the target
     * lies within the component": an inside click leaves the panel open, an
     * outside click leaves it closed.
     */
    method OnDocumentClick(inside: bool)
      modifies this`panelVisible
      ensures panelVisible == inside
    {
      if inside {
        if !panelVisible {
          Show();
        }
      } else {
        Hide();
      }
    }
  }
}

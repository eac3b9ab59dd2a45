# ngx-multiselect in Dafny

A model of the multi-select dropdown form control of ngx-multiselect, in its
two versions:

- `src/multiselect.ts` (module `MultiSelectComponent`): keeps a working copy
  `innerOptions` of the host's `options`, reorders it so that selected options
  come first when the panel opens, and keeps a `noValueSelected` flag.
- `multiselect/multiselect.ts` (module `LegacyMultiSelect`): the older version,
  which works directly over `options`.

Each version is a `class MultiSelect` whose fields are the component's inputs
and state (`innerValue`, `valuesAsString`, `filterValue`, `visibleOptions`,
`panelVisible`, ...) and whose methods are the component's handlers. Every
method's `modifies` clause names the fields it assigns, field by field, so
"nothing else changes" is part of each contract. The pure computations both
versions share live in their own modules:

- `Nullables`: arrays that may still be `null`/`undefined`, and the
  `xs && xs.length > 0` guard.
- `Seqs`: `filter` and `indexOf` on arrays.
- `Text`: `trim`, `toLowerCase`, `indexOf` on strings and `join`.
- `Options`: the option object and `findOptionByValue`.
- `Selection`: `getSelectedOptionIndex`, `isOptionSelected` and the push/splice
  edit of `onOptionClick`.
- `Labels`: the summary label of `updateLabel`.
- `Filtering`: the option filter of `onFilter` and `isOptionVisible`.
- `Reorder`: `sortSelectedOptionsFirst`.

Modelling choices:

- An option is an object (`class Option` with constant fields), so two options
  with equal fields are still different options. The reorder compares options
  by identity, and so does the model. Options are compared by value (the
  `value` field) everywhere else, as in the source.
- `fullLabel` is the field named by `optionLabelKey` and `shortLabel` the field
  named by `optionShortLabelKey`. `useShortLabel` says whether the short-label
  key is non-empty. When it is empty, labels use the full label.
- `innerValue`, `innerOptions` and the older version's `options` start out
  `null`/`undefined` and are modelled as `Nullable`. `filterValue` starts as
  `undefined` and is only read for truthiness, so it is modelled as `""`.
  `visibleOptions` starts as `undefined` and is only read once a filter is set,
  so it is modelled as `[]`. The current version's `options` also starts out
  `undefined` and is modelled as `[]`: it is read only by the reorder, which
  needs a working copy, and a working copy exists only once `options` has been
  bound.
- A stale selected value (one that no option has) yields the empty entry: the
  `map` callback returns `undefined`, which `join` prints as `""`. So `["a", "z"]`
  is labelled `"Apple, "` (`Labels.StaleLabelExamples`).
- Opening the panel in the current version reorders `innerOptions` but does not
  recompute the label. `Show` and `OnDocumentClick` therefore do not promise
  `LabelInSync()`.
- When the host binds an empty options list, the label is not recomputed, and
  in the current version the working copy keeps the old options. The reorder
  draws its unselected options from the host's new (empty) list, so the working
  copy is then no longer a permutation of `options`. `CopyIsPermutation` is
  preserved by the reorder only when it held before.

## Model

| member | source | states |
|---|---|---|
| Options.Option.constructor | src/multiselect.ts:5-8 | an option carries a value, a full label and a short label |
| Options.FindOptionByValue | src/multiselect.ts:155-157 | null exactly when no option has the value; otherwise the first option with that value |
| Seqs.Filter | src/multiselect.ts:100-102 | the result keeps only elements of the input that pass the callback, and keeps every one that does |
| Seqs.FilterAppend | src/multiselect.ts:100-102 | filtering keeps order: the filter of a concatenation is the concatenation of the filters |
| Seqs.FilterCount | src/multiselect.ts:161 | each element occurs in the filter as often as in the input if it passes, otherwise never |
| Seqs.FilterAll | src/multiselect.ts:100-102 | a callback that accepts everything leaves the array unchanged |
| Seqs.FilterCongruent | src/multiselect.ts:162 | callbacks that agree on the array's elements filter it identically |
| Seqs.FilterPermutation | src/multiselect.ts:161 | filtering permutations of each other gives permutations of each other |
| Seqs.FilterPartition | src/multiselect.ts:161-163 | the filters by a callback and by its negation together are a permutation of the array |
| Seqs.IndexOf | src/multiselect.ts:129 | -1 exactly when the element is absent; otherwise the position of its first occurrence |
| Text.ContentStart | src/multiselect.ts:99 | the position of the first non-whitespace character at or after a start position: everything skipped is whitespace and the character found is not |
| Text.ContentEnd | src/multiselect.ts:99 | the position just past the last non-whitespace character of a range: everything cut off is whitespace and the last character kept is not |
| Text.Trim | src/multiselect.ts:99 | the result is the slice of the input between a whitespace-only prefix and a whitespace-only suffix, neither starts nor ends with whitespace, and is empty exactly when the input is all whitespace |
| Text.TrimOfTrimmed | src/multiselect.ts:99 | a string that neither starts nor ends with whitespace is its own trim |
| Text.ToLower | src/multiselect.ts:99 | same length; each upper-case ASCII letter becomes its lower-case letter, every other character is kept |
| Text.LowerOfLower | src/multiselect.ts:99 | a string without upper-case letters is its own lower-case form |
| Text.Normalize | src/multiselect.ts:99 | the filter's normal form is the lower-cased slice of the input between its leading and trailing whitespace, with no upper-case ASCII letter and no surrounding whitespace |
| Text.NormalizeIdempotent | src/multiselect.ts:99-101 | normalising the stored filter text again changes nothing |
| Text.IndexOfFrom | src/multiselect.ts:101 | the first occurrence of the query at or after a position, or -1 when there is none |
| Text.SubstringIndex | src/multiselect.ts:101 | `indexOf` is not -1 exactly when the query is a substring, and then gives its first occurrence |
| Text.EmptyOccursFirst | src/multiselect.ts:101 | the empty query occurs at position 0 of every label |
| Text.Join | src/multiselect.ts:147 | the join of no parts is empty and of one part is that part; `JoinAppend` adds each further part |
| Text.JoinEnds | src/multiselect.ts:147 | a join starts with the first part, followed by the separator when more parts follow, and ends with the last part |
| Text.JoinAppend | src/multiselect.ts:147 | joining one more part appends the separator and that part |
| Selection.SelectedIndex | src/multiselect.ts:126-132 | -1 when the selection is null or empty or lacks the value; otherwise the first position of the value |
| Selection.IsSelected | src/multiselect.ts:122-124 | false for a null or empty selection, otherwise membership of the option's value |
| Selection.Toggle | src/multiselect.ts:112-118 | an absent value is appended at the end; a present one loses exactly its first occurrence, the rest keeping their order |
| Selection.ToggleRemovesOne | src/multiselect.ts:117 | removing a present value takes exactly one copy of it out of the selection |
| Selection.ToggleKeepsDistinct | src/multiselect.ts:112-118 | a duplicate-free selection stays duplicate-free |
| Selection.ToggleTwice | src/multiselect.ts:112-118 | toggling an unselected value twice restores the selection exactly |
| Selection.ToggleMembership | src/multiselect.ts:112-124 | on a duplicate-free selection a toggle flips the option's selected state and no other value's |
| Labels.Entry | src/multiselect.ts:140-146 | the label of the first option with the value, under the short-label key when it is set and the label key otherwise, and "" for a stale value |
| Labels.Entries | src/multiselect.ts:141-146 | one entry per selected value, in selection order |
| Labels.Label | src/multiselect.ts:139-152 | without options or without a selection the label is the default label; a one-value selection is labelled by that value's entry; with `LabelAppend` this fixes the label as the ", "-join of the entries |
| Labels.LabelAppend | src/multiselect.ts:139-147 | one more selected value appends ", " and its entry: the label is the ", "-join of the entries in selection order |
| Labels.LabelExamples | src/multiselect.ts:138-157 | the default label, "Apple" and "Apple, Banana" for the worked selections |
| Labels.StaleLabelExamples | src/multiselect.ts:138-157 | a stale value gives an empty entry: "" for ["z"] and "Apple, " for ["a", "z"] |
| Filtering.LabelMatches | src/multiselect.ts:101 | an option matches exactly when the query is a substring of its trimmed, lower-cased label |
| Filtering.VisibleOptions | src/multiselect.ts:100-102 | the visible options are options of the list with a matching label, and every matching option is visible |
| Filtering.VisibleOptionsEmptyQuery | src/multiselect.ts:98-102 | the empty query leaves every option visible, in order |
| Filtering.VisibleOptionsAppend | src/multiselect.ts:100-102 | the filter preserves list order |
| Filtering.IsVisible | src/multiselect.ts:105-110 | true without a filter; otherwise whether some visible option has the option's value |
| Filtering.VisibleAfterFilter | src/multiselect.ts:98-110 | after filtering by a text, an option is visible exactly when the normalised text is empty or an option with its value has a matching label |
| Reorder.SelectedFirst | src/multiselect.ts:160-163 | the reordered list holds only options of the working copy or the host, every host option, and every selected option of the working copy; order and multiplicity are given by `SelectedFirstSplits` and `SelectedFirstIsPermutation` |
| Reorder.SelectedFirstSplits | src/multiselect.ts:159-165 | the reorder is the selected options in working-copy order followed by the unselected host options in host order |
| Reorder.SelectedFirstIsPermutation | src/multiselect.ts:159-165 | a working copy that is a permutation of the host's options stays one |
| Reorder.SelectedFirstExample | src/multiselect.ts:159-165 | with selection ["b"], [Apple, Banana] becomes [Banana, Apple] |
| MultiSelectComponent.MultiSelect.constructor | src/multiselect.ts:29-65 | the inputs' values, nothing selected, no options copied, closed panel, `noValueSelected` set |
| MultiSelectComponent.MultiSelect.OnOptionsChange | src/multiselect.ts:73-78 | a non-empty list becomes the working copy and the label is recomputed; an empty one changes only `options` |
| MultiSelectComponent.MultiSelect.WriteValue | src/multiselect.ts:80-83 | the selection is replaced wholesale and the label and flag recomputed |
| MultiSelectComponent.MultiSelect.OnCloseClick | src/multiselect.ts:93-96 | the panel is closed; nothing else changes |
| MultiSelectComponent.MultiSelect.OnFilter | src/multiselect.ts:98-103 | the filter text is normalised and the visible options are the working copy filtered by it |
| MultiSelectComponent.MultiSelect.IsOptionVisible | src/multiselect.ts:105-110 | true without a filter; otherwise whether a visible option has the option's value |
| MultiSelectComponent.MultiSelect.OnOptionClick | src/multiselect.ts:112-120 | the selection is toggled as `Toggle` says and the label recomputed; options and panel untouched, no listener called |
| MultiSelectComponent.MultiSelect.IsOptionSelected | src/multiselect.ts:122-132 | false for a null or empty selection, otherwise membership of the option's value |
| MultiSelectComponent.MultiSelect.GetSelectedOptionIndex | src/multiselect.ts:126-132 | -1 when the selection is null or empty or lacks the option's value; otherwise the first position of that value |
| MultiSelectComponent.MultiSelect.UpdateLabel | src/multiselect.ts:138-153 | the label and `noValueSelected` agree with the working copy and selection; a second call changes nothing |
| MultiSelectComponent.MultiSelect.SortSelectedOptionsFirst | src/multiselect.ts:159-165 | with the flag set the working copy is reordered selected-first and stays a permutation; with it cleared it is unchanged |
| MultiSelectComponent.MultiSelect.Hide | src/multiselect.ts:167-169 | the panel is closed |
| MultiSelectComponent.MultiSelect.Show | src/multiselect.ts:171-175 | the panel is open and the working copy reordered; the selection and label are untouched |
| MultiSelectComponent.MultiSelect.OnDocumentClick | src/multiselect.ts:20-27 | the panel ends open exactly on an inside click; only an inside click on a closed panel reorders; the selection is never touched |
| LegacyMultiSelect.MultiSelect.constructor | multiselect/multiselect.ts:28-57 | the inputs' values, no options, nothing selected, closed panel |
| LegacyMultiSelect.MultiSelect.OnOptionsChange | multiselect/multiselect.ts:65-69 | the label is recomputed only when the new options list is non-empty |
| LegacyMultiSelect.MultiSelect.WriteValue | multiselect/multiselect.ts:71-74 | the selection is replaced wholesale and the label recomputed |
| LegacyMultiSelect.MultiSelect.OnCloseClick | multiselect/multiselect.ts:84-87 | the panel is closed; nothing else changes |
| LegacyMultiSelect.MultiSelect.OnFilter | multiselect/multiselect.ts:89-94 | the filter text is normalised and the visible options are the host's options filtered by it |
| LegacyMultiSelect.MultiSelect.IsOptionVisible | multiselect/multiselect.ts:96-101 | true without a filter; otherwise whether a visible option has the option's value |
| LegacyMultiSelect.MultiSelect.OnOptionClick | multiselect/multiselect.ts:103-112 | the selection is toggled as `Toggle` says and the label recomputed; options and panel untouched |
| LegacyMultiSelect.MultiSelect.IsOptionSelected | multiselect/multiselect.ts:114-124 | false for a null or empty selection, otherwise membership of the option's value |
| LegacyMultiSelect.MultiSelect.GetSelectedOptionIndex | multiselect/multiselect.ts:118-124 | -1 when the selection is null or empty or lacks the option's value; otherwise the first position of that value |
| LegacyMultiSelect.MultiSelect.UpdateLabel | multiselect/multiselect.ts:130-147 | the label agrees with the options and selection (joined entries, or the default); a second call changes nothing |
| LegacyMultiSelect.MultiSelect.Hide | multiselect/multiselect.ts:149-151 | the panel is closed |
| LegacyMultiSelect.MultiSelect.Show | multiselect/multiselect.ts:153-155 | the panel is open; the options keep their order |
| LegacyMultiSelect.MultiSelect.OnDocumentClick | multiselect/multiselect.ts:19-26 | the panel ends open exactly on an inside click and closed on an outside one |

## Left out

- Angular plumbing: decorators, the module declaration, the value-accessor provider, `Renderer`, `ngOnInit` and the unused `documentClickListener`. They have no behaviour of their own.
- The DOM: `elemRef.nativeElement.contains(target)` is the boolean parameter `inside` of `OnDocumentClick`. `stopPropagation` in `onCloseClick` and `onLabelClick` is browser event routing and is not modelled, so `onLabelClick` has no counterpart.
- `registerOnChange` and `registerOnTouched`: they only append to listener arrays that nothing ever calls, so no change notification is modelled.
- The `console.log` in the older `onOptionClick`, which is only output.
- `labelPrefix`, which is declared but never read.
- Text.ToLower: lower-cases the ASCII letters only. Unicode case mapping is not modelled. `trim` uses the full ECMAScript whitespace set.
- Inputs other than `options` (`defaultLabel`, the label keys, `selectedOptionsFirst`) are fixed when the component is constructed. `valueKey` is fixed to the `value` field, and `optionLabelKey` to `fullLabel`.
- An `undefined` `defaultLabel` is modelled as a string.
- The host's array handed to `writeValue` is shared with `innerValue` in the source, so `onOptionClick`'s in-place edit is visible to the host. The model owns the selection as a value, so that aliasing is not captured.
- Null dereferences are preconditions: `OnOptionClick` requires a selection to have been written, `OnFilter` requires options, and opening the current version's panel with reordering enabled requires a working copy. `ngOnChanges` with a null options list is not modelled.

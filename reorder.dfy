/** Reordering the option list so that the selected options come first. */
module Reorder {
  import opened Nullables
  import opened Seqs
  import opened Options
  import opened Selection

  /** The callback that keeps selected options. */
  function SelectedPred(selection: Nullable<seq<string>>): Option -> bool
  {
    (o: Option) => IsSelected(selection, o)
  }

  /** Its complement. */
  function UnselectedPred(selection: Nullable<seq<string>>): Option -> bool
  {
    (o: Option) => !IsSelected(selection, o)
  }

  /** The callback that keeps the options not among `excluded`, compared by identity (`indexOf(o) < 0`). */
  function NotAmong(excluded: seq<Option>): Option -> bool
  {
    (o: Option) => o !in excluded
  }

  /**
   * `sortSelectedOptionsFirst`'s new list: the selected options of the working
   * copy `inner`, in its order, followed by the host's `options` that are not
   * among them. Nothing else enters the list, and every host option and every
   * selected option of the working copy is in it.
   */
  function SelectedFirst(inner: seq<Option>, options: seq<Option>,
                         selection: Nullable<seq<string>>): (r: seq<Option>)
    ensures forall i :: 0 <= i < |r| ==> r[i] in inner || r[i] in options
    ensures forall i :: 0 <= i < |options| ==> options[i] in r
    ensures forall i :: 0 <= i < |inner| && IsSelected(selection, inner[i]) ==> inner[i] in r
  {
    var selected := Filter(inner, SelectedPred(selection));
    selected + Filter(options, NotAmong(selected))
  }

  /**
   * When every host option is in the working copy, the reorder is the selected
   * options in working-copy order followed by the unselected ones in host order.
   */
  lemma SelectedFirstSplits(inner: seq<Option>, options: seq<Option>, selection: Nullable<seq<string>>)
    requires forall i :: 0 <= i < |options| ==> options[i] in inner
    ensures SelectedFirst(inner, options, selection)
            == Filter(inner, SelectedPred(selection)) + Filter(options, UnselectedPred(selection))
  {
    var selected := Filter(inner, SelectedPred(selection));
    forall o | o in options ensures NotAmong(selected)(o) == UnselectedPred(selection)(o) {
      if IsSelected(selection, o) {
        var i :| 0 <= i < |inner| && inner[i] == o;
        assert SelectedPred(selection)(inner[i]);
      }
    }
    FilterCongruent(options, NotAmong(selected), UnselectedPred(selection));
  }

  /** When the working copy is a permutation of the host's options, so is the reordered list. */
  lemma SelectedFirstIsPermutation(inner: seq<Option>, options: seq<Option>, selection: Nullable<seq<string>>)
    requires multiset(inner) == multiset(options)
    ensures multiset(SelectedFirst(inner, options, selection)) == multiset(options)
  {
    forall i | 0 <= i < |options| ensures options[i] in inner {
      assert options[i] in multiset(options);
    }
    SelectedFirstSplits(inner, options, selection);
    FilterPermutation(inner, options, SelectedPred(selection));
    FilterPartition(options, SelectedPred(selection), UnselectedPred(selection));
  }

  /** With Apple and Banana and the selection ["b"], opening puts Banana first. */
  lemma SelectedFirstExample(apple: Option, banana: Option)
    requires apple.value == "a" && banana.value == "b"
    ensures SelectedFirst([apple, banana], [apple, banana], NonNull(["b"])) == [banana, apple]
  {
    var options := [apple, banana];
    var selection := NonNull(["b"]);
    assert !IsSelected(selection, apple) && IsSelected(selection, banana);
    SelectedFirstSplits(options, options, selection);
    assert Filter(options, SelectedPred(selection)) == [banana] by {
      assert options[1..] == [banana];
    }
    assert Filter(options, UnselectedPred(selection)) == [apple] by {
      assert options[1..] == [banana];
    }
  }
}

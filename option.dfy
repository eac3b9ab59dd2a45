/** The option records the host supplies, and lookup of an option by its value. */
module Options {

  /**
   * One selectable item. It is an object: two options with equal fields are
   * still two options, as the reorder on opening compares by identity.
   * `fullLabel` is the field named by the label key (`label` by default) and
   * `shortLabel` the field named by the short-label key.
   */
  class Option {
    const value: string
    const fullLabel: string
    const shortLabel: string

    constructor (value: string, fullLabel: string, shortLabel: string)
      ensures this.value == value && this.fullLabel == fullLabel && this.shortLabel == shortLabel
    {
      this.value := value;
      this.fullLabel := fullLabel;
      this.shortLabel := shortLabel;
    }
  }

  /** `options[i]` is the first option whose value is `v`. */
  ghost predicate FirstWithValue(options: seq<Option>, v: string, i: int)
  {
    0 <= i < |options| && options[i].value == v &&
    forall j :: 0 <= j < i ==> options[j].value != v
  }

  /** `find` by value: the first option whose value is `v`, or null when there is none. */
  function FindOptionByValue(options: seq<Option>, v: string): (r: Option?)
    ensures r == null <==> forall i :: 0 <= i < |options| ==> options[i].value != v
    ensures r != null ==> exists i :: FirstWithValue(options, v, i) && options[i] == r
  {
    if options == [] then null
    else if options[0].value == v then options[0]
    else
      var r := FindOptionByValue(options[1..], v);
      assert r != null ==> exists i :: FirstWithValue(options[1..], v, i) && options[1..][i] == r;
      assert r != null ==> exists i :: FirstWithValue(options, v, i) && options[i] == r by {
        if r != null {
          var i :| FirstWithValue(options[1..], v, i) && options[1..][i] == r;
          assert FirstWithValue(options, v, i + 1);
        }
      }
      r
  }
}

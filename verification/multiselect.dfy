/** The checkbox group shared by both registration forms: a list-valued form
    field in which each checkbox adds its option when checked and removes it
    when unchecked. */
module MultiSelect {
  import opened Options
  import Seqs

  /** Whether the checkbox for `option` is drawn checked (`field.value?.includes(option)`). */
  predicate IsChecked(value: Option<seq<string>>, option: string) {
    value.Some? && option in value.value
  }

  /** The test that keeps every entry except `option`. */
  function Other(option: string): string -> bool {
    v => v != option
  }

  /** The selection with every occurrence of `option` removed, the other
      entries kept in order (`value.filter(v => v !== option)`). */
  function Without(selected: seq<string>, option: string): (r: seq<string>)
    ensures option !in r
    ensures Seqs.IsSubsequence(r, selected)
    ensures forall x :: x != option ==> multiset(r)[x] == multiset(selected)[x]
    ensures option !in selected ==> r == selected
  {
    var r := Seqs.Filter(selected, Other(option));
    Seqs.FilterIsSubsequence(selected, Other(option));
    Seqs.FilterCounts(selected, Other(option));
    Seqs.FilterSound(selected, Other(option));
    if option in selected then r
    else
      Seqs.FilterKeepsAll(selected, Other(option));
      r
  }

  /** The new field value after the checkbox for `option` changes to `checked`:
      checking appends the option to the (possibly absent) list; unchecking
      filters it out, and an absent list stays absent. */
  function Toggle(value: Option<seq<string>>, option: string, checked: bool): (r: Option<seq<string>>)
    ensures checked ==> r.Some? && |r.value| == |value.GetOr([])| + 1
    ensures checked ==> r.value[..|value.GetOr([])|] == value.GetOr([]) && r.value[|value.GetOr([])|] == option
    ensures !checked && value.None? ==> r.None?
    ensures !checked && value.Some? ==> r.Some? && option !in r.value && Seqs.IsSubsequence(r.value, value.value)
    ensures !checked && value.Some? ==> forall x :: x != option ==> multiset(r.value)[x] == multiset(value.value)[x]
    ensures IsChecked(r, option) == checked
  {
    if checked then
      var r := value.GetOr([]) + [option];
      assert r[|value.GetOr([])|] == option;
      Some(r)
    else if value.None? then None
    else Some(Without(value.value, option))
  }

  /** Toggling one checkbox leaves every other checkbox of the group as it was. */
  lemma ToggleLeavesOthers(value: Option<seq<string>>, option: string, checked: bool, other: string)
    requires other != option
    ensures IsChecked(Toggle(value, option, checked), other) == IsChecked(value, other)
  {
    var r := Toggle(value, option, checked);
    if checked {
      var before := value.GetOr([]);
      assert r.value == before + [option];
    } else if value.Some? {
      assert multiset(r.value)[other] == multiset(value.value)[other];
    }
  }

  /** Checking an unchecked box and then unchecking it restores the selection. */
  lemma CheckThenUncheck(value: Option<seq<string>>, option: string)
    requires !IsChecked(value, option)
    ensures Toggle(Toggle(value, option, true), option, false) == Some(value.GetOr([]))
  {
    var before := value.GetOr([]);
    var checked := Toggle(value, option, true);
    assert checked == Some(before + [option]);
    Seqs.FilterAppend(before, [option], Other(option));
    assert option !in before;
    forall i | 0 <= i < |before| ensures Other(option)(before[i]) {
      assert before[i] in before;
    }
    Seqs.FilterKeepsAll(before, Other(option));
    assert !Other(option)(option);
    assert Seqs.Filter([option], Other(option)) == Seqs.Filter([option][1..], Other(option));
    assert [option][1..] == [];
    assert Without(before + [option], option) == before;
  }
}

/** The competitor inscription form: its acceptance schema, the three
    checkbox groups with their capitalised labels, and the competitor list
    whose "Eliminar" button is always rendered. */
module RegistrationForm {
  import opened Options
  import Seqs
  import Text
  import FieldArray
  import MultiSelect

  const MinTextLength := 2
  const MinDniLength := 7
  const MinAge: real := 3.0
  const MaxAge: real := 99.0
  const KyuRanks: seq<string> := ["Kyu A", "Kyu B", "Dan"]
  /** The age categories, lower-case in this form. */
  const AgeCategories: seq<string> := ["infantil", "juvenil", "adulto", "senior"]
  const FormsItems: seq<string> := ["tai chi", "chinas", "japonesas", "coreanas", "modernas"]
  const CombatItems: seq<string> := ["individual", "por equipo", "kickboxing", "light contact"]
  const WeaponFormsItems: seq<string> := ["armas cortas", "armas largas", "armas especiales"]

  datatype Competitor = Competitor(
    name: string,
    lastName: string,
    dni: string,
    age: real,
    kyuRank: string,
    categoryAge: string,
    formsCategories: Option<seq<string>>,
    combatCategories: Option<seq<string>>,
    weaponFormsCategories: Option<seq<string>>,
    exhibition: Option<bool>)

  datatype Inscription = Inscription(
    schoolName: string,
    martialArtStyle: string,
    masterFullName: string,
    location: string,
    competitors: seq<Competitor>)

  // ----- acceptance schema -----

  predicate ValidSchool(f: Inscription) {
    && Text.Utf16Length(f.schoolName) >= MinTextLength
    && Text.Utf16Length(f.martialArtStyle) >= MinTextLength
    && Text.Utf16Length(f.masterFullName) >= MinTextLength
    && Text.Utf16Length(f.location) >= MinTextLength
  }

  predicate ValidCompetitor(c: Competitor) {
    && Text.Utf16Length(c.name) >= MinTextLength
    && Text.Utf16Length(c.lastName) >= MinTextLength
    && Text.Utf16Length(c.dni) >= MinDniLength
    && MinAge <= c.age <= MaxAge
    && c.kyuRank in KyuRanks
    && c.categoryAge in AgeCategories
  }

  /** The schema accepts the form: the school block and every competitor pass. */
  predicate Valid(f: Inscription) {
    ValidSchool(f) && forall i :: 0 <= i < |f.competitors| ==> ValidCompetitor(f.competitors[i])
  }

  datatype CompetitorField = Name | LastName | Dni | Age | KyuRank | CategoryAge

  /** Where a validation issue is reported. */
  datatype Path =
    | SchoolName
    | MartialArtStyle
    | MasterFullName
    | Location
    | InCompetitor(index: nat, field: CompetitorField)

  /** The failing fields of competitor number `index`, in schema order. */
  function CompetitorIssues(index: nat, c: Competitor): (issues: seq<Path>)
    ensures forall x :: x in issues ==> x.InCompetitor? && x.index == index
    ensures issues == [] <==> ValidCompetitor(c)
  {
    var byName := Seqs.Flag(Text.Utf16Length(c.name) < MinTextLength, InCompetitor(index, Name));
    var byLastName := Seqs.Flag(Text.Utf16Length(c.lastName) < MinTextLength, InCompetitor(index, LastName));
    var byDni := Seqs.Flag(Text.Utf16Length(c.dni) < MinDniLength, InCompetitor(index, Dni));
    var byAge := Seqs.Flag(c.age < MinAge || c.age > MaxAge, InCompetitor(index, Age));
    var byRank := Seqs.Flag(c.kyuRank !in KyuRanks, InCompetitor(index, KyuRank));
    var byCategory := Seqs.Flag(c.categoryAge !in AgeCategories, InCompetitor(index, CategoryAge));
    assert |byName + byLastName + byDni + byAge + byRank + byCategory|
        == |byName| + |byLastName| + |byDni| + |byAge| + |byRank| + |byCategory|;
    byName + byLastName + byDni + byAge + byRank + byCategory
  }

  /** The failing fields of `cs`, whose first element is competitor number `from`. */
  function CompetitorsIssues(cs: seq<Competitor>, from: nat): (issues: seq<Path>)
    ensures forall x :: x in issues ==> x.InCompetitor? && from <= x.index < from + |cs|
    ensures issues == [] <==> forall i :: 0 <= i < |cs| ==> ValidCompetitor(cs[i])
    decreases |cs|
  {
    if |cs| == 0 then []
    else
      var head, rest := CompetitorIssues(from, cs[0]), CompetitorsIssues(cs[1..], from + 1);
      AllValidSplit(cs);
      head + rest
  }

  /** All of `cs` pass exactly when the first passes and all the rest do. */
  lemma AllValidSplit(cs: seq<Competitor>)
    requires |cs| > 0
    ensures (forall i :: 0 <= i < |cs| ==> ValidCompetitor(cs[i]))
            <==> ValidCompetitor(cs[0]) && forall i :: 0 <= i < |cs[1..]| ==> ValidCompetitor(cs[1..][i])
  {
    assert forall i :: 1 <= i < |cs| ==> cs[i] == cs[1..][i - 1];
  }

  /** The failing fields of the whole form: school fields first, then each
      competitor in order. The form is accepted exactly when there are none. */
  function Issues(f: Inscription): (issues: seq<Path>)
    ensures issues == [] <==> Valid(f)
    ensures forall x :: x in issues && x.InCompetitor? ==> x.index < |f.competitors|
  {
    var bySchool := Seqs.Flag(Text.Utf16Length(f.schoolName) < MinTextLength, SchoolName);
    var byStyle := Seqs.Flag(Text.Utf16Length(f.martialArtStyle) < MinTextLength, MartialArtStyle);
    var byMaster := Seqs.Flag(Text.Utf16Length(f.masterFullName) < MinTextLength, MasterFullName);
    var byLocation := Seqs.Flag(Text.Utf16Length(f.location) < MinTextLength, Location);
    var rest := CompetitorsIssues(f.competitors, 0);
    assert |bySchool + byStyle + byMaster + byLocation + rest|
        == |bySchool| + |byStyle| + |byMaster| + |byLocation| + |rest|;
    bySchool + byStyle + byMaster + byLocation + rest
  }

  // ----- checkbox groups -----

  datatype Group = FormsGroup | CombatGroup | WeaponFormsGroup

  function Selection(c: Competitor, g: Group): Option<seq<string>> {
    match g
    case FormsGroup => c.formsCategories
    case CombatGroup => c.combatCategories
    case WeaponFormsGroup => c.weaponFormsCategories
  }

  /** The competitor after the checkbox for `item` in group `g` changes to
      `checked`: that group follows the checkbox toggle and nothing else
      about the competitor changes. */
  function ToggleItem(c: Competitor, g: Group, item: string, checked: bool): (d: Competitor)
    ensures d.(formsCategories := c.formsCategories, combatCategories := c.combatCategories,
               weaponFormsCategories := c.weaponFormsCategories) == c
    ensures forall h :: h != g ==> Selection(d, h) == Selection(c, h)
    ensures MultiSelect.IsChecked(Selection(d, g), item) == checked
    ensures forall other :: other != item ==>
              MultiSelect.IsChecked(Selection(d, g), other) == MultiSelect.IsChecked(Selection(c, g), other)
    ensures checked ==> Selection(d, g) == Some(Selection(c, g).GetOr([]) + [item])
    ensures !checked && Selection(c, g).Some? ==> Selection(d, g) == Some(MultiSelect.Without(Selection(c, g).value, item))
    ensures !checked && Selection(c, g).None? ==> Selection(d, g).None?
  {
    var toggled := MultiSelect.Toggle(Selection(c, g), item, checked);
    forall other | other != item
      ensures MultiSelect.IsChecked(toggled, other) == MultiSelect.IsChecked(Selection(c, g), other)
    {
      MultiSelect.ToggleLeavesOthers(Selection(c, g), item, checked, other);
    }
    match g
    case FormsGroup => c.(formsCategories := toggled)
    case CombatGroup => c.(combatCategories := toggled)
    case WeaponFormsGroup => c.(weaponFormsCategories := toggled)
  }

  // ----- labels -----

  predicate IsAsciiLower(ch: char) {
    'a' <= ch <= 'z'
  }

  predicate IsAsciiUpper(ch: char) {
    'A' <= ch <= 'Z'
  }

  /** `toUpperCase` on one character, for the ASCII letters the item lists use. */
  function UpperChar(ch: char): (u: char)
    ensures IsAsciiLower(ch) ==> IsAsciiUpper(u) && u as int == ch as int - 32
    ensures !IsAsciiLower(ch) ==> u == ch
  {
    if IsAsciiLower(ch) then (ch as int - 32) as char else ch
  }

  function LowerChar(ch: char): char {
    if IsAsciiUpper(ch) then (ch as int + 32) as char else ch
  }

  /** The label shown beside a checkbox: the item with its first character
      upper-cased (`item.charAt(0).toUpperCase() + item.slice(1)`). */
  function Label(item: string): (shown: string)
    ensures |shown| == |item|
    ensures |item| > 0 ==> shown[0] == UpperChar(item[0]) && shown[1..] == item[1..]
  {
    if |item| == 0 then "" else [UpperChar(item[0])] + item[1..]
  }

  /** Lower-casing the label's first character gives back the item whenever the
      item does not itself start with an upper-case letter, so the labels of
      distinct items of that kind are distinct. */
  lemma LabelRoundTrip(item: string)
    requires |item| > 0 ==> !IsAsciiUpper(item[0])
    ensures var shown := Label(item); |shown| == 0 || [LowerChar(shown[0])] + shown[1..] == item
  {
    if |item| > 0 {
      assert [item[0]] + item[1..] == item;
    }
  }

  /** The labels drawn for the forms group. */
  lemma FormsLabels()
    ensures Label(FormsItems[0]) == "Tai chi" && Label(FormsItems[4]) == "Modernas"
  {
    assert UpperChar('t') == 'T' && UpperChar('m') == 'M';
  }

  // ----- competitor list -----

  /** The entry added by "Agregar Competidor"; the list starts empty. */
  const DefaultCompetitor := Competitor("", "", "", 0.0, "Kyu A", "infantil", Some([]), Some([]), Some([]), Some(false))

  const InitialCompetitors: seq<Competitor> := []

  datatype ListAction = AddCompetitor | RemoveCompetitor(index: nat)

  /** The competitor list after a click: "Eliminar" is rendered for every
      competitor, whatever the list's length. */
  function ApplyListAction(competitors: seq<Competitor>, action: ListAction): (r: seq<Competitor>)
    ensures action.AddCompetitor? ==>
              (|r| == |competitors| + 1 && r[..|competitors|] == competitors && r[|competitors|] == DefaultCompetitor)
    ensures action.RemoveCompetitor? && action.index < |competitors| ==>
              (&& |r| == |competitors| - 1
               && r[..action.index] == competitors[..action.index]
               && r[action.index..] == competitors[action.index + 1..])
    ensures action.RemoveCompetitor? && action.index >= |competitors| ==> r == competitors
  {
    match action
    case AddCompetitor => FieldArray.Append(competitors, DefaultCompetitor)
    case RemoveCompetitor(i) => if i < |competitors| then FieldArray.RemoveAt(competitors, i) else competitors
  }

  /** Unlike the other registration form, removing the only competitor empties the list. */
  lemma RemoveCanEmpty()
    ensures ApplyListAction(ApplyListAction(InitialCompetitors, AddCompetitor), RemoveCompetitor(0)) == []
  {
  }

  /** A newly added competitor is rejected until filled in. */
  lemma DefaultCompetitorRejected()
    ensures CompetitorIssues(0, DefaultCompetitor) ==
      [InCompetitor(0, Name), InCompetitor(0, LastName), InCompetitor(0, Dni), InCompetitor(0, Age)]
  {
  }
}

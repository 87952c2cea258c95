/** The school-and-participants registration form whose submission is turned
    into one spreadsheet row per participant: its acceptance schema, the
    export normaliser run on submit, the participant list and the combat and
    weapons checkbox groups. */
module MartialArtsForm {
  import opened Options
  import Seqs
  import Text
  import FieldArray
  import MultiSelect

  const MinTextLength := 2
  const MinAge: real := 3.0
  const MaxAge: real := 99.0
  const Grades: seq<string> := ["Kyu A", "Kyu B", "Dan"]
  const Categories: seq<string> := ["Infantil", "Juvenil", "Adulto", "Senior"]
  /** The forms choices the schema accepts; the empty string means "none". */
  const FormsOptions: seq<string> := ["Interna", "Chinas", "Japonesas", "Coreanas", "Modernas", ""]
  const CombatOptions: seq<string> := ["Individual", "Por Equipo", "Kickboxing", "Light Contact"]
  const WeaponOptions: seq<string> := ["Armas Cortas", "Armas Largas", "Armas Especiales"]

  datatype Participant = Participant(
    name: string,
    lastName: string,
    age: real,
    grade: string,
    category: string,
    forms: Option<string>,
    combat: Option<seq<string>>,
    weapons: Option<seq<string>>,
    exhibition: Option<bool>)

  /** One submission: the school block shared by all participants, then the participants. */
  datatype Registration = Registration(
    school: string,
    martialArtStyle: string,
    teacherName: string,
    teacherLastName: string,
    locality: string,
    participants: seq<Participant>)

  // ----- acceptance schema -----

  predicate ValidParticipant(p: Participant) {
    && Text.Utf16Length(p.name) >= MinTextLength
    && Text.Utf16Length(p.lastName) >= MinTextLength
    && MinAge <= p.age <= MaxAge
    && p.grade in Grades
    && p.category in Categories
    && (p.forms.Some? ==> p.forms.value in FormsOptions)
  }

  predicate ValidSchool(r: Registration) {
    && Text.Utf16Length(r.school) >= MinTextLength
    && Text.Utf16Length(r.martialArtStyle) >= MinTextLength
    && Text.Utf16Length(r.teacherName) >= MinTextLength
    && Text.Utf16Length(r.teacherLastName) >= MinTextLength
    && Text.Utf16Length(r.locality) >= MinTextLength
  }

  /** The schema accepts the form: the school block and every participant pass. */
  predicate Valid(r: Registration) {
    ValidSchool(r) && forall i :: 0 <= i < |r.participants| ==> ValidParticipant(r.participants[i])
  }

  datatype ParticipantField = Name | LastName | Age | Grade | Category | Forms

  /** Where a validation issue is reported. */
  datatype Path =
    | School
    | MartialArtStyle
    | TeacherName
    | TeacherLastName
    | Locality
    | InParticipant(index: nat, field: ParticipantField)

  /** The failing fields of participant number `index`, in schema order. */
  function ParticipantIssues(index: nat, p: Participant): (issues: seq<Path>)
    ensures forall x :: x in issues ==> x.InParticipant? && x.index == index
    ensures issues == [] <==> ValidParticipant(p)
  {
    var byName := Seqs.Flag(Text.Utf16Length(p.name) < MinTextLength, InParticipant(index, Name));
    var byLastName := Seqs.Flag(Text.Utf16Length(p.lastName) < MinTextLength, InParticipant(index, LastName));
    var byAge := Seqs.Flag(p.age < MinAge || p.age > MaxAge, InParticipant(index, Age));
    var byGrade := Seqs.Flag(p.grade !in Grades, InParticipant(index, Grade));
    var byCategory := Seqs.Flag(p.category !in Categories, InParticipant(index, Category));
    var byForms := Seqs.Flag(p.forms.Some? && p.forms.value !in FormsOptions, InParticipant(index, Forms));
    assert |byName + byLastName + byAge + byGrade + byCategory + byForms|
        == |byName| + |byLastName| + |byAge| + |byGrade| + |byCategory| + |byForms|;
    byName + byLastName + byAge + byGrade + byCategory + byForms
  }

  /** The failing fields of `ps`, whose first element is participant number `from`. */
  function ParticipantsIssues(ps: seq<Participant>, from: nat): (issues: seq<Path>)
    ensures forall x :: x in issues ==> x.InParticipant? && from <= x.index < from + |ps|
    ensures issues == [] <==> forall i :: 0 <= i < |ps| ==> ValidParticipant(ps[i])
    decreases |ps|
  {
    if |ps| == 0 then []
    else
      var head, rest := ParticipantIssues(from, ps[0]), ParticipantsIssues(ps[1..], from + 1);
      AllValidSplit(ps);
      head + rest
  }

  /** All of `ps` pass exactly when the first passes and all the rest do. */
  lemma AllValidSplit(ps: seq<Participant>)
    requires |ps| > 0
    ensures (forall i :: 0 <= i < |ps| ==> ValidParticipant(ps[i]))
            <==> ValidParticipant(ps[0]) && forall i :: 0 <= i < |ps[1..]| ==> ValidParticipant(ps[1..][i])
  {
    assert forall i :: 1 <= i < |ps| ==> ps[i] == ps[1..][i - 1];
  }

  /** The failing fields of the whole form: school fields first, then each
      participant in order. The form is accepted exactly when there are none. */
  function Issues(r: Registration): (issues: seq<Path>)
    ensures issues == [] <==> Valid(r)
    ensures forall x :: x in issues && x.InParticipant? ==> x.index < |r.participants|
  {
    var bySchool := Seqs.Flag(Text.Utf16Length(r.school) < MinTextLength, School);
    var byStyle := Seqs.Flag(Text.Utf16Length(r.martialArtStyle) < MinTextLength, MartialArtStyle);
    var byTeacherName := Seqs.Flag(Text.Utf16Length(r.teacherName) < MinTextLength, TeacherName);
    var byTeacherLastName := Seqs.Flag(Text.Utf16Length(r.teacherLastName) < MinTextLength, TeacherLastName);
    var byLocality := Seqs.Flag(Text.Utf16Length(r.locality) < MinTextLength, Locality);
    var rest := ParticipantsIssues(r.participants, 0);
    assert |bySchool + byStyle + byTeacherName + byTeacherLastName + byLocality + rest|
        == |bySchool| + |byStyle| + |byTeacherName| + |byTeacherLastName| + |byLocality| + |rest|;
    bySchool + byStyle + byTeacherName + byTeacherLastName + byLocality + rest
  }

  // ----- export normaliser -----

  /** The three clock reads made while building one record: the local date, the
      ISO timestamp and the millisecond epoch time. */
  datatype ClockReading = ClockReading(localeDate: string, isoTimestamp: string, epochMillis: nat)

  /** One spreadsheet row; each field is the column of the same (Spanish) name. */
  datatype ExportRecord = ExportRecord(
    fechaRegistro: string,
    escuela: string,
    estiloArteMarcial: string,
    nombreMaestro: string,
    apellidoMaestro: string,
    localidad: string,
    nombreParticipante: string,
    apellidoParticipante: string,
    edad: real,
    grado: string,
    categoria: string,
    numeroParticipante: nat,
    exhibicion: string,
    formas: string,
    combate: string,
    formasConArmas: string,
    timestamp: string,
    idRegistro: string)

  /** The yes/no column for the exhibition flag; an absent flag reads as no. */
  function ExhibitionText(flag: Option<bool>): (t: string)
    ensures t == "Sí" <==> flag == Some(true)
    ensures t == "Sí" || t == "No"
  {
    if flag == Some(true) then "Sí" else "No"
  }

  /** An optional text with absence rendered as the empty string (`v || ''`). */
  function TextOrEmpty(v: Option<string>): (t: string)
    ensures v.Some? ==> t == v.value
    ensures v.None? ==> t == ""
  {
    match v
    case None => ""
    case Some(s) => if s == "" then "" else s
  }

  /** A multi-select list as one cell (`v?.join(', ') || ''`): empty for an
      absent or empty list, and the options read back by splitting at ", "
      when no option contains a comma. */
  function ListText(v: Option<seq<string>>): (t: string)
    ensures v.None? || |v.value| == 0 ==> t == ""
    ensures v.Some? && |v.value| == 1 ==> t == v.value[0]
    ensures v.Some? && |v.value| > 0 && (forall i :: 0 <= i < |v.value| ==> ',' !in v.value[i]) ==>
              Text.Unjoin(t, ", ") == v.value
  {
    match v
    case None => ""
    case Some(l) =>
      var joined := Text.Join(l, ", ");
      if |l| > 0 && (forall i :: 0 <= i < |l| ==> ',' !in l[i]) then
        assert ", "[0] == ',' && ", "[1..] == " ";
        Text.UnjoinJoin(l, ", ");
        joined
      else joined
  }

  /** The registration ID of the participant numbered `number`, stamped with
      the millisecond clock value `millis`: `REG_<millis>_P<number>`. */
  function RegistrationId(millis: nat, number: nat): (id: string)
    ensures "REG_" <= id
    ensures Text.Split(id, '_') == ["REG", Text.DecimalString(millis), "P" + Text.DecimalString(number)]
  {
    IdSplits(Text.DecimalString(millis), Text.DecimalString(number));
    "REG_" + Text.DecimalString(millis) + "_P" + Text.DecimalString(number)
  }

  /** Digit strings hold no underscore, so an ID splits back into its three parts. */
  lemma IdSplits(m: string, n: string)
    requires Text.AllDigits(m) && Text.AllDigits(n)
    ensures Text.Split("REG_" + m + "_P" + n, '_') == ["REG", m, "P" + n]
  {
    assert '_' !in m && '_' !in "P" + n by {
      assert forall i :: 0 <= i < |m| ==> Text.IsDigit(m[i]);
      assert forall i :: 0 <= i < |n| ==> Text.IsDigit(n[i]);
      assert ("P" + n)[0] == 'P';
      assert forall i :: 1 <= i < |"P" + n| ==> ("P" + n)[i] == n[i - 1];
    }
    Text.SplitAtFirst("REG", m + ['_'] + ("P" + n), '_');
    Text.SplitAtFirst(m, "P" + n, '_');
    Text.SplitWithout("P" + n, '_');
    assert "REG_" + m + "_P" + n == "REG" + ['_'] + (m + ['_'] + ("P" + n));
  }

  /** Different clock values or numbers give different registration IDs. */
  lemma RegistrationIdInjective(m1: nat, n1: nat, m2: nat, n2: nat)
    requires RegistrationId(m1, n1) == RegistrationId(m2, n2)
    ensures m1 == m2 && n1 == n2
  {
    var p1, p2 := Text.Split(RegistrationId(m1, n1), '_'), Text.Split(RegistrationId(m2, n2), '_');
    assert p1[1] == p2[1] && p1[2] == p2[2];
    Text.DecimalStringInjective(m1, m2);
    assert Text.DecimalString(n1) == p1[2][1..] == p2[2][1..] == Text.DecimalString(n2);
    Text.DecimalStringInjective(n1, n2);
  }

  /** The row for participant `p` at position `index`, built with clock reading `clock`. */
  function ToRecord(r: Registration, p: Participant, index: nat, clock: ClockReading): ExportRecord {
    ExportRecord(
      fechaRegistro := clock.localeDate,
      escuela := r.school,
      estiloArteMarcial := r.martialArtStyle,
      nombreMaestro := r.teacherName,
      apellidoMaestro := r.teacherLastName,
      localidad := r.locality,
      nombreParticipante := p.name,
      apellidoParticipante := p.lastName,
      edad := p.age,
      grado := p.grade,
      categoria := p.category,
      numeroParticipante := index + 1,
      exhibicion := ExhibitionText(p.exhibition),
      formas := TextOrEmpty(p.forms),
      combate := ListText(p.combat),
      formasConArmas := ListText(p.weapons),
      timestamp := clock.isoTimestamp,
      idRegistro := RegistrationId(clock.epochMillis, index + 1))
  }

  /** The rows sent for one submission, one per participant in input order.
      `clock[i]` is what the clock read while row `i` was built. */
  function Normalise(r: Registration, clock: seq<ClockReading>): (records: seq<ExportRecord>)
    requires |clock| == |r.participants|
    ensures |records| == |r.participants|
    ensures forall i :: 0 <= i < |records| ==> records[i].numeroParticipante == i + 1
    ensures forall i :: 0 <= i < |records| ==>
              && records[i].escuela == r.school
              && records[i].estiloArteMarcial == r.martialArtStyle
              && records[i].nombreMaestro == r.teacherName
              && records[i].apellidoMaestro == r.teacherLastName
              && records[i].localidad == r.locality
    ensures forall i :: 0 <= i < |records| ==>
              && records[i].nombreParticipante == r.participants[i].name
              && records[i].apellidoParticipante == r.participants[i].lastName
              && records[i].edad == r.participants[i].age
              && records[i].grado == r.participants[i].grade
              && records[i].categoria == r.participants[i].category
    ensures forall i :: 0 <= i < |records| ==>
              && (records[i].exhibicion == "Sí" <==> r.participants[i].exhibition == Some(true))
              && (records[i].exhibicion == "Sí" || records[i].exhibicion == "No")
              && records[i].formas == r.participants[i].forms.GetOr("")
    ensures forall i :: 0 <= i < |records| ==>
              && (records[i].combate == "" <== r.participants[i].combat.GetOr([]) == [])
              && (records[i].formasConArmas == "" <== r.participants[i].weapons.GetOr([]) == [])
              && (r.participants[i].combat.Some? ==> records[i].combate == Text.Join(r.participants[i].combat.value, ", "))
              && (r.participants[i].weapons.Some? ==> records[i].formasConArmas == Text.Join(r.participants[i].weapons.value, ", "))
    ensures forall i :: 0 <= i < |records| ==>
              && records[i].fechaRegistro == clock[i].localeDate
              && records[i].timestamp == clock[i].isoTimestamp
              && records[i].idRegistro == "REG_" + Text.DecimalString(clock[i].epochMillis) + "_P" + Text.DecimalString(i + 1)
  {
    seq(|r.participants|, i requires 0 <= i < |r.participants| => ToRecord(r, r.participants[i], i, clock[i]))
  }

  /** Every row of a submission carries the same school block. */
  lemma NormaliseSchoolUniform(r: Registration, clock: seq<ClockReading>, i: nat, j: nat)
    requires |clock| == |r.participants|
    requires i < |r.participants| && j < |r.participants|
    ensures var records := Normalise(r, clock);
      (records[i].escuela, records[i].estiloArteMarcial, records[i].nombreMaestro, records[i].apellidoMaestro, records[i].localidad)
      == (records[j].escuela, records[j].estiloArteMarcial, records[j].nombreMaestro, records[j].apellidoMaestro, records[j].localidad)
  {
  }

  /** No two rows of one submission share a registration ID, whatever the
      clock read for each row. */
  lemma NormaliseIdsDistinct(r: Registration, clock: seq<ClockReading>, i: nat, j: nat)
    requires |clock| == |r.participants|
    requires i < j < |r.participants|
    ensures Normalise(r, clock)[i].idRegistro != Normalise(r, clock)[j].idRegistro
  {
    var records := Normalise(r, clock);
    if records[i].idRegistro == records[j].idRegistro {
      RegistrationIdInjective(clock[i].epochMillis, i + 1, clock[j].epochMillis, j + 1);
    }
  }

  /** Submitting: the rows are built only when the schema accepts the form,
      and then every row carries values the schema allows. */
  function Submit(r: Registration, clock: seq<ClockReading>): (sent: Option<seq<ExportRecord>>)
    requires |clock| == |r.participants|
    ensures sent.Some? <==> Valid(r)
    ensures sent.Some? ==> sent.value == Normalise(r, clock)
    ensures sent.Some? ==> |sent.value| == |r.participants|
    ensures sent.Some? ==> forall i :: 0 <= i < |sent.value| ==>
              && Text.Utf16Length(sent.value[i].escuela) >= MinTextLength
              && Text.Utf16Length(sent.value[i].nombreParticipante) >= MinTextLength
              && Text.Utf16Length(sent.value[i].apellidoParticipante) >= MinTextLength
              && MinAge <= sent.value[i].edad <= MaxAge
              && sent.value[i].grado in Grades
              && sent.value[i].categoria in Categories
              && sent.value[i].formas in FormsOptions
  {
    if Valid(r) then
      var records := Normalise(r, clock);
      assert forall i :: 0 <= i < |records| ==> ValidParticipant(r.participants[i]);
      assert "" in FormsOptions;
      Some(records)
    else None
  }

  /** The schema counts UTF-16 code units and accepts any number in range:
      a name of one character outside the Basic Multilingual Plane and a
      fractional age both pass. */
  lemma SchemaAdmitsAstralNameAndFractionalAge(ch: char)
    requires !Text.InBmp(ch)
    ensures ValidParticipant(Participant([ch], "Li", 3.5, "Dan", "Infantil", None, None, None, None))
  {
    Text.AstralCharLength(ch);
    assert Text.Utf16Length("Li") == 2 by {
      assert Text.InBmp('L') && Text.InBmp('i');
    }
  }

  // ----- participant list -----

  /** The entry added by "Agregar Competidor", also the form's single initial participant. */
  const DefaultParticipant := Participant("", "", 0.0, "Kyu A", "Infantil", Some(""), Some([]), Some([]), Some(false))

  const InitialParticipants: seq<Participant> := [DefaultParticipant]

  /** A freshly added participant must still be filled in before the form is accepted. */
  lemma DefaultParticipantRejected()
    ensures ParticipantIssues(0, DefaultParticipant) == [InParticipant(0, Name), InParticipant(0, LastName), InParticipant(0, Age)]
  {
  }

  /** The "Eliminar" button is rendered only while more than one participant remains. */
  predicate RemoveOffered(participants: seq<Participant>) {
    |participants| > 1
  }

  datatype ListAction = AddParticipant | RemoveParticipant(index: nat)

  /** The participant list after a click; clicking a button that is not
      rendered changes nothing. */
  function ApplyListAction(participants: seq<Participant>, action: ListAction): (r: seq<Participant>)
    ensures action.AddParticipant? ==> r == participants + [DefaultParticipant]
    ensures action.RemoveParticipant? && RemoveOffered(participants) && action.index < |participants| ==>
              (&& |r| == |participants| - 1
               && r[..action.index] == participants[..action.index]
               && r[action.index..] == participants[action.index + 1..])
    ensures action.RemoveParticipant? && !RemoveOffered(participants) ==> r == participants
    ensures |participants| >= 1 ==> |r| >= 1
  {
    match action
    case AddParticipant => FieldArray.Append(participants, DefaultParticipant)
    case RemoveParticipant(i) =>
      if RemoveOffered(participants) && i < |participants| then FieldArray.RemoveAt(participants, i)
      else participants
  }

  /** The participant list after a sequence of clicks. */
  function ApplyListActions(participants: seq<Participant>, actions: seq<ListAction>): (r: seq<Participant>)
    ensures |participants| >= 1 ==> |r| >= 1
    decreases |actions|
  {
    if |actions| == 0 then participants
    else ApplyListActions(ApplyListAction(participants, actions[0]), actions[1..])
  }

  /** Through the form's buttons the participant list never becomes empty. */
  lemma ParticipantsNeverEmpty(actions: seq<ListAction>)
    ensures |ApplyListActions(InitialParticipants, actions)| >= 1
  {
  }

  // ----- combat and weapons checkboxes -----

  datatype ListField = Combat | Weapons

  /** The participant after the checkbox for `option` in the `list` group
      changes to `checked`: that group follows the checkbox toggle, every
      other field is unchanged. */
  function ToggleOption(p: Participant, list: ListField, option: string, checked: bool): (q: Participant)
    ensures q.(combat := p.combat, weapons := p.weapons) == p
    ensures list.Combat? ==> q.weapons == p.weapons && MultiSelect.IsChecked(q.combat, option) == checked
    ensures list.Weapons? ==> q.combat == p.combat && MultiSelect.IsChecked(q.weapons, option) == checked
    ensures list.Combat? && checked ==> q.combat == Some(p.combat.GetOr([]) + [option])
    ensures list.Weapons? && checked ==> q.weapons == Some(p.weapons.GetOr([]) + [option])
    ensures list.Combat? && !checked && p.combat.Some? ==> q.combat == Some(MultiSelect.Without(p.combat.value, option))
    ensures list.Weapons? && !checked && p.weapons.Some? ==> q.weapons == Some(MultiSelect.Without(p.weapons.value, option))
    ensures list.Combat? && !checked && p.combat.None? ==> q.combat.None?
    ensures list.Weapons? && !checked && p.weapons.None? ==> q.weapons.None?
  {
    match list
    case Combat => p.(combat := MultiSelect.Toggle(p.combat, option, checked))
    case Weapons => p.(weapons := MultiSelect.Toggle(p.weapons, option, checked))
  }
}

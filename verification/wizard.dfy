/** The three-step registration wizard: its step counter, the log of
    completed steps, the navigation buttons, category selection and the CSV
    file offered for download on completion. */
module Wizard {
  import opened Options
  import Text

  const FirstStep := 1
  const LastStep := 3

  datatype PersonalInfo = PersonalInfo(nombre: string, apellido: string, edad: string, telefono: string, email: string)
  datatype CompetitionInfo = CompetitionInfo(escuela: string, categoria: string, experiencia: string)
  datatype Additional = Additional(emergencyContact: string, medicalInfo: string, agreement: bool)
  datatype FormData = FormData(personalInfo: PersonalInfo, competitionInfo: CompetitionInfo, additional: Additional)

  datatype State = State(currentStep: int, data: FormData, completedSteps: seq<int>)

  /** The category buttons of step 2. */
  const Categories: seq<string> := [
    "Formas Tradicionales - Chinas",
    "Formas Tradicionales - Coreanas",
    "Formas Tradicionales - Japonesas",
    "Formas con Armas",
    "Combate por Puntos / Kick Boxing",
    "Tai Chi"
  ]

  const EmptyData := FormData(PersonalInfo("", "", "", "", ""), CompetitionInfo("", "", ""), Additional("", "", false))
  const Initial := State(FirstStep, EmptyData, [])

  /** What every reachable state satisfies: the step is one of the three and
      every logged step is one of the three. */
  predicate Inv(s: State) {
    && FirstStep <= s.currentStep <= LastStep
    && forall k :: 0 <= k < |s.completedSteps| ==> FirstStep <= s.completedSteps[k] <= LastStep
  }

  // ----- step handlers -----

  /** `nextStep`: below the last step, log the current step as completed and advance. */
  function NextStep(s: State): (t: State)
    ensures t.data == s.data
    ensures s.currentStep < LastStep ==> t.currentStep == s.currentStep + 1 && t.completedSteps == s.completedSteps + [s.currentStep]
    ensures s.currentStep >= LastStep ==> t == s
    ensures Inv(s) ==> Inv(t)
  {
    if s.currentStep < LastStep then
      s.(completedSteps := s.completedSteps + [s.currentStep], currentStep := s.currentStep + 1)
    else s
  }

  /** `prevStep`: above the first step, go back one; the log is never touched. */
  function PrevStep(s: State): (t: State)
    ensures t.data == s.data && t.completedSteps == s.completedSteps
    ensures s.currentStep > FirstStep ==> t.currentStep == s.currentStep - 1
    ensures s.currentStep <= FirstStep ==> t == s
    ensures Inv(s) ==> Inv(t)
  {
    if s.currentStep > FirstStep then s.(currentStep := s.currentStep - 1) else s
  }

  // ----- CSV export -----

  /** The values written to the CSV, in row order. */
  function FieldValues(d: FormData): (values: seq<string>)
    ensures |values| == 10
  {
    [d.personalInfo.nombre, d.personalInfo.apellido, d.personalInfo.edad, d.personalInfo.telefono,
     d.personalInfo.email, d.competitionInfo.escuela, d.competitionInfo.categoria,
     d.competitionInfo.experiencia, d.additional.emergencyContact, d.additional.medicalInfo]
  }

  /** The field names written in the first column, in row order. */
  const FieldNames: seq<string> := [
    "Nombre", "Apellido", "Edad", "Teléfono", "Email", "Escuela", "Categoría",
    "Experiencia", "Contacto de Emergencia", "Información Médica"
  ]

  /** No field name contains a comma or a newline. */
  lemma FieldNamesPlain()
    ensures forall i :: 0 <= i < |FieldNames| ==> ',' !in FieldNames[i] && '\n' !in FieldNames[i]
  {
  }

  /** The CSV table: a header row, then one `[name, value]` row per field. */
  function CsvRows(d: FormData): (rows: seq<seq<string>>)
    ensures |rows| == 11 && rows[0] == ["Campo", "Valor"]
    ensures forall i :: 1 <= i < 11 ==> rows[i] == [FieldNames[i - 1], FieldValues(d)[i - 1]]
  {
    var v := FieldValues(d);
    [["Campo", "Valor"]] + seq(10, i requires 0 <= i < 10 => [FieldNames[i], v[i]])
  }

  /** Every row as its cells joined by ",". */
  function CsvLines(rows: seq<seq<string>>): (lines: seq<string>)
    ensures |lines| == |rows|
    ensures forall i :: 0 <= i < |rows| ==> lines[i] == Text.Join(rows[i], ",")
  {
    seq(|rows|, i requires 0 <= i < |rows| => Text.Join(rows[i], ","))
  }

  /** The file contents: the rows joined by newlines, with no quoting. */
  function CsvContent(d: FormData): string {
    Text.Join(CsvLines(CsvRows(d)), "\n")
  }

  /** No value contains a comma or a newline. */
  predicate PlainValues(d: FormData) {
    forall i :: 0 <= i < 10 ==> ',' !in FieldValues(d)[i] && '\n' !in FieldValues(d)[i]
  }

  /** When no value contains a newline, splitting the file at newlines gives
      back its lines. */
  lemma CsvLinesRecovered(d: FormData)
    requires forall i :: 0 <= i < 10 ==> '\n' !in FieldValues(d)[i]
    ensures Text.Split(CsvContent(d), '\n') == CsvLines(CsvRows(d))
  {
    var rows := CsvRows(d);
    var lines := CsvLines(rows);
    FieldNamesPlain();
    forall i | 0 <= i < 11 ensures '\n' !in lines[i] {
      assert |rows[i]| == 2;
      assert '\n' !in rows[i][0] && '\n' !in rows[i][1];
      assert lines[i] == rows[i][0] + "," + rows[i][1];
    }
    Text.SplitJoinChar(lines, '\n');
  }

  /** A two-cell row free of commas splits back into its cells. */
  lemma RowRoundTrip(row: seq<string>)
    requires |row| == 2 && ',' !in row[0] && ',' !in row[1]
    ensures Text.Split(Text.Join(row, ","), ',') == row
  {
    Text.SplitJoinChar(row, ',');
  }

  /** When no value contains a comma or newline, the file has exactly eleven
      lines and each line splits back into its field name and value. */
  lemma CsvRoundTrip(d: FormData)
    requires PlainValues(d)
    ensures var lines := Text.Split(CsvContent(d), '\n');
      && |lines| == 11
      && forall i :: 0 <= i < 11 ==> Text.Split(lines[i], ',') == CsvRows(d)[i]
  {
    CsvLinesRecovered(d);
    var rows := CsvRows(d);
    var lines := CsvLines(rows);
    FieldNamesPlain();
    forall i | 0 <= i < 11
      ensures Text.Split(lines[i], ',') == rows[i]
    {
      RowRoundTrip(rows[i]);
    }
  }

  /** Without quoting, a medical note holding one comma (as its input's
      placeholder, "Alergias, medicamentos, etc.", invites) spills into a third
      column of the last line. */
  lemma CsvCommaSplitsRow(d: FormData, before: string, after: string)
    requires forall i :: 0 <= i < 10 ==> '\n' !in FieldValues(d)[i]
    requires d.additional.medicalInfo == before + [','] + after
    requires ',' !in before && ',' !in after
    ensures var lines := Text.Split(CsvContent(d), '\n');
      |lines| == 11 && Text.Split(lines[10], ',') == ["Información Médica", before, after]
  {
    CsvLinesRecovered(d);
    var name := "Información Médica";
    var rows := CsvRows(d);
    assert rows[10] == [name, d.additional.medicalInfo];
    var line := CsvLines(rows)[10];
    assert line == name + [','] + (before + [','] + after);
    assert ',' !in name;
    Text.SplitAtFirst(name, before + [','] + after, ',');
    Text.SplitAtFirst(before, after, ',');
    Text.SplitWithout(after, ',');
  }

  /** The download name `inscripcion_torneo_<nombre>_<apellido>.csv`. */
  function FileName(d: FormData): (name: string)
    ensures "inscripcion_torneo_" <= name
    ensures |name| == 19 + |d.personalInfo.nombre| + 1 + |d.personalInfo.apellido| + 4
    ensures name[19..19 + |d.personalInfo.nombre|] == d.personalInfo.nombre
    ensures name[|name| - 4 - |d.personalInfo.apellido|..|name| - 4] == d.personalInfo.apellido
    ensures name[|name| - 4..] == ".csv"
  {
    "inscripcion_torneo_" + d.personalInfo.nombre + "_" + d.personalInfo.apellido + ".csv"
  }

  datatype Download = Download(fileName: string, content: string)

  /** `handleSubmit`: log the current step as completed and produce the file. */
  function HandleSubmit(s: State): (r: (State, Download))
    ensures r.0.currentStep == s.currentStep && r.0.data == s.data
    ensures r.0.completedSteps == s.completedSteps + [s.currentStep]
    ensures r.1.fileName == FileName(s.data) && r.1.content == CsvContent(s.data)
    ensures Inv(s) ==> Inv(r.0)
  {
    (s.(completedSteps := s.completedSteps + [s.currentStep]), Download(FileName(s.data), CsvContent(s.data)))
  }

  // ----- user actions -----

  /** The text inputs; each is rendered on one step only. */
  datatype TextField =
    | Nombre | Apellido | Edad | Telefono | Email
    | Escuela | Experiencia
    | EmergencyContact | MedicalInfo

  function FieldStep(f: TextField): int {
    match f
    case Nombre | Apellido | Edad | Telefono | Email => 1
    case Escuela | Experiencia => 2
    case EmergencyContact | MedicalInfo => 3
  }

  /** The current text of input `f`. */
  function FieldValue(d: FormData, f: TextField): string {
    match f
    case Nombre => d.personalInfo.nombre
    case Apellido => d.personalInfo.apellido
    case Edad => d.personalInfo.edad
    case Telefono => d.personalInfo.telefono
    case Email => d.personalInfo.email
    case Escuela => d.competitionInfo.escuela
    case Experiencia => d.competitionInfo.experiencia
    case EmergencyContact => d.additional.emergencyContact
    case MedicalInfo => d.additional.medicalInfo
  }

  /** The input's `onChange`: input `f` now holds `v`; every other input,
      the chosen category and the terms checkbox keep their values. */
  function SetField(d: FormData, f: TextField, v: string): (r: FormData)
    ensures FieldValue(r, f) == v
    ensures forall g :: g != f ==> FieldValue(r, g) == FieldValue(d, g)
    ensures r.competitionInfo.categoria == d.competitionInfo.categoria
    ensures r.additional.agreement == d.additional.agreement
  {
    match f
    case Nombre => d.(personalInfo := d.personalInfo.(nombre := v))
    case Apellido => d.(personalInfo := d.personalInfo.(apellido := v))
    case Edad => d.(personalInfo := d.personalInfo.(edad := v))
    case Telefono => d.(personalInfo := d.personalInfo.(telefono := v))
    case Email => d.(personalInfo := d.personalInfo.(email := v))
    case Escuela => d.(competitionInfo := d.competitionInfo.(escuela := v))
    case Experiencia => d.(competitionInfo := d.competitionInfo.(experiencia := v))
    case EmergencyContact => d.(additional := d.additional.(emergencyContact := v))
    case MedicalInfo => d.(additional := d.additional.(medicalInfo := v))
  }

  datatype Action =
    | ClickNext
    | ClickPrev
    | ClickSubmit
    | SelectCategory(index: nat)
    | Edit(field: TextField, value: string)
    | SetAgreement(checked: bool)

  /** "Siguiente" is rendered below the last step; on the last step it is
      replaced by "Completar Inscripción", enabled only once the terms are accepted. */
  predicate NextOffered(s: State) {
    s.currentStep < LastStep
  }

  predicate SubmitEnabled(s: State) {
    s.currentStep >= LastStep && s.data.additional.agreement
  }

  /** "Anterior" is disabled on the first step. */
  predicate PrevEnabled(s: State) {
    s.currentStep != FirstStep
  }

  datatype Outcome = Outcome(state: State, download: Option<Download>)

  /** The state after one user action. Clicks on buttons that are hidden or
      disabled, and input into fields of another step, change nothing. */
  function Apply(s: State, a: Action): (o: Outcome)
    ensures Inv(s) ==> Inv(o.state)
    ensures s.completedSteps <= o.state.completedSteps
    ensures o.download.Some? <==> a.ClickSubmit? && SubmitEnabled(s)
    ensures o.download.Some? ==> s.currentStep == LastStep || !Inv(s)
    ensures !a.ClickNext? && !a.ClickSubmit? ==> o.state.completedSteps == s.completedSteps
    ensures a.ClickNext? ==> o.state == NextStep(s)
    ensures a.ClickPrev? ==> o.state == PrevStep(s)
    ensures a.ClickSubmit? && SubmitEnabled(s) ==>
              o.state == HandleSubmit(s).0 && o.download == Some(HandleSubmit(s).1)
    ensures a.ClickSubmit? && !SubmitEnabled(s) ==> o.state == s
    ensures a.Edit? && s.currentStep == FieldStep(a.field) ==>
              o.state == s.(data := SetField(s.data, a.field, a.value))
    ensures a.Edit? && s.currentStep != FieldStep(a.field) ==> o.state == s
    ensures a.SetAgreement? && s.currentStep == LastStep ==>
              && o.state == s.(data := s.data.(additional := s.data.additional.(agreement := a.checked)))
              && SubmitEnabled(o.state) == a.checked
    ensures a.SetAgreement? && s.currentStep != LastStep ==> o.state == s
    ensures a.SelectCategory? && s.currentStep == 2 && a.index < |Categories| ==>
              o.state == s.(data := s.data.(competitionInfo := s.data.competitionInfo.(categoria := Categories[a.index])))
    ensures a.SelectCategory? && !(s.currentStep == 2 && a.index < |Categories|) ==> o.state == s
    ensures a.SelectCategory? ==>
              (o.state.data.competitionInfo.categoria == s.data.competitionInfo.categoria
               || o.state.data.competitionInfo.categoria in Categories)
  {
    match a
    case ClickNext =>
      Outcome(if NextOffered(s) then NextStep(s) else s, None)
    case ClickPrev =>
      Outcome(if PrevEnabled(s) then PrevStep(s) else s, None)
    case ClickSubmit =>
      if SubmitEnabled(s) then
        var (t, file) := HandleSubmit(s);
        Outcome(t, Some(file))
      else Outcome(s, None)
    case SelectCategory(i) =>
      if s.currentStep == 2 && i < |Categories| then
        Outcome(s.(data := s.data.(competitionInfo := s.data.competitionInfo.(categoria := Categories[i]))), None)
      else Outcome(s, None)
    case Edit(f, v) =>
      Outcome(if s.currentStep == FieldStep(f) then s.(data := SetField(s.data, f, v)) else s, None)
    case SetAgreement(b) =>
      Outcome(if s.currentStep == LastStep then s.(data := s.data.(additional := s.data.additional.(agreement := b))) else s, None)
  }

  /** The state after a sequence of actions, with the files downloaded on the way. */
  function Run(s: State, actions: seq<Action>): (r: (State, seq<Download>))
    ensures Inv(s) ==> Inv(r.0)
    ensures s.completedSteps <= r.0.completedSteps
    ensures |r.1| <= |actions|
    decreases |actions|
  {
    if |actions| == 0 then (s, [])
    else
      var o := Apply(s, actions[0]);
      var (t, files) := Run(o.state, actions[1..]);
      (t, (if o.download.Some? then [o.download.value] else []) + files)
  }

  /** From the initial state every reachable step is 1, 2 or 3, and the log only grows. */
  lemma ReachableStates(actions: seq<Action>)
    ensures Inv(Run(Initial, actions).0)
  {
  }
}

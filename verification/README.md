# Tournament registration logic, modelled in Dafny

The site of the Long Hu He martial-arts tournament is mostly presentation, but
five of its React components carry small, pure pieces of logic. This project
lifts each one out as a pure Dafny function over immutable datatypes and proves
what the components promise about them:

- **MartialArtsForm** (`components/martial-arts-registration-form.tsx`): the zod
  acceptance schema for the school block and its participants, the export
  normaliser that turns one submission into one spreadsheet row per
  participant, the participant list (whose "Eliminar" button only appears while
  more than one participant remains) and the combat / weapons checkbox groups.
- **RegistrationForm** (`components/registration-form.tsx`): the second form's
  schema (with DNI and lower-case age categories), its three checkbox groups and
  capitalised labels, and its competitor list (which can be emptied).
- **Wizard** (`components/immersive-registration-wizard.tsx`): the three-step
  wizard's step counter, completed-steps log, navigation buttons, category
  buttons, and the CSV file and file name produced on completion.
- **Countdown** (`components/advanced-countdown.tsx`): one tick of the countdown,
  splitting the millisecond difference into days, hours, minutes and seconds,
  and the two-digit rendering of each.
- **Bracket** (`components/interactive-tournament-bracket.tsx`): the category
  filter of the competitors grid, its empty-state message and avatar initials.

Shared modules: `Options` (optional properties), `Seqs` (`Array.filter` and the
subsequence relation), `Text` (`join`, `split`, decimal rendering and parsing,
`padStart`), `MultiSelect` (the checkbox-group toggle both forms use) and
`FieldArray` (the form list's `append` / `remove`).

Clock readings, the countdown target and "now" are parameters. Where the
normaliser reads the clock (the local date, the ISO timestamp and
`Date.now()`), it reads it anew for every row, so the model takes one
`ClockReading` per participant; the registration IDs are proved pairwise
distinct regardless of what the clock returns.

No component derives the age category from the age: both forms take the
age as a number and the category as a separate choice, and the model keeps
them independent. The exported school column is `Escuela`. Every row gets
its own registration ID, `REG_<millis>_P<n>`, where `n` is the participant's
position counted from 1.

String lengths in both schemas are JavaScript lengths, counted in UTF-16 code
units (`Text.Utf16Length`), and ages are real numbers, since neither schema
requires an integer.

## Model

| member | source | states |
|---|---|---|
| MartialArtsForm.Issues | components/martial-arts-registration-form.tsx:23-58 | The form is accepted exactly when no field fails: the five school fields need at least two UTF-16 code units and every participant must pass; every participant issue points at an existing participant |
| MartialArtsForm.ParticipantsIssues | components/martial-arts-registration-form.tsx:39-57 | The participant array yields no issue exactly when every participant passes; each issue names a participant of the array |
| MartialArtsForm.ParticipantIssues | components/martial-arts-registration-form.tsx:40-56 | A participant passes exactly when name and last name have at least two UTF-16 code units, 3 <= age <= 99 for any real age (fractions included), grade is Kyu A / Kyu B / Dan, category is Infantil / Juvenil / Adulto / Senior and forms, when present, is one of the five styles or empty |
| MartialArtsForm.Normalise | components/martial-arts-registration-form.tsx:92-111 | One row per participant in input order, numbered from 1; the school fields copied verbatim into every row; name, last name, age, grade and category of row i are those of participant i; exhibition is "Sí" exactly when the flag is true, else "No"; forms defaults to ""; combat and weapons are the ", "-joins, "" when absent or empty; the ID is REG_<millis>_P<i+1> |
| MartialArtsForm.NormaliseSchoolUniform | components/martial-arts-registration-form.tsx:94-98 | All rows of one submission carry the same school, style, teacher and locality |
| MartialArtsForm.NormaliseIdsDistinct | components/martial-arts-registration-form.tsx:110 | No two rows of one submission share a registration ID, whatever the clock reads per row |
| MartialArtsForm.RegistrationId | components/martial-arts-registration-form.tsx:110 | The ID starts with REG_ and splits at underscores into REG, the clock value's digits and P followed by the participant number |
| MartialArtsForm.RegistrationIdInjective | components/martial-arts-registration-form.tsx:110 | Equal IDs come only from the same clock value and the same participant number |
| MartialArtsForm.ExhibitionText | components/martial-arts-registration-form.tsx:105 | The exhibition cell is "Sí" exactly when the flag is present and true, otherwise "No" |
| MartialArtsForm.TextOrEmpty | components/martial-arts-registration-form.tsx:106 | The forms cell is the chosen forms value, or "" when none was chosen |
| MartialArtsForm.ListText | components/martial-arts-registration-form.tsx:107-108 | A multi-select cell is "" for an absent or empty list, the option itself for one option, and splitting it at ", " gives back the options when none contains a comma |
| MartialArtsForm.Submit | components/martial-arts-registration-form.tsx:142 | Rows are produced exactly when the schema accepts the form; they are then exactly the normalised rows of the submission, and every row carries schema-allowed grade, category, forms, age and name lengths |
| MartialArtsForm.SchemaAdmitsAstralNameAndFractionalAge | components/martial-arts-registration-form.tsx:41-43 | A participant named by one character outside the Basic Multilingual Plane, aged 3.5, passes the schema |
| MartialArtsForm.DefaultParticipantRejected | components/martial-arts-registration-form.tsx:519-529 | A freshly added participant fails on name, last name and age until filled in |
| MartialArtsForm.ApplyListAction | components/martial-arts-registration-form.tsx:230-240 | "Agregar" appends the default participant at the end; "Eliminar" removes exactly the chosen participant only while more than one remains, otherwise nothing changes; a non-empty list stays non-empty |
| MartialArtsForm.ApplyListActions | components/martial-arts-registration-form.tsx:515-534 | Any sequence of clicks keeps a non-empty participant list non-empty |
| MartialArtsForm.ParticipantsNeverEmpty | components/martial-arts-registration-form.tsx:69-81 | Starting from the single initial participant, the list is never emptied through the form |
| MartialArtsForm.ToggleOption | components/martial-arts-registration-form.tsx:433-442 | Toggling a combat (or, identically, weapons) checkbox changes only that list; the option is then selected exactly when checked; checking appends it at the end, unchecking filters it out, and unchecking an absent list leaves it absent |
| MultiSelect.Toggle | components/martial-arts-registration-form.tsx:485-494 | Checking appends the option at the end and keeps the rest; unchecking removes every occurrence, keeps every other entry with its count and in order, and keeps an absent list absent; the box then reads as checked exactly when it was checked |
| MultiSelect.Without | components/martial-arts-registration-form.tsx:438-440 | The filtered list lacks the option, is an order-preserving subsequence, keeps every other entry's count, and is the list itself when the option was absent |
| MultiSelect.ToggleLeavesOthers | components/registration-form.tsx:382-391 | Toggling one checkbox leaves every other checkbox of the group in its state |
| MultiSelect.CheckThenUncheck | components/registration-form.tsx:333-341 | Checking an unchecked box and unchecking it again restores the selection |
| RegistrationForm.Issues | components/registration-form.tsx:23-54 | The form is accepted exactly when no field fails: school name, style, master's full name and location need at least two UTF-16 code units and every competitor must pass; every competitor issue points at an existing competitor |
| RegistrationForm.CompetitorsIssues | components/registration-form.tsx:36-53 | The competitor array yields no issue exactly when every competitor passes; each issue names a competitor of the array |
| RegistrationForm.CompetitorIssues | components/registration-form.tsx:37-52 | A competitor passes exactly when name and last name have at least two UTF-16 code units, the DNI at least seven, 3 <= age <= 99 for any real age (fractions included), the rank is Kyu A / Kyu B / Dan and the category is one of the lower-case infantil / juvenil / adulto / senior |
| RegistrationForm.ToggleItem | components/registration-form.tsx:433-441 | Toggling an item of one of the three groups changes only that group, leaves the other items' boxes as they were, and the item is then selected exactly when checked; checking appends, unchecking filters, and an absent list stays absent when unchecked |
| RegistrationForm.Label | components/registration-form.tsx:345 | The label has the item's length, its first character upper-cased and the rest unchanged |
| RegistrationForm.LabelRoundTrip | components/registration-form.tsx:395 | Lower-casing the label's first character gives back the item when the item does not start with a capital |
| RegistrationForm.FormsLabels | components/registration-form.tsx:319 | The forms group shows "Tai chi" and "Modernas" for "tai chi" and "modernas" |
| RegistrationForm.ApplyListAction | components/registration-form.tsx:159-167 | "Agregar" appends the default competitor; "Eliminar" removes exactly the chosen competitor whatever the list's length |
| RegistrationForm.RemoveCanEmpty | components/registration-form.tsx:64 | From the empty initial list, adding one competitor and removing it empties the list again |
| RegistrationForm.DefaultCompetitorRejected | components/registration-form.tsx:486-498 | A freshly added competitor fails on name, last name, DNI and age until filled in |
| FieldArray.Append | components/martial-arts-registration-form.tsx:519 | Appending keeps the list as a prefix and puts the new entry last |
| FieldArray.RemoveAt | components/martial-arts-registration-form.tsx:235 | Removing keeps earlier entries in place and moves later ones up by one |
| FieldArray.RemoveAppended | components/registration-form.tsx:163 | Removing the entry just appended gives back the list |
| Wizard.NextStep | components/immersive-registration-wizard.tsx:55-64 | Below step 3 the current step is logged as completed and the step advances by one; at step 3 nothing changes; steps stay within 1..3 |
| Wizard.PrevStep | components/immersive-registration-wizard.tsx:66-70 | Above step 1 the step goes back by one, the completed log never changes, steps stay within 1..3 |
| Wizard.HandleSubmit | components/immersive-registration-wizard.tsx:72-102 | Submitting logs the current step as completed, keeps the step and form data, and produces the CSV content under the composed file name |
| Wizard.Apply | components/immersive-registration-wizard.tsx:401-433 | Every click or edit keeps steps within 1..3 and only extends the completed log; "Siguiente" performs nextStep and "Anterior" prevStep; a file is produced exactly when the enabled submit button is clicked (step 3, terms accepted), and it is then handleSubmit's file and state; a disabled submit changes nothing; typing changes only the typed input and only on that input's step; the terms box works on step 3 only, changes nothing but the agreement, and enables submit exactly when ticked; choosing a category at step 2 sets exactly that label and nothing else, and a category click anywhere else changes nothing |
| Wizard.SetField | components/immersive-registration-wizard.tsx:164-171 | After typing, the input holds the typed text and every other input, the category and the terms box keep their values |
| Wizard.Run | components/immersive-registration-wizard.tsx:38-70 | Over any sequence of actions the step stays within 1..3 and the completed log is append-only |
| Wizard.ReachableStates | components/immersive-registration-wizard.tsx:38 | Every state reachable from the initial one has its step and logged steps within 1..3 |
| Wizard.CsvRows | components/immersive-registration-wizard.tsx:80-92 | The table has 11 rows: the Campo/Valor header, then the ten fields in fixed order, each as name and value; `CsvContent` joins the rows' comma-joined lines with newlines (line 94), which the next three rows are about |
| Wizard.CsvLinesRecovered | components/immersive-registration-wizard.tsx:94 | With no newline in any value, splitting the file at newlines gives back its lines |
| Wizard.CsvRoundTrip | components/immersive-registration-wizard.tsx:94 | With no comma or newline in any value, the file has exactly 11 lines and each splits back into its field name and value |
| Wizard.CsvCommaSplitsRow | components/immersive-registration-wizard.tsx:91-94 | A medical note holding a comma, as its placeholder invites, makes the last line split into three cells, since nothing is quoted |
| Wizard.FileName | components/immersive-registration-wizard.tsx:99 | The file name is inscripcion_torneo_, the first name, an underscore, the last name and .csv |
| Countdown.Decompose | components/advanced-countdown.tsx:24-27 | Hours within 0..23, minutes and seconds within 0..59, and the parts account for the difference up to less than one second |
| Countdown.DecomposeMonotone | components/advanced-countdown.tsx:24-27 | A larger difference never gives a lexicographically smaller (days, hours, minutes, seconds) |
| Countdown.DecomposeSameSecond | components/advanced-countdown.tsx:24-27 | Two differences give the same parts exactly when they fall in the same whole second |
| Countdown.Tick | components/advanced-countdown.tsx:19-36 | While the target is ahead, four units labelled Días, Horas, Min, Seg with in-range values that reconstruct the difference to the second; otherwise the previous units are kept |
| Countdown.Render | components/advanced-countdown.tsx:85 | At least two digits, a leading zero exactly below ten, the plain numeral from ten on, and the digits read back as the value |
| Text.TwoDigits | components/advanced-countdown.tsx:85 | padStart(2, "0") of a count's numeral is at least two digits long, starts with '0' exactly below ten, and parses back to the count |
| Text.DecimalString | components/advanced-countdown.tsx:85 | A count's numeral is a non-empty run of digits with no leading zero for counts from one on |
| Text.Utf16Length | components/registration-form.tsx:24-40 | The JavaScript length of a string lies between its character count and twice that |
| Text.Utf16LengthBmp | components/registration-form.tsx:24-40 | The JavaScript length equals the character count exactly when every character lies in the Basic Multilingual Plane |
| Text.Utf16LengthAppend | components/registration-form.tsx:24-40 | The JavaScript length of a concatenation is the sum of the lengths |
| Text.ParseDecimalString | components/advanced-countdown.tsx:85 | A rendered non-negative integer parses back to itself |
| Text.DecimalStringInjective | components/martial-arts-registration-form.tsx:110 | Distinct numbers render as distinct numerals |
| Text.Join | components/martial-arts-registration-form.tsx:107 | Joining no parts gives "", one part gives the part, and the first part always begins the result |
| Text.UnjoinJoin | components/martial-arts-registration-form.tsx:107-108 | Splitting a join at the separator's first character and dropping the rest of the separator gives back the parts when no part contains that character |
| Text.SplitJoinChar | components/immersive-registration-wizard.tsx:94 | With a one-character separator absent from every part, splitting the join gives back the parts |
| Bracket.Filtered | components/interactive-tournament-bracket.tsx:29-30 | "all" shows the list unchanged; any other category shows only competitors of that category, every one of them with its multiplicity, as an order-preserving subsequence |
| Bracket.FilteredIdempotent | components/interactive-tournament-bracket.tsx:29-30 | Filtering what is shown again with the same category changes nothing |
| Bracket.EmptyStateIff | components/interactive-tournament-bracket.tsx:114-118 | The empty-state message shows exactly when nobody matches: an empty list under "all", no competitor of the category otherwise |
| Bracket.MockNeverEmpty | components/interactive-tournament-bracket.tsx:14-27 | With the built-in competitor list every filter button shows somebody |
| Bracket.Initial | components/interactive-tournament-bracket.tsx:90 | The avatar initial is at most one character, empty exactly for an empty name, and is the name's first character |

## Left out

- The POST of the rows to the spreadsheet script, the success / failure alerts and the form reset after success: network I/O.
- The competitors proxy route (`app/api/competitors/route.ts`): network I/O.
- The clock itself: `new Date()`, `Date.now()`, `toLocaleDateString`, `toISOString` and the countdown target's local-time parse are inputs (`ClockReading`, `target`, `now`).
- zod and react-hook-form internals: coercion of the age input, resolver wiring, field registration and the error messages. Only the accept / reject outcome and the failing field paths are modelled.
- Ages are real numbers in both forms: every number the age inputs can produce is one, and the NaN and infinite values JavaScript also has are not represented (the number inputs never produce them, and zod would reject them).
- Bracket.Initial: the initial is the name's first character, whereas `charAt(0)` returns one UTF-16 code unit, only half of a character outside the Basic Multilingual Plane; the built-in names are ASCII.
- RegistrationForm.Label: upper-casing is modelled for the ASCII letters a-z only (every item of the three lists is ASCII); JavaScript's full Unicode `toUpperCase` is not.
- The wizard's `required` attributes: the inputs are not inside a form element, so nothing enforces them and the model imposes no validation on the wizard's fields.
- The Blob, object URL and anchor click of the wizard's download: DOM side effects; the model returns the file name and content instead.
- Countdown: `setInterval` scheduling and the mounted flag; only one tick's arithmetic is modelled. Millisecond values are unbounded integers; JavaScript doubles are exact for these magnitudes.
- Animations, hover state, step-badge colours, springs, scroll listeners and mouse tracking (hero, logo, header): floating-point visual effects.
- The sound manager and the `playSuccessSound` calls: Web Audio side effects.
- Static pages and layout (footer, tournament information, app layout, error and not-found pages).
- The two forms' category spellings (capitalised in one, lower-case in the other) are modelled as written and not reconciled.

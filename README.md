# Course registration form: a Dafny model

This project models the form controller of a single-page course registration
widget (`App` in `src/App.js`). The user picks a course with radio buttons, then
a subject from a drop-down that depends on the course. The user also picks a
start date and may type notes. On submit the form is validated. A valid form
shows a spinner, and after a delay the success dialog opens and the form is
cleared.

The model has six modules:

- `Wrappers` (`wrappers.dfy`): the `Option` type.
- `Strings` (`strings.dfy`): `indexOf`, and `replace` with a one-character
  pattern, which replaces the first occurrence only. It also has
  `toLowerCase` on ASCII letters.
- `Dates` (`dates.dfy`): a date is a (day, month, year) triple. `Format`
  writes the `DD-MM-YYYY` text the component compares with its allow-list.
  `Parse` reads that text back. The round trip `Parse(Format(d)) == Some(d)`
  makes `Format` injective, so the three allowed strings match exactly three
  dates.
- `Subjects` (`subjects.dfy`): the course values, the label list of each
  course, and the option value (slug) of each label. For an unknown course
  the source's `subjectOptions` is `''` (src/App.js:89) and the model gives
  the empty list `[]`. `''` is falsy, so the `subjectOptions &&` guard at
  src/App.js:135 stops there. A `[]` would pass the guard, but mapping it
  renders no option. Either way the drop-down shows only the placeholder.
- `Validation` (`validation.dfy`): the form data, the start-date input, the
  six rules, and the error map they produce. `ValidationErrors` applies the
  rules in source order. The two subject rules (an empty course, a chosen
  course) exclude each other, and so do the two date rules (unset, picked
  but not allowed), so each key gets at most one message. Its contract
  states the result key by key. The lemmas state
  the properties the component relies on.
- `Registration` (`registration.dfy`): the component's state as a class
  `App` with one method per event handler. There are also three client
  methods: `RegisterOnce` runs a full registration, `FinishSubmit` runs the
  pending callback while the spinner is on, and `RejectedSubmit` submits the
  empty form. `FinishSubmit` is the one that relies on the invariant
  `Valid()`: from `submitted` alone it knows a callback is pending.

The start date has three states, because the code tests `startDate === ''`
and the truthiness of `startDate` separately:

- `Unset` is the initial `''`, which `clearFields` restores.
- `Cleared` is the `null` the date picker reports when its text is erased.
- `Picked(d)` is a date.

A `null` date fires neither date rule. The model keeps this:
`Validation.StartDateRule` states it and `Validation.ValidIff` includes it.

Three behaviours of the code are easy to misread, and the model follows the
code in each:

- A missing course gives the "choose any course first" subject message only
  when the subject is also empty (`Validation.NoCourseWithSubject`).
- The completion callback does not touch the error map. It clears only the
  fields and the start date (`Registration.App.OnTimeout`).
- Changing the course does not clear the subject. The subject rule only asks
  that the subject is non-empty, so a subject of another course passes
  (`Validation.StaleSubjectAccepted`).

As in the source, a slug replaces only the first space of its label:
'Desktop Software Development' gives 'desktop-software development'.

## Model

| member | source | states |
|---|---|---|
| `Strings.IndexOf` | src/App.js:136 | The result is the first position of the character: nothing before it is that character. The result is absent exactly when the character does not occur. |
| `Strings.IndexOfAfter` | src/App.js:136 | A character absent from a prefix is found right after that prefix. |
| `Strings.ReplaceFirst` | src/App.js:136 | `replace` with a one-character pattern keeps the length of the string. |
| `Strings.ReplaceFirstAt` | src/App.js:136 | Character by character, only the first occurrence of the pattern becomes the replacement. Later occurrences and all other characters are kept. |
| `Strings.ReplaceFirstAfter` | src/App.js:136 | In `a + [from] + b` with `from` absent from `a`, the result is `a + [to] + b`, and `b` is untouched even if it contains `from`. |
| `Strings.LowerChar` | src/App.js:136 | An ASCII capital becomes the letter 32 code points later. Every other character is kept. |
| `Strings.ToLower` | src/App.js:136 | Lower-casing keeps the length, and each character of the result is its character lowered on its own (`LowerChar`: an ASCII capital becomes its lower-case letter). |
| `Strings.ToLowerConcat` | src/App.js:136 | Lower-casing distributes over concatenation. |
| `Strings.ToLowerProperties` | src/App.js:136 | No capital survives, characters that are not capitals are kept, and lower-casing twice equals lower-casing once. |
| `Dates.ParseFormat` | src/App.js:66 | Reading the `DD-MM-YYYY` text back gives the original day, month and year, for every date. |
| `Dates.Format` | src/App.js:66 | The `DD-MM-YYYY` text of a date; its meaning is given by the round trip `Dates.ParseFormat` and by `Dates.FormatInjective`. |
| `Dates.FormatInjective` | src/App.js:66 | Two dates with the same `DD-MM-YYYY` text are the same date. |
| `Dates.FormatExamples` | src/App.js:13 | The three allowed dates format to the allow-list strings, zero padding included. 1 January 2020 formats to '01-01-2020'. |
| `Dates.AllowedDatesExactly` | src/App.js:66 | A date passes the allow-list exactly when it is 20 Dec 2019, 15 Jan 2020 or 1 Mar 2020. |
| `Dates.IsAllowedDate` | src/App.js:66 | `allowedDates.includes(format(d))`; it holds exactly for the three listed dates, as `Dates.AllowedDatesExactly` states. |
| `Subjects.SubjectOptions` | src/App.js:87-89 | The list is non-empty exactly for the three course values, and then it has three labels. |
| `Subjects.SubjectOptionsExactly` | src/App.js:10-12 | Each course gives its fixed label list in source order. Every other value, the empty string included, gives the empty list. |
| `Subjects.Slug` | src/App.js:136 | A slug has the length of its label. |
| `Subjects.SlugAt` | src/App.js:136 | Character by character, a slug is the lower-cased label, except that the label's first space becomes '-'. Later spaces stay spaces. |
| `Subjects.SlugOfWords` | src/App.js:136 | For a label `first + " " + rest` where `first` has no space, the slug is `lower(first) + "-" + lower(rest)`. |
| `Subjects.SlugDesktopSoftwareDevelopment` | src/App.js:136 | 'Desktop Software Development' gives 'desktop-software development'. |
| `Subjects.OptionValues` | src/App.js:135-137 | There is one option value per label, in label order: the i-th value is the slug of the i-th label, and it has that label's length. |
| `Subjects.OptionValuesExactly` | src/App.js:135-137 | The concrete option values of each course. An unknown course has none. |
| `Subjects.OptionValuesDistinct` | src/App.js:134-137 | No option value is the placeholder's empty value, and no two options of one course share a value. |
| `Validation.ValidationErrors` | src/App.js:47-73 | Taken key by key: `course` is reported exactly when it is empty. `subject` is reported exactly when it is empty, with the "course first" message when the course is also empty and the "any subject" message otherwise. `startDate` is reported when it is unset ("enter") or a picked date outside the allow-list ("not offered"). `notes` is reported when it is non-empty and shorter than 20 or longer than 500. |
| `Validation.IsValid` | src/App.js:74-75 | `validate`'s return value: the error map is empty. `Validation.ValidIff` states exactly when that holds. |
| `Validation.ValidIff` | src/App.js:74-75 | The error map is empty exactly when: a course and a subject are chosen, the date is allowed or erased, and the notes are empty or 20 to 500 characters long. |
| `Validation.NoCourseNoSubject` | src/App.js:50-56 | With no course and no subject, both "Please choose course." and "Please choose any course first." are reported. |
| `Validation.NoCourseWithSubject` | src/App.js:50-56 | With no course but a non-empty subject, only the course is reported. |
| `Validation.CourseWithoutSubject` | src/App.js:54-60 | With a course and no subject, the subject message is "Please choose any subject." and no course error is reported. |
| `Validation.DateRuleIgnoresCourse` | src/App.js:62-68 | The start-date verdict and message are the same for any two forms: one global allow-list. |
| `Validation.StartDateRule` | src/App.js:62-68 | An unset date gives "Please enter start date.". A picked date passes exactly when it is one of the three allowed dates, and '01-01-2020' gets the "not offered" message. An erased date passes. |
| `Validation.NotesOutOfRange` | src/App.js:70 | The notes rule: non-empty notes shorter than 20 or longer than 500 characters. `Validation.NotesBoundaries` pins the boundaries. |
| `Validation.NotesBoundaries` | src/App.js:70-72 | Notes of 0, 20 and 500 characters pass. Notes of 19 and 501 characters fail. |
| `Validation.CompleteRegistrationIsValid` | src/App.js:47-76 | computer-sciences / web-development / 20-12-2019 with notes of 20 to 500 characters is valid. |
| `Validation.ChosenOptionPasses` | src/App.js:54-60 | Choosing any drop-down option of a known course satisfies the course and subject rules. |
| `Validation.StaleSubjectAccepted` | src/App.js:58-60 | A subject left over from another course is not among the current options, yet it passes the subject rule. |
| `Registration.App.constructor` | src/App.js:15-25 | On mount the fields are empty, the date is unset, there are no errors, and the spinner and the dialog are off. |
| `Registration.App.HandleClose` | src/App.js:27 | Only `show` changes, and it becomes false. |
| `Registration.App.HandleShow` | src/App.js:28 | Only `show` changes, and it becomes true. |
| `Registration.App.HandleChange` | src/App.js:30-32 | The named text field takes the new value and the other fields keep theirs. Nothing is validated. |
| `Registration.App.SetStartDate` | src/App.js:151 | Only the start date changes. |
| `Registration.App.Validate` | src/App.js:47-76 | The error map is replaced, not merged, by the map of the current fields. The result is true exactly when that map is empty. |
| `Registration.App.HandleSubmit` | src/App.js:34-45 | Errors are always stored. A valid form sets `submitted` and schedules one callback. An invalid one changes nothing but the errors. Fields and dialog are untouched. |
| `Registration.App.ClearFields` | src/App.js:78-85 | The course, subject and notes become empty and the date becomes unset. |
| `Registration.App.OnTimeout` | src/App.js:39-43 | The callback turns `submitted` off, opens the dialog, clears the fields and consumes one pending callback. The error map is untouched. |
| `Registration.RegisterOnce` | src/App.js:34-45 | A valid registration ends empty, with no errors, the spinner off and the dialog open, and the emptied form is invalid again. The pass through the submitted state is asserted in the body, not stated in the contract. |
| `Registration.FinishSubmit` | src/App.js:37-43 | Knowing only that the spinner is on, the invariant `Valid()` guarantees a pending callback; running it stops the spinner, opens the dialog and empties the form, leaving the errors. |
| `Registration.RejectedSubmit` | src/App.js:34-45 | Submitting the empty form stores the course, subject and start-date errors, and nothing is scheduled. |

## Left out

- The JSX markup, layout and react-bootstrap components (src/App.js:91-174) are presentation only.
- `src/common/SuccessModal.js` is a stateless wrapper over a dialog component. Only its `show` flag and close callback matter, and those are `show`, `HandleShow` and `HandleClose`.
- The date picker and the `moment` library are foreign code. A date is an abstract (day, month, year) triple. Time of day, time zones and negative years are not modelled, and neither is whether a triple is a real calendar date.
- `Dates.Format` zero-fills each part to 2, 2 and 4 digits and prints wider numbers in full. Other behaviour of `moment`'s formatter is not modelled.
- The 1000 ms delay and the `setTimeout` scheduling are not modelled. A scheduled callback is counted in `pendingTimeouts`, and running one is the explicit step `OnTimeout`. Running callbacks after the component has been torn down is not modelled.
- `e.preventDefault()` and React's batching of state updates belong to the event framework. Updates are applied in program order.
- `Registration.App.HandleChange` requires a text field name. The source binds `handleChange` only to the course, subject and notes inputs. The date has its own handler, `SetStartDate`.
- `Strings.ToLower` lower-cases ASCII letters only. JavaScript's `toLowerCase` covers all of Unicode, but every label is ASCII.
- `Validation.NotesOutOfRange` measures notes in characters. JavaScript's `length` counts UTF-16 code units, so text outside the Basic Multilingual Plane would count differently.

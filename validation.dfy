/**
 * The validation pass of the registration form (src/App.js:47-76): six
 * independent rules over the fields course, subject, startDate and notes,
 * collected into a map from field to message. The form is valid exactly
 * when the map is empty.
 */
module Validation {
  import opened Dates
  import Subjects

  /** The text fields of the form, `formData` in the component. */
  datatype FormData = FormData(course: string, subject: string, notes: string)

  /**
   * What the start-date field holds: `Unset` is the empty string the
   * component starts with and `clearFields` restores, `Cleared` is the
   * null the date picker reports when its text is erased, `Picked` a date.
   */
  datatype DateInput = Unset | Cleared | Picked(date: Date)

  /** The keys of the error map. */
  datatype Field = Course | Subject | StartDate | Notes

  const ChooseCourse := "Please choose course."
  const ChooseCourseFirst := "Please choose any course first."
  const ChooseSubject := "Please choose any subject."
  const EnterStartDate := "Please enter start date."
  const NotOffered := "Your selected course and subject is not offered beginning from your selected date."
  const NotesLength := "Min length: 20 characters, Max length: 500 characters."

  const MinNotesLength := 20
  const MaxNotesLength := 500

  const EmptyForm := FormData("", "", "")

  /** The notes rule: an empty text is fine, any other must have 20 to 500 characters. */
  predicate NotesOutOfRange(notes: string)
  {
    notes != "" && (|notes| < MinNotesLength || |notes| > MaxNotesLength)
  }

  /**
   * The error map of one validation pass. The rules are applied one after
   * the other, as the component does. The two rules for the subject test an
   * empty and a non-empty course, and the two rules for the start date an
   * unset and a picked date, so each key gets at most one message.
   */
  function ValidationErrors(data: FormData, date: DateInput): (errors: map<Field, string>)
    ensures Course in errors <==> data.course == ""
    ensures Course in errors ==> errors[Course] == ChooseCourse
    ensures Subject in errors <==> data.subject == ""
    ensures Subject in errors ==>
      errors[Subject] == if data.course == "" then ChooseCourseFirst else ChooseSubject
    ensures StartDate in errors <==> date.Unset? || (date.Picked? && !IsAllowedDate(date.date))
    ensures StartDate in errors ==>
      errors[StartDate] == if date.Unset? then EnterStartDate else NotOffered
    ensures Notes in errors <==> NotesOutOfRange(data.notes)
    ensures Notes in errors ==> errors[Notes] == NotesLength
  {
    var e0 := map[];
    var e1 := if data.course == "" then e0[Course := ChooseCourse] else e0;
    var e2 := if data.course == "" && data.subject == "" then e1[Subject := ChooseCourseFirst] else e1;
    var e3 := if data.course != "" && data.subject == "" then e2[Subject := ChooseSubject] else e2;
    var e4 := if date == Unset then e3[StartDate := EnterStartDate] else e3;
    var e5 := if date.Picked? && !IsAllowedDate(date.date) then e4[StartDate := NotOffered] else e4;
    if NotesOutOfRange(data.notes) then e5[Notes := NotesLength] else e5
  }

  /** `validate()` returns true: no rule fired. */
  predicate IsValid(data: FormData, date: DateInput)
  {
    ValidationErrors(data, date) == map[]
  }

  /**
   * The form passes exactly when a course and a subject are chosen, the start
   * date is one of the allowed dates (or was erased in the picker), and the
   * notes are empty or have 20 to 500 characters.
   */
  lemma ValidIff(data: FormData, date: DateInput)
    ensures IsValid(data, date) <==>
      && data.course != ""
      && data.subject != ""
      && (date.Cleared? || (date.Picked? && IsAllowedDate(date.date)))
      && !NotesOutOfRange(data.notes)
  {
    var errors := ValidationErrors(data, date);
    if errors != map[] {
      var k :| k in errors;
      assert k == Course || k == Subject || k == StartDate || k == Notes;
    }
  }

  /** No course and no subject: both the course and the subject are reported. */
  lemma NoCourseNoSubject(data: FormData, date: DateInput)
    requires data.course == "" && data.subject == ""
    ensures ValidationErrors(data, date)[Course] == ChooseCourse
    ensures ValidationErrors(data, date)[Subject] == ChooseCourseFirst
  {
  }

  /** No course but a subject: only the course is reported; the subject rule needs both empty. */
  lemma NoCourseWithSubject(data: FormData, date: DateInput)
    requires data.course == "" && data.subject != ""
    ensures ValidationErrors(data, date)[Course] == ChooseCourse
    ensures Subject !in ValidationErrors(data, date)
  {
  }

  /** A course without a subject: only the subject is reported, asking for a subject. */
  lemma CourseWithoutSubject(data: FormData, date: DateInput)
    requires data.course != "" && data.subject == ""
    ensures Course !in ValidationErrors(data, date)
    ensures ValidationErrors(data, date)[Subject] == ChooseSubject
  {
  }

  /**
   * The start date is judged by one allow-list whatever the course and
   * subject: the date rule gives the same verdict for any two forms.
   */
  lemma DateRuleIgnoresCourse(data1: FormData, data2: FormData, date: DateInput)
    ensures (StartDate in ValidationErrors(data1, date)) == (StartDate in ValidationErrors(data2, date))
    ensures StartDate in ValidationErrors(data1, date) ==>
      ValidationErrors(data1, date)[StartDate] == ValidationErrors(data2, date)[StartDate]
  {
  }

  /** The three outcomes of the start-date rule. */
  lemma StartDateRule(data: FormData, d: Date)
    ensures ValidationErrors(data, Unset)[StartDate] == EnterStartDate
    ensures StartDate in ValidationErrors(data, Picked(d)) <==>
      !(d == Date(20, 12, 2019) || d == Date(15, 1, 2020) || d == Date(1, 3, 2020))
    ensures d == Date(1, 1, 2020) ==> ValidationErrors(data, Picked(d))[StartDate] == NotOffered
    ensures StartDate !in ValidationErrors(data, Cleared)
  {
    AllowedDatesExactly(d);
  }

  /** The notes boundaries: 0, 20 and 500 characters pass, 19 and 501 do not. */
  lemma NotesBoundaries(notes: string)
    ensures |notes| == 0 || |notes| == 20 || |notes| == 500 ==> !NotesOutOfRange(notes)
    ensures |notes| == 19 || |notes| == 501 ==> NotesOutOfRange(notes)
  {
  }

  /** The example of a complete registration passes every rule. */
  lemma CompleteRegistrationIsValid(notes: string)
    requires 20 <= |notes| <= 500
    ensures IsValid(FormData("computer-sciences", "web-development", notes), Picked(Date(20, 12, 2019)))
  {
    ValidIff(FormData("computer-sciences", "web-development", notes), Picked(Date(20, 12, 2019)));
    AllowedDatesExactly(Date(20, 12, 2019));
  }

  /** Picking any option of the drop-down for a known course satisfies the course and subject rules. */
  lemma ChosenOptionPasses(data: FormData, date: DateInput, i: nat)
    requires Subjects.IsKnownCourse(data.course)
    requires i < |Subjects.OptionValues(data.course)| && data.subject == Subjects.OptionValues(data.course)[i]
    ensures Course !in ValidationErrors(data, date) && Subject !in ValidationErrors(data, date)
  {
    Subjects.OptionValuesDistinct(data.course);
  }

  /**
   * Changing the course does not clear the subject, and the subject rule only
   * asks for a non-empty subject: a subject of another course is accepted.
   */
  lemma StaleSubjectAccepted(date: DateInput, notes: string)
    ensures "web-development" !in Subjects.OptionValues(Subjects.EnglishLiterature)
    ensures Subject !in ValidationErrors(FormData(Subjects.EnglishLiterature, "web-development", notes), date)
  {
    Subjects.OptionValuesExactly();
  }
}

/**
 * The state of the `App` component and its event handlers (src/App.js:15-45,
 * 78-85): the form fields, the start date, the `submitted` flag that turns the
 * submit button into a spinner, the error map shown next to the fields, and
 * the `show` flag of the success dialog.
 *
 * `setTimeout` is modelled by a count of callbacks that have been scheduled
 * and not yet run, `pendingTimeouts`; `OnTimeout` is one such callback
 * running. The callback closes over no form state (it only sets constants),
 * so every pending callback does the same thing whenever it runs.
 */
module Registration {
  import opened Validation
  import Dates

  class App {
    var formData: FormData
    var startDate: DateInput
    var submitted: bool
    var errors: map<Field, string>
    var show: bool
    var pendingTimeouts: nat

    /** The spinner is only ever shown while a callback that will stop it is pending. */
    ghost predicate Valid()
      reads this
    {
      submitted ==> pendingTimeouts > 0
    }

    /** The component on mount: every field empty, no errors, idle, dialog hidden. */
    constructor ()
      ensures Valid()
      ensures formData == EmptyForm && startDate == Unset
      ensures !submitted && errors == map[] && !show && pendingTimeouts == 0
    {
      formData := EmptyForm;
      startDate := Unset;
      submitted := false;
      errors := map[];
      show := false;
      pendingTimeouts := 0;
    }

    /** `handleClose`: the dialog is dismissed; nothing else changes. */
    method HandleClose()
      requires Valid()
      modifies this`show
      ensures Valid() && !show
    {
      show := false;
    }

    /** `handleShow`: the dialog is shown; nothing else changes. */
    method HandleShow()
      requires Valid()
      modifies this`show
      ensures Valid() && show
    {
      show := true;
    }

    /**
     * `handleChange`: the named text field takes the new value, the other
     * two keep theirs. Nothing is validated on change, and changing the
     * course leaves the subject as it was.
     */
    method HandleChange(name: Field, value: string)
      requires Valid()
      requires name != StartDate
      modifies this`formData
      ensures Valid()
      ensures name == Course ==> formData == old(formData).(course := value)
      ensures name == Subject ==> formData == old(formData).(subject := value)
      ensures name == Notes ==> formData == old(formData).(notes := value)
    {
      if name == Course {
        formData := formData.(course := value);
      } else if name == Subject {
        formData := formData.(subject := value);
      } else {
        formData := formData.(notes := value);
      }
    }

    /** The date picker's `onChange`: the start date is overwritten. */
    method SetStartDate(date: DateInput)
      requires Valid()
      modifies this`startDate
      ensures Valid() && startDate == date
    {
      startDate := date;
    }

    /**
     * `validate`: the error map is replaced by the one the current fields
     * produce (never merged with the previous one), and the result says
     * whether it is empty.
     */
    method Validate() returns (ok: bool)
      requires Valid()
      modifies this`errors
      ensures Valid()
      ensures errors == ValidationErrors(formData, startDate)
      ensures ok <==> errors == map[]
    {
      errors := ValidationErrors(formData, startDate);
      ok := |errors.Keys| == 0;
    }

    /**
     * `handleSubmit`: an invalid form only gets its errors; a valid one turns
     * the spinner on and schedules the completion callback. The fields and the
     * dialog are untouched either way.
     */
    method HandleSubmit()
      requires Valid()
      modifies this`errors, this`submitted, this`pendingTimeouts
      ensures Valid()
      ensures errors == ValidationErrors(formData, startDate)
      ensures IsValid(formData, startDate) ==> submitted && pendingTimeouts == old(pendingTimeouts) + 1
      ensures !IsValid(formData, startDate) ==>
        submitted == old(submitted) && pendingTimeouts == old(pendingTimeouts)
    {
      var ok := Validate();
      if ok {
        submitted := true;
        pendingTimeouts := pendingTimeouts + 1;
      }
    }

    /** `clearFields`: the form is back to its empty state. */
    method ClearFields()
      requires Valid()
      modifies this`formData, this`startDate
      ensures Valid() && formData == EmptyForm && startDate == Unset
    {
      formData := EmptyForm;
      startDate := Unset;
    }

    /**
     * The callback `handleSubmit` schedules: the spinner stops, the dialog is
     * shown and the fields are cleared. The error map is left as it is.
     */
    method OnTimeout()
      requires Valid() && pendingTimeouts > 0
      modifies this`submitted, this`show, this`formData, this`startDate, this`pendingTimeouts
      ensures Valid()
      ensures !submitted && show && formData == EmptyForm && startDate == Unset
      ensures pendingTimeouts == old(pendingTimeouts) - 1
    {
      pendingTimeouts := pendingTimeouts - 1;
      submitted := false;
      HandleShow();
      ClearFields();
    }
  }

  /**
   * A complete registration: a valid form is submitted, leaves no error,
   * turns the spinner on, and once the callback has run the form is empty,
   * the spinner off and the dialog shown. The form is then invalid again.
   */
  method RegisterOnce(notes: string) returns (app: App)
    requires 20 <= |notes| <= 500
    ensures fresh(app) && app.Valid()
    ensures app.formData == EmptyForm && app.startDate == Unset
    ensures app.errors == map[] && !app.submitted && app.show && app.pendingTimeouts == 0
    ensures !IsValid(app.formData, app.startDate)
  {
    app := new App();
    app.HandleChange(Course, "computer-sciences");
    app.HandleChange(Subject, "web-development");
    app.SetStartDate(Picked(Dates.Date(20, 12, 2019)));
    app.HandleChange(Notes, notes);
    CompleteRegistrationIsValid(notes);
    app.HandleSubmit();
    assert app.submitted && app.errors == map[];
    app.OnTimeout();
    ValidIff(app.formData, app.startDate);
  }

  /**
   * A spinner that is showing always stops: knowing only that the form was
   * submitted, `Valid()` guarantees a pending callback, and running it turns
   * the spinner off, opens the dialog and empties the form.
   */
  method FinishSubmit(app: App)
    requires app.Valid() && app.submitted
    modifies app
    ensures app.Valid() && !app.submitted && app.show
    ensures app.formData == EmptyForm && app.startDate == Unset
    ensures app.errors == old(app.errors) && app.pendingTimeouts == old(app.pendingTimeouts) - 1
  {
    app.OnTimeout();
  }

  /** An invalid submit while idle keeps the component idle and nothing is scheduled. */
  method RejectedSubmit() returns (app: App)
    ensures fresh(app) && app.Valid()
    ensures !app.submitted && app.pendingTimeouts == 0 && !app.show
    ensures app.errors == map[Course := ChooseCourse, Subject := ChooseCourseFirst, StartDate := EnterStartDate]
  {
    app := new App();
    app.HandleSubmit();
    assert app.errors.Keys == {Course, Subject, StartDate};
  }
}

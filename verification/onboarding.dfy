/**
  The onboarding wizard: two steps (the display name, then the username),
  Next gated on a non-blank name, Complete Setup gated on a non-blank
  username, and a submit that validates, sends the trimmed profile to the
  profile-update collaborator and always clears the busy flag.
 */
module Onboarding {
  import opened Strings
  import opened Wrappers
  import Navigation

  const TotalSteps: int := 2

  /** The user id the page sends; the page has no session lookup yet. */
  const UserId: string := "current-user-id"

  const RequiredFieldsMessage: string := "Please fill in all required fields"

  datatype Form = Form(name: string, username: string)

  datatype FormField = Name | Username

  datatype State = State(step: int, form: Form, loading: bool)

  const Initial: State := State(1, Form("", ""), false)

  function Read(form: Form, f: FormField): string {
    match f
    case Name => form.name
    case Username => form.username
  }

  /** `handleInputChange(field, value)`: only `field` changes. */
  function InputChange(form: Form, f: FormField, value: string): (r: Form)
    ensures Read(r, f) == value
    ensures forall g :: g != f ==> Read(r, g) == Read(form, g)
  {
    match f
    case Name => form.(name := value)
    case Username => form.(username := value)
  }

  /** A form is determined by its two fields. */
  lemma FormsEqualByFields(a: Form, b: Form)
    requires Read(a, Name) == Read(b, Name) && Read(a, Username) == Read(b, Username)
    ensures a == b
  {
  }

  /** Writing back a field's own value changes nothing. */
  lemma InputChangeWithCurrentValue(form: Form, f: FormField)
    ensures InputChange(form, f, Read(form, f)) == form
  {
    FormsEqualByFields(InputChange(form, f, Read(form, f)), form);
  }

  /** The progress bar's value, `currentStep / totalSteps * 100`. The source
      computes it in floating point and rounds it for display; with two steps
      the division is exact, so the integer below equals the real quotient
      and rounding does not change it. */
  function Progress(step: int): (r: int)
    ensures (step as real / TotalSteps as real) * 100.0 == r as real
    ensures Navigation.InRange(step, TotalSteps) ==> 0 < r <= 100
    ensures r == 100 <==> step == TotalSteps
  {
    step * 100 / TotalSteps
  }

  /** The bar fills as the user moves forward and empties as they move back. */
  lemma ProgressFollowsNavigation(step: int)
    requires Navigation.InRange(step, TotalSteps)
    ensures Progress(Navigation.Next(step, TotalSteps)) >= Progress(step)
    ensures Progress(Navigation.Next(step, TotalSteps)) == Progress(step) <==> step == TotalSteps
    ensures Progress(Navigation.Previous(step)) <= Progress(step)
    ensures Progress(Navigation.Previous(step)) == Progress(step) <==> step == 1
  {
  }

  /* ------------------------------------------------------------- controls */

  datatype Button = Hidden | Shown(disabled: bool)

  /** The buttons under the step's form. */
  datatype Controls = Controls(previous: Button, next: Button, complete: Button, completeLabel: string, skipShown: bool)

  function ControlsAt(s: State): (c: Controls)
    ensures c.next.Shown? <==> s.step < TotalSteps
    ensures c.complete.Shown? <==> !c.next.Shown?
    ensures c.next.Shown? ==> (c.next.disabled <==> s.loading || AllWs(s.form.name))
    ensures c.complete.Shown? ==> (c.complete.disabled <==> s.loading || AllWs(s.form.username))
    ensures c.previous.Shown? <==> s.step > 1
    ensures c.previous.Shown? ==> (c.previous.disabled <==> s.loading)
    ensures c.completeLabel == "Saving..." <==> s.loading
    ensures c.skipShown <==> s.step == 1
  {
    TrimEmptyIff(s.form.name);
    TrimEmptyIff(s.form.username);
    Controls(
      if s.step > 1 then Shown(s.loading) else Hidden,
      if s.step < TotalSteps then Shown(s.loading || Trim(s.form.name) == []) else Hidden,
      if s.step < TotalSteps then Hidden else Shown(s.loading || Trim(s.form.username) == []),
      if s.loading then "Saving..." else "Complete Setup",
      s.step == 1)
  }

  /* --------------------------------------------------------------- submit */

  /** The body of the profile update. */
  datatype Payload = Payload(name: string, username: string)

  /** What the profile-update call does: resolves with success and data,
      resolves with a failure message, or throws. */
  datatype ApiOutcome = Ok(data: string) | Fail(message: string) | Throws(message: string)

  /** Which branch of the submit handler ran: the success branch, the
      failure branch, or the catch block with the error's message. */
  datatype SubmitOutcome = Updated(data: string) | UpdateFailed(message: string) | Caught(message: string)

  /** One run of `handleSubmit`: what was sent, which branch ran, the state
      while the call is pending and the state once it has settled. */
  datatype Submission = Submission(sent: Option<Payload>, outcome: SubmitOutcome, during: State, after: State)

  function Submit(s: State, updateProfile: (string, Payload) -> ApiOutcome): (r: Submission)
    ensures r.during == s.(loading := true)
    ensures r.after == s.(loading := false)
    ensures r.sent.None? <==> AllWs(s.form.name) || AllWs(s.form.username)
    ensures r.sent.None? ==> r.outcome == Caught(RequiredFieldsMessage)
    ensures r.sent.Some? ==>
      && r.sent.value == Payload(Trim(s.form.name), Trim(s.form.username))
      && r.sent.value.name != [] && IsTrimmed(r.sent.value.name)
      && r.sent.value.username != [] && IsTrimmed(r.sent.value.username)
    ensures r.sent.Some? ==>
      match updateProfile(UserId, r.sent.value)
      case Ok(data) => r.outcome == Updated(data)
      case Fail(message) => r.outcome == UpdateFailed(message)
      case Throws(message) => r.outcome == Caught(message)
  {
    TrimEmptyIff(s.form.name);
    TrimEmptyIff(s.form.username);
    var during := s.(loading := true);
    var after := during.(loading := false);
    var name := Trim(s.form.name);
    var username := Trim(s.form.username);
    if name == [] || username == [] then
      Submission(None, Caught(RequiredFieldsMessage), during, after)
    else
      var payload := Payload(name, username);
      var outcome :=
        match updateProfile(UserId, payload)
        case Ok(data) => Updated(data)
        case Fail(message) => UpdateFailed(message)
        case Throws(message) => Caught(message);
      Submission(Some(payload), outcome, during, after)
  }

  /* --------------------------------------------------------------- events */

  datatype Event = Type(text: string) | ClickPrevious | ClickNext | ClickComplete

  /** The input on the current step's form: the name on step 1, the username
      on step 2. */
  function FieldOn(step: int): Option<FormField> {
    if step == 1 then Some(Name) else if step == 2 then Some(Username) else None
  }

  /** One user action; a click on a hidden or disabled button does nothing. */
  function Handle(s: State, e: Event, updateProfile: (string, Payload) -> ApiOutcome): (r: State)
    ensures r.loading == s.loading || (e.ClickComplete? && !r.loading)
    ensures !e.Type? ==> r.form == s.form
    ensures !(e.ClickPrevious? || e.ClickNext?) ==> r.step == s.step
    ensures e.Type? && s.step == 1 ==> r.form == s.form.(name := e.text)
    ensures e.Type? && s.step == 2 ==> r.form == s.form.(username := e.text)
    ensures e.ClickNext? ==>
      r.step == (if ControlsAt(s).next == Shown(false) then Navigation.Next(s.step, TotalSteps) else s.step)
    ensures e.ClickPrevious? ==>
      r.step == (if ControlsAt(s).previous == Shown(false) then Navigation.Previous(s.step) else s.step)
    ensures e.ClickComplete? ==>
      r == (if ControlsAt(s).complete == Shown(false) then s.(loading := false) else s)
    ensures ((e.ClickNext? && ControlsAt(s).next != Shown(false))
      || (e.ClickPrevious? && ControlsAt(s).previous != Shown(false))
      || (e.ClickComplete? && ControlsAt(s).complete != Shown(false))) ==> r == s
  {
    var c := ControlsAt(s);
    match e
    case Type(text) =>
      if FieldOn(s.step).Some? then s.(form := InputChange(s.form, FieldOn(s.step).value, text)) else s
    case ClickPrevious =>
      if c.previous == Shown(false) then s.(step := Navigation.Previous(s.step)) else s
    case ClickNext =>
      if c.next == Shown(false) then s.(step := Navigation.Next(s.step, TotalSteps)) else s
    case ClickComplete =>
      if c.complete == Shown(false) then Submit(s, updateProfile).after else s
  }

  function Run(s: State, es: seq<Event>, updateProfile: (string, Payload) -> ApiOutcome): State
    decreases |es|
  {
    if es == [] then s else Run(Handle(s, es[0], updateProfile), es[1..], updateProfile)
  }

  /** What holds between user actions: the step is 1 or 2, nothing is in
      flight, and the username step is only reached with a non-blank name,
      because the name cannot be edited there. */
  predicate Settled(s: State) {
    && Navigation.InRange(s.step, TotalSteps)
    && !s.loading
    && (s.step == TotalSteps ==> !AllWs(s.form.name))
  }

  lemma HandleKeepsSettled(s: State, e: Event, updateProfile: (string, Payload) -> ApiOutcome)
    requires Settled(s)
    ensures Settled(Handle(s, e, updateProfile))
  {
  }

  lemma {:induction false} RunKeepsSettled(s: State, es: seq<Event>, updateProfile: (string, Payload) -> ApiOutcome)
    requires Settled(s)
    ensures Settled(Run(s, es, updateProfile))
    decreases |es|
  {
    if es != [] {
      HandleKeepsSettled(s, es[0], updateProfile);
      RunKeepsSettled(Handle(s, es[0], updateProfile), es[1..], updateProfile);
    }
  }

  /** Whenever Complete Setup can be clicked, the submit passes validation
      and sends the profile: the blank-field error path is not reachable
      through the page's own buttons. */
  lemma EnabledCompleteSends(es: seq<Event>, updateProfile: (string, Payload) -> ApiOutcome)
    ensures var s := Run(Initial, es, updateProfile);
      ControlsAt(s).complete == Shown(false) ==> Submit(s, updateProfile).sent.Some?
  {
    RunKeepsSettled(Initial, es, updateProfile);
  }
}

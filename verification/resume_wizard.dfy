/**
  The resume-creation wizard: a seven-step catalogue walked with Next and
  Previous, a draft edited one field at a time, a progress bar that marks
  each step completed, active or pending, the navigation buttons, and the
  live preview composed from the draft.
 */
module ResumeWizard {
  import Skills
  import Navigation
  import opened Wrappers

  /* ------------------------------------------------------------ catalogue */

  datatype StepInfo = StepInfo(id: int, title: string, key: string)

  const Steps: seq<StepInfo> := [
    StepInfo(1, "Personal Information", "personal"),
    StepInfo(2, "Professional Summary", "summary"),
    StepInfo(3, "Experience", "experience"),
    StepInfo(4, "Education", "education"),
    StepInfo(5, "Skills", "skills"),
    StepInfo(6, "Projects", "projects"),
    StepInfo(7, "Review & Save", "review")
  ]

  /** The page shows Save, Publish and Discard when the step equals this
      literal, independently of the catalogue's length. */
  const ReviewStep: int := 7

  /** The steps on which the page renders the inputs of each group. */
  const PersonalStep: int := 1
  const SummaryStep: int := 2
  const SkillsStep: int := 5

  /** The catalogue is numbered 1, 2, ... in order, so the entry at position
      `step - 1` is the one whose id is `step`. */
  lemma CatalogueNumbering()
    ensures |Steps| == ReviewStep
    ensures forall i :: 0 <= i < |Steps| ==> Steps[i].id == i + 1
  {
  }

  /* ---------------------------------------------------------------- draft */

  datatype Experience = Experience(
    id: string, title: string, company: string, location: string,
    startDate: string, endDate: string, current: bool, description: string)

  datatype Education = Education(
    id: string, degree: string, institution: string, location: string,
    startDate: string, endDate: string, gpa: string, description: string)

  datatype Project = Project(
    id: string, title: string, description: string, technologies: seq<string>, url: string)

  datatype Draft = Draft(
    firstName: string, lastName: string, email: string, phone: string,
    location: string, linkedin: string, website: string,
    summary: string,
    experience: seq<Experience>,
    education: seq<Education>,
    skills: seq<string>,
    projects: seq<Project>)

  const EmptyDraft: Draft := Draft("", "", "", "", "", "", "", "", [], [], [], [])

  /** The keys of the draft record. */
  datatype Field =
    | FirstName | LastName | Email | Phone | Location | LinkedIn | Website
    | Summary | ExperienceEntries | EducationEntries | SkillEntries | ProjectEntries

  /** A value stored under one key. */
  datatype Value =
    | Text(text: string)
    | Experiences(experiences: seq<Experience>)
    | Educations(educations: seq<Education>)
    | SkillNames(names: seq<string>)
    | Projects(projects: seq<Project>)

  /** `v` has the type the draft record declares for `f`. */
  predicate Fits(f: Field, v: Value) {
    match f
    case ExperienceEntries => v.Experiences?
    case EducationEntries => v.Educations?
    case SkillEntries => v.SkillNames?
    case ProjectEntries => v.Projects?
    case _ => v.Text?
  }

  function Get(d: Draft, f: Field): (v: Value)
    ensures Fits(f, v)
  {
    match f
    case FirstName => Text(d.firstName)
    case LastName => Text(d.lastName)
    case Email => Text(d.email)
    case Phone => Text(d.phone)
    case Location => Text(d.location)
    case LinkedIn => Text(d.linkedin)
    case Website => Text(d.website)
    case Summary => Text(d.summary)
    case ExperienceEntries => Experiences(d.experience)
    case EducationEntries => Educations(d.education)
    case SkillEntries => SkillNames(d.skills)
    case ProjectEntries => Projects(d.projects)
  }

  /** `updateResumeData(field, value)`: the draft with `field` replaced by
      `value` and every other field as it was. */
  function Update(d: Draft, f: Field, v: Value): (r: Draft)
    requires Fits(f, v)
    ensures Get(r, f) == v
    ensures forall g :: g != f ==> Get(r, g) == Get(d, g)
  {
    match f
    case FirstName => d.(firstName := v.text)
    case LastName => d.(lastName := v.text)
    case Email => d.(email := v.text)
    case Phone => d.(phone := v.text)
    case Location => d.(location := v.text)
    case LinkedIn => d.(linkedin := v.text)
    case Website => d.(website := v.text)
    case Summary => d.(summary := v.text)
    case ExperienceEntries => d.(experience := v.experiences)
    case EducationEntries => d.(education := v.educations)
    case SkillEntries => d.(skills := v.names)
    case ProjectEntries => d.(projects := v.projects)
  }

  /** A draft is determined by what its fields read. */
  lemma DraftsEqualByFields(a: Draft, b: Draft)
    requires forall f :: Get(a, f) == Get(b, f)
    ensures a == b
  {
    assert Get(a, FirstName) == Get(b, FirstName);
    assert Get(a, LastName) == Get(b, LastName);
    assert Get(a, Email) == Get(b, Email);
    assert Get(a, Phone) == Get(b, Phone);
    assert Get(a, Location) == Get(b, Location);
    assert Get(a, LinkedIn) == Get(b, LinkedIn);
    assert Get(a, Website) == Get(b, Website);
    assert Get(a, Summary) == Get(b, Summary);
    assert Get(a, ExperienceEntries) == Get(b, ExperienceEntries);
    assert Get(a, EducationEntries) == Get(b, EducationEntries);
    assert Get(a, SkillEntries) == Get(b, SkillEntries);
    assert Get(a, ProjectEntries) == Get(b, ProjectEntries);
  }

  /** Writing back what a field already holds changes nothing. */
  lemma UpdateWithCurrentValue(d: Draft, f: Field)
    ensures Update(d, f, Get(d, f)) == d
  {
    DraftsEqualByFields(Update(d, f, Get(d, f)), d);
  }

  /** The second of two writes to one field wins. */
  lemma UpdateOverwrites(d: Draft, f: Field, v: Value, w: Value)
    requires Fits(f, v) && Fits(f, w)
    ensures Update(Update(d, f, v), f, w) == Update(d, f, w)
  {
    DraftsEqualByFields(Update(Update(d, f, v), f, w), Update(d, f, w));
  }

  /** Writes to different fields do not interfere. */
  lemma UpdatesCommute(d: Draft, f: Field, v: Value, g: Field, w: Value)
    requires f != g && Fits(f, v) && Fits(g, w)
    ensures Update(Update(d, f, v), g, w) == Update(Update(d, g, w), f, v)
  {
    DraftsEqualByFields(Update(Update(d, f, v), g, w), Update(Update(d, g, w), f, v));
  }

  /** The step whose form holds the input for `f`; the list-valued fields
      other than skills have no input (their Add buttons do nothing). */
  function InputStep(f: Field): int {
    match f
    case FirstName => PersonalStep
    case LastName => PersonalStep
    case Email => PersonalStep
    case Phone => PersonalStep
    case Location => PersonalStep
    case LinkedIn => PersonalStep
    case Website => PersonalStep
    case Summary => SummaryStep
    case SkillEntries => SkillsStep
    case _ => 0
  }

  /* --------------------------------------------------------------- skills */

  /** The text the page puts in the skills input: the parsed skills joined
      again, rather than what the user typed. */
  function SkillsText(d: Draft): (t: string)
    ensures Skills.WellFormed(d.skills) ==> Skills.Parse(t) == d.skills
  {
    if Skills.WellFormed(d.skills) then
      Skills.ParseFormat(d.skills);
      Skills.Format(d.skills)
    else
      Skills.Format(d.skills)
  }

  /** Typing `input` into the skills box. */
  function EditSkills(d: Draft, input: string): (r: Draft)
    ensures r.skills == Skills.Parse(input) && Skills.WellFormed(r.skills)
    ensures forall g :: g != SkillEntries ==> Get(r, g) == Get(d, g)
  {
    Update(d, SkillEntries, SkillNames(Skills.Parse(input)))
  }

  /** Re-submitting the text the skills box shows leaves the draft as it is,
      as long as the skills came from the box in the first place. */
  lemma EditShownSkills(d: Draft)
    requires Skills.WellFormed(d.skills)
    ensures EditSkills(d, SkillsText(d)) == d
  {
    Skills.ParseFormat(d.skills);
    UpdateWithCurrentValue(d, SkillEntries);
  }

  /** The page as written: typing a comma after the text the box shows
      changes nothing, because the comma is parsed away and the box is
      refilled from the skills. So with the box showing `a`, the keystroke
      `,` leaves it showing `a`: a comma cannot be typed at the end of the
      text, though one typed between two characters does split them. */
  lemma TypedCommaIsErased(d: Draft)
    requires Skills.WellFormed(d.skills)
    ensures EditSkills(d, SkillsText(d) + [Skills.Comma]) == d
    ensures SkillsText(EditSkills(d, SkillsText(d) + [Skills.Comma])) == SkillsText(d)
  {
    Skills.ParseDropsSeparatorAtEnd(SkillsText(d));
    EditShownSkills(d);
  }

  /** The concrete case: with the box showing `a`, typing `,` gives `a,`,
      and the box shows `a` again. */
  lemma TypedCommaExample(d: Draft)
    requires d.skills == ["a"]
    ensures SkillsText(d) == "a"
    ensures SkillsText(EditSkills(d, "a,")) == "a"
  {
    assert Skills.IsSkill("a");
    assert "a," == SkillsText(d) + [Skills.Comma];
    TypedCommaIsErased(d);
  }

  /* --------------------------------------------------------- wizard state */

  /** The page's state with the skills box corrected: `skillsText` is what
      the box shows, the text as the user typed it, and the skills are
      parsed from it. The page as written is `Page`, whose box shows
      `SkillsText(draft)` instead; see TypedCommaIsErased. */
  datatype Wizard = Wizard(step: int, showPreview: bool, draft: Draft, skillsText: string)

  const Initial: Wizard := Wizard(1, false, EmptyDraft, "")

  /** What holds of every state the page can reach: the step indexes the
      catalogue and the skills are those of the text in the skills box. */
  predicate Valid(w: Wizard) {
    Navigation.InRange(w.step, |Steps|) && w.draft.skills == Skills.Parse(w.skillsText)
  }

  /** The heading of the form card, looked up by position `step - 1`: it is
      the title of the catalogue entry whose id is the current step. */
  function CurrentTitle(step: int): (t: string)
    requires Navigation.InRange(step, |Steps|)
    ensures exists i :: 0 <= i < |Steps| && Steps[i].id == step && t == Steps[i].title
  {
    CatalogueNumbering();
    Steps[step - 1].title
  }

  /* ------------------------------------------------------------- controls */

  datatype Controls = Controls(previousDisabled: bool, nextShown: bool, finalActionsShown: bool)

  /** The buttons under the form card and the review step's actions. */
  function ControlsAt(step: int): (c: Controls)
    ensures Navigation.InRange(step, |Steps|) ==> (c.finalActionsShown <==> !c.nextShown)
    ensures step >= 1 ==> (c.previousDisabled <==> Navigation.Previous(step) == step)
  {
    Controls(step == 1, step < |Steps|, step == ReviewStep)
  }

  /** On every valid step the buttons tell the truth about navigation:
      Previous is disabled exactly where it would do nothing, Next is shown
      exactly where it would move, and Save/Publish/Discard take Next's place
      on the last step only. */
  lemma ControlsMatchNavigation(step: int)
    requires Navigation.InRange(step, |Steps|)
    ensures ControlsAt(step).previousDisabled <==> Navigation.Previous(step) == step
    ensures ControlsAt(step).nextShown <==> Navigation.Next(step, |Steps|) != step
    ensures ControlsAt(step).finalActionsShown <==> !ControlsAt(step).nextShown
    ensures ControlsAt(step).finalActionsShown <==> step == |Steps|
  {
  }

  /* --------------------------------------------------------------- events */

  datatype Event =
    | ClickNext
    | ClickPrevious
    | TogglePreview
    | EditText(field: Field, text: string)
    | TypeSkills(input: string)

  /** The event is possible on `step`: the button is visible and enabled,
      or the input is on the form of that step. */
  predicate Accepts(step: int, e: Event)
    ensures Navigation.InRange(step, |Steps|) && e.ClickNext? ==>
      (Accepts(step, e) <==> Navigation.Next(step, |Steps|) != step)
    ensures Navigation.InRange(step, |Steps|) && e.ClickPrevious? ==>
      (Accepts(step, e) <==> Navigation.Previous(step) != step)
    ensures e.EditText? && Accepts(step, e) ==> Fits(e.field, Text(e.text)) && step in {PersonalStep, SummaryStep}
    ensures e.TypeSkills? ==> (Accepts(step, e) <==> step == SkillsStep)
    ensures e.TogglePreview? ==> Accepts(step, e)
    ensures e.EditText? && e.field in {FirstName, LastName, Email, Phone, Location, LinkedIn, Website} ==>
      (Accepts(step, e) <==> step == PersonalStep)
    ensures e.EditText? && e.field == Summary ==> (Accepts(step, e) <==> step == SummaryStep)
    ensures e.EditText? && e.field in {ExperienceEntries, EducationEntries, SkillEntries, ProjectEntries} ==>
      !Accepts(step, e)
  {
    match e
    case ClickNext => ControlsAt(step).nextShown
    case ClickPrevious => !ControlsAt(step).previousDisabled
    case TogglePreview => true
    case EditText(f, _) => Fits(f, Text("")) && InputStep(f) == step
    case TypeSkills(_) => step == SkillsStep
  }

  /* ------------------------------------------------------ page as written */

  /** The page's state as written: the step, the preview toggle and the
      draft. The skills box has no text of its own; it shows
      `SkillsText(draft)`. */
  datatype Page = Page(step: int, showPreview: bool, draft: Draft)

  const InitialPage: Page := Page(1, false, EmptyDraft)

  /** What holds of every state the page can reach: the step indexes the
      catalogue and the skills are well formed. */
  predicate PageValid(p: Page) {
    Navigation.InRange(p.step, |Steps|) && Skills.WellFormed(p.draft.skills)
  }

  /** One user action on the page as written; an action the page does not
      offer leaves it as it is. Typing into the skills box replaces the
      skills with the parse of the input, and the box then shows them
      joined again. */
  function PageHandle(p: Page, e: Event): (r: Page)
    ensures PageValid(p) ==> PageValid(r)
    ensures (e.ClickNext? || e.ClickPrevious?) ==> r.draft == p.draft && r.showPreview == p.showPreview
    ensures !(e.ClickNext? || e.ClickPrevious?) ==> r.step == p.step
    ensures !(e.EditText? || e.TypeSkills?) ==> r.draft == p.draft
    ensures e.TypeSkills? && p.step == SkillsStep ==> r.draft.skills == Skills.Parse(e.input)
    ensures !Accepts(p.step, e) ==> r == p
    ensures e.ClickNext? && Accepts(p.step, e) ==> r.step == Navigation.Next(p.step, |Steps|)
    ensures e.ClickPrevious? && Accepts(p.step, e) ==> r.step == Navigation.Previous(p.step)
    ensures e.TogglePreview? ==> r.showPreview == !p.showPreview
    ensures e.EditText? && Accepts(p.step, e) ==>
      && Get(r.draft, e.field) == Text(e.text)
      && forall g :: g != e.field ==> Get(r.draft, g) == Get(p.draft, g)
    ensures !e.TogglePreview? ==> r.showPreview == p.showPreview
    ensures e.TypeSkills? ==> forall g :: g != SkillEntries ==> Get(r.draft, g) == Get(p.draft, g)
  {
    if !Accepts(p.step, e) then p
    else
      match e
      case ClickNext => p.(step := Navigation.Next(p.step, |Steps|))
      case ClickPrevious => p.(step := Navigation.Previous(p.step))
      case TogglePreview => p.(showPreview := !p.showPreview)
      case EditText(f, s) => p.(draft := Update(p.draft, f, Text(s)))
      case TypeSkills(input) => p.(draft := EditSkills(p.draft, input))
  }

  function PageRun(p: Page, es: seq<Event>): Page
    decreases |es|
  {
    if es == [] then p else PageRun(PageHandle(p, es[0]), es[1..])
  }

  lemma {:induction false} PageRunKeepsValid(p: Page, es: seq<Event>)
    requires PageValid(p)
    ensures PageValid(PageRun(p, es))
    decreases |es|
  {
    if es != [] {
      PageRunKeepsValid(PageHandle(p, es[0]), es[1..]);
    }
  }

  /** Every state the page as written can reach is valid, so its title
      lookup `steps[currentStep - 1]` never leaves the catalogue. */
  lemma PageReachableIsValid(es: seq<Event>)
    ensures PageValid(PageRun(InitialPage, es))
  {
    PageRunKeepsValid(InitialPage, es);
  }

  /** On the page as written, typing a comma after the text the skills box
      shows leaves the whole page as it was. */
  lemma PageTypedCommaIsErased(p: Page)
    requires PageValid(p) && p.step == SkillsStep
    ensures PageHandle(p, TypeSkills(SkillsText(p.draft) + [Skills.Comma])) == p
  {
    TypedCommaIsErased(p.draft);
    assert EditSkills(p.draft, SkillsText(p.draft) + [Skills.Comma]) == p.draft;
  }

  /** One user action; an action the page does not offer in `w` leaves it as it is. */
  function Handle(w: Wizard, e: Event): (r: Wizard)
    ensures Valid(w) ==> Valid(r)
    ensures (e.ClickNext? || e.ClickPrevious?) ==> r.draft == w.draft && r.showPreview == w.showPreview
    ensures !(e.ClickNext? || e.ClickPrevious?) ==> r.step == w.step
    ensures !(e.EditText? || e.TypeSkills?) ==> r.draft == w.draft
    ensures !e.TypeSkills? ==> r.skillsText == w.skillsText
    ensures Valid(r) ==> Skills.WellFormed(r.draft.skills)
    ensures !Accepts(w.step, e) ==> r == w
    ensures e.ClickNext? && Accepts(w.step, e) ==> r.step == Navigation.Next(w.step, |Steps|)
    ensures e.ClickPrevious? && Accepts(w.step, e) ==> r.step == Navigation.Previous(w.step)
    ensures e.TogglePreview? ==> r.showPreview == !w.showPreview
    ensures e.EditText? && Accepts(w.step, e) ==>
      && Get(r.draft, e.field) == Text(e.text)
      && forall g :: g != e.field ==> Get(r.draft, g) == Get(w.draft, g)
    ensures !e.TogglePreview? ==> r.showPreview == w.showPreview
    ensures e.TypeSkills? ==> forall g :: g != SkillEntries ==> Get(r.draft, g) == Get(w.draft, g)
    ensures e.TypeSkills? && Accepts(w.step, e) ==> r.skillsText == e.input && r.draft.skills == Skills.Parse(e.input)
  {
    if !Accepts(w.step, e) then w
    else
      match e
      case ClickNext => w.(step := Navigation.Next(w.step, |Steps|))
      case ClickPrevious => w.(step := Navigation.Previous(w.step))
      case TogglePreview => w.(showPreview := !w.showPreview)
      case EditText(f, s) => w.(draft := Update(w.draft, f, Text(s)))
      case TypeSkills(input) => TypeIntoSkills(w, input)
  }

  /** Typing `input` into the skills box: the box keeps the text as typed and
      the skills are parsed from it; nothing else changes. */
  function TypeIntoSkills(w: Wizard, input: string): (r: Wizard)
    ensures r.skillsText == input && r.draft.skills == Skills.Parse(input)
    ensures r.step == w.step && r.showPreview == w.showPreview
    ensures forall g :: g != SkillEntries ==> Get(r.draft, g) == Get(w.draft, g)
  {
    w.(draft := EditSkills(w.draft, input), skillsText := input)
  }

  function Run(w: Wizard, es: seq<Event>): Wizard
    decreases |es|
  {
    if es == [] then w else Run(Handle(w, es[0]), es[1..])
  }

  /** Every state reachable from the initial page is valid, so the title
      lookup never leaves the catalogue. */
  lemma {:induction false} RunKeepsValid(w: Wizard, es: seq<Event>)
    requires Valid(w)
    ensures Valid(Run(w, es))
    decreases |es|
  {
    if es != [] {
      RunKeepsValid(Handle(w, es[0]), es[1..]);
    }
  }

  lemma ReachableIsValid(es: seq<Event>)
    ensures Valid(Run(Initial, es))
  {
    Skills.ParseOfWs([]);
    RunKeepsValid(Initial, es);
  }

  /** The corrected page without its box text. */
  function Forget(w: Wizard): Page {
    Page(w.step, w.showPreview, w.draft)
  }

  /** The correction changes only what the skills box shows: on the same
      action, the corrected page and the page as written make the same step,
      toggle and draft. */
  lemma HandleRefinesPage(w: Wizard, e: Event)
    ensures Forget(Handle(w, e)) == PageHandle(Forget(w), e)
  {
  }

  lemma {:induction false} RunRefinesPage(w: Wizard, es: seq<Event>)
    ensures Forget(Run(w, es)) == PageRun(Forget(w), es)
    decreases |es|
  {
    if es != [] {
      HandleRefinesPage(w, es[0]);
      RunRefinesPage(Handle(w, es[0]), es[1..]);
    }
  }

  /** The skills box keeps what the user typed and the skills follow it. */
  lemma TypedTextIsKept(w: Wizard, input: string)
    requires w.step == SkillsStep
    ensures Handle(w, TypeSkills(input)).skillsText == input
    ensures Handle(w, TypeSkills(input)).draft.skills == Skills.Parse(input)
    ensures Handle(w, TypeSkills(input)).step == SkillsStep
  {
    assert Accepts(w.step, TypeSkills(input));
  }

  /** Typing a comma, then a space and a skill after the box's text adds that
      skill at the end of the list: two changes to the box's whole text,
      first to `text,` and then to `text, x`. */
  lemma TypingAddsSkill(w: Wizard, x: string)
    requires Valid(w) && w.step == SkillsStep && Skills.IsSkill(x)
    ensures
      var typed := Handle(w, TypeSkills(w.skillsText + [Skills.Comma]));
      typed.skillsText == w.skillsText + [Skills.Comma] &&
      Handle(typed, TypeSkills(w.skillsText + ", " + x)).draft.skills == w.draft.skills + [x]
  {
    var typed := Handle(w, TypeSkills(w.skillsText + [Skills.Comma]));
    TypedTextIsKept(w, w.skillsText + [Skills.Comma]);
    TypedTextIsKept(typed, w.skillsText + ", " + x);
    Skills.ParseAddsSkill(w.skillsText, x);
  }

  /** Showing the preview twice returns to where it was. */
  lemma ToggleTwice(w: Wizard)
    ensures Handle(Handle(w, TogglePreview), TogglePreview) == w
  {
  }

  /* --------------------------------------------------------- progress bar */

  datatype Status = Completed | Active | Pending

  datatype Badge = Check | Number(n: int)

  /** How one step of the progress bar is drawn. */
  datatype StepView = StepView(status: Status, badge: Badge, emphasised: bool)

  /** The three conditionals of the progress bar: the circle's colour, its
      label, and the weight of the title. */
  function ViewOf(info: StepInfo, current: int): (v: StepView)
    ensures v.status == Completed <==> info.id < current
    ensures v.status == Pending <==> info.id > current
    ensures v.badge == Check <==> v.status == Completed
    ensures v.badge != Check ==> v.badge == Number(info.id)
    ensures v.emphasised <==> v.status == Active
  {
    var status := if info.id == current then Active else if info.id < current then Completed else Pending;
    var badge := if info.id < current then Check else Number(info.id);
    StepView(status, badge, info.id == current)
  }

  function ProgressBar(current: int): (bar: seq<StepView>)
    ensures |bar| == |Steps|
    ensures forall i :: 0 <= i < |bar| ==> (bar[i].status == Active <==> i + 1 == current)
    ensures forall i :: 0 <= i < |bar| ==> (bar[i].status == Completed <==> i + 1 < current)
  {
    CatalogueNumbering();
    seq(|Steps|, i requires 0 <= i < |Steps| => ViewOf(Steps[i], current))
  }


  /** Position `i` of the bar is completed before the current step, active
      at it and pending after it. */
  lemma ProgressBarPositions(current: int, i: int)
    requires 0 <= i < |Steps|
    ensures ProgressBar(current)[i].status == Completed <==> i + 1 < current
    ensures ProgressBar(current)[i].status == Active <==> i + 1 == current
    ensures ProgressBar(current)[i].status == Pending <==> i + 1 > current
  {
    CatalogueNumbering();
  }

  function Count(bar: seq<StepView>, s: Status): nat
    decreases |bar|
  {
    if bar == [] then 0
    else Count(bar[..|bar| - 1], s) + (if bar[|bar| - 1].status == s then 1 else 0)
  }

  lemma {:induction false} CountPrefix(current: int, n: nat)
    requires Navigation.InRange(current, |Steps|) && n <= |Steps|
    ensures Count(ProgressBar(current)[..n], Completed) == Navigation.Min(current - 1, n)
    ensures Count(ProgressBar(current)[..n], Active) == (if current <= n then 1 else 0)
    ensures Count(ProgressBar(current)[..n], Pending) == Navigation.Max(n - current, 0)
    decreases n
  {
    if n > 0 {
      var bar := ProgressBar(current);
      assert bar[..n][..n - 1] == bar[..n - 1];
      CountPrefix(current, n - 1);
      ProgressBarPositions(current, n - 1);
    }
  }

  /** On a valid step exactly one step is active, the steps before it are
      the completed ones and the rest are pending. */
  lemma ExactlyOneActive(current: int)
    requires Navigation.InRange(current, |Steps|)
    ensures Count(ProgressBar(current), Active) == 1
    ensures Count(ProgressBar(current), Completed) == current - 1
    ensures Count(ProgressBar(current), Pending) == |Steps| - current
  {
    var bar := ProgressBar(current);
    assert bar[..|Steps|] == bar;
    CountPrefix(current, |Steps|);
  }

  /* -------------------------------------------------------------- preview */

  datatype ExperienceCard = ExperienceCard(title: string, company: string, description: string)

  /** The preview pane: the heading with name and contact lines, then the
      summary, experience and skills sections, each present or absent. */
  datatype PreviewPane = PreviewPane(
    name: string, email: string, phone: string, location: string,
    summary: Option<string>,
    experience: Option<seq<ExperienceCard>>,
    skills: Option<seq<string>>)

  function Card(e: Experience): ExperienceCard {
    ExperienceCard(e.title, e.company, e.description)
  }

  /** The preview pane's content for a draft. Each optional section is
      present exactly when its field is non-empty, and then shows it. */
  function Preview(d: Draft): (r: PreviewPane)
    ensures r.name == d.firstName + " " + d.lastName
    ensures r.email == d.email && r.phone == d.phone && r.location == d.location
    ensures r.summary.Some? <==> d.summary != []
    ensures r.experience.Some? <==> |d.experience| > 0
    ensures r.skills.Some? <==> |d.skills| > 0
    ensures r.summary.Some? ==> r.summary.value == d.summary
    ensures r.skills.Some? ==> r.skills.value == d.skills
    ensures r.experience.Some? ==>
      |r.experience.value| == |d.experience| &&
      forall k :: 0 <= k < |d.experience| ==> r.experience.value[k] == Card(d.experience[k])
  {
    PreviewPane(
      d.firstName + " " + d.lastName, d.email, d.phone, d.location,
      if d.summary != [] then Some(d.summary) else None,
      if |d.experience| > 0 then Some(seq(|d.experience|, k requires 0 <= k < |d.experience| => Card(d.experience[k]))) else None,
      if |d.skills| > 0 then Some(d.skills) else None)
  }

  /** The preview pane as the page renders it: present exactly while the
      preview is toggled on, and then composed from the draft. */
  function PreviewOf(p: Page): (r: Option<PreviewPane>)
    ensures r.Some? <==> p.showPreview
    ensures r.Some? ==> r.value == Preview(p.draft)
  {
    if p.showPreview then Some(Preview(p.draft)) else None
  }

  /** The preview button shows and hides the pane; navigating keeps it as
      it is. */
  lemma PreviewFollowsToggle(p: Page)
    ensures PreviewOf(PageHandle(p, TogglePreview)).Some? <==> PreviewOf(p).None?
    ensures PreviewOf(PageHandle(p, ClickNext)) == PreviewOf(p)
    ensures PreviewOf(PageHandle(p, ClickPrevious)) == PreviewOf(p)
  {
  }

  /** The preview does not show LinkedIn, website, education or projects:
      editing them leaves it as it is. */
  lemma PreviewIgnoresHiddenFields(d: Draft, f: Field, v: Value)
    requires f in {LinkedIn, Website, EducationEntries, ProjectEntries} && Fits(f, v)
    ensures Preview(Update(d, f, v)) == Preview(d)
  {
    var u := Update(d, f, v);
    assert Get(u, FirstName) == Get(d, FirstName);
    assert Get(u, LastName) == Get(d, LastName);
    assert Get(u, Email) == Get(d, Email);
    assert Get(u, Phone) == Get(d, Phone);
    assert Get(u, Location) == Get(d, Location);
    assert Get(u, Summary) == Get(d, Summary);
    assert Get(u, ExperienceEntries) == Get(d, ExperienceEntries);
    assert Get(u, SkillEntries) == Get(d, SkillEntries);
  }
}

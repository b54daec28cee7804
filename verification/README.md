# Resume wizard and onboarding wizard — a Dafny model

This project models the two client-side form wizards of the resume-building web app:

- **The resume-creation wizard.** It walks a seven-step catalogue (Personal Information … Review & Save) with clamped Next and Previous buttons. It edits a draft one field at a time. It draws a progress bar that marks each step completed, active or pending. It shows Save, Publish and Discard only on the review step, and it can show a live preview built from the draft. The skills box is the one place with real string handling: the box shows the skills joined with `", "`, and each edit splits the input at commas, trims every piece and drops the empty ones. Refilling the box from the parsed skills erases a comma typed at the end (see "## Findings"). The model has both versions of the page: `Page` and `PageHandle` follow the code as written, and `Wizard` and `Handle` are the corrected page, whose state keeps the text as typed and parses the skills from it. `HandleRefinesPage` shows the two make the same step, toggle and draft on every action.
- **The onboarding wizard.** It has two steps: the display name, then the username. Next is gated on a non-blank name, and Complete Setup on a non-blank username. Submitting validates both trimmed fields and sends the trimmed profile to the profile-update call. The busy flag is cleared however that call ends. The progress value is `step * 100 / 2`.

The model is written as immutable datatypes and pure functions:

- **`Strings`** (`strings.dfy`) models JavaScript's `trim`, `split` with a one-character separator, and `join`. The whitespace that `trim` removes is an explicit predicate over code points, following the WhiteSpace and LineTerminator productions of ECMAScript (sections 12.2 and 12.3 of ECMA-262).
- **`Skills`** (`skills.dfy`) holds the parse/format codec of the skills box.
- **`Navigation`** (`navigation.dfy`) is the clamped step counter both wizards share.
- **`ResumeWizard`** (`resume_wizard.dfy`) and **`Onboarding`** (`onboarding.dfy`) are the two pages. Each page's user actions are modelled as events, and each page has a reachability invariant.
- **`Wrappers`** (`wrappers.dfy`) holds `Option`.

Interaction with the outside world is abstracted:

- The profile-update call is a function parameter. It returns one of three outcomes: resolves with success, resolves with a failure, or throws.
- A submit runs to completion in a single step.

Three facts about the code shape the model:

- **Save and Publish.** They only write to the console (`app/resume/create/page.tsx:123-131`), so the resume wizard has no busy flag.
- **Next gating.** The resume wizard never disables Next (`app/resume/create/page.tsx:435-439`); only the onboarding wizard gates it (`app/onboarding/page.tsx:169-174`).
- **Navigation.** Both wizards move only by Next and Previous, one step at a time (`app/resume/create/page.tsx:111-121`); there is no way to jump to a step.

## Model

| member | source | states |
|---|---|---|
| Strings.Trim | app/resume/create/page.tsx:358 | Trimming leaves a string with no whitespace at either end, never longer than the input. |
| Strings.TrimParts | app/onboarding/page.tsx:57-58 | Every string is some all-whitespace prefix, then its trim, then some all-whitespace suffix: trim removes only whitespace, and only at the ends. |
| Strings.TrimUnique | app/onboarding/page.tsx:57-58 | Conversely, a trimmed string padded on both sides by whitespace trims back to itself, so `trim` is exactly "strip the whitespace at the ends". |
| Strings.TrimIdempotent | app/onboarding/page.tsx:57-58 | Trimming twice is trimming once. |
| Strings.TrimEmptyIff | app/onboarding/page.tsx:52 | A string trims to empty exactly when it is all whitespace (both directions), which is what the `!x.trim()` tests check. |
| Strings.TrimKeepsAbsent | app/resume/create/page.tsx:358 | A character absent from the input (the comma) is absent from its trim. |
| Strings.TrimIgnoresLeadingWs | app/resume/create/page.tsx:358 | Extra leading whitespace (the space after a separator) does not change the trim. |
| Strings.Split | app/resume/create/page.tsx:358 | Splitting at a character gives at least one piece, no piece contains the separator, and joining the pieces with the separator gives back the input. |
| Strings.SplitAppend | app/resume/create/page.tsx:358 | Splitting `a + "," + b` gives the pieces of `a` followed by the pieces of `b`. |
| Strings.Join | app/resume/create/page.tsx:357 | Joining starts with the first piece, and its length is the pieces' total length plus one separator between each two pieces; no pieces join to the empty string. Its inverse is `Strings.SplitJoin`. |
| Strings.SplitJoin | app/resume/create/page.tsx:358 | Joining separator-free pieces and splitting again gives back the pieces: split and join are inverse. |
| Skills.Keep | app/resume/create/page.tsx:358 | A piece contributes nothing exactly when it is all whitespace; otherwise it contributes exactly its trim, as one skill, and that skill has no comma when the piece had none. |
| Skills.Clean | app/resume/create/page.tsx:358 | Trimming and filtering never adds pieces, and comma-free pieces yield only non-empty, trimmed, comma-free skills. |
| Skills.Format | app/resume/create/page.tsx:357 | The text the box shows starts with the first skill, and for well-formed skills it is empty exactly when there are none. `Skills.ParseFormat` states that parsing it gives the skills back. |
| Skills.Parse | app/resume/create/page.tsx:358 | Every skill the box produces is non-empty, has no surrounding whitespace and contains no comma. |
| Skills.ParseAppend | app/resume/create/page.tsx:358 | The skills of `a,b` are the skills of `a` followed by those of `b`, so the input's order is kept. |
| Skills.ParseEmptyIff | app/resume/create/page.tsx:358 | The input yields no skills exactly when it holds only commas and whitespace; `""` yields none. |
| Skills.ParseDropsTrailingSeparator | app/resume/create/page.tsx:358 | A trailing comma, even followed by whitespace, adds nothing: `parse("a, ") == parse("a")`. |
| Skills.ParseDropsEmptySegment | app/resume/create/page.tsx:358 | A doubled comma counts as one: empty segments are not preserved. |
| Skills.ParseIgnoresLeadingWs | app/resume/create/page.tsx:358 | Whitespace in front of the input does not change the parsed skills. |
| Skills.ParsePaddedSkill | app/resume/create/page.tsx:358 | A single skill surrounded by whitespace parses to exactly that skill. |
| Skills.ParseExample | app/resume/create/page.tsx:358 | Inputs shaped like the example `"a, b ,c"` — three skills with spaces beside the commas — yield exactly those three skills, in order. |
| Skills.ParseFormat | app/resume/create/page.tsx:357-358 | Round trip: re-parsing the displayed text of well-formed skills gives the same skills. |
| Skills.ParseIdempotent | app/resume/create/page.tsx:357-358 | Displaying parsed skills and parsing again changes nothing. |
| Navigation.Next | app/resume/create/page.tsx:111-115 | From an in-range step, Next lands on `min(step + 1, total)`, stays in range, and is a no-op exactly on the last step. |
| Navigation.Previous | app/resume/create/page.tsx:117-121 | Previous lands on `max(step - 1, 1)`, never moves forward, and is a no-op exactly on step 1 (or below). |
| Navigation.PreviousUndoesNext | app/onboarding/page.tsx:33-43 | Previous undoes Next wherever Next moved. |
| Navigation.NextUndoesPrevious | app/onboarding/page.tsx:33-43 | Next undoes Previous wherever Previous moved. |
| Navigation.RunStaysInRange | app/resume/create/page.tsx:111-121 | Any sequence of Next and Previous presses keeps the step in `[1, total]`. |
| Navigation.RunForward | app/resume/create/page.tsx:111-115 | `k` presses of Next land on `min(step + k, total)`. |
| Navigation.RunBack | app/resume/create/page.tsx:117-121 | `k` presses of Previous land on `max(step - k, 1)`. |
| ResumeWizard.CatalogueNumbering | app/resume/create/page.tsx:64-72 | The catalogue has seven entries numbered 1 to 7 in order, so it agrees with the literal 7 of the review step. |
| ResumeWizard.Update | app/resume/create/page.tsx:138-143 | Updating a field makes it read the new value and leaves every other field of the draft unchanged. |
| ResumeWizard.UpdateWithCurrentValue | app/resume/create/page.tsx:138-143 | Writing back a field's current value leaves the draft as it was. |
| ResumeWizard.UpdateOverwrites | app/resume/create/page.tsx:138-143 | Of two writes to the same field, the second wins. |
| ResumeWizard.UpdatesCommute | app/resume/create/page.tsx:138-143 | Writes to different fields commute. |
| ResumeWizard.SkillsText | app/resume/create/page.tsx:357 | The value the skills input shows: for well-formed skills, parsing it gives back exactly the draft's skills. |
| ResumeWizard.EditSkills | app/resume/create/page.tsx:358 | Typing into the skills box sets the skills to exactly the parse of the input, which is well formed, and changes no other field. |
| ResumeWizard.EditShownSkills | app/resume/create/page.tsx:357-358 | Re-submitting the text the skills box shows leaves the draft unchanged. |
| ResumeWizard.TypedCommaIsErased | app/resume/create/page.tsx:357-358 | As written, typing a comma after the shown text leaves the draft and the shown text unchanged: the comma disappears. |
| ResumeWizard.TypedCommaExample | app/resume/create/page.tsx:357-358 | With the skills `["a"]` the box shows `a`; typing `,` gives the input `a,`, and the box shows `a` again. |
| ResumeWizard.TypeIntoSkills | app/resume/create/page.tsx:358 | Corrected skills edit: the box keeps the typed text, the skills are exactly its parse, and no other field, step or toggle changes. |
| ResumeWizard.TypedTextIsKept | app/resume/create/page.tsx:351-363 | Corrected behaviour: on the skills step, a change in the skills box leaves the box showing exactly the input and sets the skills to its parse. |
| ResumeWizard.TypingAddsSkill | app/resume/create/page.tsx:351-363 | Corrected behaviour: after the box's text, a first change to `text,` keeps the comma, and a second change to `text, x` appends the skill `x` to the list. |
| Skills.ParseDropsSeparatorAtEnd | app/resume/create/page.tsx:358 | A comma at the very end of the input adds no skill. |
| Skills.ParseAddsSkill | app/resume/create/page.tsx:358 | Appending `", " + x` for a skill `x` appends exactly `x` to the parsed skills. |
| ResumeWizard.CurrentTitle | app/resume/create/page.tsx:200 | For any step inside the catalogue, the form card's heading, looked up by position, is the title of the catalogue entry whose id is that step. |
| ResumeWizard.PageHandle | app/resume/create/page.tsx:111-143 | The page as written, whose skills box shows the skills joined again. An action the page does not offer leaves it unchanged. An offered Next or Previous lands on `Navigation.Next` or `Navigation.Previous` of the step. The toggle flips the preview. A text edit sets its field to the text and keeps every other field. Typing in the skills box sets the skills to the parse of the input and keeps every other field. Only the toggle changes the preview. Every action keeps the step inside the catalogue and the skills well formed. Navigation touches neither the draft nor the toggle, only navigation moves the step, and only edits change the draft. |
| ResumeWizard.PageRunKeepsValid | app/resume/create/page.tsx:111-121 | On the page as written, any sequence of actions from a valid state keeps it valid. |
| ResumeWizard.PageReachableIsValid | app/resume/create/page.tsx:75-93 | On the page as written, every state reachable from the initial one has its step inside the catalogue, so the title lookup at line 200 is in bounds, and has well-formed skills. |
| ResumeWizard.PageTypedCommaIsErased | app/resume/create/page.tsx:357-358 | On the page as written, typing a comma after the text the skills box shows leaves the whole page unchanged. |
| ResumeWizard.HandleRefinesPage | app/resume/create/page.tsx:111-143 | On every action, the corrected page and the page as written make the same step, preview toggle and draft: the correction changes only what the skills box shows. |
| ResumeWizard.RunRefinesPage | app/resume/create/page.tsx:111-143 | The same holds for any sequence of actions. |
| ResumeWizard.ControlsAt | app/resume/create/page.tsx:425-439 | On a step inside the catalogue, exactly one of Next and the review step's actions is shown. Previous is disabled exactly where Previous would not move. |
| ResumeWizard.Accepts | app/resume/create/page.tsx:203-439 | On a step inside the catalogue, Next can be clicked exactly where it would move, and Previous exactly where it would move. The seven personal inputs are live exactly on step 1 and the summary exactly on step 2. The list-valued fields have no text input on any step, and the skills box is live exactly on step 5. The preview toggle is always live. |
| ResumeWizard.ControlsMatchNavigation | app/resume/create/page.tsx:397-441 | Previous is disabled exactly on step 1, where it would do nothing. Next is shown exactly below step 7, where it would move. Save/Publish/Discard appear exactly on step 7, in Next's place. |
| ResumeWizard.Handle | app/resume/create/page.tsx:111-143 | Corrected behaviour: an action not offered leaves the state unchanged. An offered Next or Previous lands on `Navigation.Next` or `Navigation.Previous`, the toggle flips the preview, and a text edit sets its field and keeps the others. Typing in the skills box, on step 5, sets the box's text to the input and the skills to its parse, and keeps every other field. Only the toggle changes the preview. Every user action keeps the state valid, and in a valid state the skills are well formed. Navigation touches neither the draft nor the preview toggle. Only navigation moves the step, only edits change the draft, and only typing in the skills box changes its text. |
| ResumeWizard.RunKeepsValid | app/resume/create/page.tsx:111-121 | Corrected behaviour: any sequence of actions from a valid state keeps it valid. |
| ResumeWizard.ReachableIsValid | app/resume/create/page.tsx:200 | Corrected behaviour: in every reachable state the step is inside the catalogue, so the title lookup is in bounds, and the skills are the parse of the skills box's text. |
| ResumeWizard.ToggleTwice | app/resume/create/page.tsx:162 | Toggling the preview twice restores the state. |
| ResumeWizard.ViewOf | app/resume/create/page.tsx:173-184 | A step is completed exactly when its id is below the current step, pending exactly when above (so active exactly at it). The check mark shows exactly on completed steps, the step's number otherwise, and the title is emphasised exactly on the active step. |
| ResumeWizard.ProgressBar | app/resume/create/page.tsx:171-186 | The bar has one entry per catalogue step; position `i` is active exactly when `i + 1` is the current step, and completed exactly when it is below it. |
| ResumeWizard.ProgressBarPositions | app/resume/create/page.tsx:173-179 | Steps before the current one are completed, the current one is active, and later ones are pending. |
| ResumeWizard.CountPrefix | app/resume/create/page.tsx:171-191 | Among the first `n` steps of the bar, the counts of completed, active and pending steps are `min(current - 1, n)`, `[current <= n]` and `max(n - current, 0)`. |
| ResumeWizard.ExactlyOneActive | app/resume/create/page.tsx:171-191 | Exactly one step is active, `current - 1` are completed and `7 - current` are pending. |
| ResumeWizard.Preview | app/resume/create/page.tsx:445-494 | The preview shows the full name and contact lines. It shows the summary, experience and skills sections exactly when those fields are non-empty, and then with the draft's contents in order. |
| ResumeWizard.PreviewOf | app/resume/create/page.tsx:445 | The preview pane is rendered exactly while the preview is toggled on, and then shows the draft's preview. |
| ResumeWizard.PreviewFollowsToggle | app/resume/create/page.tsx:162 | The preview button shows a hidden pane and hides a shown one; Next and Previous leave the pane as it is. |
| ResumeWizard.PreviewIgnoresHiddenFields | app/resume/create/page.tsx:445-500 | LinkedIn, website, education and projects do not appear in the preview: editing them leaves it unchanged. |
| Onboarding.InputChange | app/onboarding/page.tsx:26-31 | Changing a field sets it to the new value and leaves the other field unchanged. |
| Onboarding.InputChangeWithCurrentValue | app/onboarding/page.tsx:26-31 | Writing back a field's current value leaves the form unchanged. |
| Onboarding.ProgressFollowsNavigation | app/onboarding/page.tsx:23-43 | Next never lowers the progress and raises it except on the last step; Previous never raises it and lowers it except on step 1. |
| Onboarding.Progress | app/onboarding/page.tsx:23-24 | The integer progress equals the real quotient `step / 2 * 100`, so rounding it for display changes nothing. It lies in `(0, 100]` on a valid step and is 100 exactly on the last step. |
| Onboarding.ControlsAt | app/onboarding/page.tsx:157-193 | Previous is shown exactly after step 1 and is disabled exactly while loading. Next is shown exactly before the last step, Complete Setup otherwise. Next is disabled exactly when loading or the name is all whitespace; Complete Setup exactly when loading or the username is all whitespace. The label reads "Saving..." exactly while loading, and Skip is offered on step 1 only. |
| Onboarding.Submit | app/onboarding/page.tsx:45-77 | The submit is busy while it runs and not busy afterwards, on every outcome. Nothing is sent exactly when either field is all whitespace, and then the validation error is caught. Otherwise the trimmed name and username are sent, and the success, failure and thrown outcomes each reach their own branch. |
| Onboarding.Handle | app/onboarding/page.tsx:26-43 | Next and Previous land on `Navigation.Next` and `Navigation.Previous` exactly when their button is shown and enabled. Complete Setup, when shown and enabled, leaves the state with only the busy flag cleared. A click on a hidden or disabled button changes nothing. Typing edits the name on step 1 and the username on step 2 and nothing else. Only Previous and Next move the step, and only typing changes the form. Only Complete Setup touches the busy flag, and it leaves the flag cleared. |
| Onboarding.HandleKeepsSettled | app/onboarding/page.tsx:33-43 | Each user action keeps the step in `[1, 2]` and the page not busy, and the username step is only reached with a non-blank name. |
| Onboarding.RunKeepsSettled | app/onboarding/page.tsx:33-43 | Any sequence of user actions keeps that invariant. |
| Onboarding.EnabledCompleteSends | app/onboarding/page.tsx:52-59 | In every reachable state where Complete Setup can be clicked, validation passes and the profile is sent: the page's own buttons never lead to the blank-field error. |

## Findings

| source | as written | input that shows it | evidently intended | confidence | as-written member | corrected member |
|---|---|---|---|---|---|---|
| app/resume/create/page.tsx:357-358 | The skills input is controlled by `skills.join(', ')`, and each change replaces the skills with the parsed input, so the box is refilled from the parsed list on every keystroke. | Skills `["a"]`, box shows `a`; type `,`: the input `a,` parses to `["a"]` and the box shows `a` again. So a comma cannot be typed at the end of the text, and a new skill cannot be started by typing there; a comma typed between characters (`ab` to `a,b`) does split. | The box keeps the text as typed (placeholder `JavaScript, React, Node.js, Python`), and the skills are parsed from it. | high; not executed | ResumeWizard.PageTypedCommaIsErased | ResumeWizard.TypingAddsSkill |

The corrected page (`ResumeWizard.Wizard`, `ResumeWizard.Handle`, with `ResumeWizard.TypeIntoSkills`) carries the text of the skills box in its state. The page as written (`ResumeWizard.Page`, `ResumeWizard.PageHandle`) keeps `ResumeWizard.SkillsText` and `ResumeWizard.EditSkills`, and `ResumeWizard.TypedCommaIsErased` states the same fact about the draft alone.

## Left out

- Session checks and redirects (`useEffect` auth lookups, Discard's redirect to `/home`) are calls into the auth provider and the router; they are not modelled, and Discard is not an event of the model.
- Save and Publish on the review step only write to the console; the model records that they are offered on step 7 and nothing more.
- The Add and Remove buttons for experience, education and projects have no handlers, so the model gives them no behaviour; only the skills box edits a list.
- The internals of the profile-update client (building the request, reading the base URL, normalising HTTP errors) are not modelled; its result is the abstract three-way outcome.
- Console logging and the commented-out redirect and toast on submit have no effect on state and are not modelled.
- The submit is modelled as one atomic step. Interleavings while the call is pending, such as typing or a second click while busy, are not modelled.
- The model uses exact integers for progress instead of the floating-point value and `Math.round`; with two steps the two agree, as `Onboarding.Progress` states.
- Strings are sequences of characters. JavaScript strings are UTF-16 code units, and whitespace outside the Basic Multilingual Plane does not exist, so the two agree for `trim` and for splitting at a comma.
- Markup and styling (class names, icons, placeholder texts, the "Skip for Now" button's missing handler) are not modelled beyond which controls are shown and enabled.
- ResumeWizard.Handle: models the corrected skills box, not the page as written; the page as written is `ResumeWizard.PageHandle`, and `ResumeWizard.HandleRefinesPage` shows the two differ only in the box's text.
- ResumeWizard.RunKeepsValid: its invariant includes the corrected box's text; for the page as written see `ResumeWizard.PageRunKeepsValid`.
- ResumeWizard.ReachableIsValid: proved for the corrected page; for the page as written see `ResumeWizard.PageReachableIsValid`.
- ResumeWizard.TypedTextIsKept: states the corrected box, which keeps the input; the page as written shows the skills joined again (`ResumeWizard.PageTypedCommaIsErased`).
- ResumeWizard.Update: requires the value to have the type the draft declares for the field. The page's `updateResumeData` accepts any value, but every call site on the page passes a value of the declared type.
- Strings.Trim: its own contract states only that the result is trimmed and no longer than the input; the exact characterisation is split across `Strings.TrimParts` and `Strings.TrimUnique`, to keep each proof small.

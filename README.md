# Clinic site script: form validation, feedback, mobile menu, active link

This project models the part of the clinic website's `script.js` that can be
stated without a browser:

- the field rules of the appointment and contact forms: the two-character
  name, the phone pattern `^[\d\s\-\+\(\)]+$` with its ten-digit minimum, the
  e-mail pattern `^[^\s@]+@[^\s@]+\.[^\s@]+$`, and the non-empty select and
  date fields. Name, phone and e-mail are tested on the value after
  JavaScript's `trim()`, with `\s` and `length` as JavaScript defines them;
  the submit handlers test selects and the date on the raw value
  (`!x.value`);
- the feedback the two forms give. Each submit handler clears every group's
  error and runs every check without stopping at the first failure.
  `showFormError` reuses a group's one message node. `showSuccessMessage`
  leaves one banner, as the form's first child. The blur validators report
  the first failing rule. The `input` fast path clears an error as soon as
  the field is non-blank;
- the mobile-menu flags (menu `active`, toggle `active`, body scroll lock)
  under the toggle click, a nav-link click, a click elsewhere and a settled
  resize;
- `setActiveNavLink`: the current page is the last `/`-segment of the path
  or `index.html`, and exactly the links whose `href` equals it are active.

Modules:

- `Text`: white space, `trim()` and UTF-16 `length`.
- `Rules`: the phone, e-mail and name rules, each with an independent
  characterisation.
- `RuleExamples`: the values the rules are pinned down by.
- `Feedback`: the page state as values and the specification functions of
  every handler.
- `Forms`: a `Form` class whose methods change the groups, the children and
  the controls in place, each proved equal to its specification function.
  Each object records which of the two forms it is, and each form's handlers
  can be called only on that form.
- `Menu`: the menu flags as a `MobileMenu` class over specification
  functions.
- `Nav`: the path split and the marking loop over an array of link flags.
- `Scenarios`: whole-form submits under an assumed layout: one control per
  id a submit handler looks up, each in its own group. The page's markup is
  not part of this model; the script fixes only the ids it looks up.

On a successful submit the code calls `form.reset()`, which gives every
control back its `defaultValue`; the model restores `defaultValue`, which is
not necessarily empty. The e-mail rule is the regular expression itself: the
part after the `@` needs a `.` with at least one character on each side.

## Model

| member | source | states |
|---|---|---|
| Text.IsSpace | script.js:193 | the characters `trim()` strips and `\s` matches: the ECMAScript white-space and line-terminator code points |
| Text.Trim | script.js:193 | `trim()` never leaves white space at either end of its result, and the result is no longer than the input |
| Text.TrimIsInfix | script.js:193 | what `trim()` keeps is an infix of the value, and everything it drops on either side is white space |
| Text.TrimEmptyIff | script.js:312 | a trimmed value is empty exactly when the raw value is all white space |
| Text.TrimKeepsInner | script.js:193 | a value with non-space characters at both ends is its own trimmed form |
| Text.TrimIdempotent | script.js:193 | trimming twice is trimming once |
| Text.Utf16Length | script.js:194 | `length` counts UTF-16 code units: between one and two per character, exactly one each when every character is in the Basic Multilingual Plane, and a single character counts one unit inside that plane and two outside it |
| Text.Utf16LengthConcat | script.js:194 | `length` adds up over concatenation, so every character contributes its own count wherever it stands |
| Rules.IsValidPhone | script.js:204-205 | the phone rule on the trimmed value: non-empty, every character in `[\d\s\-\+\(\)]`, and at least ten digits |
| Rules.Digits | script.js:205 | `replace(/\D/g, '')` keeps only digits and never lengthens the value |
| Rules.DigitsKeepsAllDigits | script.js:205 | stripping non-digits keeps every digit as often as it occurs, and nothing else |
| Rules.DigitsConcat | script.js:205 | the digits of a concatenation are the digits of its parts, in order |
| Rules.SeparatorIgnored | script.js:204-205 | inserting a space, `-`, `+`, `(` or `)` anywhere leaves the phone verdict unchanged |
| Rules.GroupedDigitsAccepted | script.js:203-205 | three digit runs, each preceded by a (possibly empty) run of separators, with ten or more digits in all, are accepted as a phone number |
| Rules.ValidPhoneNeedsTen | script.js:205 | a value shorter than ten characters is never a valid phone number |
| Rules.IsValidEmail | script.js:422-424 | the e-mail rule as a checkable description: no white space, exactly one `@` with text before it, and after it a `.` with a character on each side |
| Rules.MatchesEmailPattern | script.js:423 | what `^[^\s@]+@[^\s@]+\.[^\s@]+$` matches: a plain run, `@`, a plain run, `.`, a plain run, where plain means neither white space nor `@` |
| Rules.ValidEmailMatchesPattern | script.js:422-424 | a value passing the checkable e-mail description splits as plain run, `@`, plain run, `.`, plain run |
| Rules.PatternMatchIsValidEmail | script.js:422-424 | every value the pattern matches has no white space, exactly one `@`, text before it and an inner `.` after it |
| Rules.EmailDescriptionMatchesPattern | script.js:422-424 | the checkable description and the regular expression accept the same values |
| Rules.ValidEmailOfParts | script.js:423 | three non-empty plain runs joined by `@` and `.` form a valid e-mail address |
| Rules.IsLongEnoughName | script.js:193-194 | the name rule on the trimmed value: `length` is at least two UTF-16 code units |
| Rules.LongEnoughNameIff | script.js:194 | a name passes exactly when it has two or more characters, or one character outside the Basic Multilingual Plane |
| RuleExamples.PhoneRejectsLetters | script.js:204-205 | `abc` is rejected by the phone character class |
| RuleExamples.PhoneRejectsShort | script.js:205 | `123` is rejected for having fewer than ten digits |
| RuleExamples.PhoneAcceptsFormatted | script.js:203-205 | `(555) 123-4567` is accepted |
| RuleExamples.PhoneAcceptsDashed | script.js:411-413 | `555-123-4567` is accepted |
| RuleExamples.EmailRejectsMissingDot | script.js:422-424 | `a@b` is rejected by the description and by the pattern |
| RuleExamples.EmailRejectsSpace | script.js:422-424 | `a b@c.com` is rejected by the description and by the pattern |
| RuleExamples.EmailAcceptsSimple | script.js:422-424 | `a@b.com` is accepted by the description and by the pattern |
| Feedback.ResetValues | script.js:235 | `form.reset()` gives every control its default value and changes nothing else about it |
| Feedback.MarkError | script.js:243-250 | a marked group carries the error, its first message node shows the new text, a node is created only if there was none, and later nodes are untouched |
| Feedback.MarkErrorLastWins | script.js:244-250 | showing two messages in a row leaves the group as if only the second had been shown |
| Feedback.MarkAt | script.js:240-252 | `showFormError` changes only the input's own group, and nothing at all when the input has no group |
| Feedback.Dismiss | script.js:389-393 | a dismissed group has no error; the class-only style keeps the nodes, the remove style drops the first node, the blank style empties its text |
| Feedback.DismissAt | script.js:330-336 | clearing a field's error changes only that field's group |
| Feedback.DismissAll | script.js:183-186 | the opening `forEach` dismisses every group and keeps their number |
| Feedback.RemoveFirstBanner | script.js:256-259 | removing the existing banner drops one banner, if any, and keeps every other child in order |
| Feedback.WithBanner | script.js:254-276 | after `showSuccessMessage` the banner is the first child, there is exactly one banner if there was at most one, and the other children keep their order |
| Feedback.Fails | script.js:190-230 | a submit rule fails on the trimmed name when it is shorter than two units, on the trimmed phone or e-mail when its rule rejects it, and on a select or date only when the raw value is empty |
| Feedback.AppointmentChecks | script.js:190-230 | the appointment submit checks name, phone, department, doctor and date, in that order, each with its id and message |
| Feedback.ContactChecks | script.js:398-428 | the contact submit checks name, phone and e-mail, in that order, each with its id and message |
| Feedback.FindIndex | script.js:191 | `getElementById` finds the first control with the id, or none |
| Feedback.FoundAt | script.js:191 | a control preceded by no other with its id is the one found |
| Feedback.CheckFailures | script.js:190-198 | a check reports at most one failure, and none exactly when its field is absent or passes its rule |
| Feedback.Failures | script.js:188-230 | a submit runs every check in order and collects the failure of each failing one, without stopping at the first |
| Feedback.FailuresConcat | script.js:188-230 | running two lists of checks one after the other reports the failures of the first, then those of the second |
| Feedback.FailuresOfFive | script.js:190-230 | the five appointment checks report their failures in the handler's order |
| Feedback.FailuresOfThree | script.js:398-428 | the three contact checks report their failures in the handler's order |
| Feedback.NoFailuresIff | script.js:188-236 | a submit finds no failure exactly when every check passes, so no early exit hides a failure |
| Feedback.ApplyFailures | script.js:195-228 | the groups after `showFormError` has run for each failure in turn |
| Feedback.ApplyFailuresConcat | script.js:195-228 | showing two lists of failures in turn is showing their concatenation |
| Feedback.LastMessageFor | script.js:250 | there is no message for a group exactly when no failure names it; otherwise it is the message of a failure naming the group with no later failure naming it, that is, the last one shown |
| Feedback.ApplyFailuresAt | script.js:240-252 | after the failures are shown, a group no failure names is untouched, and any other is marked with the last message shown for it |
| Feedback.ApplyFailuresSingle | script.js:244-249 | showing failures never gives a group a second message node |
| Feedback.Submitted | script.js:183-230 | the groups after a submit: every error dismissed first, then every failure shown |
| Feedback.SubmitMarksExactlyFailing | script.js:183-230 | after a submit a group is in error exactly when a failing field belongs to it; it shows the last such message, and otherwise it is the dismissed group |
| Feedback.FirstFailure | script.js:312-328 | the verdict is none exactly when no rule fails, and otherwise the message of the first failing rule |
| Feedback.AppointmentFieldRules | script.js:312-328 | the appointment blur rules in order: required and blank (or an empty select), a bad non-blank phone, a non-blank name shorter than two units |
| Feedback.ContactFieldRules | script.js:464-488 | the contact blur rules in order: required and blank, a bad non-blank e-mail, a bad non-blank phone, a non-blank name shorter than two units |
| Feedback.FirstFailureOfThree | script.js:312-328 | with three rules the first failing one decides |
| Feedback.FirstFailureOfFour | script.js:464-488 | with four rules the first failing one decides |
| Feedback.AppointmentFieldPassesIff | script.js:308-338 | an appointment field passes blur exactly when it is not blank if required, a non-blank phone is valid, and a non-blank name is long enough |
| Feedback.ContactFieldPassesIff | script.js:460-498 | a contact field passes blur exactly when it is not blank if required and a non-blank e-mail, phone or name satisfies its rule |
| Feedback.BlankRequiredReportsRequired | script.js:312-315 | a blank required field is reported as required on both forms, never as too short |
| Feedback.ContactEmailBeforeOthers | script.js:469-475 | a bad non-blank e-mail is reported by the e-mail rule before any later rule |
| Feedback.AppointmentBlurAgreesWithSubmit | script.js:312-328 | on the required name and phone fields, blur passes exactly when the submit rule passes |
| Feedback.AfterBlur | script.js:330-336 | a blur check changes only the field's group, which ends in error exactly when a rule failed |
| Feedback.FastPathClears | script.js:294-296 | the `input` handler acts when the field's group is in error and the trimmed value is non-blank, or, on the appointment form, a select has a value |
| Feedback.AfterInput | script.js:292-304 | the fast path never raises an error, leaves groups not in error alone, and clears the field's group exactly when it is in error and the value is non-blank (or a select has a value) |
| Feedback.FastPathUnderValidates | script.js:294-302 | a one-character name clears its group's error on input although blur and submit still reject it |
| Forms.Form.ShowFormError | script.js:240-252 | the groups become `MarkAt` of the old ones; the input's group ends with exactly one node showing the message |
| Forms.Form.ShowSuccessMessage | script.js:254-276 | the children become `WithBanner` of the old ones: exactly one banner, first |
| Forms.Form.Reset | script.js:235 | the controls become `ResetValues` of the old ones; groups and children are unchanged |
| Forms.Form.DismissErrors | script.js:183-186 | the loop leaves the groups equal to `DismissAll` of the old ones |
| Forms.Form.RunCheck | script.js:190-198 | one check returns true exactly when it reports no failure, and shows its failure if any |
| Forms.Form.CheckAppointmentFields | script.js:188-230 | all five checks run; the flag is true exactly when none fails, and the groups show every failure in order |
| Forms.Form.SubmitAppointment | script.js:179-237 | valid exactly when every present field passes; groups equal `Submitted`; banner and reset happen exactly when valid |
| Forms.Form.CheckContactFields | script.js:396-428 | all three checks run; the flag is true exactly when none fails, and the groups show every failure in order |
| Forms.Form.SubmitContact | script.js:383-435 | valid exactly when every present field passes; groups equal `Submitted` with blanked messages; banner and reset happen exactly when valid |
| Forms.Form.ValidateAppointmentField | script.js:308-338 | returns true exactly when no rule fails; the groups become `AfterBlur`, removing the message node on a pass |
| Forms.Form.ValidateContactField | script.js:460-498 | returns true exactly when no rule fails; the groups become `AfterBlur`, blanking the message on a pass |
| Forms.Form.AppointmentInput | script.js:292-304 | the groups become `AfterInput` with selects counting |
| Forms.Form.ContactInput | script.js:444-456 | the groups become `AfterInput` on the trimmed value alone |
| Menu.Toggled | script.js:41-45 | toggling flips the menu and toggle flags and locks the body exactly when the menu ends open; without a menu nothing changes |
| Menu.LinkClicked | script.js:49-61 | a nav-link click at width 968 or less closes the menu and unlocks, clearing the toggle when it exists; otherwise nothing changes |
| Menu.ClickedOutside | script.js:64-70 | a click outside both the menu and the toggle closes everything; any other click changes nothing |
| Menu.Resized | script.js:362-376 | a settled resize wider than 968 clears every present flag and unlocks; otherwise nothing changes |
| Menu.HandlersKeepFlagsInStep | script.js:41-70 | every handler, the resize included, keeps menu active = toggle active = body locked, and never marks a missing element |
| Menu.ToggleOpensAndCloses | script.js:41-45 | toggling opens a closed menu with the lock on, closes an open one with the lock off, and twice is no change |
| Menu.CloseIdempotent | script.js:52-69 | closing twice by the same path is closing once |
| Menu.MobileMenu.Toggle | script.js:41-45 | the flags become `Toggled` of the old ones, in step |
| Menu.MobileMenu.LinkClick | script.js:51-58 | the flags become `LinkClicked` of the old ones, in step |
| Menu.MobileMenu.DocumentClick | script.js:64-70 | the flags become `ClickedOutside` of the old ones, in step |
| Menu.MobileMenu.SettledResize | script.js:364-375 | the flags become `Resized` of the old ones, in step |
| Nav.Split | script.js:345 | `split('/')` gives a non-empty list of slash-free pieces, possibly empty ones, that join back to the path |
| Nav.LastPieceIsFinalSegment | script.js:345 | `pop()` gives the suffix of the path after its last slash |
| Nav.CurrentPage | script.js:345 | the current page is never empty and has no slash: `index.html` for an empty path or one ending in `/`, otherwise the final segment |
| Nav.SetActiveNavLink | script.js:344-355 | afterwards a link is active exactly when its `href` equals the current page, and no other link is |
| Nav.CurrentPageAfterLastSlash | script.js:345 | when something follows the last slash, that is the current page |
| Nav.CurrentPageExamples | script.js:345 | `/services/hair.html` gives `hair.html`; `/` and the empty path give `index.html` |
| Scenarios.AppointmentFormLookups | script.js:191-227 | each appointment check finds its own control |
| Scenarios.AppointmentCheckResults | script.js:190-230 | each appointment check fails exactly when its value breaks its rule, marking its own group |
| Scenarios.AppointmentFailures | script.js:188-230 | an appointment submit reports the failing fields in page order, each on its own group |
| Scenarios.OnlyNameFails | script.js:188-236 | with only the name too short, exactly one failure is reported, on the name |
| Scenarios.OnlyNameGroupMarked | script.js:183-230 | after that submit only the name's group is in error, showing the name message |
| Scenarios.ContactSucceedsIff | script.js:396-434 | a contact submit succeeds exactly when name, phone and e-mail each pass |
| Scenarios.OneLetterNameFails | script.js:193-194 | the name `A` is too short |
| Scenarios.TwoLetterNamePasses | script.js:401-402 | the name `Al` is long enough |
| Scenarios.FormattedPhonePasses | script.js:203-205 | `(555) 123-4567` passes the phone check after trimming |
| Scenarios.DashedPhonePasses | script.js:411-413 | `555-123-4567` passes the phone check after trimming |
| Scenarios.SimpleEmailPasses | script.js:422-424 | `a@b.com` passes the e-mail check after trimming |
| Scenarios.ShortNameSubmit | script.js:188-236 | name `A` with a good phone, department, doctor and date gives exactly one failure, on the name |
| Scenarios.ValidContactSubmit | script.js:396-434 | name `Al`, phone `555-123-4567` and e-mail `a@b.com` give no failure |
| Scenarios.ShortNameSubmitOnPage | script.js:179-237 | submitting the appointment form with name `A`: not valid, only the name's group in error with the name message, no banner added, no field reset |
| Scenarios.ValidContactSubmitOnPage | script.js:383-435 | submitting the contact form with valid values: valid, every group's error cleared, the banner becomes the only one and the first child, every field gets its default value back |

## Left out

- Event registration, `querySelector`/`closest` lookups and `getElementById`. Controls and groups are records passed in. A control's group is an index into the form's groups. `getElementById` searches the form's own controls rather than the whole document.
- The listeners are bound only to `input`/`select` (appointment) and `input`/`textarea` (contact). The model does not restrict which control a caller passes.
- Timers: the 5000 ms banner removal and the 250 ms resize debounce. Only the settled resize is an operation.
- The fade-in `IntersectionObserver`, smooth anchor scrolling, scroll-to-top, the sticky-header threshold and the dropdown binding. These are browser geometry, floating point or decided from browser state at load.
- Inline CSS, the success banner's wording, `console.log`, `preventDefault` and `window.scrollTo`.
- A handler that dereferences a missing menu element throws a `TypeError` in the browser. The model treats that as "nothing changes", which is what the page observes.
- Text.Utf16Length: Dafny characters are Unicode scalar values, so a lone surrogate code unit in a field value cannot be represented.
- Nav.SetActiveNavLink: the `active` class is a boolean per link, and the link list is an array the caller provides.

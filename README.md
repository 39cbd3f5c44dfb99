# Clinic site script — a Dafny model

This project models `js/script.js`, the one script of a small static
clinic web site. It covers the behaviour in that script that has logic:

- **Active navigation link.** The script takes the current file name from
  `location.pathname`: the last `/`-segment, or `index.html` when that segment
  is empty. It gives every navigation link whose `href` equals that name
  `aria-current="page"`.
- **Same-page anchors.** A click inside an anchor whose `href` starts with `#`
  goes to the nearest such anchor. If an element has the id after the `#`, the
  default jump is cancelled, the page scrolls to that element, and `#id` is
  pushed onto the history.
- **Contact form: checks.**
  - The name is required.
  - The phone is required and must match `/^0\d([- ]?\d){7,8}$/`.
  - The email is optional, but a non-blank one must match `/^\S+@\S+\.\S+$/`.
  - A present message must not be blank.
  - Every value is trimmed with ECMAScript `trim()` before it is checked.
- **Contact form: state.** The form's values, the per-field error marks, the
  notice banner and the pending simulated send are modelled as a `Session`
  object whose methods are the script's handlers:
  - submit clears the marks and the notice, runs the checks, then either
    shows the error notice or starts sending;
  - the send settles with success (reset the form, success notice) or failure
    (keep the values, retry notice);
  - an edit clears the edited field's error state.

Modules, one per file:

| module | file | contents |
|---|---|---|
| `Wrappers` | `wrappers.dfy` | `Option` |
| `Text` | `text.dfy` | ECMAScript whitespace, `trim()`, blankness |
| `Patterns` | `patterns.dfy` | the two regular expressions |
| `Validation` | `validation.dfy` | field values and the four checks |
| `ContactForm` | `contact_form.dfy` | the notice, `Session` and its handlers |
| `Navigation` | `navigation.dfy` | active link and anchor clicks |

Each regular expression is written two ways: as a matcher that follows the
pattern, and as an independent description of the strings it accepts. A
lemma proves the two agree on every input.

- **Phone.** The matcher counts the groups of `([- ]?\d)`. The description
  says: `0`, then a digit, then digits and single separators, each separator
  followed by a digit, with 9 or 10 digits in all.
- **Email.** The matcher finds the first `@` and the last `.`. The
  description says: no whitespace, and *some* `@` and `.` with at least one
  character before, between and after them.

Which fields `Validate` rejects, and with which kind of error, is then
stated in terms of these descriptions alone.

Three behaviours of `js/script.js` that the model keeps as written:

- A phone number must start with `0`, followed by 8 or 9 more digits, so 9 or
  10 digits in all (line 43).
- A form without a message element is no error (line 78).
- `aria-current` is only ever added, never removed: links other than the
  current one are left as they were (line 11).

## Model

| member | source | states |
|---|---|---|
| `Text.Trim` | js/script.js:61-78 | `trim()` returns the slice of the value between its leading and trailing whitespace runs; everything cut off is whitespace, and a non-empty result starts and ends with a non-whitespace character |
| `Text.IsBlank` | js/script.js:61 | `!value.trim()` holds exactly when the value is whitespace only |
| `Text.LeadingWhitespace` | js/script.js:61 | the length of the maximal whitespace prefix trimmed from the start |
| `Text.TrailingWhitespace` | js/script.js:61 | the length of the maximal whitespace suffix trimmed from the end |
| `Text.IsWhitespace` | js/script.js:61-78 | the whitespace `trim()` strips and `\s` matches: space, tab, line feed, carriage return and no-break space are in it; digits, `@`, `.` and `-` are not |
| `Patterns.ParseGroupsSpec` | js/script.js:43 | the group tail matches exactly the digit strings whose separators each precede a digit, and the group count is the digit count |
| `Patterns.ParseGroups` | js/script.js:43 | matches a whole tail against `([- ]?\d)*` and counts the groups, never more than the tail's length; `ParseGroupsSpec` gives its exact language |
| `Patterns.PhoneMatches` | js/script.js:43 | `phoneRegex.test`: an accepted value starts with `0` and a digit and has at least 9 characters; `PhoneMatchesIff` gives its exact language |
| `Patterns.PhoneMatchesIff` | js/script.js:43 | the phone pattern accepts exactly: `0`, a digit, then digits with single `-` or space separators before digits, 9 to 10 digits in all |
| `Patterns.PhoneDigits` | js/script.js:43 | an accepted number has 9-10 digits, starts with `0` and a digit, and does not end in a separator |
| `Patterns.PhoneAcceptsPlain` | js/script.js:43 | `0501234567` is accepted |
| `Patterns.PhoneAcceptsSeparated` | js/script.js:43 | `050-123-4567` is accepted |
| `Patterns.PhoneRejects` | js/script.js:43 | `123` and a doubled separator are refused |
| `Patterns.IndexFrom` | js/script.js:73 | the first position at or after `from` holding the character, or none |
| `Patterns.LastIndexBelow` | js/script.js:73 | the last position below the bound holding the character, or none |
| `Patterns.EmailMatches` | js/script.js:73 | the email test: an accepted value has no whitespace, at least 5 characters, an `@` after its first character and a `.` before its last; `EmailMatchesIff` gives its exact language |
| `Patterns.EmailMatchesIff` | js/script.js:73 | the email pattern accepts exactly the whitespace-free strings with an `@` and a later `.` that have at least one character before, between and after them |
| `Patterns.EmailExamples` | js/script.js:73 | `a@b.co` is accepted; `a@b`, `@b.co` and `a b@c.d` are refused |
| `Validation.FormValues.Set` | js/script.js:100-105 | editing a field sets that field's value and leaves the others alone |
| `Validation.FormValues.Present` | js/script.js:49-52 | the fields whose element the form lookup found |
| `Validation.NameCheck` | js/script.js:61-64 | the name fails, with "required", exactly when it is absent or blank |
| `Validation.MessageCheck` | js/script.js:78-81 | the message fails, with "required", exactly when it is present and blank; an absent message passes |
| `Validation.PhoneCheck` | js/script.js:65-71 | absent or blank gives "required", never "invalid"; a value with content is "invalid" exactly when its trimmed text lacks the phone shape, and passes exactly when it has it |
| `Validation.EmailCheck` | js/script.js:72-77 | the email fails, with "invalid", exactly when present, non-blank and its trimmed value lacks the address shape |
| `Validation.Validate` | js/script.js:59-81 | the failing fields with one error kind each; its contract is stated by `ValidateAt` and `ValidateSpec` |
| `Validation.CanSend` | js/script.js:83-86 | `!hasError`: no field fails; `CanSendIffChecks` and `CanSendIff` state when it holds |
| `Validation.ValidateAt` | js/script.js:59-81 | a field is among the failures exactly when its own check fails, with that check's kind |
| `Validation.CanSendIffChecks` | js/script.js:83-86 | the handler goes on to send exactly when none of the four checks fails |
| `Validation.ValidateSpec` | js/script.js:59-81 | for each field, whether it fails and with which kind, in terms of its value, the phone shape and the address shape only |
| `Validation.CanSendIff` | js/script.js:59-86 | sending happens exactly when the name and phone are non-blank, the phone has the phone shape, the email is absent, blank or well shaped, and the message is absent or non-blank |
| `Validation.BlankNameRequired` | js/script.js:61-66 | a whitespace-only name or phone is reported "required" |
| `Validation.PhoneCheckOfTrimmed` | js/script.js:65-71 | a phone value without surrounding whitespace is judged by the pattern alone |
| `Validation.PhoneCheckRejectsShort` | js/script.js:68-70 | `123` is reported invalid, not missing |
| `Validation.PhoneCheckAcceptsPlain` | js/script.js:65-71 | `0501234567` passes the phone check |
| `ContactForm.Shown` | js/script.js:107-108 | the marks shown after a submit are the failures restricted to present fields, with the same kinds |
| `ContactForm.MarkAllIsShown` | js/script.js:59-81 | marking the four fields in the handler's order, from no marks, yields exactly the shown failures |
| `ContactForm.MarkAll` | js/script.js:59-81 | the marks left by the four checks run in order, each skipped for an absent element; `MarkAllIsShown` proves them equal to `Shown` |
| `ContactForm.Reset` | js/script.js:91 | `form.reset()` empties every present field and keeps the same fields present |
| `ContactForm.ResetFormFails` | js/script.js:61-70 | once reset, the form fails name and phone with "required", so it cannot be sent again as is |
| `ContactForm.Session.constructor` | js/script.js:30-43 | the form starts with its initial values, no marks, an empty notice and no send pending |
| `ContactForm.Session.Valid` | js/script.js:107-108 | error marks exist only on fields whose element exists, as `setFieldError` returns early on a missing one; every handler keeps it |
| `ContactForm.Session.ClearFieldState` | js/script.js:124-129 | the field's error mark is removed and nothing else changes |
| `ContactForm.Session.SetFieldError` | js/script.js:107-122 | an absent element is left alone; otherwise the field is marked with the given kind |
| `ContactForm.Session.SetNotice` | js/script.js:131-139 | the banner shows the given text and severity |
| `ContactForm.Session.ClearAll` | js/script.js:55 | every present field's mark is cleared, leaving no marks |
| `ContactForm.Session.CheckName` | js/script.js:61-64 | reports whether the name check failed, and marks the name (when present) with its kind |
| `ContactForm.Session.CheckPhone` | js/script.js:65-71 | reports whether the phone check failed, and marks the phone (when present) with its kind |
| `ContactForm.Session.CheckEmail` | js/script.js:72-77 | reports whether the email check failed, and marks the email (when present) |
| `ContactForm.Session.CheckMessage` | js/script.js:78-81 | reports whether the message check failed, and marks the message (when present) |
| `ContactForm.Session.CheckFields` | js/script.js:59-82 | from no marks, the marks become exactly the shown failures, and `hasError` holds exactly when the form cannot be sent |
| `ContactForm.Session.Submit` | js/script.js:45-89 | the values are unchanged and the marks are the shown failures; the send starts exactly when every check passes, with the "sending" notice set at once; otherwise the error notice is shown and the pending flag is left as it was |
| `ContactForm.Session.Resolve` | js/script.js:89-96 | success resets the form and shows the success notice; failure keeps the values and shows the error notice; the marks stay and nothing is pending afterwards |
| `ContactForm.Session.Input` | js/script.js:100-105 | an edit changes only that field's value and clears only that field's mark; notice and pending send untouched |
| `ContactForm.SuccessfulRound` | js/script.js:45-93 | a valid form, submitted and sent successfully, ends up empty with the success notice |
| `ContactForm.FailedRound` | js/script.js:45-96 | a valid form whose send fails keeps its values, which still pass, under the error notice |
| `Navigation.Split` | js/script.js:8 | `split('/')` yields at least one piece, no piece holds `/`, and joining the pieces with `/` gives back the path |
| `Navigation.Join` | js/script.js:8 | `parts.join(sep)`, the inverse `Split` is proved against |
| `Navigation.SplitLastIsLastSegment` | js/script.js:8 | `split('/').pop()` is the path's suffix after its last `/` |
| `Navigation.LastSegmentUnique` | js/script.js:8 | a path has only one such last segment |
| `Navigation.CurrentFile` | js/script.js:8 | the current file name is non-empty and holds no `/` |
| `Navigation.CurrentFileSpec` | js/script.js:8 | the current file name is the last segment, or `index.html` exactly when that segment is empty |
| `Navigation.CurrentFileOfPage` | js/script.js:8 | `/clinic/contact.html` names `contact.html` |
| `Navigation.CurrentFileOfDirectory` | js/script.js:8 | `/clinic/` and the empty path name `index.html` |
| `Navigation.SetActiveNavLink` | js/script.js:6-13 | every link whose `href` equals the current file name gets `aria-current="page"`; every other link keeps its attribute; no `href` changes |
| `Navigation.Closest` | js/script.js:18 | the nearest element, from the click target outwards, that is an anchor whose `href` starts with `#`, or none |
| `Navigation.IsHashLink` | js/script.js:18 | the selector `a[href^="#"]`: an anchor whose `href` starts with `#`; `Closest` finds the nearest one |
| `Navigation.HasElementWithId` | js/script.js:21-22 | `getElementById(id)` finds an element: the id is non-empty and some element has it; `HandleClickSpec` ties the handler's action to it |
| `Navigation.HandleClick` | js/script.js:17-26 | when the handler acts, the target is an existing non-empty id and the pushed fragment is `#` followed by it |
| `Navigation.HandleClickSpec` | js/script.js:18-25 | with a nearest hash link, the handler scrolls exactly when an element has the id after its `#`, and then pushes the link's own `href` |
| `Navigation.HandleClickNoLink` | js/script.js:18-19 | with no hash link around the target the click is ignored |
| `Navigation.BareHashIgnored` | js/script.js:20-22 | `href="#"` names the empty id, so the click is ignored |

## Left out

- The page's styling: the notice's padding, colours and borders (js/script.js:133-138), the hint element's creation and style (112-120), the notice's creation when missing (35-41), and the injected error CSS (154-161). The model keeps what they record: the field marks, the notice text and its severity.
- Texts: the Hebrew error and notice texts become the enumerations `FieldError` and `NoticeText`.
- DOM access: `querySelector`, `getElementById` and `closest` become values. The form's four values are `Option`s for a missing element, the click is its chain of ancestors, and the document is its set of ids.
- Scrolling and history: `preventDefault`, `scrollIntoView` and `history.pushState` are reduced to the `Scrolled` outcome with its target and fragment.
- The submit handler's `preventDefault` and the case of a page without the contact form (line 32): the model starts from a form that exists.
- The simulated send: the promise, the 800 ms `setTimeout` and `Math.random() < 0.9` are replaced by `Resolve(ok)`, where the caller supplies the outcome.
- Overlapping sends: a second submit while a send is pending starts another timer in the script. The model keeps one `pending` flag, and `Resolve` requires a pending send.
- ContactForm.Session.Resolve: requires a pending send, as the script only settles a send it started.
- ContactForm.Reset: assumes every field's default value is the empty string; the page markup is not part of this model.
- ContactForm.Session.Submit: the notice is cleared before the checks and set again after them (line 56). The model performs the clear, but its contract only states the final notice, since the clear cannot be observed.
- ContactForm.Session.Input: folds the browser's change of the value into the same call as the `input` handler's `clearFieldState`. It requires the edited field to exist, as only an existing element raises the event. Inputs other than the four checked fields only have their (unmodelled) mark cleared.
- Navigation.SetActiveNavLink: requires the links to be distinct objects, as `querySelectorAll` returns each element once.
- ContactForm.Session.SetFieldError: assumes each checked field has its own container and hint, as the page markup is not modelled. The script finds the hint through the field's parent element (lines 112 and 127), so two fields sharing a container would share one hint: the later `setFieldError` would overwrite the earlier field's text, and an input on one field would blank the other's text while that field kept its `field-error` mark. Which fields fail is not affected.
- Characters: strings are sequences of code points. JavaScript strings are UTF-16 code units, but every character of the whitespace set and both patterns lies in the Basic Multilingual Plane, so no decision differs.

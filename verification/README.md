# HealthPing dashboard: formatters, form rules and list logic

HealthPing's administrative dashboard is a React front end for a service
that sends appointment reminders. Most of it renders screens and calls a
remote API. This project models the parts of it that are plain logic:

- **Formatters** (`src/utils/formatters.js`): patient and doctor names, phone
  numbers, text truncation and capitalisation.
- **Registration page** (`src/pages/Register.js`): the form record, the
  per-field edit that blanks that field's error, `validateForm`, and the
  submit decision. A submission either sends nothing, goes to the demo
  responder, or goes to the API.
- **Password-recovery page** (`src/pages/ForgotPassword.js`): the page is in
  reset mode exactly when the query string carries a non-empty `token`
  (`IsResetMode`). The model covers the connectivity check's effect on the
  state, the demo-mode switch, the per-field edit, `validateEmail`,
  `validatePasswordReset`, and where each of the two submit handlers sends a
  valid form.
- **Message-template form** (`src/components/messaging/MessageTemplateForm.js`):
  editing the text fields, and adding, removing and inserting template
  variables.
- **Message-template list** (`src/components/messaging/MessageTemplateList.js`):
  the search, category and status filters, and the status-colour and
  category-icon lookups.
- **Patient list** (`src/components/patients/PatientList.js`): `calculateAge`
  on dates already split into year, month and day, with "today" passed in.

Modules:

- `Text`: the JavaScript whitespace set, `trim`, ASCII case mapping,
  `includes`, and string length counted in UTF-16 code units as `.length`
  counts it. The password rules use that length.
- `Seqs`: an order-preserving `Filter` with its laws, plus the subsequence
  and no-duplicates predicates.
- `EmailPattern`: the regular expression `/\S+@\S+\.\S+/` as an explicit
  predicate, proved equal to its literal reading.
- `Forms`: what the authentication pages have in common. Both use the
  backend status, the demo-routing predicate, error clearing and the email
  rule; the registration page also uses the required-field rule there.
- `Formatters`, `RegisterPage`, `ForgotPasswordPage`, `TemplateForm`,
  `TemplateList` and `PatientAge`: one module per source file.

Both pages send a valid submission to the demo responder exactly when
`useMockMode || backendStatus === 'disconnected'` holds (`Forms.UsesMock`).
The registration page never changes either value from its initial state,
so there the demo branch is dead code (`RegisterPage.DemoRouteUnused`).

## Model

| member | source | states |
|---|---|---|
| Text.Trim | src/utils/formatters.js:3 | `trim` keeps an infix of its input with only whitespace before and after it |
| Text.TrimHasNoEdgeSpace | src/utils/formatters.js:3 | the trimmed string neither starts nor ends with whitespace |
| Text.TrimEmptyIffBlank | src/pages/Register.js:48 | `!value.trim()` holds exactly for values that are empty or all whitespace |
| Text.ToLower | src/components/messaging/MessageTemplateList.js:83-84 | lower-casing keeps the length, leaves no upper-case letter, turns each upper-case letter into its lower-case partner (32 code points on) and leaves every other character as it was |
| Text.ToLowerIdempotent | src/components/messaging/MessageTemplateList.js:83-84 | lower-casing an already lower-cased string changes nothing |
| Text.Utf16Length | src/pages/Register.js:61 | the JavaScript `.length` of a string lies between the character count and twice it, and equals the character count exactly when no character lies outside the Basic Multilingual Plane |
| Text.Utf16LengthOne | src/pages/Register.js:61 | a single character is two code units outside the Basic Multilingual Plane and one inside it |
| Text.Utf16LengthConcat | src/pages/Register.js:61 | code units add up over concatenation, so with `Utf16LengthOne` the length of a string is the sum over its characters |
| Formatters.FormatPatientName | src/utils/formatters.js:2-4 | the result is `firstName + " " + lastName` with only whitespace cut from either end; it has no surrounding whitespace, is empty exactly when both parts are blank, and is never longer than the two parts and a space |
| Formatters.PatientNameOfCleanParts | src/utils/formatters.js:2-4 | parts without outer whitespace are joined with exactly one space |
| Formatters.PatientNameWithoutLastName | src/utils/formatters.js:2-4 | with an empty last name the join space is trimmed and the clean first name comes back alone |
| Formatters.FormatDoctorName | src/utils/formatters.js:6-9 | the result starts with "Dr." and ends with the given name; the name comes back unchanged exactly when it already starts with "Dr.", otherwise "Dr. " is put in front |
| Formatters.FormatDoctorNameIdempotent | src/utils/formatters.js:6-9 | formatting a doctor's name twice gives the same as formatting it once |
| Formatters.CleanPhone | src/utils/formatters.js:14-15 | the cleaned number consists only of digits and `+`, is a subsequence of the input, and keeps each input character exactly when it is a digit or a `+` |
| Formatters.CleanPhoneConcat | src/utils/formatters.js:15 | cleaning a concatenation cleans each part |
| Formatters.CleanPhoneOfClean | src/utils/formatters.js:14-15 | a string of digits and `+` signs is left as it is, whatever the position of its `+` signs |
| Formatters.CleanPhoneOfNoise | src/utils/formatters.js:15 | a string without digits and `+` cleans to the empty string |
| Formatters.CleanPhoneIdempotent | src/utils/formatters.js:15 | cleaning twice is cleaning once |
| Formatters.FormatPhoneNumber | src/utils/formatters.js:11-27 | the result is empty exactly for empty input and otherwise starts with `+`; an 11-character cleaned number starting with 1 becomes the 17-character `+1 (AAA) BBB-CCCC` built from its groups; any other cleaned number comes back with at most one `+` added |
| Formatters.FormatPhoneNumberKeepsDigits | src/utils/formatters.js:18-26 | the formatter adds only punctuation: cleaning its output gives back the cleaned input with a single leading `+` |
| Formatters.NanpLayoutKeepsDigits | src/utils/formatters.js:19 | the punctuation of the North American layout cleans away and leaves `+` followed by the cleaned number |
| Formatters.NanpGroupsKept | src/utils/formatters.js:19 | cleaning the layout around three clean digit groups gives `+1` followed by the groups |
| Formatters.FormatPhoneNumberSettles | src/utils/formatters.js:22-26 | outside the North American case, formatting an already formatted number changes nothing |
| Formatters.FormatPhoneNumberOfClean | src/utils/formatters.js:14-26 | a clean number without a leading `+` only gains a leading `+`; a `+` further in is kept in place |
| Formatters.SliceEnd | src/utils/formatters.js:38 | the end index `slice(0, maxLength)` uses lies within the string, equals a non-negative bound that fits, is clamped to the string's length for a larger bound, and counts back from the end for a negative bound |
| Formatters.TruncateText | src/utils/formatters.js:36-39 | empty text or text no longer than the bound comes back unchanged; longer text becomes a prefix of itself followed by "...", the prefix being as long as `slice(0, maxLength)` keeps: `maxLength` characters for a non-negative bound, and for a negative one that many fewer than the whole text, never below none |
| Formatters.TruncateTextIdempotent | src/utils/formatters.js:36-39 | with a non-negative bound, truncating twice is truncating once |
| Formatters.CapitalizeFirst | src/utils/formatters.js:41-44 | the length is kept, the first character is not a lower-case letter, no later one is upper-case, and the text equals the input up to case |
| Formatters.CapitalizeFirstIdempotent | src/utils/formatters.js:41-44 | capitalising twice is capitalising once |
| EmailPattern.LooksLikeEmailIffRegex | src/pages/Register.js:56 | the window predicate holds exactly when `\S+@\S+\.\S+` matches somewhere, with three non-empty runs of non-whitespace around the `@` and the `.` |
| EmailPattern.EmailIsNotBlank | src/pages/Register.js:54-56 | an address that passes the pattern is never blank, so its rule never says "Email is required" |
| Forms.UsesMock | src/pages/Register.js:92 | a submission goes to the demo responder whenever demo mode is on, and goes to the API exactly when demo mode is off and the backend is still being checked or connected |
| Forms.ClearError | src/pages/Register.js:35-41 | the error map keeps its keys; the edited field's entry reads "" afterwards; every other entry is unchanged |
| Forms.RequiredError | src/pages/Register.js:48-50 | a required-field rule reports its message exactly for blank values |
| Forms.EmailError | src/pages/Register.js:54-58 | a blank address is "Email is required", a non-blank one that fails the pattern gets the page's message, and no message is recorded exactly when the pattern matches |
| RegisterPage.HandleChange | src/pages/Register.js:28-42 | the named field reads back the new value; every other field is unchanged; that field's error reads "" if it was present; all other errors, the error keys and the connectivity state are unchanged |
| RegisterPage.ValidateForm | src/pages/Register.js:44-76 | first name, last name and phone each get their "is required" message exactly when blank; the role is never checked; a blank email is "Email is required", a non-blank one failing the pattern "Email format is invalid", and the email passes exactly when the pattern matches; an empty password is "Password is required", one of 1 to 5 UTF-16 code units the length message, and the password passes exactly at six code units or more; the confirmation is reported as "Passwords do not match" exactly when it differs from the password, whether or not a password was typed |
| RegisterPage.FieldMessage | src/pages/Register.js:44-76 | the role never gets a message, and the confirmation gets one exactly when it differs from the password |
| RegisterPage.NamePhoneMessages | src/pages/Register.js:47-69 | first name, last name and phone each get their "is required" message exactly when blank |
| RegisterPage.EmailMessage | src/pages/Register.js:54-58 | the email rule gives "Email is required" for a blank value, "Email format is invalid" for a non-matching one, and nothing exactly when the pattern matches |
| RegisterPage.PasswordMessages | src/pages/Register.js:59-66 | the password rule distinguishes the empty and the too-short password and passes exactly at six UTF-16 code units; the confirmation rule reports exactly a differing confirmation |
| RegisterPage.IsValidIff | src/pages/Register.js:44-76 | `validateForm()` is true exactly when both names and the phone are non-blank, the email matches, the password has at least six UTF-16 code units and the confirmation equals it |
| RegisterPage.HandleSubmit | src/pages/Register.js:78-109 | the errors are replaced by the validation result; nothing is sent exactly when the form is invalid; the demo responder gets the whole form exactly when the form is valid and demo mode is on or the backend is disconnected; the API gets every field but the confirmation |
| RegisterPage.SubmittedFormIsValid | src/pages/Register.js:83-92 | anything sent has a password of at least six UTF-16 code units, an equal confirmation, a matching email, and non-blank names and phone |
| RegisterPage.DemoRouteUnused | src/pages/Register.js:21-22 | with the page's initial connectivity values, which it never changes, a submission never goes to the demo responder and a valid one always goes to the API |
| ForgotPasswordPage.IsResetMode | src/pages/ForgotPassword.js:11-12 | the page is in reset mode exactly when the query carries a non-empty `token`; a missing or empty token means the request-a-link mode |
| ForgotPasswordPage.CheckBackendConnection | src/pages/ForgotPassword.js:34-43 | a reachable backend is marked connected and leaves demo mode alone; an unreachable one is marked disconnected and switches demo mode on, so demo routing applies |
| ForgotPasswordPage.SetMockMode | src/pages/ForgotPassword.js:182 | the demo switch takes the checkbox state, ticking it makes demo routing apply, and nothing else changes |
| ForgotPasswordPage.DemoSwitchNeverReachesApi | src/pages/ForgotPassword.js:174-186 | the checkbox is shown only while the backend is disconnected, and then no setting of it lets a submission reach either API call |
| ForgotPasswordPage.HandleChange | src/pages/ForgotPassword.js:45-59 | the named field reads back the new value, only that field's error is blanked, and token, connectivity and the other fields and errors are unchanged |
| ForgotPasswordPage.ValidateEmail | src/pages/ForgotPassword.js:61-72 | only the email can get an error; a blank address is "Email is required", a non-blank non-matching one "Please enter a valid email address", and the map is empty exactly when the pattern matches |
| ForgotPasswordPage.ValidatePasswordReset | src/pages/ForgotPassword.js:74-91 | an empty password is "New password is required" and a short one the length message; the password passes exactly at six UTF-16 code units; an empty confirmation is "Please confirm your password"; a non-empty, differing confirmation is "Passwords do not match", and a mismatch is reported only then |
| ForgotPasswordPage.PasswordMessage | src/pages/ForgotPassword.js:77-81 | the new password gets no message exactly when it has at least six UTF-16 code units |
| ForgotPasswordPage.ConfirmMessage | src/pages/ForgotPassword.js:83-87 | the confirmation gets no message exactly when it is non-empty and equals the password |
| ForgotPasswordPage.ValidatePasswordResetIff | src/pages/ForgotPassword.js:74-91 | the reset form is accepted exactly when the password has at least six UTF-16 code units and the confirmation equals it |
| ForgotPasswordPage.HandleSubmit | src/pages/ForgotPassword.js:93-146 | outside reset mode the email is validated, nothing is sent exactly for a non-matching address, and a valid one goes to the demo responder exactly when demo routing applies, otherwise to the API with the typed address; in reset mode the same holds for the password rules, and the API gets the query token and the new password |
| ForgotPasswordPage.FirstSubmitSendsNothing | src/pages/ForgotPassword.js:14-18 | submitting the page's empty initial form sends nothing in either mode, and records "Email is required" outside reset mode or the two missing-password messages in reset mode |
| ForgotPasswordPage.UnreachableBackendNeverCallsApi | src/pages/ForgotPassword.js:38-42 | after a failed connectivity check no submission in either mode reaches the API |
| TemplateForm.HandleChange | src/components/messaging/MessageTemplateForm.js:20-25 | the named text field takes the new value; the other text fields, the variables and the pending variable name are unchanged |
| TemplateForm.SetNewVariable | src/components/messaging/MessageTemplateForm.js:117 | the pending variable name takes the typed value and the draft is unchanged |
| TemplateForm.AddVariable | src/components/messaging/MessageTemplateForm.js:27-35 | a non-empty name not yet listed is appended and the input cleared; an empty or listed name changes nothing; a duplicate-free list stays duplicate-free; the text fields are unchanged |
| TemplateForm.Without | src/components/messaging/MessageTemplateForm.js:40 | the filtered list no longer holds the variable, keeps every other element, holds nothing new and keeps the order |
| TemplateForm.RemoveVariable | src/components/messaging/MessageTemplateForm.js:37-42 | the variable is gone, the rest keep their order, and the text fields and pending name are unchanged |
| TemplateForm.RemoveAbsentVariable | src/components/messaging/MessageTemplateForm.js:40 | removing a variable that is not listed changes nothing |
| TemplateForm.RemoveVariableAt | src/components/messaging/MessageTemplateForm.js:37-42 | in a duplicate-free list, removing the variable at position i leaves exactly the elements before and after it |
| TemplateForm.RemoveVariableKeepsNoDup | src/components/messaging/MessageTemplateForm.js:37-42 | removing keeps the list duplicate-free |
| TemplateForm.AddThenRemove | src/components/messaging/MessageTemplateForm.js:27-42 | adding a fresh variable and removing it again restores the list |
| TemplateForm.InsertVariable | src/components/messaging/MessageTemplateForm.js:44-55 | the body grows by the placeholder's length; before the cursor (clamped to the body's end) it is unchanged, then comes `{{name}}`, then the rest of the old body; only the body changes |
| TemplateForm.InsertVariableRoundTrip | src/components/messaging/MessageTemplateForm.js:44-55 | cutting the placeholder back out at the cursor gives back the old body |
| TemplateForm.Apply | src/components/messaging/MessageTemplateForm.js:20-55 | every edit the form offers (a field change, typing a variable name, adding, removing, inserting) keeps a duplicate-free variable list duplicate-free |
| TemplateForm.RunKeepsNoDup | src/components/messaging/MessageTemplateForm.js:20-55 | any sequence of edits keeps a duplicate-free variable list duplicate-free |
| TemplateForm.ReachableFormsHaveNoDup | src/components/messaging/MessageTemplateForm.js:5-55 | every form reachable from the empty initial draft lists each variable at most once |
| TemplateList.FilteredTemplates | src/components/messaging/MessageTemplateList.js:82-91 | the filtered list is an order-preserving subsequence of the templates, and holds each template exactly when it passes the three filters |
| TemplateList.ListedIff | src/components/messaging/MessageTemplateList.js:82-91 | a template is listed exactly when the search matches, the category selection is empty, "All Categories" or its category, and the status selection is empty, "All Status" or its status in lower case |
| TemplateList.EmptySearchMatchesAll | src/components/messaging/MessageTemplateList.js:83-84 | an empty search term matches every template |
| TemplateList.InitialFiltersShowAll | src/components/messaging/MessageTemplateList.js:75-91 | with the initial empty selections the whole list is shown, in order |
| TemplateList.AllEntriesImposeNothing | src/components/messaging/MessageTemplateList.js:85-88 | "All Categories" filters exactly like no category, and "All Status" like no status |
| TemplateList.SearchIgnoresCase | src/components/messaging/MessageTemplateList.js:83-84 | a search term and its lower-case spelling select the same templates |
| TemplateList.CategoryNarrows | src/components/messaging/MessageTemplateList.js:85-86 | selecting a category lists a subsequence of what is listed with no category selected |
| TemplateList.StatusColor | src/components/messaging/MessageTemplateList.js:117-124 | active is green `#25d366`, draft amber `#ffd89b`, inactive red `#ff6b6b`, and every other status the grey default |
| TemplateList.StatusColorsDistinct | src/components/messaging/MessageTemplateList.js:117-124 | two different statuses share a colour only when neither is one of the three known ones |
| TemplateList.CategoryIcon | src/components/messaging/MessageTemplateList.js:126-135 | Reminder gets the alarm clock, Confirmation the check mark, Cancellation the cross, Follow-up the arrows and Notification the loudspeaker; every icon is one character, and the memo default goes exactly to the other categories |
| TemplateList.CategoryIconsDistinct | src/components/messaging/MessageTemplateList.js:126-135 | two different categories share an icon only when neither is one of the five known ones |
| PatientAge.CalculateAge | src/components/patients/PatientList.js:38-47 | the age is the difference of the years or one less, and one less exactly when this year's birthday is still to come |
| PatientAge.AgeIsCompletedYears | src/components/patients/PatientList.js:41-45 | the age is the number of completed years: the age-th anniversary is on or before today and the next one is after it |
| PatientAge.AgeIsUnique | src/components/patients/PatientList.js:41-45 | any number of years with that property is the computed age |
| PatientAge.AgeOnBirthday | src/components/patients/PatientList.js:43 | on the birthday itself the full difference of the years is counted |
| PatientAge.AgeNonNegative | src/components/patients/PatientList.js:38-47 | someone born on or before today has a non-negative age |
| PatientAge.AgeMonotone | src/components/patients/PatientList.js:38-47 | a later today never gives a smaller age |

## Left out

- `src/services/api.js` and `src/contexts/AuthContext.js` are not part of this model. They are network and browser-storage plumbing: the real and demo responders are represented only by the `Request` value a submission produces.
- `formatCurrency` and `src/utils/dateUtils.js` are not part of this model. They depend on `Intl` locale formatting and JavaScript `Date`.
- `calculateAge` parses a date string and reads the clock. Here both dates arrive already split into year, month and day, and "today" is a parameter. `Date` normalisation of out-of-range days and the time zone a date-only string is parsed in are not modelled.
- Asynchronous effects are not modelled: the loading flag, awaiting responses, the success and failure messages set afterwards, `setTimeout`, `alert`, `navigate` and `console.log`.
- The API's answers are not modelled. `CheckBackendConnection` takes the connectivity test's outcome as a parameter.
- The template form's `handleSubmit` only logs and calls `onSave`, so it is not modelled. The list's test, edit, statistics, duplicate and delete handlers only show alerts, so they are not modelled either. The sample template and patient data are not modelled.
- The textarea's `selectionStart`, which `insertVariable` reads from the page, is a parameter.
- Inputs are strings throughout. The `null`/`undefined` cases that `!phone`, `!text` and `!str` also catch are not modelled.
- Whitespace follows the code, not an ASCII simplification. `trim()` and the regular-expression class `\S` use the full ECMAScript WhiteSpace and LineTerminator set (sections 12.2 and 12.3 of ECMA-262), and so does the model.
- `formatPhoneNumber` has a comment saying only a leading `+` is kept. The character class `[^\d+]` keeps every `+`, and the model follows the code (`Formatters.FormatPhoneNumberOfClean`).
- Formatters.CapitalizeFirst: maps case for ASCII letters only, because JavaScript's full Unicode case mapping (including length-changing mappings such as `ß` to `SS`) is out of scope.
- TemplateList.SearchIgnoresCase: case-insensitivity holds for ASCII letters only, for the same reason.
- Formatters.TruncateText: counts lengths in Unicode scalar values, whereas JavaScript counts UTF-16 code units. The two agree unless the text holds characters outside the Basic Multilingual Plane.
- TemplateForm.InsertVariable: measures the cursor position in Unicode scalar values rather than UTF-16 code units, for the same reason.
- TemplateList.CategoryIcon: states `|icon| == 1` in Unicode scalar values; three of the icons are two UTF-16 code units long in JavaScript.

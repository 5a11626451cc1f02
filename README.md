# Registration form and single-page navigation of the ONG site

A Dafny model of the two scripts that hold the site's logic.

**`validation.js`** holds the registration form's logic:

- the input masks for the CPF (Brazilian taxpayer number), the phone number and the CEP (postal code);
- the CPF check-digit rule and the minimum-age rule;
- the submit handler. It trims the form's fields and builds an ordered list of error messages. When that list is empty, it appends a record to the list stored under `cadastros_ong` and shows the success notices.

**`spa.js`** holds the in-place navigation:

- the filter that decides which link clicks are taken over;
- the page a `popstate` event reloads;
- `loadIntoMain`, which swaps the current `main` for the fetched document's.

Modules:

- `JsStrings` (`js_strings.dfy`): the JavaScript built-ins the scripts rely on. These are `trim`, with the ECMAScript white-space set (Zs as of Unicode 15), `startsWith`, `slice(0, k)` and `join`.
- `Masks` (`masks.dfy`): `onlyDigits` and the three masks. Each regular-expression `replace` is modelled as an insertion guarded by its pattern, and lemmas give the resulting layout in closed form.
- `Validators` (`validators.dfy`): `validateCPF` and its `calc` loop as methods, each proved against a specification function, and `validateAge`.
- `Submission` (`submission.dfy`):
  - `collectFormData` and the error-collecting part of the handler, as methods proved against `Collected` and `Validate`;
  - the stored record;
  - a `Registration` class. It holds the storage slot, the form's entries and the notices shown, and its `Submit` method is the handler. Its `Fill` method stands for the user editing the form before a submission; it models no line of the script.
- `Spa` (`spa.dfy`):
  - the link filter and the `popstate` target, as functions;
  - `loadIntoMain` as a `Page` class. Its methods are proved against a step function `Step` on a `View` of the page, and lemmas about `Step` and `Run` state what a navigation may change.

Where the model meets the browser, the browser becomes a parameter:

- The clock is a parameter: `today`, `now` for `Date.now()`, and `createdAt` for `toISOString()`.
- The date parser `new Date(s)` is a parameter `parse` that yields `None` for an invalid date.
- The fetch outcome is a parameter `Fetched`, with the document reduced to the contents of its `main`, the text of its `title` and the contents of its `body`.

A non-empty stored value that is not a JSON array makes the handler throw before anything is written. This holds for corrupt text, `null` or an object (`Unreadable`, `Outcome.Threw`). An absent or empty item is read as an empty list (`Absent`, `Blank`).

A page with no `main` of its own also makes `loadIntoMain` throw. In that case it falls back to `location.href`.

## Model

| member | source | states |
|---|---|---|
| JsStrings.TrimStart | src/js/script.js/js/js/validation.js:103 | what it removes from the front is white space, and what remains is empty or starts with a non-white-space character |
| JsStrings.TrimEnd | src/js/script.js/js/js/validation.js:103 | what it removes from the back is white space, and what remains is empty or ends with a non-white-space character |
| JsStrings.Trim | src/js/script.js/js/js/validation.js:103 | the result is the input with only leading and trailing white space removed, and neither end of it is white space |
| JsStrings.TrimIdempotent | src/js/script.js/js/js/validation.js:103 | trimming a trimmed value changes nothing |
| JsStrings.StartsWith | src/js/script.js/js/js/spa.js:62 | true exactly when the prefix is no longer than the string and equals its first characters |
| JsStrings.Take | src/js/script.js/js/js/validation.js:14 | `slice(0, k)` keeps the first `min(k, length)` characters |
| JsStrings.Join | src/js/script.js/js/js/validation.js:136 | joining no messages gives the empty text and joining one gives that message; `JoinContains` states that every message occurs in the text |
| JsStrings.JoinContains | src/js/script.js/js/js/validation.js:136 | every message of the list occurs in the joined toast text |
| Masks.OnlyDigits | src/js/script.js/js/js/validation.js:6-8 | the result contains only decimal digits, is no longer than the input, and is the input itself when that is all digits |
| Masks.OnlyDigitsAppend | src/js/script.js/js/js/validation.js:6-8 | stripping distributes over concatenation |
| Masks.OnlyDigitsIdempotent | src/js/script.js/js/js/validation.js:6-8 | stripping twice is stripping once |
| Masks.FirstDigits | src/js/script.js/js/js/validation.js:14 | `onlyDigits(value).slice(0, k)` is a prefix of the input's digits, at most `k` long, and all of them when it has fewer |
| Masks.CpfFirstDot | src/js/script.js/js/js/validation.js:16 | definition of the first replacement: a dot after the third character when the first four are digits, otherwise no change; `CpfFirstDotOnDigits` gives its effect on digits |
| Masks.CpfSecondDot | src/js/script.js/js/js/validation.js:17 | definition of the second replacement: a dot after `ddd.ddd` when a digit follows, otherwise no change; `CpfSecondDotOnDigits` gives its effect |
| Masks.CpfDash | src/js/script.js/js/js/validation.js:18 | definition of the third replacement: a dash after `ddd.ddd.ddd`, whatever follows, otherwise no change; `CpfDashOnDigits` gives its effect |
| Masks.CpfFirstDotOnDigits | src/js/script.js/js/js/validation.js:16 | on a digit string the first replacement inserts a dot after digit 3 exactly when there are at least four digits |
| Masks.CpfSecondDotOnDigits | src/js/script.js/js/js/validation.js:17 | after the first dot, the second replacement inserts a dot after digit 6 exactly when there are at least seven digits |
| Masks.CpfDashOnDigits | src/js/script.js/js/js/validation.js:18 | after both dots, the third replacement inserts a dash after digit 9 exactly when there are at least nine digits |
| Masks.CpfLayout | src/js/script.js/js/js/validation.js:15-18 | reference layout by digit count, against which `CpfChainOnDigits` and `MaskCPF` are stated |
| Masks.CpfChainOnDigits | src/js/script.js/js/js/validation.js:15-18 | on a digit string the three replacements produce exactly `CpfLayout`: unchanged up to 3 digits, `ddd.…` for 4 to 6, `ddd.ddd.…` for 7 or 8, `ddd.ddd.ddd-…` from 9 on |
| Masks.MaskCPF | src/js/script.js/js/js/validation.js:13-19 | the result is the `CpfLayout` of the first 11 digits of the input |
| Masks.CpfLayoutDigits | src/js/script.js/js/js/validation.js:15-18 | the separators the layout inserts are the only non-digits: stripping them gives the digits back |
| Masks.MaskCPFDigits | src/js/script.js/js/js/validation.js:13-19 | the mask's digits are exactly the first 11 digits of the input |
| Masks.MaskCPFIdempotent | src/js/script.js/js/js/validation.js:13-19 | masking a masked CPF changes nothing |
| Masks.CpfLayoutShape | src/js/script.js/js/js/validation.js:18 | up to 11 digits give at most 14 characters, ending in `-` exactly for 9 digits |
| Masks.MaskCPFShape | src/js/script.js/js/js/validation.js:13-19 | at most 14 characters, ending in `-` exactly when the input has exactly 9 digits |
| Masks.CpfLayoutPattern | src/js/script.js/js/validacao.js:3 | the layout of at most 11 digits matches `ddd.ddd.ddd-dd` exactly for 11 digits |
| Masks.MaskCPFMatchesPattern | src/js/script.js/js/validacao.js:3 | the mask matches `ddd.ddd.ddd-dd` exactly when the input has at least 11 digits |
| Masks.PhoneGroups | src/js/script.js/js/js/validation.js:24-26 | definition of the grouping replacement with a first group of `k` digits (4 on line 24, 5 on line 26); `PhoneGroupsOnDigits` gives its effect |
| Masks.DropTrailingDash | src/js/script.js/js/js/validation.js:24-31 | definition of `replace(/-$/, '')`: one final dash removed, nothing else changed |
| Masks.PhoneGroupsOnDigits | src/js/script.js/js/js/validation.js:24-26 | on enough digits the grouping gives `(AA) N…-…`, starting with `(` and ending in a digit exactly when digits follow the group |
| Masks.PhoneChainShort | src/js/script.js/js/js/validation.js:24 | fewer than `2 + k` digits are left bare by the grouping, `trim` and dash removal |
| Masks.PhoneChainGrouped | src/js/script.js/js/js/validation.js:24-26 | with enough digits the grouping gives `(AA) N…`, keeping the dash only when digits follow it |
| Masks.PhoneLayout | src/js/script.js/js/js/validation.js:22-26 | reference layout by digit count, against which `PhoneChainOnDigits` and `MaskPhone` are stated |
| Masks.PhoneChainOnDigits | src/js/script.js/js/js/validation.js:22-26 | on at most 11 digits the `length <= 10` branch choice and the chain produce exactly `PhoneLayout`: bare below 6, `(AA) NNNN` at 6, `(AA) NNNN-…` for 7 to 10, `(AA) NNNNN-NNNN` at 11 |
| Masks.MaskPhone | src/js/script.js/js/js/validation.js:21-27 | the result is the `PhoneLayout` of the first 11 digits of the input |
| Masks.PhoneLayoutDigits | src/js/script.js/js/js/validation.js:24-26 | stripping the parentheses, space and dash of the layout gives the digits back |
| Masks.MaskPhoneDigits | src/js/script.js/js/js/validation.js:21-27 | the mask's digits are exactly the first 11 digits of the input |
| Masks.MaskPhoneIdempotent | src/js/script.js/js/js/validation.js:21-27 | masking a masked phone number changes nothing |
| Masks.PhoneLayoutNoTrailingDash | src/js/script.js/js/js/validation.js:24-26 | the phone layout of a digit string never ends in `-` |
| Masks.MaskPhoneNoTrailingDash | src/js/script.js/js/js/validation.js:24-26 | the mask never ends in `-` |
| Masks.CepGroups | src/js/script.js/js/js/validation.js:31 | definition of the grouping replacement: a dash after the fifth character when the first five are digits |
| Masks.CepLayout | src/js/script.js/js/js/validation.js:31 | reference layout by digit count, against which `CepChainOnDigits` and `MaskCEP` are stated |
| Masks.CepChainOnDigits | src/js/script.js/js/js/validation.js:31 | on a digit string the grouping and dash removal produce exactly `CepLayout`: bare up to 5 digits, `NNNNN-…` from 6 on |
| Masks.MaskCEP | src/js/script.js/js/js/validation.js:29-32 | the result is the `CepLayout` of the first 8 digits of the input |
| Masks.CepLayoutDigits | src/js/script.js/js/js/validation.js:31 | stripping the dash of the layout gives the digits back |
| Masks.MaskCEPDigits | src/js/script.js/js/js/validation.js:29-32 | the mask's digits are exactly the first 8 digits of the input |
| Masks.MaskCEPIdempotent | src/js/script.js/js/js/validation.js:29-32 | masking a masked CEP changes nothing |
| Masks.MaskCEPNoTrailingDash | src/js/script.js/js/js/validation.js:31 | the mask never ends in `-` |
| Validators.DigitValue | src/js/script.js/js/js/validation.js:46-53 | `parseInt` of a decimal digit lies in 0..9 |
| Validators.WeightedSum | src/js/script.js/js/js/validation.js:44-47 | definition of the loop's sum; `Calc` is proved to compute it |
| Validators.AllSame | src/js/script.js/js/js/validation.js:41 | definition of the repeated-digit test; `RepeatedDigitsPassChecksum` shows why the test is needed |
| Validators.CheckDigit | src/js/script.js/js/js/validation.js:43-50 | every check value lies in 0..9 |
| Validators.CheckDigitTextbookForm | src/js/script.js/js/js/validation.js:48-49 | `11 - sum % 11`, with 10 and 11 mapped to 0, equals `10 * sum % 11 % 10` |
| Validators.Calc | src/js/script.js/js/js/validation.js:43-50 | the loop computes the check value of the first `t - 1` digits with weights `t - i` |
| Validators.IsValidCPF | src/js/script.js/js/js/validation.js:37-54 | valid exactly when there are 11 digits, not all equal, and digits 10 and 11 are the check values |
| Validators.ValidateCPF | src/js/script.js/js/js/validation.js:37-54 | the method returns exactly `IsValidCPF` of its argument, early returns included |
| Validators.ValidateCPFIgnoresMask | src/js/script.js/js/js/validation.js:38 | a masked and an unmasked form of the same number of at most 11 digits are judged alike |
| Validators.CheckDigitDetectsChange | src/js/script.js/js/js/validation.js:51-53 | changing only the 10th or only the 11th digit of a valid CPF makes it invalid |
| Validators.RepeatedDigitsPassChecksum | src/js/script.js/js/js/validation.js:41 | eleven equal digits satisfy both check digits, so only the repeated-digit test rejects them |
| Validators.AgeInYears | src/js/script.js/js/js/validation.js:61-63 | definition of the whole-years computation; `ValidateAge` states it as a comparison of the `minAge`-th birthday with today |
| Validators.ValidateAge | src/js/script.js/js/js/validation.js:56-65 | true exactly when the string is non-empty, parses, and the `minAge`-th birthday is on or before today |
| Validators.ValidateAgeMonotone | src/js/script.js/js/js/validation.js:61-64 | once old enough, old enough on every later day |
| Validators.ValidateAgeOnBirthday | src/js/script.js/js/js/validation.js:63-64 | someone turning `minAge` today passes, and on the day before does not |
| Submission.Collected | src/js/script.js/js/js/validation.js:100-105 | the mapping's names are exactly the entries' names |
| Submission.CollectedLastWins | src/js/script.js/js/js/validation.js:103 | each name holds the trimmed value of its last entry |
| Submission.CollectFormData | src/js/script.js/js/js/validation.js:100-105 | the loop builds exactly `Collected` of the entries |
| Submission.Filled | src/js/script.js/js/js/validation.js:119-133 | definition of JavaScript truthiness on a collected field: present and non-empty |
| Submission.RequiredMessage | src/js/script.js/js/js/validation.js:120 | definition of the required-field message; `RequiredMessageInjective` states it tells fields apart |
| Submission.MissingFieldErrors | src/js/script.js/js/js/validation.js:119-121 | at most one message per required field; `MissingFieldErrorsReports` states which |
| Submission.CpfError | src/js/script.js/js/js/validation.js:124 | definition of the CPF check: its message exactly when the field is filled and not a valid CPF |
| Submission.PhoneError | src/js/script.js/js/js/validation.js:127 | definition of the phone check: its message exactly when the field is filled and has fewer than 10 digits |
| Submission.CepError | src/js/script.js/js/js/validation.js:130 | definition of the CEP check: its message exactly when the field is filled and does not have 8 digits |
| Submission.AgeError | src/js/script.js/js/js/validation.js:133 | definition of the age check: its message exactly when the field is filled and the age rule with 16 fails |
| Submission.FormatErrors | src/js/script.js/js/js/validation.js:123-133 | the four checks in source order; `FormatErrorsMembership` and `FormatErrorsInOrder` state what it holds |
| Submission.Validate | src/js/script.js/js/js/validation.js:115-133 | the error list: required-field messages then format messages; `ValidateAcceptsIff`, `ValidateReportsMissing`, `ValidateReportsFormat` and `ValidateInOrder` state its meaning |
| Submission.RequiredMessageInjective | src/js/script.js/js/js/validation.js:120 | different fields get different required-field messages, and none of them is a format message |
| Submission.MissingFieldErrorsReports | src/js/script.js/js/js/validation.js:118-121 | a message is listed exactly for each required field that is missing or empty |
| Submission.MissingFieldErrorsInOrder | src/js/script.js/js/js/validation.js:118-121 | the required-field messages follow the order of the list |
| Submission.FormatErrorsInOrder | src/js/script.js/js/js/validation.js:123-133 | the format messages come in the order CPF, phone, CEP, age |
| Submission.FormatMessagesDistinct | src/js/script.js/js/js/validation.js:124-133 | the four format messages are pairwise different |
| Submission.ValidateReportsMissing | src/js/script.js/js/js/validation.js:118-121 | the required-field message of `k` is in the list exactly when `k` is not filled |
| Submission.MissingHasNoFormatMessage | src/js/script.js/js/js/validation.js:120-133 | no required-field message is one of the four format messages |
| Submission.FormatErrorsMembership | src/js/script.js/js/js/validation.js:123-133 | each format message is in the format part exactly when its own check added it |
| Submission.ValidateReportsFormat | src/js/script.js/js/js/validation.js:123-133 | each format message is listed exactly when its field is filled and fails its check |
| Submission.ValidateInOrder | src/js/script.js/js/js/validation.js:115-133 | the list is an ordered selection of the required-field messages followed by the four format messages |
| Submission.ValidateAcceptsIff | src/js/script.js/js/js/validation.js:115-135 | the list is empty exactly when all ten fields are filled, the CPF is valid, the phone has at least 10 digits, the CEP has 8 and the age is at least 16 |
| Submission.CollectErrors | src/js/script.js/js/js/validation.js:115-133 | the `forEach` and the four guarded pushes build exactly `Validate` |
| Submission.MissingCpfReported | src/js/script.js/js/js/validation.js:120-124 | an empty CPF yields the required-field message in the toast text and no invalid-CPF message |
| Submission.MakeRecord | src/js/script.js/js/js/validation.js:144-148 | definition of the spread `{ id, ...data, criadoEm }`; `MakeRecordFields` states its keys and values |
| Submission.MakeRecordFields | src/js/script.js/js/js/validation.js:144-148 | the record holds the form's fields, `id` and `criadoEm`; a form field `id` replaces the generated id, and `criadoEm` is always the timestamp |
| Submission.RecordIdsDiffer | src/js/script.js/js/js/validation.js:145 | records made at different instants from forms without an `id` field get different ids |
| Submission.Existing | src/js/script.js/js/js/validation.js:142-143 | the list the handler appends to: the stored array, or the empty list for an absent or empty item (`StoredList`), defined only where parsing succeeds |
| Submission.Registration.Submit | src/js/script.js/js/js/validation.js:110-156 | with errors: the error toast, nothing stored, the form kept. With unreadable storage: it throws and nothing changes. Otherwise the record is appended after the earlier ones, the success toast and modal are shown, and the form is reset |
| Submission.SubmitAccepted | src/js/script.js/js/js/validation.js:141-150 | an acceptable form appends exactly its record to readable storage |
| Submission.SubmitTwice | src/js/script.js/js/js/validation.js:141-150 | two accepted submissions on empty storage leave exactly their two records, in order |
| Spa.ClickTarget | src/js/script.js/js/js/spa.js:54-67 | a click is taken over, with a history entry, exactly when the `href` is non-empty and starts with none of `#`, `http` and `mailto:` |
| Spa.ClickTargetLeftAlone | src/js/script.js/js/js/spa.js:59-62 | `https:` links, relative names starting with `http`, anchors, `mailto:` and empty hrefs are left to the browser |
| Spa.ClickTargetTakenOver | src/js/script.js/js/js/spa.js:62-66 | relative pages, protocol-relative `//host` links, `tel:` links and upper-case `HTTP:` links are taken over |
| Spa.LastSegment | src/js/script.js/js/js/spa.js:9 | the result has no `/`, is a suffix of the path, and is either the whole path or preceded by `/` |
| Spa.LastSegmentSplit | src/js/script.js/js/js/spa.js:9 | the segment after the last `/` is returned whole |
| Spa.IndexPageIsFileName | src/js/script.js/js/js/spa.js:9 | the default page is a non-empty name without `/` |
| Spa.PopTarget | src/js/script.js/js/js/spa.js:8-11 | never empty, never contains `/`, and is the last segment unless that is empty, in which case `index.html` |
| Spa.PopTargetAtDirectory | src/js/script.js/js/js/spa.js:9 | a path ending in `/`, or an empty path, reloads `index.html` |
| Spa.PopTargetOfFile | src/js/script.js/js/js/spa.js:9 | a file name under any directory reloads that file |
| Spa.Swaps | src/js/script.js/js/js/spa.js:21-33 | definition of when the swap goes through: the fetch succeeded and the page has a `main` to write into |
| Spa.NewMain | src/js/script.js/js/js/spa.js:27-33 | definition of the content swapped in: the document's `main`, or its `body` without one |
| Spa.Step | src/js/script.js/js/js/spa.js:19-52 | reference step of `loadIntoMain` on a `View`; `StepFailure`, `StepContent`, `StepTitle`, `StepHistory` and `StepRepeat` state what it changes |
| Spa.StepFailure | src/js/script.js/js/js/spa.js:21-22 | a failed fetch, or a page without `main`, only sets `location`: no content change, no title change, no history entry, no event |
| Spa.StepContent | src/js/script.js/js/js/spa.js:27-33 | a successful swap installs the document's `main`, or its `body` when it has none, and leaves `location` alone |
| Spa.StepTitle | src/js/script.js/js/js/spa.js:36-37 | the title changes only to the document's own title, and only when it has both `main` and `title` |
| Spa.StepHistory | src/js/script.js/js/js/spa.js:40-46 | one `spa:loaded` exactly per successful swap; one history entry, `href`, exactly when a successful swap asked for it |
| Spa.StepRepeat | src/js/script.js/js/js/spa.js:28-38 | loading the same document twice shows what loading it once shows |
| Spa.Run | src/js/script.js/js/js/spa.js:19-52 | navigations applied in order; `RunHistoryBound` and `RunWithoutPushKeepsHistory` state what a run may change |
| Spa.RunHistoryBound | src/js/script.js/js/js/spa.js:40-46 | over any run, history only grows at its end, by no more entries than events dispatched |
| Spa.RunWithoutPushKeepsHistory | src/js/script.js/js/js/spa.js:8-11 | `popstate` reloads (no push) never change the history |
| Spa.Page.LoadIntoMain | src/js/script.js/js/js/spa.js:19-52 | the method's new state is `Step` of the old one, and it keeps the history invariant `Valid` |
| Spa.Page.OnPopState | src/js/script.js/js/js/spa.js:8-11 | reloads `PopTarget(pathname)` without a history entry |
| Spa.Page.OnLinkClick | src/js/script.js/js/js/spa.js:56-67 | prevents the default exactly when `ClickTarget` intercepts, then performs that navigation; otherwise changes nothing |

## Left out

- **Time zones.** The time-zone and UTC effects of `new Date(dateString)` are not modelled: the parser is a parameter.
- **29 February birthdays.** Such a birthday is compared as (month, day), so a non-leap year's 1 March is the first passing day. This follows the code.
- **Clock reads.** `Date.now()`, `new Date()` and `toISOString()` are parameters. Nothing makes ids distinct: two submissions in the same millisecond, or a form field named `id`, give equal or arbitrary ids.
- **Object keys.** `collectFormData` writes into a plain object. A field named `__proto__` is not modelled.
- **FormData details.** File entries in `FormData` are not modelled. Entries are (name, string) pairs.
- **JSON and storage.** JSON text encoding and decoding are not modelled. A stored array is assumed to hold records, and any other readable value is `Unreadable`. A `localStorage.setItem` quota error is not modelled either.
- **Presentation and logging.** `showToast` and `showModal` are recorded as a log of notices; their DOM, styles and timers are not modelled (`ui.js` is not part of this model). Console logging is not modelled.
- **Startup and listeners.** `app.js` wiring is not modelled. `initMasks` registers its `input` listeners on every `spa:loaded`, and `attachFormHandler` re-handles every form; this registration and re-binding is event plumbing left out. The masks themselves are modelled.
- **Legacy handler.** The legacy `alert` handler in `validacao.js` is left out. Its CPF pattern is modelled as `MatchesCpfPattern`.
- **Asynchrony.** A navigation is one atomic step given its fetch outcome. There is no cancellation, and overlapping navigations, where the last completed fetch wins, are not modelled.
- **pushState errors.** `history.pushState` throwing for a cross-origin `href` is not modelled. In that case the caught error would set `location.href` after a swap.
- **Event ordering.** The model counts `spa:loaded` events but does not observe the order of an event relative to the history push.
- **Browser default navigation.** Link clicks that are not intercepted follow the link in the browser; that navigation is outside the model.
- **Child elements.** The document's `main` and `body` are reduced to their contents as strings. The page has one `main`.
- SubmitTwice: does not state that the two ids differ; that is `RecordIdsDiffer`, stated separately on records.

# Accessible form validation — a Dafny model

This project models the decision logic of `FormsValidation`, a small
client-side validator for HTML forms. The validator listens for blur, change
and submit interactions. It reads each control's native validity flags and
turns them into messages from a fixed, ordered table of four constraint kinds:
missing value, pattern mismatch, too short and too long. It writes those
messages into the control's error container and sets the control's
`aria-invalid` marker. When a form carrying the managed-form marker is
submitted, it validates every required control, cancels the submission if any
control fails, and focuses the first failing one.

The document is replaced by plain objects:

- `FormsValidation.Field` is a control. It has constant declared attributes:
  `required`, the control type, whether it sits inside a managed form, and its
  `title`, `minLength` and `maxLength`. It has the host's live `validity`
  flags, which the model only reads. It has the two pieces of state that
  validation writes: `ariaInvalid` and `displayedErrors`.
- `FormsValidation.Form` is a form element. It has the managed-form marker
  and its controls in document order.
- The source's own class holds only constant tables and no state. Its
  handlers are therefore methods of the `FormsValidation` module, and each one
  modifies only the control fields it writes.

Modules:

- `Decimal` (decimal.dfy) renders integers as decimal numerals. On the range
  of the length limits this is what a template literal produces. `ParseInt`
  is the inverse used to state the round trip.
- `Messages` (messages.dfy) holds the message table, the ordered collection of
  messages for one validity state, and the loop that builds it.
- `FormsValidation` (validation.dfy) holds the controls, `validateField`, the
  blur and change gates, and the submit aggregation.
- `Scenarios` (scenarios.dfy) holds client methods. They use only the
  contracts to derive example outcomes: a required empty field
  on blur; `minLength` 5; an optional field; a required checkbox outside a
  managed form; submit with several failures; an unmanaged form. They also
  show that validating twice gives the same list.

Facts about validation.js that the model keeps as written:

- The messages are the Russian literals of validation.js:10-13.
- The control type is a free string compared with `"radio"` and
  `"checkbox"` (validation.js:85).
- The change gate never consults managed-form membership
  (validation.js:85-87). A required checkbox outside any managed form is
  therefore validated on change, and `BlurAndChange` in `Scenarios` shows
  this. The blur gate does check membership (validation.js:71-74).
- `minLength` and `maxLength` are 32-bit `long` values, -1 when the
  attribute is absent. `Messages.LengthLimit` restricts them to that range.

## Model

| member | source | states |
|---|---|---|
| `Decimal.NatToString` | validation.js:12-13 | the rendering of a natural number is a non-empty string of decimal digits with no leading zero (except "0") |
| `Decimal.NatToStringRoundTrip` | validation.js:12-13 | reading the digits of the rendering of n back gives n |
| `Decimal.IntToStringRoundTrip` | validation.js:12-13 | parsing the rendering of any integer, negative limits included, gives that integer back |
| `Decimal.IntToStringInjective` | validation.js:12-13 | distinct integers render as distinct strings |
| `Decimal.IntToStringShape` | validation.js:12-13 | a rendering starts with '-' exactly for negative numbers, and the rest is digits with no leading zero |
| `Messages.Message` | validation.js:7-14 | every table entry yields a non-empty message for every kind and every control |
| `Messages.PatternAndMissingMessages` | validation.js:10-11 | the pattern message is the title when the title is non-empty, else "Неверный формат"; the missing-value message does not depend on the control |
| `Messages.LengthMessagesDenoteLimits` | validation.js:12-13 | the too-short and too-long messages are their fixed prefix followed by a numeral that parses back to minLength and maxLength |
| `Messages.LengthMessagesDistinguishLimits` | validation.js:12-13 | equal too-short (too-long) messages imply equal minLength (maxLength) |
| `Messages.CollectMessagesInTableOrder` | validation.js:35-44 | the collected list has one message per violated table kind, in the order valueMissing, patternMismatch, tooShort, tooLong, and nothing else |
| `Messages.CollectMessagesCount` | validation.js:39-44 | the list is as long as the number of violated table kinds |
| `Messages.CollectMessagesEmptyIff` | validation.js:39-51 | the list is empty exactly when none of the four table kinds is violated |
| `Messages.CollectMessagesIgnoresOtherFlags` | validation.js:39-44 | validity flags outside the table (type, range, step, bad input, custom error) never change the list |
| `Messages.CollectErrorMessages` | validation.js:35-44 | the forEach/push walk over the table produces exactly the collected list, and it is empty exactly when no table kind is violated |
| `FormsValidation.ManageErrors` | validation.js:20-27 | the control's displayed errors become exactly the given list, so an empty list clears earlier errors |
| `FormsValidation.ValidateField` | validation.js:30-61 | displayed errors become the full collected list; the result is true exactly when that list is empty; ariaInvalid is the negation of the result; validity is untouched |
| `FormsValidation.OnBlur` | validation.js:64-77 | a required control inside a managed form ends up reporting its current messages; any other target is left entirely unchanged |
| `FormsValidation.OnChange` | validation.js:79-90 | a required radio button or checkbox ends up reporting its current messages whatever form it is in; any other target is left entirely unchanged |
| `FormsValidation.RequiredOf` | validation.js:101 | the filtered list holds only required controls of the form and holds every required control of it |
| `FormsValidation.RequiredOfAppend` | validation.js:101 | filtering a concatenation is the concatenation of the filtered parts, so the required controls keep their document order and multiplicity |
| `FormsValidation.RequiredOfSingleton` | validation.js:101 | a single control is kept exactly when it is required |
| `FormsValidation.FirstFailingRequired` | validation.js:104-122 | the result is the document position of a required failing control with no required failing control before it, or none when no required control fails |
| `FormsValidation.FirstFailingOfRequired` | validation.js:108-122 | the first failing entry of the required list is the control at the first failing required document position |
| `FormsValidation.OnSubmit` | validation.js:92-130 | on an unmanaged target nothing changes and nothing is prevented; on a managed form every required control reports its messages and no other control changes; submission is prevented exactly when a required control fails; focus goes to the first failing required control in document order, and to none when all pass |

## Left out

- Document querying is not modelled. The lookups `closest`, `matches`,
  `parentElement.querySelector` and `form.elements` become the fields
  `inManagedForm`, `managed` and `elements`.
- A missing error container is not modelled. In the source it is a fatal
  integration failure, not validation logic, so the model assumes every
  control has one.
- Shared error containers are not modelled. The source finds the container
  through the control's parent element (validation.js:22), so controls with
  the same parent write to one container. The model gives every control its
  own `displayedErrors`. With shared containers, a later validation in
  `onSubmit` overwrites an earlier one: an invalid checkbox followed by a
  valid one under the same parent leaves the container empty. In the model,
  `OnSubmit`'s promise that every required control shows its messages
  therefore holds only when each control has its own container.
- Numbers outside the 32-bit length range are not rendered as JavaScript
  would render them. From 10^21 in magnitude up, JavaScript prints an
  exponent, and above 2^53 a Number is not exact. `LengthLimit` keeps the
  limits in the range -1 to 2^31-1, where `IntToString` matches exactly.
- The markup built in `manageErrors` (one `span` per message, assigned to
  `innerHTML`) is rendering output. It is modelled as storing the message list.
- The browser's own constraint evaluation (`element.validity`) is not
  modelled. The ten validity flags are inputs. The derived `valid` flag is
  omitted because the table never looks it up.
- Event subscription (`bindEvents`, blur in the capture phase) and the global
  instantiation are host plumbing. The selector strings belong to that
  plumbing and to querying, so they are left out too.
- `event.preventDefault()` and `element.focus()` are not performed. They become
  the `prevented` flag and the `focus` control of `SubmitOutcome`.
- `aria-invalid` is a string attribute in the browser ("true"/"false"). It is
  modelled as a boolean. Before the first validation it is absent, which the
  model represents as `false` (the attribute's default meaning).
- Radio buttons of one group share their validity in the browser. Here each
  control's flags are given independently, because the model does not compute
  validity.

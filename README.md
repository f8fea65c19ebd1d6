# Driving-school registration and payment forms, in Dafny

This project models the two pieces of logic in a driving-school web site.

- **The course-registration form (`Register.tsx`).** It holds:
  - a hard-coded price table for four courses;
  - the total shown for the selected course, where the hourly course is priced as 65 × the session count read by `parseInt`;
  - a validator that checks nine rules in a fixed order and reports the first one that fails;
  - the twelve-field form record, which the change handler edits and the submit handler resets after a confirmed registration.
- **The payment page (`Payment.tsx`).** It holds:
  - a five-entry service catalog;
  - the service selector, which sets the service and its amount together;
  - five text-field edits;
  - a submit handler that resets all seven fields without validating anything.

Files:

- **`wrappers.dfy`** defines `Option`.
- **`js_strings.dfy`** defines the JavaScript string behaviour the forms rely on:
  - the `\s` character class, which is also the set `trim()` removes (ECMAScript WhiteSpace and LineTerminator);
  - `trim`;
  - `replace(/\s/g, '')`;
  - `parseInt`.
- **`patterns.dfy`** models the five regular expressions as predicates. Each comes with lemmas on the language it accepts.
- **`register.dfy`** models the price table, `calculateTotalPrice`, `validateForm` and the form component. The component is the class `RegistrationForm`.
- **`payment.dfy`** models the catalog, the `find` lookup and the page component. The component is the class `PaymentForm`. Each handler is also modelled as a pure step (`Step`), so that lemmas can follow any sequence of user actions (`Run`).

Inputs instead of the clock and date parsing:

- The validator takes the current year and the birth year as parameters.
- The birth year is `None` when `new Date(dateOfBirth)` is an invalid date. Its year is then `NaN`, `NaN < 15` is false, and so the age rule passes. A browser that enforces the date input's constraints does not submit such a date (see "Browser constraint validation" below).

Behaviour of the code that a reader might not expect:

- **The payment step cannot fail.** The awaited promise always resolves, so the `catch` branch ("Payment Failed") never runs.
- **"Contact Us" never happens.** The "Contact Us" total requires a course whose price is `null`. No course in the table has one, so `TotalPrice` never yields it, and the card checks always run for a course in the table.
- **The card checks run even when the total is `NaN`.** They run whenever the total is not the string "Contact Us", and that includes a `NaN` total from an unreadable session count.
- **An unknown course key throws.** For such a key, `coursePrices[course].price` throws a `TypeError`. The model represents this as `Total.TypeError`, `Validation.Threw` and `SubmitOutcome.Aborted`. In the last case, nothing is shown and the record keeps its contents.

## Model

| member | source | states |
|---|---|---|
| Register.TotalPrice | Register.tsx:37-45 | Gives "no total" exactly when no course is selected. Throws exactly for a course key missing from the table. Never gives "Contact Us". |
| Register.TotalNotANumber | Register.tsx:41-43 | The total is `NaN` exactly for the hourly course with a session count that `parseInt` cannot read. |
| Register.PerHourTotal | Register.tsx:14-43 | For every session count n written in decimal, hourly lessons cost 65 × n. |
| Register.SessionOptionTotals | Register.tsx:41-43 | The session counts "1", "5" and "10" give totals of 65, 325 and 650. |
| Register.FlatPrices | Register.tsx:14-44 | Teen license, driver improvement and road test cost 495, 89 and 120, whatever the session count. |
| Register.FormData.With | Register.tsx:117-118 | Writing field f sets f to the new value and leaves every other field unchanged. |
| Register.WithOverwrites | Register.tsx:117-118 | Two writes to one field keep the second value. Writing back a field's own value changes nothing. |
| Register.InitialFormFields | Register.tsx:21-35 | The initial record has every field empty except `numberOfSessions`, which is "1". |
| Register.AgeBoundary | Register.tsx:53-56 | The age rule rejects a year difference below 15 and accepts exactly 15. An unparsable birth date is never rejected. |
| Register.PassesBeforeAll | Register.tsx:47-64 | "All rules before rank k pass" holds exactly when every rule ranked below k passes. |
| Register.FirstFailureUnique | Register.tsx:47-64 | At most one rule is the first failing rule. |
| Register.ValidatePersonalSound | Register.tsx:48-56 | The first five checks report nothing exactly when all five rules pass. Otherwise they report the first of those rules that fails. |
| Register.PersonalFirstFailure | Register.tsx:48-56 | A rule reported by the first five checks is the first failing rule. |
| Register.ValidatePaymentSound | Register.tsx:59-64 | Once the first five rules pass, the card block reports the first failing card rule, or accepts only when all nine rules pass. |
| Register.ValidateFormSound | Register.tsx:47-67 | For an empty or known course, validation never throws. Acceptance implies that all rules pass. A reported rule is the first failing rule. |
| Register.SoundVerdictIsFirstFailure | Register.tsx:47-67 | A verdict that is sound in this sense is fixed by the form: it accepts exactly when all rules pass, and reports rule p exactly when p is the first failure. |
| Register.ValidateFormFirstFailure | Register.tsx:47-67 | For an empty or known course: the validator accepts exactly when all nine rules pass, and it reports rule p exactly when p is the first rule that fails. |
| Register.ValidateFormUnknownCourse | Register.tsx:39-59 | For an unknown course key, validation throws exactly when the first five rules pass. Otherwise it reports rule p exactly when p is the first of those five rules to fail. |
| Register.NoCourseFirst | Register.tsx:48 | An empty course is reported as "Please select a course", whatever the other fields hold. |
| Register.CardChecksAlwaysRun | Register.tsx:37-64 | For a course in the table, once the first five rules pass, the form is accepted exactly when the card name, card number, expiry and CVV all pass. |
| Register.FifteenDigitCardRefused | Register.tsx:61 | An otherwise valid form whose card number has 15 digits once whitespace is removed is refused with the card-number error. |
| Register.RegistrationForm.constructor | Register.tsx:21-35 | The form starts from the initial record. |
| Register.RegistrationForm.HandleChange | Register.tsx:117-119 | Sets one field to the new value and leaves the other fields unchanged. |
| Register.RegistrationForm.HandleSubmit | Register.tsx:69-107 | On a failed rule: shows its message and keeps the record. When validation throws: shows nothing and keeps the record. On acceptance: confirms with the submitted email and resets the record. |
| Register.ResubmitAfterReset | Register.tsx:94-107 | The reset record is refused for the missing course, and its session count is "1". |
| JsStrings.TrimStart | Register.tsx:49-60 | The result is a suffix of the input, and what it drops is all whitespace. The result does not start with whitespace. |
| JsStrings.TrimEnd | Register.tsx:49-60 | The result is a prefix of the input, and what it drops is all whitespace. The result does not end with whitespace. |
| JsStrings.TrimEmptyIffBlank | Register.tsx:49-60 | `s.trim()` is empty exactly when s consists only of whitespace. |
| JsStrings.StripSpaces | Register.tsx:61 | Removing whitespace never lengthens the string and leaves no whitespace. |
| JsStrings.StripSpacesKeeps | Register.tsx:61 | Removing whitespace keeps every other character, with the same multiplicity. |
| JsStrings.StripSpacesAppend | Register.tsx:61 | Removing whitespace distributes over concatenation. |
| JsStrings.StripSpacesNoSpace | Register.tsx:61 | A string without whitespace is left as it is. |
| JsStrings.DigitValue | Register.tsx:42 | A digit's value is below the radix. In base 10, exactly the characters '0' to '9' are digits. |
| JsStrings.DecimalString | Register.tsx:230-231 | The decimal numeral of n is a non-empty string of digits with no leading zero. |
| JsStrings.DigitRunAppend | Register.tsx:42 | Reading the digits of x and then y is the same as reading x and continuing with y. |
| JsStrings.DigitRunDecimal | Register.tsx:42 | Reading back the decimal numeral of n gives n. |
| JsStrings.ParseIntOfNumeral | Register.tsx:42 | `parseInt` of a digit string with no leading zero is the value of its digits. |
| JsStrings.ParseIntDecimal | Register.tsx:42 | `parseInt` of the decimal numeral of n is n. |
| Patterns.IndexOf | Register.tsx:50 | Gives the position of the first occurrence of c, and nothing when c does not occur. |
| Patterns.EmailOkIsShape | Register.tsx:50 | Every string the email check accepts has the form L@D.T. |
| Patterns.EmailShapeIsOk | Register.tsx:50 | Every string of the form L@D.T is accepted. |
| Patterns.EmailOkIffShape | Register.tsx:50 | The email check accepts exactly the strings L@D.T. Here L, D and T are non-empty and contain no whitespace and no '@', and D may contain dots. |
| Patterns.EmailSingleAt | Register.tsx:50 | An accepted email contains exactly one '@'. |
| Patterns.FormatPhoneSlices | Register.tsx:51 | The formatted number places its three digit groups at the fixed positions. |
| Patterns.PhoneOkIffShape | Register.tsx:51 | The phone check accepts exactly "(DDD) DDD-DDDD", where each D is a decimal digit. |
| Patterns.PhoneExamples | Register.tsx:51 | "(703) 982-1400" is accepted and "703-982-1400" is refused. |
| Patterns.CardNumberOfDigits | Register.tsx:61 | A string of digits passes the card-number check exactly when it has 16 digits. |
| Patterns.StripSpacesAroundSpace | Register.tsx:61 | A space between two parts disappears when whitespace is removed. |
| Patterns.CardNumberGroups | Register.tsx:61 | Four groups of four digits separated by spaces pass the card-number check. |
| Patterns.ExpiryAnyDigits | Register.tsx:62 | Any two digits, a slash and two digits pass the expiry check, with no month range. |
| Patterns.CardFieldExamples | Register.tsx:62-63 | "99/99" is a valid expiry and "9/99" is not. A CVV has three or four digits and nothing else. |
| Payment.ServiceValuesDistinct | Payment.tsx:22-28 | The five service keys are pairwise distinct. Every amount is a non-empty catalog amount. |
| Payment.Find | Payment.tsx:31 | Returns the first entry that carries the key. A found entry is in the list and carries the key. Nothing is found exactly when no entry carries the key. |
| Payment.FindDistinct | Payment.tsx:22-31 | With distinct keys, the lookup returns the one entry that carries the key. |
| Payment.AmountFor | Payment.tsx:30-37 | The amount is "" or one of 495, 65, 300, 550 and 100. It is "" exactly when the key is not in the catalog. |
| Payment.SelectCatalogEntry | Payment.tsx:22-35 | Choosing a catalog entry shows exactly that entry's amount. |
| Payment.CatalogAmountsExample | Payment.tsx:22-37 | "10-lessons" shows 550, and an unknown key shows "". |
| Payment.UnknownServiceAmount | Payment.tsx:30-37 | A key that names no catalog entry shows no amount. |
| Payment.PaymentData.With | Payment.tsx:118-170 | A text edit sets its own field and leaves every other field, including service and amount, unchanged. |
| Payment.EmptyPaymentConsistent | Payment.tsx:12-20 | The initial record shows no amount, and that amount fits its (empty) service. |
| Payment.ConsistentAmount | Payment.tsx:35 | A consistent record shows "" or a catalog amount, and shows "" exactly when its service is not in the catalog. |
| Payment.SelectServiceStep | Payment.tsx:30-37 | Choosing a service sets the service and its amount together and leaves the five text fields unchanged. |
| Payment.StepConsistent | Payment.tsx:30-170 | Every handler keeps the amount consistent with the selected service. |
| Payment.RunConsistent | Payment.tsx:30-170 | After any sequence of user actions that starts from a consistent record, the amount is still that of the selected service. |
| Payment.EditsKeepAmount | Payment.tsx:118-170 | Any sequence of text edits leaves the service and the amount unchanged. No handler except the selector and the reset writes the amount. |
| Payment.RunAppend | Payment.tsx:30-55 | Running two action sequences one after the other is the same as running their concatenation. |
| Payment.SubmitResets | Payment.tsx:39-55 | A submission ends with all seven fields empty, whatever came before. |
| Payment.PaymentForm.constructor | Payment.tsx:12-20 | The page starts from the empty record, with a consistent amount. |
| Payment.PaymentForm.HandleServiceChange | Payment.tsx:30-37 | Sets the service and its catalog amount, keeps the text fields, and leaves the amount consistent. |
| Payment.PaymentForm.HandleEdit | Payment.tsx:118-170 | Sets one text field. The service, the amount and the other fields are unchanged, and consistency is kept. |
| Payment.PaymentForm.HandleSubmit | Payment.tsx:39-55 | Resets all seven fields to "" without checking anything. |

## Left out

- **Rendering.** Markup, styling and icons only display things.
- **Browser constraint validation.** The `required` attributes (for example Register.tsx:144 and Payment.tsx:116), `type="email"` (Register.tsx:167, Payment.tsx:126) and `type="date"` (Register.tsx:192) make the browser refuse to fire `submit` for an empty required field, an email outside HTML's grammar or a malformed date. The model does not include this gate: it gives the handlers' behaviour for any record. So some modelled cases are reachable only where the browser does not enforce these constraints, such as an unparsable birth date passing the age rule and a payment submitted with empty fields.
- **Toasts.** The notification calls are an external display. A submission outcome stands in for them: a message, a confirmation naming the email, or nothing.
- **The simulated payment delay.** The `setTimeout`/`await` delay has no logic, and the model does not include the edits a user could make while it runs. The confirmation names the email and reset takes the record as it stood at submission, as the submit handler's closure does.
- **The "Payment Failed" branch.** The awaited promise never rejects, so the branch is unreachable.
- **Dates and the clock.** `new Date()`, `Date` parsing and `getFullYear` are replaced by the current year and the birth year given as inputs.
- **Inherited object keys.** Course keys that name properties every JavaScript object has, such as "toString", are not modelled. Every other unknown key throws, as modelled.
- **Arbitrary field names.** `handleChange` takes any string as a field name. The model allows only the twelve record fields, which are the only names the form passes.
- **Course and service display text.** The course names and descriptions in the price table are display-only and are not modelled. The service titles are kept but play no part in any property.
- **Floating point.** `parseInt` and the multiplication work on JavaScript numbers. The model uses unbounded integers: it keeps neither the precision loss above 2^53 nor the `-0` that `parseInt("-0")` gives.
- **`setPaymentData({ ...paymentData, ... })` closure effects.** These handlers spread the record from the last render, not the latest state. The model applies each handler to the current record, as happens when each change renders before the next.
- **Static pages.** `Contact.tsx`, the course pages and the home page hold only static content or a submit that shows a toast and clears five fields.
- **Input length limits (`maxLength`).** The limits of 19, 5 and 4 characters are enforced by the browser widget, not by the handler, so the model accepts any text.

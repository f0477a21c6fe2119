# Shreyas Academy: form validation, payment decisions and page state in Dafny

This project models the small pieces of sequential logic in the Shreyas Academy
enrollment site.

- **Student login form.** The change handler removes every non-digit from the
  phone number and clears the edited field's error. `validatePhoneNumber`
  accepts exactly ten digits. Submission builds the error record from trimmed
  required fields, the `local@domain.tld` e-mail pattern and the phone check. It
  sends the five fields unchanged only when no error was found. The user is
  logged in only when the service answers with success and user details.
- **Mentor login form.** It uses the same clear-on-edit error record and checks
  that both fields are non-blank after trimming. The payload sends both fields
  as typed, without trimming.
- **Payment routes.** `/create-order` builds the order options: the amount in
  paise, the currency `INR` and a `receipt_<timestamp>` receipt. It forwards the
  provider's order, and any provider failure becomes a fixed 500 response.
  `/verify` computes the keyed digest of `order_id|payment_id` and answers 200
  `success` exactly when the digest equals the supplied signature. Otherwise it
  answers 400 `failure`.
- **Landing page.** The FAQ accordion keeps at most one item open. The menu
  button toggles the menu and every navigation click closes it. Form edits
  change one field each. The submission flag rises while a submission is in
  flight and drops when it settles. A successful send resets the form to empty.

Modules:

- `Text` holds the ECMAScript `\d` and `\s` classes, the digit filter and `trim`.
- `Email` holds the e-mail regular expression. It gives both a declarative
  language and a decision procedure.
- `Decimal` gives the decimal text of a timestamp.
- `FormErrors` holds the shared clear-on-edit rule.
- `StudentLogin`, `MentorLogin`, `Payment` and `LandingPage` each follow one
  source file. `Optional` is a plain option type.

The keyed digest (HMAC-SHA256 in hex) is a parameter `hmac: (string, string) ->
string`, and so is the provider's order-creation call. The proofs are about the
route's decisions, not about the cryptography. `Date.now()` is an input
timestamp `now: nat`. Because `Verify` and `CreateOrder` are pure functions, the
same inputs always produce the same response, and no request depends on another.

Two facts the proofs bring out:

- **Clicking one FAQ question twice does not always restore the accordion.** It
  does when no item, or that same item, was open. If a different item was open,
  the first click opens the clicked one in its place and the second closes it,
  so every item ends closed. `LandingPage.ToggleFaqTwice` states both outcomes,
  and `LandingPage.ToggleFaqTwiceForgetsOther` gives a concrete case.
- **The signed message `order_id|payment_id` only identifies its pair when the
  order id contains no `|`.** The provider's ids never do. `Payment.TamperedIdsFail`
  assumes this of the genuine, signed ids only: a forged pair may hold any
  characters, `|` included. `Payment.SignedMessageAmbiguous` shows two pairs
  that share one message.

## Model

| member | source | states |
|---|---|---|
| `Text.DigitsOnly` | frontend/src/pages/AlreadyEnrolledLogin.tsx:33 | `replace(/\D/g, '')` returns only digits. Every digit character keeps its number of occurrences and every non-digit is gone. |
| `Text.DigitsOnlyKeepsDigits` | frontend/src/pages/AlreadyEnrolledLogin.tsx:32-34 | An all-digit string passes the filter unchanged, so the filter is idempotent. |
| `Text.DigitsOnlyAppend` | frontend/src/pages/AlreadyEnrolledLogin.tsx:33 | Filtering a concatenation is the concatenation of the two filtered parts. |
| `Text.DigitsOnlyLength` | frontend/src/pages/AlreadyEnrolledLogin.tsx:45-46 | The filtered text has one character per digit position of the input. |
| `Text.TrimStart` | frontend/src/pages/AlreadyEnrolledLogin.tsx:54 | Removing leading whitespace leaves nothing exactly when the input is all whitespace. What is left does not start with whitespace. |
| `Text.TrimEnd` | frontend/src/pages/AlreadyEnrolledLogin.tsx:54 | Removing trailing whitespace leaves nothing exactly when the input is all whitespace. What is left does not end with whitespace. |
| `Text.TrimStartDropsWhitespacePrefix` | frontend/src/pages/AlreadyEnrolledLogin.tsx:54 | The text left after removing leading whitespace is a suffix of the input, and everything removed is whitespace. |
| `Text.TrimEndDropsWhitespaceSuffix` | frontend/src/pages/MentorLogin.ts:28-29 | The text left after removing trailing whitespace is a prefix of the input, and everything removed is whitespace. |
| `Text.Trim` | frontend/src/pages/AlreadyEnrolledLogin.tsx:54-58 | The trimmed text neither starts nor ends with whitespace. It is empty, so `!s.trim()` holds, exactly when the input is all whitespace. |
| `Email.IndexOf` | frontend/src/pages/AlreadyEnrolledLogin.tsx:56 | The search finds the first `@` if there is one, and answers none only when there is no `@`. |
| `Email.IndexOfFirst` | frontend/src/pages/AlreadyEnrolledLogin.tsx:56 | An `@` with no `@` before it is the one the search finds. |
| `Email.ShapedMatchesPattern` | frontend/src/pages/AlreadyEnrolledLogin.tsx:56 | Every string the decision procedure accepts splits as `A@B.C` with non-empty parts that contain no whitespace and no `@`. |
| `Email.SplitIsShaped` | frontend/src/pages/AlreadyEnrolledLogin.tsx:56 | Any such split makes the decision procedure accept. |
| `Email.IsEmailShapedCorrect` | frontend/src/pages/AlreadyEnrolledLogin.tsx:56 | The decision procedure accepts exactly the language of `^[^\s@]+@[^\s@]+\.[^\s@]+$`. |
| `Decimal.ToDecimal` | backend/routes/payment.js:14 | A timestamp's text is non-empty, all digits and without a leading zero. |
| `Decimal.ParseToDecimal` | backend/routes/payment.js:14 | Reading a timestamp's decimal text back gives the timestamp. |
| `Decimal.ToDecimalInjective` | backend/routes/payment.js:14 | Two timestamps have the same text exactly when they are equal. |
| `FormErrors.ClearError` | frontend/src/pages/AlreadyEnrolledLogin.tsx:39-41 | After an edit the field shows no error and its key stays present with `''`. Every other entry is unchanged. A field that showed no error leaves the record as it was. |
| `StudentLogin.HandleInputChange` | frontend/src/pages/AlreadyEnrolledLogin.tsx:27-42 | The phone field stores the input with its non-digits removed. Any other field stores the input as typed. No other field, no other error and no other state changes. |
| `StudentLogin.EditsKeepPhoneDigits` | frontend/src/pages/AlreadyEnrolledLogin.tsx:32-34 | After any sequence of edits, the stored phone number is still all digits. |
| `StudentLogin.ValidatePhoneNumber` | frontend/src/pages/AlreadyEnrolledLogin.tsx:44-47 | The check is true exactly when the input has ten digit positions. |
| `StudentLogin.StoredPhoneCheck` | frontend/src/pages/AlreadyEnrolledLogin.tsx:44-47 | For an all-digit stored phone number, the check holds exactly when the length is ten. |
| `StudentLogin.FieldError` | frontend/src/pages/AlreadyEnrolledLogin.tsx:54-59 | A blank name or password gets its "required" message. A blank e-mail gets "Email is required". A non-blank e-mail outside the pattern gets "Invalid email format". A blank phone gets "Phone Number is required", and one without ten digits gets the "exactly 10 digits" message. Each field gets at most one message, and class never gets one. |
| `StudentLogin.Validate` | frontend/src/pages/AlreadyEnrolledLogin.tsx:52-59 | The new error record holds exactly the fields that have an error, each with its non-empty message. |
| `StudentLogin.HandleSubmit` | frontend/src/pages/AlreadyEnrolledLogin.tsx:61-75 | Submission stops exactly when the error record is non-empty. The errors then become that record and nothing is sent. Otherwise the form is marked submitting, the errors are kept, and the payload copies the five fields unchanged. |
| `StudentLogin.FinishSubmit` | frontend/src/pages/AlreadyEnrolledLogin.tsx:76-89 | Submitting always ends. The user becomes logged in, with the returned details, exactly on a successful answer that carries a user. |
| `MentorLogin.HandleInputChange` | frontend/src/pages/MentorLogin.ts:14-21 | The edited field takes the typed value and the other field keeps its value. Only the edited field's shown error is cleared. |
| `MentorLogin.Validate` | frontend/src/pages/MentorLogin.ts:27-29 | Mentor ID gets "Mentor ID is required" exactly when it is blank after trimming. Password gets "Password is required" exactly when it is blank after trimming. |
| `MentorLogin.HandleSubmit` | frontend/src/pages/MentorLogin.ts:31-41 | Submission stops exactly when a field is blank, and the errors then become exactly the new record. Otherwise the form is marked submitting and the payload carries both fields untrimmed. |
| `MentorLogin.FinishSubmit` | frontend/src/pages/MentorLogin.ts:54-56 | Whatever the service answered, submitting ends and the values and errors are unchanged. |
| `Payment.Receipt` | backend/routes/payment.js:14 | The receipt starts with `receipt_`. The rest is all digits, reads back as the timestamp and has no leading zero. |
| `Payment.ReceiptsCollideIffSameTime` | backend/routes/payment.js:14 | Two receipts are equal exactly when their timestamps are equal. |
| `Payment.OrderOptionsFor` | backend/routes/payment.js:11-15 | The amount is a whole multiple of 100 that converts back to the rupee input. The currency is `INR`, and the receipt starts with `receipt_` and encodes the timestamp without a leading zero. |
| `Payment.CreateOrder` | backend/routes/payment.js:7-22 | The provider's order for exactly those options is sent back with status 200. A provider failure gives status 500 with `{error: "Order creation failed"}`. |
| `Payment.SplitMessage` | backend/routes/payment.js:27 | Splitting a message at its first pipe character gives a pair that rebuilds the message, and the order part holds no pipe character. |
| `Payment.SplitSignedMessage` | backend/routes/payment.js:27 | When the order id holds no pipe character, the signed message `order_id` + pipe + `payment_id` determines both ids. |
| `Payment.SignedMessageAmbiguous` | backend/routes/payment.js:27 | Without that proviso, two different id pairs give the same message. |
| `Payment.Verify` | backend/routes/payment.js:24-40 | The status is 200 exactly when the digest of `order_id` + pipe + `payment_id` under the secret equals the signature. The response is either 200 `success` or 400 `failure`. |
| `Payment.TamperedSignatureFails` | backend/routes/payment.js:34-39 | Replacing the signature of an accepted callback with any other string gives 400 `failure`. |
| `Payment.SignedMessageDeterminesPair` | backend/routes/payment.js:27 | When the genuine ids hold no pipe character, no other id pair, whatever characters it holds, builds the same signed message. |
| `Payment.TamperedIdsFail` | backend/routes/payment.js:25-39 | With a collision-free digest and genuine ids without a pipe character, replacing either id of an accepted callback by any other string gives 400 `failure`. |
| `LandingPage.ToggleFaq` | src/App.tsx:38-40 | The clicked item's open state flips, at most the clicked item is open afterwards, and nothing but the accordion changes. |
| `LandingPage.ToggleFaqTwice` | src/App.tsx:38-40 | Two clicks on one item restore the state exactly when no other item was open. Otherwise every item ends closed. |
| `LandingPage.ToggleFaqTwiceForgetsOther` | src/App.tsx:39 | With item 0 open, two clicks on item 1 leave no item open. |
| `LandingPage.ToggleMenu` | src/App.tsx:119 | The menu button flips `isMenuOpen` and changes nothing else. |
| `LandingPage.NavClick` | src/App.tsx:28-36 | After a navigation click the menu is closed, and nothing else in the state changes. |
| `LandingPage.HandleInputChange` | src/App.tsx:42-45 | The named field takes the value. The other three fields and the rest of the state are unchanged. |
| `LandingPage.BeginSubmit` | src/App.tsx:47-51 | Submitting starts and the current form values are sent. Nothing else changes. |
| `LandingPage.FinishSubmit` | src/App.tsx:50-59 | Submitting ends whether or not the send worked. On success every field is empty, and on failure the form keeps its values. |
| `LandingPage.AccordionOnlyMovesOnFaqClicks` | src/App.tsx:38-40 | A run of events with no FAQ click leaves the open item as it was. |
| `LandingPage.FormOnlyMovesOnEditsAndSuccess` | src/App.tsx:42-59 | A run of events with no edit and no successful send leaves the contact form as it was. |
| `LandingPage.SubmittingUntilSettled` | src/App.tsx:47-59 | After a submission starts, any run of events in which the send does not settle leaves the form submitting. |
| `LandingPage.StaysSubmitting` | src/App.tsx:49-58 | A raised submission flag survives every event other than the send settling. |
| `LandingPage.RunEndsWith` | src/App.tsx:28-59 | After any history, a settled submission leaves the form not submitting, and a final navigation click leaves the menu closed. |

## Left out

- HMAC-SHA256, hex encoding and the secret from the process environment: the digest is a function parameter and the secret is an argument.
- Payment.Verify: compares with plain string equality, as the route does. Timing behaviour, and so the lack of a constant-time comparison, is outside the model.
- Payment.Verify: the three body fields are strings and the secret is a string. The route reads untyped JSON and `process.env.RAZORPAY_KEY_SECRET`. When the secret is unset, `createHmac` throws and Express answers 500, which the model does not produce. A missing id is joined into the message as the text `undefined`. A missing or non-string signature never equals the hex digest, so the route answers 400. The model covers that only through the string it is given.
- Payment.OrderOptionsFor: the amount is an integer. A missing or non-numeric `amount`, which JavaScript turns into `NaN`, and fractional rupee amounts are not modelled.
- Payment.CreateOrder: the provider call is a function parameter. An exception thrown while reading the request body, which would also give the 500 response, is not modelled.
- `Date.now()`: the timestamp is an input. Concurrent requests in the same millisecond are described by `Payment.ReceiptsCollideIffSameTime`, not simulated.
- The Razorpay SDK and checkout widget (frontend/src/services/paymentService.js): provider-side behaviour with no decisions of its own.
- Alerts, `console.error`, JSX rendering, routing links, scrolling (`getBoundingClientRect`, `scrollTo`), the scroll listener that elevates the navbar (floating-point `scrollY`), the body-overflow effect and the `IntersectionObserver` reveal: UI side effects.
- The disabled state of the submit buttons while submitting, and the phone input's `maxLength`: browser behaviour, not handler logic.
- StudentLogin.FinishSubmit: the reply is given as an answer or a thrown error. The fetch wrapper (frontend/src/services/studentLoginService.ts) that produces it is not part of this model, and neither is the mentor one (frontend/src/services/mentorLoginService.ts).
- The `class` field's cast to `'11th' | '12th' | 'Dropper'` is type-level only and checks nothing at run time, so the model keeps the field as a string, called `studentClass`.
- The SMS notification server (backend/server.js), the mentor listing (backend/models/Mentor.js, backend/controllers/mentorController.js, backend/routes/mentors.js), the signup page and service (src/pages/SignUp.tsx, src/services/signupService.ts) and the static content (src/data/siteContent.ts): network glue, database access or static data with no logic to state.
- Field names outside the rendered inputs: `[name]: value` with an unknown `name` would add a new key. The model's field types list only the inputs the pages render.

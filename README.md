# Order flow of the medical-supplies landing page, in Dafny

The landing page is a single marketing page with a small backend. It has
three pieces of logic, and this project models and verifies each of them.

- **The order form** (`OrderSection` in `client/src/pages/landing.tsx`). It
  holds four text fields (name, phone, e-mail, comment), a per-field error
  record and an "is submitting" flag.
  - Validation: the name and phone must not be blank after `trim`. The phone
    must match `^[\d\s\+\-\(\)]+$`. The e-mail must match
    `^[^\s@]+@[^\s@]+\.[^\s@]+$`.
  - Submitting: invalid input only replaces the error record. Valid input
    raises the flag, waits, then clears the fields and drops the flag.
  - Typing in a field: sets that field and blanks its displayed error.
- **The special-offers carousel** (`OffersSection`, same file). It is an
  index over four slides. The arrows, the dots and an autoplay timer move
  it, and the active, previous and next slides are highlighted.
- **The order endpoint and SMTP diagnostics** (`server/routes.ts`).
  - Port: the SMTP port defaults to 465, and the connection is implicitly
    secure exactly on 465.
  - `POST /api/order` checks only that name, phone and e-mail are present.
    It then composes an e-mail to and from the configured mailbox and
    answers 200, 400 or 500.
  - `GET /api/health/smtp` reports the port, and for host, user, password
    and session secret only whether each is set, never its value, together
    with the outcome of a connection check.

Modules:

- `JsText` (`js_text.dfy`): JavaScript white space, which `trim` and the
  regex class `\s` share, and `trim` itself. It also writes the two
  validation regexes as predicates over characters. The e-mail regex is
  proved equal to a plain description: no white space, exactly one `@`
  with text before it, and a `.` after it with a character on each side.
- `OrderForm` (`order_form.dfy`): the form state as a class whose methods
  mirror `validateForm`, `handleSubmit` and `handleChange`. `ValidateForm`,
  `BeginSubmit` and `HandleSubmit` are proved against the pure function
  `ValidationErrors`, `FinishSubmit` against `EmptyForm`, and `HandleChange`
  against `FormData.With` and `ClearError`. Lemmas state what
  `ValidationErrors` promises field by field.
- `Offers` (`offers.dfy`): `nextSlide` and `prevSlide` as pure functions
  on a slide index. JavaScript's truncating `%` is written out as
  `JsRemainder`. The autoplay timer is a run of `nextSlide` ticks.
- `Routes` (`routes.dfy`): the environment, JSON values, the mail template,
  and the two handlers as methods. The mail transport is an input:
  `SendOutcome` for `sendMail` and `VerifyOutcome` for `verify`.
- `Optional` (`optional.dfy`): the `Option` type used by the others.

Behaviour of the code worth noting:

- The submit handler does not call the server. Between raising and dropping
  the flag it only waits 1000 ms, then it always clears the fields. There is
  no "failed, fields retained" path. `BeginSubmit` and `FinishSubmit` are
  the two halves around that wait, and `HandleSubmit` runs them back to back.
- A phone or e-mail made only of white space gets the "required" message,
  because the code tests `trim()`, not emptiness.
- A keystroke blanks a field's error whenever that error is non-empty,
  whatever the new value is. The key stays in the record with an empty
  message, which is not displayed.
- The phone rule accepts strings with no digit at all, such as `"()"` or
  `" + "`.

## Model

| member | source | states |
|---|---|---|
| JsText.Trim | client/src/pages/landing.tsx:421-435 | `trim` returns the empty string exactly when every character is JavaScript white space; otherwise the result starts and ends with a non-white-space character |
| JsText.TrimIsInnerSlice | client/src/pages/landing.tsx:421-435 | `trim` keeps one contiguous slice of its input and removes only white space before and after it |
| JsText.PhonePatternIsOneOrMore | client/src/pages/landing.tsx:427 | the phone pattern accepts a string exactly when it is one phone character followed by nothing or by another accepted string, which is what the `+` quantifier over the class means |
| JsText.EmailSplitAtUnique | client/src/pages/landing.tsx:433 | every way the e-mail regex can split a string uses the same `@` |
| JsText.EmailPatternIsWellFormed | client/src/pages/landing.tsx:433 | the e-mail regex accepts a string exactly when it has no white space, exactly one `@` with text before it, and a `.` after the `@` with at least one character on each side |
| OrderForm.FormData.With | client/src/pages/landing.tsx:459-461 | the record spread sets the named field to the new value and leaves the other three fields unchanged |
| OrderForm.FieldError | client/src/pages/landing.tsx:421-435 | the rule for one field: the comment is never flagged; the name is flagged exactly when blank; the phone exactly when blank or not matching the phone pattern; the e-mail exactly when not well formed; each with the "required" message when blank and the format message otherwise |
| OrderForm.ValidationErrors | client/src/pages/landing.tsx:418-435 | the error record holds only name, phone and e-mail keys, and holds each one exactly when that field's rule flags it, with that rule's message |
| OrderForm.ClearError | client/src/pages/landing.tsx:462-464 | a keystroke's error update keeps the set of keys and every other field's message; the edited field's message becomes empty; with nothing shown for that field the record is unchanged |
| OrderForm.OrderSection.constructor | client/src/pages/landing.tsx:409-416 | the form starts with four empty fields, no errors and the submitting flag down |
| OrderForm.OrderSection.ValidateForm | client/src/pages/landing.tsx:418-439 | the error record is replaced wholesale by the validation of the current fields, so stale errors are dropped; the result is true exactly when the new record is empty |
| OrderForm.OrderSection.BeginSubmit | client/src/pages/landing.tsx:441-446 | submitting validates first; it goes on, raising the submitting flag, exactly when the form is valid, and otherwise leaves the flag as it was |
| OrderForm.OrderSection.FinishSubmit | client/src/pages/landing.tsx:455-456 | after the wait all four fields are empty and the flag is down |
| OrderForm.OrderSection.HandleSubmit | client/src/pages/landing.tsx:441-457 | invalid input leaves the fields and the flag unchanged; valid input ends with empty fields and the flag down (that the flag is raised in between is `BeginSubmit`'s contract); either way the error record is that of the submitted fields |
| OrderForm.OrderSection.HandleChange | client/src/pages/landing.tsx:459-465 | a keystroke sets only the named field and blanks only that field's error, and only when it was shown |
| OrderForm.NameErrorIffBlank | client/src/pages/landing.tsx:421-423 | the name is flagged exactly when it is blank, always with the "enter your name" message |
| OrderForm.PhoneErrorCases | client/src/pages/landing.tsx:425-429 | a blank phone gets the "required" message; any other phone is flagged, with the format message, exactly when some character is not an ASCII digit, white space, `+`, `-`, `(` or `)` |
| OrderForm.EmailErrorCases | client/src/pages/landing.tsx:431-435 | a blank e-mail gets the "required" message; any other e-mail is accepted exactly when it is well formed as described above, and is otherwise flagged with the format message |
| OrderForm.CommentNeverFlagged | client/src/pages/landing.tsx:418-435 | the comment never gets an error; only name, phone and e-mail can |
| OrderForm.ValidIffFieldsPass | client/src/pages/landing.tsx:418-438 | the form is valid exactly when the name is not blank, the phone is not blank and matches the phone pattern, and the e-mail is well formed |
| OrderForm.ParenthesesArePhone | client/src/pages/landing.tsx:427 | the phone `"()"` passes the phone rule |
| Offers.JsRemainder | client/src/pages/landing.tsx:304-308 | JavaScript's `%` lies strictly between `-n` and `n` and agrees with the Euclidean remainder on non-negative dividends; on a negative dividend it is zero when `n` divides it and otherwise the Euclidean remainder minus `n` |
| Offers.NextSlide | client/src/pages/landing.tsx:303-305 | `nextSlide` moves one slide forward and wraps from the last slide to the first |
| Offers.PrevSlide | client/src/pages/landing.tsx:307-309 | `prevSlide` moves one slide back and wraps from the first slide to the last |
| Offers.IsPrev | client/src/pages/landing.tsx:346 | the slide marked previous is the one before the active slide, wrapping from the first to the last |
| Offers.IsNext | client/src/pages/landing.tsx:347 | the slide marked next is the one after the active slide, wrapping from the last to the first |
| Offers.IsVisible | client/src/pages/landing.tsx:348 | a slide is undimmed exactly when it is one of the four and not the one two places after the active slide |
| Offers.Step | client/src/pages/landing.tsx:303-309 | an arrow or a timer tick moves the index one place back or forward modulo four; a dot click sets it to that dot |
| Offers.RunAppend | client/src/pages/landing.tsx:303-314 | handling two runs of clicks and ticks one after the other is handling their concatenation, since every event acts on the index left by the previous one |
| Offers.LastDotDecides | client/src/pages/landing.tsx:393 | after any history of events, a dot click shows that dot's slide |
| Offers.PrevUndoesNext | client/src/pages/landing.tsx:303-309 | `prevSlide` undoes `nextSlide`, and the other way round |
| Offers.DotSelects | client/src/pages/landing.tsx:393 | clicking a dot shows that slide, whatever was shown before |
| Offers.NeighboursDistinct | client/src/pages/landing.tsx:345-348 | the slides marked previous and next are the ones `prevSlide` and `nextSlide` would show, and the active, previous and next slides are three different slides |
| Offers.OneSlideHidden | client/src/pages/landing.tsx:345-348 | a slide is dimmed exactly when it is the one opposite the active slide |
| Offers.AutoplayAdvances | client/src/pages/landing.tsx:311-314 | n autoplay ticks move the index n slides forward, modulo four |
| Offers.SlideAfterTicksFromLoad | client/src/pages/landing.tsx:295-314 | the carousel opens on the first slide, so with only the timer running the slide shown after n ticks is n modulo four |
| Offers.FourTicksReturn | client/src/pages/landing.tsx:303-314 | four ticks, or four `nextSlide` calls, bring the carousel back to where it was |
| Routes.SmtpPort | server/routes.ts:6 | the port is 465 when `SMTP_PORT` is unset or empty; a set `SMTP_PORT` is taken as parsed, so it is NaN exactly when the variable holds something that parses to NaN |
| Routes.IsSecure | server/routes.ts:7 | the connection is secure exactly when `SMTP_PORT` is unset, empty or parses to 465; a port that parses to NaN is not secure |
| Routes.MissingRequired | server/routes.ts:67 | a body fails the presence check exactly when its name, phone or e-mail is absent or the empty string |
| Routes.CommentText | server/routes.ts:83 | the comment line carries the comment when it is truthy and "Не указан" otherwise, so it is never empty |
| Routes.MailHtml | server/routes.ts:78-86 | the body opens with the heading, closes with the signature, and holds one line each for name, phone, e-mail and comment |
| Routes.ComposeMail | server/routes.ts:74-87 | the e-mail goes from and to `SMTP_USER`; its subject is the fixed prefix followed by the name, and the name is recovered from it; the body has one line each for name, phone and e-mail, and one for the comment or, when the comment is falsy, "Не указан" |
| Routes.HandleOrder | server/routes.ts:63-103 | the response is 400 with "Missing required fields", and nothing is sent, exactly when name, phone or e-mail is falsy; otherwise the composed mail is handed to the transport, and the answer is 200 with success on delivery or a fixed 500 "Failed to send email" that carries no error detail |
| Routes.PortJson | server/routes.ts:38 | the port is reported as a number, or as `null` exactly when it is NaN, as `JSON.stringify` writes it |
| Routes.Flag | server/routes.ts:37-41 | a setting is reported as exactly "set" or "NOT SET", and as "set" exactly when it is set and not empty |
| Routes.SmtpConfigReport | server/routes.ts:36-42 | the configuration report gives the port, and for host, user, password and session secret only "set" or "NOT SET", each "set" exactly when that variable is set |
| Routes.ConfigReportHidesValues | server/routes.ts:36-42 | two environments that agree on which variables are set, and on the port, give the same report, so no value appears in it |
| Routes.SmtpHealth | server/routes.ts:35-61 | the diagnostics answer holds only `status` and `smtp`, and `smtp` only `config` and `connection`, so no configured value appears beyond the report; it has status "ok", the configuration report, and a connection of "connected" when verification succeeded or "error: " followed by the error message when it failed; it is never left "unknown" |
| Routes.ClientValidPassesPresenceCheck | server/routes.ts:67-70 | every form that the client's validation accepts, posted as it stands, passes the server's presence check |
| Routes.MalformedContactPassesPresenceCheck | server/routes.ts:67-89 | the server checks presence only: a body with a phone and an e-mail the client would reject still passes, and would be mailed |

## Left out

- Rendering, CSS, animation and the decorative sections: they are
  presentational and hold no logic.
- The loading-screen timeout, the 4000 ms autoplay interval and the 1000 ms
  wait in the submit handler are timers. Autoplay is modelled as a run of
  ticks that each call `nextSlide`. The wait is the gap between
  `BeginSubmit` and `FinishSubmit`.
- The `toast` call is a UI side effect.
- React batches state updates, and `handleChange` reads the error record
  from a closure. The model applies each update in order to the current
  state.
- The nodemailer transport (`createTransport`, `sendMail`, `verify`) and its
  timeouts are network I/O in a foreign library. Their outcome is a
  parameter of the handlers.
- Logging, the response timestamps and `/api/health` are left out. The
  first two are output and a clock read; `/api/health` returns a constant
  and a timestamp.
- Express routing and JSON parsing are plumbing. A request-body field is
  either missing (or null) or a string. Numbers, booleans and objects, whose
  truthiness and string form differ, are not modelled. Neither is the 500
  that a missing body would cause by throwing inside the `try`.
- `parseInt` is not modelled. `SMTP_PORT` is either unset or empty (so "465"
  is parsed) or already parsed to a number or NaN.
- The error message of a failed `verify` is taken to be a string. The case
  where it is undefined is not modelled.
- JSON objects are maps from keys to values, so key order is not modelled.
- The e-mail input has `type="email"` (`landing.tsx:578`), so the browser
  normalises and checks the address before `onSubmit` fires. That check is
  browser behaviour and is not modelled: some addresses the model hands to
  `HandleSubmit`, such as `a(b)@c.d`, never reach the handler in a browser.
- Routes.HandleOrder: the 200 and 500 answers are stated for a body that
  passes the presence check. The logging statements inside the `try`,
  which could also throw, are not modelled.

# KARMMA contact endpoint — a verified model

The backend has one route with real logic: `POST /api/contact`. It takes a
form submission (`nombre`, `email`, `servicio`, `mensaje`). It checks that all
four fields are filled in, then checks the e-mail against
`^[^\s@]+@[^\s@]+\.[^\s@]+$`. It builds two mails: a notification to the
business address `karmma016@gmail.com` and an acknowledgment to the submitter.
It sends them one after the other, awaiting each. It answers 400, 200 or 500.

The model has four modules:

- `EmailPattern` (`email_pattern.dfy`) models the regular expression as a
  left-to-right automaton (`Step`, `Run`). It proves that the automaton accepts
  exactly the strings `local + "@" + d1 + "." + d2` whose three parts are
  non-empty and contain no whitespace and no `@`. It also proves what follows
  from that: one `@`, no whitespace, and an inner dot after the `@`.
- `Messages` (`messages.dfy`) models the two mail records. Subjects and bodies
  are template literals, written as fixed `Text` pieces and `${field}` slots.
  `Render` inserts each field verbatim, with no HTML escaping, as the handler
  does.
- `Transport` (`transport.dfy`) models the awaited sends inside one `try`.
  The mail transport is a script of `Delivered`/`Failed` answers to its
  successive calls. A script that runs out answers `Failed`.
- `Contact` (`contact.dfy`) models the handler, `HandleContact`, as a pure
  function. It takes the sender account, the request body and the transport
  script. It returns the reply (status, `success`, `message`) and the list of
  mails handed to the transport.

JavaScript's `\s` is modelled by `IsSpace`. It lists the ECMAScript
WhiteSpace and LineTerminator code points. The proofs only use the fact that
`@`, `.` and ordinary letters are not in it. The regular expression runs on
UTF-16 code units. The model runs on Unicode scalar values. For strings
without an unpaired surrogate both give the same verdict, because every
whitespace code point is in the Basic Multilingual Plane, and the two halves
of a surrogate pair are neither whitespace nor `@`.

`req.body` may be left undefined by the body parser. Destructuring it throws
inside the `try`, so the code answers 500 and sends nothing. The model covers
this case as `NoBody`. No explicit reply in the handler covers this path; the
`catch` turns it into the 500 reply. The model follows the code.

## Model

| member | source | states |
|---|---|---|
| `EmailPattern.MatchesEmailPattern` | server.js:52-53 | The pattern accepts a string exactly when it is `local@d1.d2` with three non-empty parts free of whitespace and `@` (the dots in `d1`, `d2` are allowed) |
| `EmailPattern.AcceptedIsEmailShape` | server.js:52 | Soundness: a string on which the automaton ends accepting has the `local@d1.d2` decomposition |
| `EmailPattern.EmailShapeIsAccepted` | server.js:52 | Completeness: every `local@d1.d2` string drives the automaton to its accepting state |
| `EmailPattern.ShapeMatches` | server.js:52 | Any three segments joined with `@` and `.` form an accepted address |
| `EmailPattern.AcceptedHasOneAt` | server.js:52 | An accepted address contains exactly one `@` |
| `EmailPattern.AcceptedHasNoSpace` | server.js:52 | An accepted address contains no whitespace character |
| `EmailPattern.AcceptedDomainHasInnerDot` | server.js:52 | After the `@` of an accepted address there is a `.` that is neither the first nor the last character of that part |
| `Messages.RenderShowsPiece` | server.js:64-111 | Evaluating a template literal keeps every fixed piece and every interpolated field as a contiguous substring of the result |
| `Messages.NoticeMail` | server.js:61-112 | The business notification comes from the configured account and goes to `karmma016@gmail.com`. Its subject contains the name and the service. Its body contains all four submitted fields verbatim |
| `Messages.AcknowledgmentMail` | server.js:115-161 | The acknowledgment comes from the configured account and goes to the submitted address. Its subject is the fixed "🎵 Gracias por contactar a KARMMA". Its body contains the name, service and message verbatim, plus the WhatsApp and Instagram links |
| `Transport.SendInOrder` | server.js:163-180 | Awaited sends in one `try`. The attempts are a prefix of the mails, and every attempt but the last was delivered. The run succeeds exactly when every mail was sent and delivered. Otherwise the last attempt is the one that failed |
| `Contact.Mails` | server.js:61-117 | Two mails, both from the configured account: first to the business address, second to the submitted e-mail |
| `Contact.HandleContact` | server.js:39-181 | Every reply is one of the four fixed responses. `success` is true exactly for status 200. At most two mails are sent |
| `Contact.MissingFieldRejected` | server.js:44-49 | A missing or empty field gives 400 "Todos los campos son obligatorios" and no send |
| `Contact.RequiredFieldsCheckedFirst` | server.js:44-58 | A submission with an empty field and a malformed e-mail gets the required-fields message, never "Email inválido" |
| `Contact.InvalidEmailRejected` | server.js:52-58 | All fields present but the e-mail rejected by the pattern gives 400 "Email inválido" and no send |
| `Contact.RejectionIdentifiesCause` | server.js:44-58 | Status 400 happens exactly for a body that fails a check. Each of the two messages appears exactly when its check is the one that failed |
| `Contact.NoSendUnlessAcceptable` | server.js:44-165 | The transport is called if and only if the body passed both checks |
| `Contact.BothDeliveredSucceeds` | server.js:163-172 | Both sends delivered gives 200 with the confirmation message. Exactly two mails are sent: the notification to the business, then the acknowledgment to the submitted address |
| `Contact.FirstSendFails` | server.js:164-180 | The first send fails: 500, and only the business notification was attempted |
| `Contact.SecondSendFails` | server.js:164-180 | Only the second send fails: still 500, with both mails attempted |
| `Contact.SuccessIffAllDelivered` | server.js:164-180 | 200 exactly when the body is acceptable and both sends are delivered. A partial delivery is reported as a failure |
| `Contact.SentMailsCarrySubmission` | server.js:61-165 | Every mail sent comes from the configured account. The first carries all four fields to the business. The second, when attempted, carries name, service, message and the fixed links to the submitter |
| `Contact.AnaAddressAccepted` | server.js:52-53 | `ana@example.com` passes the e-mail check |
| `Contact.AnaExample` | server.js:39-172 | Ana asking about "Video" with both sends delivered: 200, two mails, the first to the business with "Ana" and "Video" in the subject, the second to `ana@example.com` |

## Left out

- Express setup, CORS and JSON middleware, `dotenv` and `app.listen` (server.js:1-13, 184-186): framework plumbing and I/O.
- Creating the Nodemailer transport and calling `verify` (server.js:16-31): a foreign library and network setup. The transport is only the script of answers it gives.
- The `GET /` route (server.js:34-36): a constant reply with nothing to prove.
- Console logging (server.js:167, 175): a side effect with no contract.
- The exact markup of the two bodies: the style sheets, indentation and line breaks are abridged in the fixed `Text` pieces. Labels, greetings, links and the order of the interpolated fields are kept.
- Non-string JSON values (numbers, booleans, `null`, objects) in the four fields, and the string conversion `RegExp.test` applies to them. Each field is an optional string, and absent or empty counts as missing.
- Strings holding an unpaired UTF-16 surrogate (reachable through a JSON `\uD800` escape): a Dafny `char` cannot represent one; the pattern treats such a code unit as an ordinary `[^\s@]` character.
- An undefined `EMAIL_USER`: the sender account is any string given to the handler.
- Transport failures are not distinguished by cause. Any rejected or throwing call is `Failed`, as in the single `catch`.
- Timing, cancellation and transport time-outs: a call that never settles is out of scope, and every call receives an answer from the script.

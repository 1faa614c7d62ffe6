/**
  The `POST /api/contact` handler (server.js, lines 39-181) as a pure
  function. The request body, the configured sender account and the
  transport's answers are its inputs; the HTTP reply and the mails handed to
  the transport are its result.
 */
module Contact {
  import opened EmailPattern
  import opened Messages
  import opened Transport

  datatype Option<T> = None | Some(value: T)

  /** The four properties destructured from the JSON body. `None` is a
      property the body does not have. */
  datatype Submission = Submission(
    nombre: Option<string>,
    email: Option<string>,
    servicio: Option<string>,
    mensaje: Option<string>)

  /** `req.body`: the parsed JSON object, or nothing when the body parser
      left it undefined. */
  datatype Request = NoBody | Body(submission: Submission)

  /** The status code and the `{ success, message }` JSON reply. */
  datatype Response = Response(status: int, success: bool, message: string)

  /** The reply, and the mails handed to the transport, in call order. */
  datatype Outcome = Outcome(response: Response, sent: seq<Mail>)

  const MissingFieldsMessage: string := "Todos los campos son obligatorios"
  const InvalidEmailMessage: string := "Email inválido"
  const SentMessage: string := "Mensaje enviado correctamente. ¡Te contactaremos pronto!"
  const SendErrorMessage: string := "Error al enviar el mensaje. Por favor intentá nuevamente."

  const MissingFields: Response := Response(400, false, MissingFieldsMessage)
  const InvalidEmail: Response := Response(400, false, InvalidEmailMessage)
  const Sent: Response := Response(200, true, SentMessage)
  const SendError: Response := Response(500, false, SendErrorMessage)

  /** JavaScript truthiness of a string property: present and non-empty. */
  predicate Filled(field: Option<string>) {
    field.Some? && field.value != ""
  }

  predicate AllFilled(s: Submission) {
    Filled(s.nombre) && Filled(s.email) && Filled(s.servicio) && Filled(s.mensaje)
  }

  /** A submission that passes both checks. */
  predicate Acceptable(s: Submission) {
    AllFilled(s) && MatchesEmailPattern(s.email.value)
  }

  /** The field values, once the required-field check has passed. */
  function FormOf(s: Submission): (f: Form)
    requires AllFilled(s)
    ensures Some(f.nombre) == s.nombre && Some(f.email) == s.email
    ensures Some(f.servicio) == s.servicio && Some(f.mensaje) == s.mensaje
  {
    Form(s.nombre.value, s.email.value, s.servicio.value, s.mensaje.value)
  }

  /** The two mails of an acceptable submission, in the order they are sent. */
  function Mails(sender: string, s: Submission): (ms: seq<Mail>)
    requires AllFilled(s)
    ensures |ms| == 2
    ensures ms[0].to == BusinessAddress && ms[1].to == s.email.value
    ensures ms[0].from == sender && ms[1].from == sender
  {
    [NoticeMail(sender, FormOf(s)), AcknowledgmentMail(sender, FormOf(s))]
  }

  /** The handler: required fields first, then the e-mail shape, then the two
      awaited sends; any exception inside the `try` becomes one 500 reply. */
  function HandleContact(sender: string, request: Request, script: seq<Delivery>): (r: Outcome)
    ensures r.response in {MissingFields, InvalidEmail, Sent, SendError}
    ensures r.response.success <==> r.response.status == 200
    ensures |r.sent| <= 2
  {
    match request
    case NoBody =>
      // destructuring `undefined` throws before any check
      Outcome(SendError, [])
    case Body(s) =>
      if !AllFilled(s) then
        Outcome(MissingFields, [])
      else if !MatchesEmailPattern(s.email.value) then
        Outcome(InvalidEmail, [])
      else
        var d := SendInOrder(Mails(sender, s), script);
        Outcome(if d.allDelivered then Sent else SendError, d.attempted)
  }

  // ---------------------------------------------------------------------
  // Validation.

  /** A missing or empty field is reported as such, and nothing is sent. */
  lemma MissingFieldRejected(sender: string, s: Submission, script: seq<Delivery>)
    requires !AllFilled(s)
    ensures HandleContact(sender, Body(s), script) == Outcome(MissingFields, [])
  {
  }

  /** The required-field check comes first: a submission with an empty field
      never gets the invalid-email reply, even when its e-mail is malformed. */
  lemma RequiredFieldsCheckedFirst(sender: string, s: Submission, script: seq<Delivery>)
    requires !AllFilled(s) && s.email.Some? && !MatchesEmailPattern(s.email.value)
    ensures HandleContact(sender, Body(s), script).response.message == MissingFieldsMessage
  {
  }

  /** All fields present but the e-mail malformed: rejected, nothing sent. */
  lemma InvalidEmailRejected(sender: string, s: Submission, script: seq<Delivery>)
    requires AllFilled(s) && !MatchesEmailPattern(s.email.value)
    ensures HandleContact(sender, Body(s), script) == Outcome(InvalidEmail, [])
  {
  }

  /** The reply's message names the failed check exactly: 400 happens only
      for a rejected submission, and each rejection message for its cause. */
  lemma RejectionIdentifiesCause(sender: string, request: Request, script: seq<Delivery>)
    ensures var r := HandleContact(sender, request, script);
      && (r.response.status == 400 <==> request.Body? && !Acceptable(request.submission))
      && (r.response == MissingFields <==> request.Body? && !AllFilled(request.submission))
      && (r.response == InvalidEmail <==>
            request.Body? && AllFilled(request.submission) && !Acceptable(request.submission))
  {
  }

  /** The transport is called only for a submission that passed both checks. */
  lemma NoSendUnlessAcceptable(sender: string, request: Request, script: seq<Delivery>)
    ensures |HandleContact(sender, request, script).sent| > 0 <==>
              request.Body? && Acceptable(request.submission)
  {
  }

  // ---------------------------------------------------------------------
  // Dispatch.

  /** Both sends delivered: 200 with the confirmation, two mails sent, the
      first to the business and the second back to the submitter. */
  lemma BothDeliveredSucceeds(sender: string, s: Submission, script: seq<Delivery>)
    requires Acceptable(s)
    requires Answer(script, 0) == Delivered && Answer(script, 1) == Delivered
    ensures var r := HandleContact(sender, Body(s), script);
      && r.response == Sent
      && |r.sent| == 2
      && r.sent[0] == NoticeMail(sender, FormOf(s))
      && r.sent[1] == AcknowledgmentMail(sender, FormOf(s))
      && r.sent[0].to == BusinessAddress && r.sent[1].to == s.email.value
  {
  }

  /** The first send fails: 500, and the acknowledgment is never attempted. */
  lemma FirstSendFails(sender: string, s: Submission, script: seq<Delivery>)
    requires Acceptable(s)
    requires Answer(script, 0) == Failed
    ensures var r := HandleContact(sender, Body(s), script);
      r.response == SendError && r.sent == [NoticeMail(sender, FormOf(s))]
  {
  }

  /** Only the second send fails: still 500, although the business was
      notified; both mails were attempted. */
  lemma SecondSendFails(sender: string, s: Submission, script: seq<Delivery>)
    requires Acceptable(s)
    requires Answer(script, 0) == Delivered && Answer(script, 1) == Failed
    ensures var r := HandleContact(sender, Body(s), script);
      r.response == SendError && r.sent == Mails(sender, s)
  {
  }

  /** Success is all or nothing: 200 exactly when the submission is acceptable
      and both sends are delivered; a partial delivery is a 500. */
  lemma SuccessIffAllDelivered(sender: string, request: Request, script: seq<Delivery>)
    ensures HandleContact(sender, request, script).response.status == 200 <==>
              && request.Body? && Acceptable(request.submission)
              && Answer(script, 0) == Delivered && Answer(script, 1) == Delivered
  {
  }

  // ---------------------------------------------------------------------
  // What the sent mails carry.

  /** Every mail the handler sends comes from the configured account; the
      first goes to the business with the submitted data verbatim in subject
      and body, the second to the submitter with the fixed subject, the
      submitted name, service and message, and the contact links. */
  lemma SentMailsCarrySubmission(sender: string, s: Submission, script: seq<Delivery>)
    requires Acceptable(s)
    ensures var r := HandleContact(sender, Body(s), script);
      && (forall k :: 0 <= k < |r.sent| ==> r.sent[k].from == sender)
      && (|r.sent| >= 1 ==>
            && r.sent[0].to == BusinessAddress
            && Contains(r.sent[0].subject, s.nombre.value)
            && Contains(r.sent[0].subject, s.servicio.value)
            && Contains(r.sent[0].html, s.nombre.value)
            && Contains(r.sent[0].html, s.email.value)
            && Contains(r.sent[0].html, s.servicio.value)
            && Contains(r.sent[0].html, s.mensaje.value))
      && (|r.sent| == 2 ==>
            && r.sent[1].to == s.email.value
            && r.sent[1].subject == AcknowledgmentSubject
            && Contains(r.sent[1].html, s.nombre.value)
            && Contains(r.sent[1].html, s.servicio.value)
            && Contains(r.sent[1].html, s.mensaje.value)
            && Contains(r.sent[1].html, WhatsAppLink)
            && Contains(r.sent[1].html, InstagramLink))
  {
    var ms := Mails(sender, s);
    var r := HandleContact(sender, Body(s), script);
    assert r.sent == ms[..|r.sent|];
  }

  /** The address of the worked example below has the accepted shape. */
  lemma AnaAddressAccepted()
    ensures MatchesEmailPattern("ana@example.com")
  {
    var l, d1, d2 := "ana", "example", "com";
    assert Segment(l) && Segment(d1) && Segment(d2);
    ShapeMatches(l, d1, d2);
    assert l + "@" + d1 + "." + d2 == "ana@example.com";
  }

  /** The worked example: Ana asks about video and both sends go through. */
  lemma AnaExample(sender: string)
    ensures var r := HandleContact(sender,
              Body(Submission(Some("Ana"), Some("ana@example.com"), Some("Video"), Some("Hola"))),
              [Delivered, Delivered]);
      && r.response == Sent
      && |r.sent| == 2
      && r.sent[0].to == BusinessAddress
      && Contains(r.sent[0].subject, "Ana") && Contains(r.sent[0].subject, "Video")
      && r.sent[1].to == "ana@example.com"
  {
    var s := Submission(Some("Ana"), Some("ana@example.com"), Some("Video"), Some("Hola"));
    AnaAddressAccepted();
    BothDeliveredSucceeds(sender, s, [Delivered, Delivered]);
    SentMailsCarrySubmission(sender, s, [Delivered, Delivered]);
  }
}

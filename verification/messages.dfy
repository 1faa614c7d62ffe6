/**
  The two mail records the contact endpoint builds (server.js, lines 61-161):
  a notification to the fixed business address and an acknowledgment to the
  submitter. Subjects and bodies are JavaScript template literals, modelled
  as sequences of fixed text pieces and slots for the submitted fields; the
  fields are inserted verbatim, without any HTML escaping. The style sheet
  and indentation of the markup are abridged; labels, greetings and links
  are kept.
 */
module Messages {

  /** A submission whose four fields passed the required-field check. */
  datatype Form = Form(nombre: string, email: string, servicio: string, mensaje: string)

  /** The options object handed to the mail transport. */
  datatype Mail = Mail(from: string, to: string, subject: string, html: string)

  datatype Field = Nombre | Email | Servicio | Mensaje

  /** One piece of a template literal: fixed text or a `${field}` slot. */
  datatype Piece = Text(text: string) | Slot(field: Field)

  type Template = seq<Piece>

  function Value(f: Form, x: Field): string {
    match x
    case Nombre => f.nombre
    case Email => f.email
    case Servicio => f.servicio
    case Mensaje => f.mensaje
  }

  function Show(p: Piece, f: Form): string {
    match p
    case Text(t) => t
    case Slot(x) => Value(f, x)
  }

  /** Evaluates a template literal: the pieces, in order, with every slot
      replaced by the field's text as submitted. */
  function Render(t: Template, f: Form): string
    decreases |t|
  {
    if |t| == 0 then "" else Show(t[0], f) + Render(t[1..], f)
  }

  /** `part` occurs in `text` as a contiguous substring. */
  ghost predicate Contains(text: string, part: string) {
    exists i, j :: 0 <= i <= j <= |text| && text[i..j] == part
  }

  lemma ContainsPrefix(a: string, b: string)
    ensures Contains(a + b, a)
  {
    assert (a + b)[0..|a|] == a;
  }

  lemma ContainsInSuffix(a: string, b: string, part: string)
    requires Contains(b, part)
    ensures Contains(a + b, part)
  {
    var i, j :| 0 <= i <= j <= |b| && b[i..j] == part;
    assert (a + b)[|a| + i..|a| + j] == b[i..j];
  }

  /** Every piece of a template shows up, as is, in its rendering. */
  lemma {:induction false} RenderShowsPiece(t: Template, f: Form, k: nat)
    requires k < |t|
    ensures Contains(Render(t, f), Show(t[k], f))
    decreases k
  {
    if k == 0 {
      ContainsPrefix(Show(t[0], f), Render(t[1..], f));
    } else {
      RenderShowsPiece(t[1..], f, k - 1);
      ContainsInSuffix(Show(t[0], f), Render(t[1..], f), Show(t[k], f));
    }
  }

  // ---------------------------------------------------------------------
  // The notification to the business (server.js, lines 61-112).

  const BusinessAddress: string := "karmma016@gmail.com"

  const NoticeSubject: Template :=
    [Text("🎵 Nuevo contacto de "), Slot(Nombre), Text(" - "), Slot(Servicio)]

  const NoticeBody: Template := [
    Text("<!DOCTYPE html><html><head><style>…</style></head><body><div class=\"container\">"
      + "<div class=\"header\"><h1>📧 Nuevo Mensaje de Contacto</h1></div><div class=\"content\">"
      + "<div class=\"field\"><label>👤 Nombre:</label><value>"),
    Slot(Nombre),
    Text("</value></div><div class=\"field\"><label>📧 Email:</label><value>"),
    Slot(Email),
    Text("</value></div><div class=\"field\"><label>🎵 Servicio de Interés:</label><value>"),
    Slot(Servicio),
    Text("</value></div><div class=\"field\"><label>💬 Mensaje:</label><value>"),
    Slot(Mensaje),
    Text("</value></div></div><div class=\"footer\">"
      + "<p>Este email fue enviado desde el formulario de contacto de KARMMA</p>"
      + "<p>Para responder, contactá directamente a: "),
    Slot(Email),
    Text("</p></div></div></body></html>")
  ]

  /** `mailOptionsToKarmma`: from the configured account to the business,
      carrying all four submitted fields. */
  function NoticeMail(sender: string, f: Form): (m: Mail)
    ensures m.from == sender && m.to == BusinessAddress
    ensures Contains(m.subject, f.nombre) && Contains(m.subject, f.servicio)
    ensures Contains(m.html, f.nombre) && Contains(m.html, f.email)
    ensures Contains(m.html, f.servicio) && Contains(m.html, f.mensaje)
  {
    RenderShowsPiece(NoticeSubject, f, 1);
    RenderShowsPiece(NoticeSubject, f, 3);
    RenderShowsPiece(NoticeBody, f, 1);
    RenderShowsPiece(NoticeBody, f, 3);
    RenderShowsPiece(NoticeBody, f, 5);
    RenderShowsPiece(NoticeBody, f, 7);
    Mail(sender, BusinessAddress, Render(NoticeSubject, f), Render(NoticeBody, f))
  }

  // ---------------------------------------------------------------------
  // The acknowledgment to the submitter (server.js, lines 115-161).

  const AcknowledgmentSubject: string := "🎵 Gracias por contactar a KARMMA"
  const WhatsAppLink: string := "https://wa.me/5493534297565"
  const InstagramLink: string := "https://www.instagram.com/karmma.prod/"

  const AcknowledgmentBody: Template := [
    Text("<!DOCTYPE html><html><head><style>…</style></head><body><div class=\"container\">"
      + "<div class=\"header\"><h1>¡Gracias por contactarnos!</h1></div><div class=\"content\">"
      + "<p>Hola <strong>"),
    Slot(Nombre),
    Text("</strong>,</p><p>Recibimos tu mensaje sobre <strong>"),
    Slot(Servicio),
    Text("</strong> y nos pondremos en contacto con vos en las próximas 24 horas.</p>"
      + "<p>Mientras tanto, podés:</p><ul><li>📱 Escribirnos por WhatsApp: <a href=\""),
    Text(WhatsAppLink),
    Text("\">+54 9 353 429-7565</a></li><li>📸 Seguirnos en Instagram: <a href=\""),
    Text(InstagramLink),
    Text("\">@karmma.prod</a></li><li>🎵 Ver nuestro portfolio en YouTube</li></ul>"
      + "<p style=\"margin-top: 30px;\"><strong>Tu consulta:</strong></p><p style=\"…\">"),
    Slot(Mensaje),
    Text("</p><center><a href=\""),
    Text(InstagramLink),
    Text("\" class=\"cta\">Seguinos en Instagram</a></center></div><div class=\"footer\">"
      + "<p><strong>KARMMA - Producciones de Verdad</strong></p>"
      + "<p>Villa María, Córdoba, Argentina</p></div></div></body></html>")
  ]

  /** `mailOptionsToClient`: from the configured account back to the
      submitted address, echoing name, service and message next to the
      fixed contact links. */
  function AcknowledgmentMail(sender: string, f: Form): (m: Mail)
    ensures m.from == sender && m.to == f.email
    ensures m.subject == AcknowledgmentSubject
    ensures Contains(m.html, f.nombre) && Contains(m.html, f.servicio) && Contains(m.html, f.mensaje)
    ensures Contains(m.html, WhatsAppLink) && Contains(m.html, InstagramLink)
  {
    RenderShowsPiece(AcknowledgmentBody, f, 1);
    RenderShowsPiece(AcknowledgmentBody, f, 3);
    RenderShowsPiece(AcknowledgmentBody, f, 5);
    RenderShowsPiece(AcknowledgmentBody, f, 7);
    RenderShowsPiece(AcknowledgmentBody, f, 9);
    Mail(sender, f.email, AcknowledgmentSubject, Render(AcknowledgmentBody, f))
  }
}

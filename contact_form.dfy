/*
 * The contact form's state and its event handlers: a field edit, a submit
 * that validates and then hands a mailto: URI to the browser, and the
 * completion step that a one-second timer runs after a valid submit.
 */
module ContactPage {
  import opened Wrappers
  import opened ContactRules

  /** The `name` attribute of the edited input. */
  datatype FieldName = NameField | EmailField | MessageField

  /** The message shown under the form. */
  datatype Status = Status(success: bool, msg: string)

  class ContactForm {
    var name: string
    var email: string
    var message: string
    var status: Option<Status>
    /** A mail client is being opened; the inputs are disabled meanwhile. */
    var sending: bool
    /** The completion timer of a valid submit has not fired yet. */
    var completionPending: bool

    constructor ()
      ensures name == "" && email == "" && message == ""
      ensures status == None && !sending && !completionPending
    {
      name, email, message := "", "", "";
      status := None;
      sending, completionPending := false, false;
    }

    /** An input changed: only the field it names takes the new value. */
    method HandleChange(field: FieldName, value: string)
      modifies this`name, this`email, this`message
      ensures name == (if field == NameField then value else old(name))
      ensures email == (if field == EmailField then value else old(email))
      ensures message == (if field == MessageField then value else old(message))
    {
      match field
      case NameField => name := value;
      case EmailField => email := value;
      case MessageField => message := value;
    }

    /**
     * The form was submitted. The status is cleared; a blank field, then a
     * malformed address, is reported and nothing else happens; otherwise the
     * browser is sent to the mailto: URI and the completion timer is started.
     */
    method HandleSubmit(enc: string -> string) returns (navigation: Option<string>)
      modifies this`status, this`sending, this`completionPending
      ensures var verdict := CheckFields(name, email, message);
        (verdict.Some? ==>
           status == Some(Status(false, verdict.value)) && navigation == None &&
           sending == old(sending) && completionPending == old(completionPending)) &&
        (verdict.None? ==>
           status == None && sending && completionPending &&
           navigation == Some(MailtoUrl(enc, name, email, message)))
    {
      var n, e, m := name, email, message;
      ghost var verdict := CheckFields(n, e, m);
      if Trim(n) == [] || Trim(e) == [] || Trim(m) == [] {
        assert verdict == Some(MSG_REQUIRED);
        status := Some(Status(false, MSG_REQUIRED));
        assert name == n && email == e && message == m;
        return None;
      }
      if !IsValidEmail(e) {
        assert verdict == Some(MSG_INVALID_EMAIL);
        status := Some(Status(false, MSG_INVALID_EMAIL));
        assert name == n && email == e && message == m;
        return None;
      }
      assert verdict == None;
      var subject := enc(Subject(n));
      var body := enc(Body(n, e, m));
      // The status cleared at the start of the submit stays cleared on this path.
      status, sending, completionPending := None, true, true;
      navigation := Some(MAILTO_HEAD + subject + BODY_KEY + body);
      assert name == n && email == e && message == m;
    }

    /** The completion timer fired: the form is emptied and success is reported. */
    method Complete()
      modifies this
      ensures !sending && !completionPending
      ensures name == "" && email == "" && message == ""
      ensures status == Some(Status(true, MSG_OPENED))
    {
      sending := false;
      name, email, message := "", "", "";
      status := Some(Status(true, MSG_OPENED));
      completionPending := false;
    }
  }

  /**
   * Scenario: a submit with a blank name leaves the form as it was and shows
   * the required-fields message even though the address is malformed.
   */
  method BlankNameScenario(enc: string -> string) returns (navigation: Option<string>)
    ensures navigation == None
  {
    var form := new ContactForm();
    form.HandleChange(EmailField, "not-an-address");
    form.HandleChange(MessageField, "Hello");
    navigation := form.HandleSubmit(enc);
    BlankFieldReportedFirst("", "not-an-address", "Hello");
    assert form.status == Some(Status(false, MSG_REQUIRED));
    assert form.name == "" && form.email == "not-an-address" && !form.sending;
  }
}

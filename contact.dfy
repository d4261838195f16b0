/** The contact-form handler of server/routes/contact.js: a presence check on
    the three fields, two messages composed from them, and two sends in a
    row over a mail transport. The transport stands for the SMTP connection:
    it keeps a log of what it delivered and decides per message whether the
    send goes through. The account address comes from the environment and
    is a parameter here. */
module Contact {
  import opened Common

  /** The request body; a field may be missing. */
  datatype Form = Form(name: Option<string>, email: Option<string>, message: Option<string>)

  /** JavaScript truthiness of a submitted field: present and non-empty. */
  predicate Given(field: Option<string>) {
    field.Some? && field.value != []
  }

  /** Line 12: all three fields are given. */
  predicate Filled(f: Form) {
    Given(f.name) && Given(f.email) && Given(f.message)
  }

  /** A message as handed to the transport. The HTML body is not modelled. */
  datatype Mail = Mail(from: string, to: string, subject: string)

  const OwnerSubjectPrefix: string := "NEW Portfolio Contact Message from "
  const ThankYouSubject: string := "Thank You for Contacting Vishnu BP!"

  const MissingFields: string := "Please fill in all fields."
  const SentMessage: string := "Message sent successfully! Check your email for confirmation."
  const SendFailed: string := "Failed to send message. Please ensure your EMAIL_PASS is a valid Google App Password."

  /** Lines 30-33: from the account to the account, the subject naming the
      sender. */
  function OwnerMail(account: string, name: string): (m: Mail)
    ensures m.from == account && m.to == account
    ensures |m.subject| == |OwnerSubjectPrefix| + |name|
    ensures m.subject[..|OwnerSubjectPrefix|] == OwnerSubjectPrefix
    ensures m.subject[|OwnerSubjectPrefix|..] == name
  {
    Mail(account, account, OwnerSubjectPrefix + name)
  }

  /** Lines 44-47: from the account to the submitted address, with the fixed
      thank-you subject. */
  function SenderMail(account: string, email: string): (m: Mail)
    ensures m.from == account && m.to == email && m.subject == ThankYouSubject
  {
    Mail(account, email, ThankYouSubject)
  }

  /** The response: an HTTP status and its message. */
  datatype Reply = Reply(status: nat, message: string)

  /** What reaches the transport's log for a form: nothing for an incomplete
      form; otherwise the owner's message if it goes through, and then the
      confirmation if that goes through too. */
  function Deliveries(f: Form, account: string, accepts: Mail -> bool): seq<Mail> {
    if !Filled(f) then []
    else
      var owner := OwnerMail(account, f.name.value);
      var sender := SenderMail(account, f.email.value);
      if !accepts(owner) then []
      else if !accepts(sender) then [owner]
      else [owner, sender]
  }

  /** The answer for a form: 400 for an incomplete one, 200 when both sends
      go through, 500 otherwise. */
  function Answer(f: Form, account: string, accepts: Mail -> bool): Reply {
    if !Filled(f) then Reply(400, MissingFields)
    else if accepts(OwnerMail(account, f.name.value)) && accepts(SenderMail(account, f.email.value)) then
      Reply(200, SentMessage)
    else Reply(500, SendFailed)
  }

  /** The mail transport. `accepts` says which messages it can deliver. */
  class Transport {
    var sent: seq<Mail>
    const accepts: Mail -> bool

    constructor (accepts: Mail -> bool)
      ensures sent == [] && this.accepts == accepts
    {
      sent := [];
      this.accepts := accepts;
    }

    /** `transporter.sendMail`: the message is logged exactly when it goes
        through, and the caller learns which happened. */
    method SendMail(m: Mail) returns (ok: bool)
      modifies this
      ensures ok == accepts(m)
      ensures sent == old(sent) + (if ok then [m] else [])
    {
      ok := accepts(m);
      if ok {
        sent := sent + [m];
      }
    }
  }

  /** POST / (lines 9-69): the presence check, then the owner's message,
      then the confirmation; the first failed send skips the rest. */
  method Submit(f: Form, account: string, transport: Transport) returns (r: Reply)
    modifies transport
    ensures r == Answer(f, account, transport.accepts)
    ensures transport.sent == old(transport.sent) + Deliveries(f, account, transport.accepts)
  {
    if !(Given(f.name) && Given(f.email) && Given(f.message)) {
      return Reply(400, MissingFields);
    }
    var toOwner := OwnerMail(account, f.name.value);
    var toSender := SenderMail(account, f.email.value);
    var ok := transport.SendMail(toOwner);
    if !ok {
      return Reply(500, SendFailed);
    }
    ok := transport.SendMail(toSender);
    if !ok {
      return Reply(500, SendFailed);
    }
    r := Reply(200, SentMessage);
  }

  /** An incomplete form is answered 400 and sends nothing. */
  lemma IncompleteSendsNothing(f: Form, account: string, accepts: Mail -> bool)
    requires !Filled(f)
    ensures Answer(f, account, accepts) == Reply(400, MissingFields)
    ensures Deliveries(f, account, accepts) == []
  {
  }

  /** The 200 answer is given exactly when both messages were delivered. */
  lemma SuccessIffBothDelivered(f: Form, account: string, accepts: Mail -> bool)
    ensures Answer(f, account, accepts).status == 200 <==> |Deliveries(f, account, accepts)| == 2
    ensures Answer(f, account, accepts).status == 200 ==>
      Deliveries(f, account, accepts) == [OwnerMail(account, f.name.value), SenderMail(account, f.email.value)]
  {
  }

  /** The owner's message is always the first delivered, and the
      confirmation never goes out without it. */
  lemma OwnerFirst(f: Form, account: string, accepts: Mail -> bool)
    requires Deliveries(f, account, accepts) != []
    ensures Filled(f)
    ensures Deliveries(f, account, accepts)[0] == OwnerMail(account, f.name.value)
    ensures |Deliveries(f, account, accepts)| <= 2
  {
  }

  /** A failure reported to the visitor can follow a delivered owner
      message: the report is all-or-nothing, the sending is not. */
  lemma FailureAfterPartialDelivery(f: Form, account: string, accepts: Mail -> bool)
    requires Filled(f)
    requires accepts(OwnerMail(account, f.name.value))
    requires !accepts(SenderMail(account, f.email.value))
    ensures Answer(f, account, accepts) == Reply(500, SendFailed)
    ensures Deliveries(f, account, accepts) == [OwnerMail(account, f.name.value)]
  {
  }
}

/**
 * `EmailNotifier`: credential and recipient defaulting in the constructor,
 * and the tests `send_email` applies before it talks to an SMTP server. What
 * the server then does is a parameter of the call.
 */
module Notifier {
  import opened Wrappers
  import opened Text
  import opened Credentials

  /** The `email` section of the configuration. */
  datatype EmailSettings = EmailSettings(smtpServer: Option<string>, smtpPort: Option<int>, recipient: Option<string>)

  /**
   * What the `smtp_server` parameter holds: a host name, or (as one caller
   * passes it) the whole `email` settings dictionary.
   */
  datatype ServerArg = Host(name: string) | SettingsDict(settings: EmailSettings)

  /** The MIME message handed to the server. */
  datatype Message = Message(sender: string, recipient: string, subject: string, body: string)

  /** How the SMTP exchange ends. */
  datatype SmtpOutcome = Delivered | AuthenticationFailed | OtherFailure

  /** `_clean_credential(value) if value else fallback`: `None` and "" both take the fallback. */
  function CleanedOr(value: Option<string>, fallback: string): (r: string)
    ensures value == None || value == Some("") ==> r == fallback
    ensures value.Some? && value.value != "" ==> r == CleanCredential(value.value)
  {
    if value.Some? && value.value != "" then CleanCredential(value.value) else fallback
  }

  class EmailNotifier {
    const smtpServer: ServerArg
    const smtpPort: int
    const sender: string
    const password: string
    const recipient: string

    /** `EmailNotifier(smtp_server, smtp_port, sender, password, recipient)`. */
    constructor(smtpServer: ServerArg := Host("smtp.gmail.com"), smtpPort: int := 587,
                sender: Option<string> := None, password: Option<string> := None,
                recipient: Option<string> := None)
      ensures this.smtpServer == smtpServer && this.smtpPort == smtpPort
      ensures this.sender == CleanedOr(sender, "")
      ensures this.password == CleanedOr(password, "")
      ensures this.recipient == CleanedOr(recipient, this.sender)
    {
      this.smtpServer := smtpServer;
      this.smtpPort := smtpPort;
      var cleanSender := CleanedOr(sender, "");
      this.sender := cleanSender;
      this.password := CleanedOr(password, "");
      this.recipient := CleanedOr(recipient, cleanSender);
    }

    /**
     * `send_email(subject, body, sender, password, recipient)`: `attempt` is
     * the message handed to the server, `None` when the call returns before
     * contacting it; `smtp` is how the server exchange ends.
     */
    method SendEmail(subject: string, body: string, smtp: SmtpOutcome,
                     sender: Option<string> := None, password: Option<string> := None,
                     recipient: Option<string> := None)
      returns (sent: bool, attempt: Option<Message>)
      ensures var s, p := CleanedOr(sender, this.sender), CleanedOr(password, this.password);
        && (attempt == None <==> s == "" || p == "")
        && (attempt.Some? ==> attempt.value.sender == s && attempt.value.subject == subject && attempt.value.body == body)
      ensures attempt.Some? ==>
        var r := CleanedOr(recipient, this.recipient);
        attempt.value.recipient == if r == "" then attempt.value.sender else r
      ensures sent <==> attempt.Some? && smtp == Delivered
    {
      var emailSender := CleanedOr(sender, this.sender);
      var emailPassword := CleanedOr(password, this.password);
      var emailRecipient := CleanedOr(recipient, this.recipient);
      if emailRecipient == "" {
        emailRecipient := emailSender;
      }
      if emailSender == "" || emailPassword == "" {
        return false, None;
      }
      var msg := Message(emailSender, emailRecipient, subject, body);
      attempt := Some(msg);
      match smtp {
        case Delivered => sent := true;
        case AuthenticationFailed => sent := false;
        case OtherFailure => sent := false;
      }
    }
  }

  /** A sender or password of only whitespace counts as missing: nothing is sent. */
  lemma BlankCredentialIsMissing(value: string, fallback: string)
    requires value != []
    requires forall i :: 0 <= i < |value| ==> IsSpace(value[i])
    ensures CleanedOr(Some(value), fallback) == ""
  {
    BlankCleansToEmpty(value);
  }
}

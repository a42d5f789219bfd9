/** The lead-capture helpers of the plain-script site (js/main.js): the
    contact form's e-mail, the WhatsApp message and link, and the newsletter
    sign-up. */
module LeadMessages {
  import opened Wrappers
  import opened Sequences
  import opened Mailto

  // ---------------------------------------------------------------------
  // Form values

  /** `formData.get(field)`: `null` when the form has no such field,
      otherwise the field's text, possibly empty. */
  datatype FormValue = Missing | Text(text: string)

  /** JavaScript truthiness of a form value: only a non-empty text is true. */
  predicate Truthy(v: FormValue) {
    v.Text? && v.text != ""
  }

  /** `v || fallback`. */
  function OrElse(v: FormValue, fallback: string): string {
    if Truthy(v) then v.text else fallback
  }

  /** `${v}` inside a template string: `null` is rendered as the word "null". */
  function Interpolate(v: FormValue): string {
    match v
    case Missing => "null"
    case Text(s) => s
  }

  // ---------------------------------------------------------------------
  // Contact form

  const ContactSubjectPrefix: string := "Contact Form Submission from "
  const CompanyFallback: string := "Not provided"

  /** What the "Company:" line of the body shows. */
  function CompanyShown(company: FormValue): (shown: string)
    ensures shown == CompanyFallback <==> !Truthy(company) || company.text == CompanyFallback
    ensures Truthy(company) ==> shown == company.text
  {
    OrElse(company, CompanyFallback)
  }

  /** The e-mail the contact form opens in the mail client. The name, e-mail
      and message are interpolated as they are (so a missing field reads
      "null"); the company falls back to "Not provided". The body is the
      name line, the e-mail line, the company line and the message, in that
      order. */
  function ContactDraft(name: FormValue, email: FormValue, company: FormValue, message: FormValue): (d: MailDraft)
    ensures d.to == Recipient
    ensures StartsWith(d.subject, ContactSubjectPrefix) && d.subject[|ContactSubjectPrefix|..] == Interpolate(name)
    ensures StartsWith(d.body, "Name: " + Interpolate(name) + "\nEmail: ")
    ensures StartsWith(d.body[|"Name: " + Interpolate(name) + "\nEmail: "|..], Interpolate(email) + "\nCompany: " + CompanyShown(company) + "\n")
    ensures var tail := "\n\nMessage:\n" + Interpolate(message);
      |tail| <= |d.body| && d.body[|d.body| - |tail|..] == tail
    ensures |d.body| == |"Name: " + Interpolate(name) + "\nEmail: " + Interpolate(email) + "\nCompany: " + CompanyShown(company)| + |"\n\nMessage:\n" + Interpolate(message)|
    ensures Includes(d.body, "\nCompany: " + CompanyShown(company) + "\n\nMessage:\n")
  {
    var nameLine := "Name: " + Interpolate(name) + "\nEmail: ";
    var head := nameLine + Interpolate(email);
    var companyPart := "\nCompany: " + CompanyShown(company) + "\n\nMessage:\n";
    var body := head + companyPart + Interpolate(message);
    ContactBodyParts(nameLine, Interpolate(email), CompanyShown(company), Interpolate(message));
    IncludesMiddle(head, companyPart, Interpolate(message));
    MailDraft(Recipient, ContactSubjectPrefix + Interpolate(name), body)
  }

  /** Where the parts of the contact body sit. */
  lemma ContactBodyParts(nameLine: string, email: string, shown: string, message: string)
    ensures var body := nameLine + email + ("\nCompany: " + shown + "\n\nMessage:\n") + message;
      var tail := "\n\nMessage:\n" + message;
      && StartsWith(body, nameLine)
      && StartsWith(body[|nameLine|..], email + "\nCompany: " + shown + "\n")
      && |tail| <= |body| && body[|body| - |tail|..] == tail
  {
    var companyLine := "\nCompany: " + shown + "\n";
    var body := nameLine + email + ("\nCompany: " + shown + "\n\nMessage:\n") + message;
    assert body == nameLine + (email + companyLine) + ("\nMessage:\n" + message);
    assert body[..|nameLine|] == nameLine;
    assert body[|nameLine|..] == (email + companyLine) + ("\nMessage:\n" + message);
    assert body[|nameLine|..][..|email + companyLine|] == email + companyLine;
    var tail := "\n\nMessage:\n" + message;
    assert body == (nameLine + email + "\nCompany: " + shown) + tail;
  }

  /** Reading the sender back from the subject gives the name as the form
      rendered it. */
  lemma ContactSubjectRoundTrip(name: FormValue, email: FormValue, company: FormValue, message: FormValue)
    ensures StripPrefix(ContactDraft(name, email, company, message).subject, ContactSubjectPrefix) == Some(Interpolate(name))
  {
    StripPrefixOfConcat(ContactSubjectPrefix, Interpolate(name));
  }

  /** A company left empty shows as "Not provided"; a filled-in one shows as
      typed. */
  lemma ContactCompanyLine(name: FormValue, email: FormValue, company: FormValue, message: FormValue)
    ensures !Truthy(company) ==> Includes(ContactDraft(name, email, company, message).body, "\nCompany: " + CompanyFallback + "\n")
    ensures Truthy(company) ==> Includes(ContactDraft(name, email, company, message).body, "\nCompany: " + company.text + "\n")
  {
    var body := ContactDraft(name, email, company, message).body;
    var line := "\nCompany: " + CompanyShown(company) + "\n";
    assert "\nCompany: " + CompanyShown(company) + "\n\nMessage:\n" == line + "\nMessage:\n";
    IncludesPrefixPart(body, line, "\nMessage:\n");
  }

  // ---------------------------------------------------------------------
  // WhatsApp

  const NameFallback: string := "Potential Customer"
  const MessageFallback: string := "I am interested in your fruit export services."
  const Greeting: string := "Hello! I'm "
  const PhoneNumber: string := "15559876543"
  const WhatsAppBase: string := "https://wa.me/"

  /** The " from <company>" clause: present only for a non-empty company. */
  function FromClause(company: string): string {
    if company != "" then " from " + company else ""
  }

  /** The WhatsApp greeting before encoding: the name (or "Potential
      Customer"), the " from <company>" clause when a company was given, a
      full stop, then the message (or the stock interest sentence). */
  function WhatsAppText(name: FormValue, company: FormValue, message: FormValue): (t: string)
    ensures StartsWith(t, Greeting + OrElse(name, NameFallback))
    ensures var n := OrElse(name, NameFallback);
      var m := OrElse(message, MessageFallback);
      |Greeting + n| <= |t| - |m| &&
      t[|Greeting + n|..|t| - |m|] == (if Truthy(company) then " from " + company.text else "") + ". "
    ensures var m := OrElse(message, MessageFallback);
      |m| <= |t| && t[|t| - |m|..] == m
  {
    var n := OrElse(name, NameFallback);
    var c := OrElse(company, "");
    var m := OrElse(message, MessageFallback);
    WhatsAppParts(Greeting + n, FromClause(c) + ". ", m);
    Greeting + n + (FromClause(c) + ". ") + m
  }

  /** Where the three parts of a concatenation sit. */
  lemma WhatsAppParts(head: string, middle: string, tail: string)
    ensures var t := head + middle + tail;
      && StartsWith(t, head)
      && |head| <= |t| - |tail| && t[|head|..|t| - |tail|] == middle
      && t[|t| - |tail|..] == tail
  {
    var t := head + middle + tail;
    assert t[..|head|] == head;
    assert t[|head|..|t| - |tail|] == middle;
    assert t[|t| - |tail|..] == tail;
  }

  /** An empty field and a missing one are treated alike, field by field. */
  lemma WhatsAppEmptyIsMissing(name: FormValue, company: FormValue, message: FormValue)
    ensures WhatsAppText(Missing, company, message) == WhatsAppText(Text(""), company, message)
    ensures WhatsAppText(name, Missing, message) == WhatsAppText(name, Text(""), message)
    ensures WhatsAppText(name, company, Missing) == WhatsAppText(name, company, Text(""))
  {
  }

  /** With neither name nor message, the stock name and sentence are used. */
  lemma WhatsAppDefaults(company: FormValue)
    ensures var t := WhatsAppText(Missing, company, Missing);
      StartsWith(t, "Hello! I'm Potential Customer") && Includes(t, MessageFallback)
  {
    var t := WhatsAppText(Missing, company, Missing);
    DefaultGreeting();
    assert OccursAt(t, MessageFallback, |t| - |MessageFallback|);
    IncludesIff(t, MessageFallback);
  }

  /** The greeting with the stock name, spelled out. */
  lemma DefaultGreeting()
    ensures Greeting + NameFallback == "Hello! I'm Potential Customer"
  {
  }

  /** The company clause appears right after the name exactly when the
      company field is non-empty. */
  lemma WhatsAppFromClauseIff(name: FormValue, company: FormValue, message: FormValue)
    ensures var t := WhatsAppText(name, company, message);
      var at := |Greeting + OrElse(name, NameFallback)|;
      StartsWith(t[at..], " from ") <==> Truthy(company)
  {
    ClauseAfter(Greeting + OrElse(name, NameFallback), OrElse(company, ""), OrElse(message, MessageFallback));
  }

  /** What follows the greeting and name starts with " from " exactly when
      the company text is non-empty; otherwise it starts with ". ". */
  lemma ClauseAfter(head: string, company: string, message: string)
    ensures var t := head + FromClause(company) + ". " + message;
      StartsWith(t[|head|..], " from ") <==> company != ""
  {
    var t := head + FromClause(company) + ". " + message;
    assert t[|head|..] == FromClause(company) + ". " + message;
    if company != "" {
      assert t[|head|..][..|" from "|] == " from ";
    } else {
      assert t[|head|..][0] == '.';
    }
  }

  /** The link opened in a new tab; `encode` stands for
      `encodeURIComponent`. */
  function WhatsAppLink(text: string, encode: string -> string): (url: string)
    ensures StartsWith(url, "https://wa.me/15559876543?text=")
    ensures url[|"https://wa.me/15559876543?text="|..] == encode(text)
  {
    var head := WhatsAppBase + PhoneNumber + "?text=";
    assert head == "https://wa.me/15559876543?text=";
    assert (head + encode(text))[..|head|] == head;
    head + encode(text)
  }

  // ---------------------------------------------------------------------
  // Newsletter

  const NewsletterThanks: string := "Thank you for subscribing to our newsletter!"

  /** The notification a newsletter submission shows: only when an e-mail
      was typed. */
  function NewsletterNotice(email: string): (notice: Option<string>)
    ensures notice.Some? <==> email != ""
    ensures notice.Some? ==> notice.value == NewsletterThanks
  {
    if email != "" then Some(NewsletterThanks) else None
  }

  /** One newsletter form: the text in its e-mail input and the
      notifications shown so far. */
  class NewsletterForm {
    var email: string
    var notices: seq<string>

    constructor ()
      ensures email == "" && notices == []
    {
      email := "";
      notices := [];
    }

    /** Typing into the e-mail input. */
    method Type(text: string)
      modifies this
      ensures email == text && notices == old(notices)
    {
      email := text;
    }

    /** Submitting: with an e-mail typed, thank the visitor and reset the
        form; with an empty input, nothing happens. */
    method Submit()
      modifies this
      ensures old(email) != "" ==> email == "" && notices == old(notices) + [NewsletterThanks]
      ensures old(email) == "" ==> email == old(email) && notices == old(notices)
    {
      var notice := NewsletterNotice(email);
      if notice.Some? {
        notices := notices + [notice.value];
        email := "";
      }
    }
  }
}

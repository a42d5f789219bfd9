/** Building a `mailto:` link, shared by the quote request of the product
    catalog and the contact form. */
module Mailto {
  import opened Wrappers
  import opened Sequences

  const Recipient: string := "info@freshglobal.com"

  /** An e-mail before it is turned into a link. */
  datatype MailDraft = MailDraft(to: string, subject: string, body: string)

  /** The head of the link, up to the encoded subject. */
  function LinkHead(to: string): string {
    "mailto:" + to + "?subject="
  }

  /** `mailto:<to>?subject=<encoded subject>&body=<encoded body>`; `encode`
      stands for `encodeURIComponent`. */
  function MailtoLink(d: MailDraft, encode: string -> string): (link: string)
    ensures StartsWith(link, LinkHead(d.to))
    ensures link[|LinkHead(d.to)|..] == encode(d.subject) + "&body=" + encode(d.body)
    ensures Includes(link, "&body=" + encode(d.body))
  {
    var head := LinkHead(d.to);
    assert (head + encode(d.subject) + "&body=" + encode(d.body))[..|head|] == head;
    assert (head + encode(d.subject) + "&body=" + encode(d.body))[|head|..] == encode(d.subject) + "&body=" + encode(d.body);
    IncludesMiddle(head + encode(d.subject), "&body=" + encode(d.body), "");
    assert head + encode(d.subject) + ("&body=" + encode(d.body)) + "" == head + encode(d.subject) + "&body=" + encode(d.body);
    head + encode(d.subject) + "&body=" + encode(d.body)
  }

  /** Reads the encoded subject and body back out of a link to `to`: the
      subject runs up to the first '&', which must open "&body=". */
  function ReadMailto(link: string, to: string): (r: Option<(string, string)>)
    ensures r.Some? ==> '&' !in r.value.0 && link == LinkHead(to) + r.value.0 + "&body=" + r.value.1
  {
    var rest := StripPrefix(link, LinkHead(to));
    if rest.None? || '&' !in rest.value then None
    else
      var i := FirstIndex(rest.value, '&');
      var body := StripPrefix(rest.value[i..], "&body=");
      if body.None? then None
      else
        SplitAt(LinkHead(to), rest.value, i, "&body=", body.value);
        Some((rest.value[..i], body.value))
  }

  /** Splitting the text after `head` at position `i`, where `sep + tail`
      begins. */
  lemma SplitAt(head: string, rest: string, i: nat, sep: string, tail: string)
    requires i <= |rest| && rest[i..] == sep + tail
    ensures head + rest == head + rest[..i] + sep + tail
  {
    assert rest == rest[..i] + rest[i..];
  }

  /** When the encoded subject holds no '&' (as `encodeURIComponent`
      guarantees), the encoded subject and body can be read back from the
      link. */
  lemma MailtoRoundTrip(d: MailDraft, encode: string -> string)
    requires '&' !in encode(d.subject)
    ensures ReadMailto(MailtoLink(d, encode), d.to) == Some((encode(d.subject), encode(d.body)))
  {
    var link := MailtoLink(d, encode);
    var rest := encode(d.subject) + "&body=" + encode(d.body);
    StripPrefixOfConcat(LinkHead(d.to), rest);
    assert link == LinkHead(d.to) + rest;
    var i := |encode(d.subject)|;
    assert rest[i] == '&' && rest[..i] == encode(d.subject);
    assert FirstIndex(rest, '&') == i;
    assert rest[i..] == "&body=" + encode(d.body);
    StripPrefixOfConcat("&body=", encode(d.body));
  }
}

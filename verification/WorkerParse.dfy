/** The Worker's local parse for the preview and Telegram:
    worker/src/mail/parse.ts. postal-mime and html-to-text are parameters. */
module WorkerParse {
  import opened Common
  import opened Strings
  import opened Streams

  /** Absent optional fields are None. */
  datatype EmailCache = EmailCache(id: string, messageId: string, from: string, to: string, subject: string,
                                   text: Option<string>, html: Option<string>)

  datatype Policy = Unhandled | Truncate | Continue

  type Headers = seq<(string, Option<string>)>

  datatype ParseInput = ParseInput(headers: Option<Headers>, from: string, to: string, rawSize: nat, raw: seq<Bytes>)

  /** A library call: its value or the message of what it throws. */
  datatype Thrown<T> = Returned(value: T) | Threw(message: string)

  datatype Postal = Postal(html: Option<string>, text: Option<string>)

  datatype Parsers = Parsers(postalMime: Bytes -> Thrown<Postal>, convert: string -> Thrown<string>)

  /** getHeaderValue: names are matched without regard to case. */
  function HeaderValue(headers: Headers, name: string): Option<string> {
    if headers == [] then None
    else if Lower(headers[0].0) == Lower(name) then headers[0].1
    else HeaderValue(headers[1..], name)
  }

  /** The first header of the name decides; without one there is no value. */
  lemma {:induction false} FirstHeaderWins(headers: Headers, name: string, i: nat)
    requires i <= |headers| && forall j :: 0 <= j < i ==> Lower(headers[j].0) != Lower(name)
    ensures i == |headers| ==> HeaderValue(headers, name) == None
    ensures i < |headers| && Lower(headers[i].0) == Lower(name) ==> HeaderValue(headers, name) == headers[i].1
    decreases i
  {
    if i > 0 {
      FirstHeaderWins(headers[1..], name, i - 1);
    }
  }

  predicate Truthy(s: Option<string>) {
    s.Some? && s.value != ""
  }

  function Or(s: Option<string>, other: string): string {
    if Truthy(s) then s.value else other
  }

  function Digits(n: nat): string {
    if n < 10 then ["0123456789"[n]] else Digits(n / 10) + ["0123456789"[n % 10]]
  }

  /** Reads a decimal numeral. */
  function Numeral(digits: string): nat {
    if digits == "" then 0
    else
      var d := digits[|digits| - 1];
      10 * Numeral(digits[..|digits| - 1]) + if '0' <= d <= '9' then (d - '0') as nat else 0
  }

  lemma {:induction false} NumeralOfDigits(n: nat)
    ensures Numeral(Digits(n)) == n
    ensures forall i :: 0 <= i < |Digits(n)| ==> '0' <= Digits(n)[i] <= '9'
  {
    var digits := Digits(n);
    var d := digits[|digits| - 1];
    assert d == "0123456789"[n % 10] && (d - '0') as nat == n % 10;
    if n >= 10 {
      NumeralOfDigits(n / 10);
      assert digits[..|digits| - 1] == Digits(n / 10);
    } else {
      assert digits[..0] == "";
    }
  }

  const EMPTY_TEXT := "Email body is empty or could not be parsed."
  const EMPTY_HTML := "<p>Email body is empty or could not be parsed.</p>"

  function Overage(size: nat, maxSize: nat): string {
    "The original size of the email was " + Digits(size) + " bytes, which exceeds the maximum size of "
    + Digits(maxSize) + " bytes."
  }

  /** The note of a truncated parse. */
  function Note(size: nat, maxSize: nat): string {
    "\n\n[Truncated] " + Overage(size, maxSize)
  }

  function ErrorText(message: string): string {
    "Error parsing email: " + message
  }

  function MessageIdHeader(message: ParseInput): Option<string> {
    HeaderValue(message.headers.UnwrapOr([]), "Message-ID")
  }

  /** A missing or blank Message-ID gives way to the random id. */
  function MessageId(header: Option<string>, id: string): string {
    Or(if header.Some? then Some(Trim(JsSpace, header.value)) else None, id)
  }

  /** What the envelope and the headers alone determine. */
  function Envelope(message: ParseInput, id: string): EmailCache {
    EmailCache(id, MessageId(MessageIdHeader(message), id), message.from, message.to,
               HeaderValue(message.headers.UnwrapOr([]), "Subject").UnwrapOr(""), None, None)
  }

  /** The bodies made from the bytes that reach the parser, or the error. */
  function Bodies(lib: Parsers, data: Bytes): Thrown<(string, string)> {
    match lib.postalMime(data)
    case Threw(e) => Threw(e)
    case Returned(email) =>
      var text :=
        if Truthy(email.text) || !Truthy(email.html) then Returned(Or(email.text, EMPTY_TEXT))
        else match lib.convert(email.html.value)
          case Threw(e) => Threw(e)
          case Returned(t) => Returned(Or(Some(t), EMPTY_TEXT));
      if text.Threw? then Threw(text.message) else Returned((text.value, Or(email.html, EMPTY_HTML)))
  }

  /** The bytes that may be parsed: all, the first maxSize, or none. */
  function Admitted(message: ParseInput, maxSize: nat, policy: Policy): Option<Bytes> {
    if message.rawSize <= maxSize || policy.Continue? then Some(Concat(message.raw))
    else if policy.Truncate? then Some(Prefix(Concat(message.raw), maxSize))
    else None
  }

  /** parseEmail. However the stream is cut into chunks, the bodies are those of
      the admitted prefix of the message; both are always non-empty; and the
      note is appended exactly to the text of a truncated parse that succeeded. */
  method ParseEmail(lib: Parsers, message: ParseInput, maxSize: nat, maxSizePolicy: Policy, id: string)
    returns (cache: EmailCache)
    ensures Truthy(cache.text) && Truthy(cache.html)
    ensures cache.(text := None, html := None) == Envelope(message, id)
    ensures cache.id == id && cache.from == message.from && cache.to == message.to
    ensures var headers := message.headers.UnwrapOr([]);
      var messageId := HeaderValue(headers, "Message-ID");
      && cache.subject == HeaderValue(headers, "Subject").UnwrapOr("")
      && cache.messageId == if messageId.None? || Trim(JsSpace, messageId.value) == "" then id
                            else Trim(JsSpace, messageId.value)
    ensures var overSize, data := message.rawSize > maxSize, Admitted(message, maxSize, maxSizePolicy);
      && (data.None? ==> cache.text == cache.html == Some(Overage(message.rawSize, maxSize)))
      && (data.Some? ==> match Bodies(lib, data.value)
                         case Threw(e) => cache.text == cache.html == Some(ErrorText(e))
                         case Returned((text, html)) =>
                           && cache.html == Some(html)
                           && cache.text == Some(if overSize && maxSizePolicy.Truncate?
                                                 then text + Note(message.rawSize, maxSize)
                                                 else text))
  {
    cache := Envelope(message, id);
    var emailRaw, isTruncate := ApplyPolicy(message, maxSize, maxSizePolicy);
    if emailRaw.None? {
      var msg := Overage(message.rawSize, maxSize);
      cache := cache.(text := Some(msg), html := Some(msg));
      return;
    }
    var failure := None;
    cache, failure := FillBodies(lib, cache, emailRaw.value);
    if failure.Some? {
      var msg := ErrorText(failure.value);
      cache := cache.(text := Some(msg), html := Some(msg));
    } else if isTruncate {
      cache := cache.(text := Some(cache.text.value + Note(message.rawSize, maxSize)));
    }
  }

  /** The switch over the policy: the stream to parse, if any. */
  method ApplyPolicy(message: ParseInput, maxSize: nat, maxSizePolicy: Policy)
    returns (emailRaw: Option<seq<Bytes>>, isTruncate: bool)
    ensures var data := Admitted(message, maxSize, maxSizePolicy);
      (emailRaw.Some? <==> data.Some?) && (emailRaw.Some? ==> Concat(emailRaw.value) == data.value)
    ensures isTruncate <==> message.rawSize > maxSize && maxSizePolicy.Truncate?
  {
    isTruncate := false;
    var overSize := message.rawSize > maxSize;
    match if overSize then maxSizePolicy else Continue {
      case Unhandled =>
        emailRaw := None;
      case Truncate =>
        isTruncate := true;
        var limited := TruncateStream(message.raw, maxSize);
        emailRaw := Some(limited);
      case Continue =>
        emailRaw := Some(message.raw);
    }
  }

  /** The try block up to the default texts; the message of what it throws. */
  method FillBodies(lib: Parsers, envelope: EmailCache, emailRaw: seq<Bytes>)
    returns (cache: EmailCache, failure: Option<string>)
    ensures cache.(text := None, html := None) == envelope.(text := None, html := None)
    ensures match Bodies(lib, Concat(emailRaw))
            case Threw(e) => failure == Some(e)
            case Returned((text, html)) =>
              failure.None? && text != "" && html != "" && cache.text == Some(text) && cache.html == Some(html)
    ensures match lib.postalMime(Concat(emailRaw))
            case Threw(e) => failure == Some(e)
            case Returned(email) =>
              && (Truthy(email.text) ==> failure.None? && cache.text == email.text)
              && (!Truthy(email.text) && Truthy(email.html) ==>
                    match lib.convert(email.html.value)
                    case Threw(e) => failure == Some(e)
                    case Returned(t) => failure.None? && cache.text == Some(if t != "" then t else EMPTY_TEXT))
              && (!Truthy(email.text) && !Truthy(email.html) ==> failure.None? && cache.text == Some(EMPTY_TEXT))
              && (failure.None? ==> cache.html == if Truthy(email.html) then email.html else Some(EMPTY_HTML))
  {
    cache, failure := envelope, None;
    var email := lib.postalMime(Concat(emailRaw));
    if email.Threw? {
      return cache, Some(email.message);
    }
    cache := cache.(html := email.value.html, text := email.value.text);
    if Truthy(cache.html) && !Truthy(cache.text) {
      var converted := lib.convert(cache.html.value);
      if converted.Threw? {
        return cache, Some(converted.message);
      }
      cache := cache.(text := Some(converted.value));
    }
    if !Truthy(cache.text) {
      cache := cache.(text := Some(EMPTY_TEXT));
    }
    if !Truthy(cache.html) {
      cache := cache.(html := Some(EMPTY_HTML));
    }
  }

  /** The parse input is all of the posted bytes, their first maxSize, or nothing,
      as size and policy say, and equal for every way of cutting them into
      chunks. */
  lemma AdmittedIsPrefix(message: ParseInput, chunks: seq<Bytes>, maxSize: nat, policy: Policy)
    requires Concat(chunks) == Concat(message.raw)
    ensures var data, posted := Admitted(message, maxSize, policy), Concat(message.raw);
      && data == Admitted(message.(raw := chunks), maxSize, policy)
      && (data.None? <==> message.rawSize > maxSize && policy == Unhandled)
      && (message.rawSize <= maxSize || policy == Continue ==> data == Some(posted))
      && (message.rawSize > maxSize && policy == Truncate ==>
            data == Some(if |posted| <= maxSize then posted else posted[..maxSize]))
  {
  }
}

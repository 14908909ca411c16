/** Parsing of a raw message: internal/ingest/parser.go and the fallback of
    internal/ingest/handler.go. The MIME readers of the Go library deliver a
    part tree; header fields arrive as the library parses them. */
module Mail {
  import opened Common
  import opened Strings
  import Utf8

  datatype Kind = To | Cc | Bcc
  datatype Recipient = Recipient(email: Bytes, kind: Kind)

  datatype Attachment =
    Attachment(content: Bytes, mimeType: string, filename: Bytes, size: nat, contentHash: Hash)

  /** Size and hash are those of the content. */
  type ParsedAttachment = a: Attachment | a.size == |a.content| && a.contentHash == Sha256(a.content)
    witness Attachment([], "", [], 0, Sha256([]))

  datatype ParsedMessage = ParsedMessage(
    contentHash: Hash, sender: Bytes, subject: Bytes, recipients: seq<Recipient>,
    textBody: Bytes, htmlBody: Bytes, attachments: seq<ParsedAttachment>)

  /** Content-Type (whether it parsed, media type and the parameters used) and
      Content-Disposition of an entity. */
  datatype Header = Header(ctypeOk: bool, mediaType: string, boundary: string, name: Bytes, charset: string,
                           dispositionFilename: Bytes, disposition: string)

  /** A body read to its end through its transfer decoding; what was read
      before an error is still known. */
  datatype Body = Body(content: Bytes, broken: bool)

  /** An entity with both readings of its body: as a leaf and as a multipart. */
  datatype Entity = Entity(header: Header, body: Body, parts: seq<Entity>, partsBroken: bool)

  datatype RawMessage = RawMessage(entity: Entity, from: Bytes, fromAddress: Option<Bytes>, subject: Bytes,
                                   recipients: seq<Recipient>)

  datatype Transcoding = NoSuchCharset | ReadFailed | Decoded(text: Bytes)
  datatype ParseError = Unreadable | MissingBoundary | BadPart | BadLeaf

  /** The library code the parser calls, as total functions. */
  datatype Library = Library(
    readMessage: Bytes -> Option<RawMessage>,
    charsetReader: (string, Bytes) -> Transcoding,
    decodeHeader: Bytes -> Option<Bytes>,
    canonicalEmail: Bytes -> Bytes,
    htmlToText: Bytes -> Bytes,
    errorText: ParseError -> Bytes)

  function HashBytes(data: Bytes): Hash {
    Sha256(data)
  }

  // ---------------------------------------------------------------------
  // Charset repair
  // ---------------------------------------------------------------------

  predicate Utf8Label(charset: string) {
    charset == "utf-8" || charset == "utf8" || charset == "us-ascii" || charset == "ascii"
  }

  function CharsetLabel(charset: string): string {
    var l := Lower(Trim(GoSpace, charset));
    if l == "" then "utf-8" else l
  }

  /** decodeText. */
  function DecodeText(lib: Library, content: Bytes, charsetLabel: string): Bytes {
    var charset := CharsetLabel(charsetLabel);
    if Utf8Label(charset) && Utf8.Valid(content) then content
    else
      var first := lib.charsetReader(if Utf8Label(charset) then "windows-1252" else charset, content);
      var decoded := if first.NoSuchCharset? then lib.charsetReader("windows-1252", content) else first;
      if decoded.Decoded? then Utf8.ToValid(decoded.text) else Utf8.ToValid(content)
  }

  function DecodeHeaderText(lib: Library, value: Bytes): Bytes {
    if value == [] then []
    else
      var decoded := lib.decodeHeader(value);
      DecodeText(lib, if decoded.Some? then decoded.value else value, "")
  }

  /** Always well-formed, whatever the bytes, the label and the charset tables. */
  lemma DecodedIsValid(lib: Library, content: Bytes, charset: string)
    ensures Utf8.Valid(DecodeText(lib, content, charset))
    ensures Utf8.Valid(DecodeHeaderText(lib, content))
  {
    TextIsValid(lib, content, charset);
    var decoded := lib.decodeHeader(content);
    TextIsValid(lib, if decoded.Some? then decoded.value else content, "");
  }

  lemma TextIsValid(lib: Library, content: Bytes, charset: string)
    ensures Utf8.Valid(DecodeText(lib, content, charset))
  {
    var l := CharsetLabel(charset);
    var first := lib.charsetReader(if Utf8Label(l) then "windows-1252" else l, content);
    var decoded := if first.NoSuchCharset? then lib.charsetReader("windows-1252", content) else first;
    Utf8.ToValidIsValid(content, false);
    if decoded.Decoded? {
      Utf8.ToValidIsValid(decoded.text, false);
    }
  }

  /** Under a UTF-8, ASCII or missing label, exactly the valid contents are
      returned byte for byte, for every charset table. */
  lemma DecodeIdentityIff(lib: Library, content: Bytes, charset: string)
    requires Utf8Label(CharsetLabel(charset))
    ensures DecodeText(lib, content, charset) == content <==> Utf8.Valid(content)
  {
    TextIsValid(lib, content, charset);
  }

  /** The declared charset decides: what its reader returns is the result, and
      windows-1252 takes the place of an unknown charset and of a UTF-8 or ASCII
      label on content that is not valid. Only text that is not valid is
      repaired; content that cannot be read is repaired as it stands. */
  lemma DecodedAsDeclared(lib: Library, content: Bytes, charset: string)
    ensures var declared := Lower(Trim(GoSpace, charset));
      var utf8 := declared in {"", "utf-8", "utf8", "us-ascii", "ascii"};
      var used := if utf8 || lib.charsetReader(declared, content).NoSuchCharset? then "windows-1252" else declared;
      var reply, text := lib.charsetReader(used, content), DecodeText(lib, content, charset);
      && (utf8 && Utf8.Valid(content) ==> text == content)
      && (!(utf8 && Utf8.Valid(content)) ==>
            && (reply.Decoded? ==> text == Utf8.ToValid(reply.text) && (text == reply.text <==> Utf8.Valid(reply.text)))
            && (!reply.Decoded? ==> text == Utf8.ToValid(content) && (text == content <==> Utf8.Valid(content))))
  {
    var declared := Lower(Trim(GoSpace, charset));
    var utf8 := declared in {"", "utf-8", "utf8", "us-ascii", "ascii"};
    var used := if utf8 || lib.charsetReader(declared, content).NoSuchCharset? then "windows-1252" else declared;
    var reply := lib.charsetReader(used, content);
    Utf8.ToValidIdentityIff(content);
    if reply.Decoded? {
      Utf8.ToValidIdentityIff(reply.text);
    }
  }

  /** A header is the text of its encoded words or, if they cannot be read, the
      header itself; only text that is not valid is changed. */
  lemma HeaderAsDecoded(lib: Library, value: Bytes)
    ensures value == [] ==> DecodeHeaderText(lib, value) == []
    ensures value != [] && lib.decodeHeader(value).Some? ==>
              (DecodeHeaderText(lib, value) == lib.decodeHeader(value).value
               <==> Utf8.Valid(lib.decodeHeader(value).value))
    ensures value != [] && lib.decodeHeader(value).None? ==>
              (DecodeHeaderText(lib, value) == value <==> Utf8.Valid(value))
  {
    DecodedIsValid(lib, value, "");
    if lib.decodeHeader(value).Some? {
      DecodeIdentityIff(lib, lib.decodeHeader(value).value, "");
    } else {
      DecodeIdentityIff(lib, value, "");
    }
  }

  // ---------------------------------------------------------------------
  // The part tree and its leaves
  // ---------------------------------------------------------------------

  function MediaType(h: Header): string {
    Lower(if !h.ctypeOk || h.mediaType == "" then "text/plain" else h.mediaType)
  }

  predicate IsMultipart(e: Entity) {
    HasPrefix(MediaType(e.header), "multipart/")
  }

  /** A leaf of the tree, or the point where reading it fails. */
  datatype Leaf = Leaf(header: Header, content: Bytes) | Broken(error: ParseError)

  /** The reference: the tree read from left to right. */
  function Leaves(e: Entity): seq<Leaf>
    decreases e, 1
  {
    if IsMultipart(e) then
      if e.header.boundary == "" then [Broken(MissingBoundary)]
      else LeavesOfAll(e.parts) + if e.partsBroken then [Broken(BadPart)] else []
    else if e.body.broken then [Broken(BadLeaf)]
    else [Leaf(e.header, e.body.content)]
  }

  function LeavesOfAll(parts: seq<Entity>): seq<Leaf>
    decreases parts, 0
  {
    if parts == [] then [] else Leaves(parts[0]) + LeavesOfAll(parts[1..])
  }

  /** The leaves before the first failure. */
  function BeforeFailure(ls: seq<Leaf>): seq<Leaf> {
    if ls == [] || ls[0].Broken? then [] else [ls[0]] + BeforeFailure(ls[1..])
  }

  function Failure(ls: seq<Leaf>): Option<ParseError> {
    if ls == [] then None
    else if ls[0].Broken? then Some(ls[0].error)
    else Failure(ls[1..])
  }

  function Filename(lib: Library, h: Header): Bytes {
    DecodeHeaderText(lib, if h.dispositionFilename == [] then h.name else h.dispositionFilename)
  }

  predicate IsAttachment(lib: Library, h: Header) {
    Filename(lib, h) != [] || HasPrefix(Lower(h.disposition), "attachment")
  }

  function AsAttachment(lib: Library, l: Leaf): ParsedAttachment
    requires l.Leaf?
  {
    Attachment(l.content, MediaType(l.header), Filename(lib, l.header), |l.content|, HashBytes(l.content))
  }

  function AttachmentPart(lib: Library, l: Leaf): seq<ParsedAttachment> {
    if l.Leaf? && IsAttachment(lib, l.header) then [AsAttachment(lib, l)] else []
  }

  function BodyPart(lib: Library, l: Leaf, media: string): Bytes {
    if l.Leaf? && !IsAttachment(lib, l.header) && MediaType(l.header) == media
    then DecodeText(lib, l.content, l.header.charset)
    else []
  }

  /** What the leaves contribute, in order. */
  function Collect<T>(part: Leaf -> seq<T>, ls: seq<Leaf>): seq<T> {
    if ls == [] then [] else part(ls[0]) + Collect(part, ls[1..])
  }

  function Attachments(lib: Library): Leaf -> seq<ParsedAttachment> {
    l => AttachmentPart(lib, l)
  }

  function BodyParts(lib: Library, media: string): Leaf -> Bytes {
    l => BodyPart(lib, l, media)
  }

  /** The attachments among the leaves, in order. */
  function AttachmentsOf(lib: Library, ls: seq<Leaf>): seq<ParsedAttachment> {
    Collect(Attachments(lib), ls)
  }

  /** The decoded inline leaves of one media type, concatenated in order. */
  function BodyOf(lib: Library, ls: seq<Leaf>, media: string): Bytes {
    Collect(BodyParts(lib, media), ls)
  }

  const PLAIN := "text/plain"
  const HTML := "text/html"

  // ---------------------------------------------------------------------
  // The traversal
  // ---------------------------------------------------------------------

  /** The record that the traversal fills in. */
  class Parsed {
    var textBody: Bytes
    var htmlBody: Bytes
    var attachments: seq<ParsedAttachment>

    constructor ()
      ensures textBody == [] && htmlBody == [] && attachments == []
    {
      textBody, htmlBody, attachments := [], [], [];
    }

    function Value(): Content
      reads this
    {
      Content(textBody, htmlBody, attachments)
    }

    method Attach(a: ParsedAttachment)
      modifies this
      ensures Value() == old(Value()).(attachments := old(attachments) + [a])
    {
      attachments := attachments + [a];
    }

    method AddText(text: Bytes)
      modifies this
      ensures Value() == old(Value()).(text := old(textBody) + text)
    {
      textBody := textBody + text;
    }

    method AddHtml(html: Bytes)
      modifies this
      ensures Value() == old(Value()).(html := old(htmlBody) + html)
    {
      htmlBody := htmlBody + html;
    }
  }

  datatype Content = Content(text: Bytes, html: Bytes, attachments: seq<ParsedAttachment>)

  /** What is collected after the contributions of `ls` are added. */
  function Plus(lib: Library, c: Content, ls: seq<Leaf>): Content {
    Content(c.text + BodyOf(lib, ls, PLAIN), c.html + BodyOf(lib, ls, HTML), c.attachments + AttachmentsOf(lib, ls))
  }

  /** parseEntity: on success and on failure, `parsed` gains exactly what the
      leaves before the first failure contribute. */
  method ParseEntity(lib: Library, e: Entity, parsed: Parsed) returns (err: Option<ParseError>)
    modifies parsed
    ensures err == Failure(Leaves(e))
    ensures parsed.Value() == Plus(lib, old(parsed.Value()), BeforeFailure(Leaves(e)))
    decreases e, 1
  {
    var mediaType := MediaType(e.header);
    if HasPrefix(mediaType, "multipart/") {
      if e.header.boundary == "" {
        return Some(MissingBoundary);
      }
      for i := 0 to |e.parts|
        invariant Failure(LeavesOfAll(e.parts[..i])).None?
        invariant parsed.Value() == Plus(lib, old(parsed.Value()), LeavesOfAll(e.parts[..i]))
      {
        ghost var seen, next := LeavesOfAll(e.parts[..i]), Leaves(e.parts[i]);
        err := ParsePart(lib, e.parts[i], parsed);
        LeavesSnoc(e.parts, i);
        FailureConcat(seen, next);
        PlusConcat(lib, old(parsed.Value()), seen, BeforeFailure(next));
        if err.Some? {
          StopsAt(e, i);
          return;
        }
        AllBefore(next);
      }
      assert e.parts[..|e.parts|] == e.parts;
      EndOfParts(e);
      if e.partsBroken {
        return Some(BadPart);
      }
      return None;
    }
    LeafIsAdded(lib, parsed.Value(), e);
    err := ConsumeLeaf(lib, e.header, e.body, mediaType, parsed);
  }

  /** The leaves after a failed part do not matter. */
  lemma StopsAt(e: Entity, i: nat)
    requires IsMultipart(e) && e.header.boundary != "" && i < |e.parts|
    requires Failure(LeavesOfAll(e.parts[..i])).None? && Failure(Leaves(e.parts[i])).Some?
    ensures Failure(Leaves(e)) == Failure(Leaves(e.parts[i]))
    ensures BeforeFailure(Leaves(e)) == LeavesOfAll(e.parts[..i]) + BeforeFailure(Leaves(e.parts[i]))
  {
    var seen, next := LeavesOfAll(e.parts[..i]), Leaves(e.parts[i]);
    var later := LeavesOfAll(e.parts[i + 1..]);
    var end := if e.partsBroken then [Broken(BadPart)] else [];
    assert Leaves(e) == (seen + next) + (later + end) by {
      LeavesSplit(e.parts, i + 1);
      LeavesSnoc(e.parts, i);
    }
    FailureConcat(seen, next);
    FailureConcat(seen + next, later + end);
  }

  lemma EndOfParts(e: Entity)
    requires IsMultipart(e) && e.header.boundary != "" && Failure(LeavesOfAll(e.parts)).None?
    ensures Failure(Leaves(e)) == if e.partsBroken then Some(BadPart) else None
    ensures BeforeFailure(Leaves(e)) == LeavesOfAll(e.parts)
  {
    var end := if e.partsBroken then [Broken(BadPart)] else [];
    FailureConcat(LeavesOfAll(e.parts), end);
    assert LeavesOfAll(e.parts) + [] == LeavesOfAll(e.parts);
  }

  method ParsePart(lib: Library, e: Entity, parsed: Parsed) returns (err: Option<ParseError>)
    modifies parsed
    ensures err == Failure(Leaves(e))
    ensures parsed.Value() == Plus(lib, old(parsed.Value()), BeforeFailure(Leaves(e)))
    decreases e, 2
  {
    var mediaType := MediaType(e.header);
    if HasPrefix(mediaType, "multipart/") {
      err := ParseEntity(lib, e, parsed);
    } else {
      LeafIsAdded(lib, parsed.Value(), e);
      err := ConsumeLeaf(lib, e.header, e.body, mediaType, parsed);
    }
  }

  /** The file name of a leaf, and whether it is an attachment. */
  method Disposition(lib: Library, header: Header) returns (filename: Bytes, isAttachment: bool)
    ensures filename == Filename(lib, header) && isAttachment == IsAttachment(lib, header)
  {
    filename := header.dispositionFilename;
    if filename == [] {
      filename := header.name;
    }
    filename := DecodeHeaderText(lib, filename);
    var disposition := Lower(header.disposition);
    isAttachment := filename != [] || HasPrefix(disposition, "attachment");
  }

  method ConsumeLeaf(lib: Library, header: Header, body: Body, mediaType: string, parsed: Parsed)
    returns (err: Option<ParseError>)
    requires mediaType == MediaType(header)
    modifies parsed
    ensures err == if body.broken then Some(BadLeaf) else None
    ensures parsed.Value() == if body.broken then old(parsed.Value())
                              else LeafAdded(lib, old(parsed.Value()), Leaf(header, body.content))
  {
    if body.broken {
      return Some(BadLeaf);
    }
    var content := body.content;
    var filename, isAttachment := Disposition(lib, header);
    if isAttachment {
      parsed.Attach(Attachment(content, mediaType, filename, |content|, HashBytes(content)));
    } else {
      ConsumeInline(lib, header, content, mediaType, parsed);
    }
    err := None;
  }

  /** A text leaf extends its body; any other leaves no trace. */
  method ConsumeInline(lib: Library, header: Header, content: Bytes, mediaType: string, parsed: Parsed)
    requires mediaType == MediaType(header) && !IsAttachment(lib, header)
    modifies parsed
    ensures parsed.Value() == LeafAdded(lib, old(parsed.Value()), Leaf(header, content))
  {
    if mediaType == PLAIN {
      parsed.AddText(DecodeText(lib, content, header.charset));
    } else if mediaType == HTML {
      parsed.AddHtml(DecodeText(lib, content, header.charset));
    }
  }

  /** consumeLeaf: a leaf goes to the attachments or to one of the bodies, or
      nowhere. */
  function LeafAdded(lib: Library, c: Content, l: Leaf): Content
    requires l.Leaf?
  {
    var media := MediaType(l.header);
    if IsAttachment(lib, l.header) then c.(attachments := c.attachments + [AsAttachment(lib, l)])
    else if media == PLAIN then c.(text := c.text + DecodeText(lib, l.content, l.header.charset))
    else if media == HTML then c.(html := c.html + DecodeText(lib, l.content, l.header.charset))
    else c
  }

  lemma LeafIsAdded(lib: Library, c: Content, e: Entity)
    requires !IsMultipart(e)
    ensures Failure(Leaves(e)) == if e.body.broken then Some(BadLeaf) else None
    ensures Plus(lib, c, BeforeFailure(Leaves(e)))
         == if e.body.broken then c else LeafAdded(lib, c, Leaf(e.header, e.body.content))
  {
    assert c.text + [] == c.text && c.html + [] == c.html && c.attachments + [] == c.attachments;
    if !e.body.broken {
      var l := Leaf(e.header, e.body.content);
      assert BeforeFailure(Leaves(e)) == [l];
      OneLeaf(lib, c, l);
    }
  }

  lemma CollectOne<T>(part: Leaf -> seq<T>, l: Leaf)
    ensures Collect(part, [l]) == part(l)
  {
    assert [l][1..] == [];
  }

  lemma OneLeaf(lib: Library, c: Content, l: Leaf)
    ensures Plus(lib, c, [l])
         == Content(c.text + BodyPart(lib, l, PLAIN), c.html + BodyPart(lib, l, HTML),
                    c.attachments + AttachmentPart(lib, l))
  {
    CollectOne(BodyParts(lib, PLAIN), l);
    CollectOne(BodyParts(lib, HTML), l);
    CollectOne(Attachments(lib), l);
  }

  lemma {:induction false} LeavesSplit(parts: seq<Entity>, k: nat)
    requires k <= |parts|
    ensures LeavesOfAll(parts) == LeavesOfAll(parts[..k]) + LeavesOfAll(parts[k..])
    decreases k
  {
    if k > 0 {
      LeavesSplit(parts[1..], k - 1);
      assert parts[..k][1..] == parts[1..][..k - 1];
      assert parts[1..][k - 1..] == parts[k..];
    }
  }

  lemma LeavesSnoc(parts: seq<Entity>, k: nat)
    requires k < |parts|
    ensures LeavesOfAll(parts[..k + 1]) == LeavesOfAll(parts[..k]) + Leaves(parts[k])
  {
    LeavesSplit(parts[..k + 1], k);
    assert parts[..k + 1][..k] == parts[..k];
    assert parts[..k + 1][k..] == [parts[k]];
    assert LeavesOfAll([parts[k]]) == Leaves(parts[k]) + LeavesOfAll([parts[k]][1..]);
  }

  lemma {:induction false} FailureConcat(a: seq<Leaf>, b: seq<Leaf>)
    ensures Failure(a).None? ==> Failure(a + b) == Failure(b) && BeforeFailure(a + b) == a + BeforeFailure(b)
    ensures Failure(a).Some? ==> Failure(a + b) == Failure(a) && BeforeFailure(a + b) == BeforeFailure(a)
    decreases |a|
  {
    if a == [] {
      assert a + b == b;
    } else {
      var rest := a[1..];
      FailureConcat(rest, b);
      assert a + b == [a[0]] + (rest + b);
      if !a[0].Broken? && Failure(rest).None? {
        assert [a[0]] + (rest + BeforeFailure(b)) == a + BeforeFailure(b);
      }
    }
  }

  lemma {:induction false} AllBefore(a: seq<Leaf>)
    requires Failure(a).None?
    ensures BeforeFailure(a) == a
  {
    if a != [] {
      AllBefore(a[1..]);
    }
  }

  lemma {:induction false} CollectConcat<T>(part: Leaf -> seq<T>, a: seq<Leaf>, b: seq<Leaf>)
    ensures Collect(part, a + b) == Collect(part, a) + Collect(part, b)
    decreases |a|
  {
    if a == [] {
      assert a + b == b;
    } else {
      assert (a + b)[1..] == a[1..] + b;
      CollectConcat(part, a[1..], b);
    }
  }

  lemma CollectAround<T>(part: Leaf -> seq<T>, ls: seq<Leaf>, j: nat)
    requires j < |ls|
    ensures Collect(part, ls) == Collect(part, ls[..j]) + part(ls[j]) + Collect(part, ls[j + 1..])
  {
    CollectConcat(part, ls[..j], ls[j..]);
    assert ls == ls[..j] + ls[j..];
    assert ls[j..][1..] == ls[j + 1..];
    Associative(Collect(part, ls[..j]), part(ls[j]), Collect(part, ls[j + 1..]));
  }

  lemma PlusConcat(lib: Library, c: Content, a: seq<Leaf>, b: seq<Leaf>)
    ensures Plus(lib, Plus(lib, c, a), b) == Plus(lib, c, a + b)
  {
    CollectConcat(BodyParts(lib, PLAIN), a, b);
    CollectConcat(BodyParts(lib, HTML), a, b);
    CollectConcat(Attachments(lib), a, b);
    Associative(c.text, BodyOf(lib, a, PLAIN), BodyOf(lib, b, PLAIN));
    Associative(c.html, BodyOf(lib, a, HTML), BodyOf(lib, b, HTML));
    Associative(c.attachments, AttachmentsOf(lib, a), AttachmentsOf(lib, b));
  }

  lemma PlusNothing(lib: Library, ls: seq<Leaf>)
    ensures Plus(lib, Content([], [], []), ls)
         == Content(BodyOf(lib, ls, PLAIN), BodyOf(lib, ls, HTML), AttachmentsOf(lib, ls))
  {
    Associative([], BodyOf(lib, ls, PLAIN), BodyOf(lib, ls, HTML));
    Associative([], AttachmentsOf(lib, ls), []);
  }

  lemma Associative<T>(a: seq<T>, b: seq<T>, c: seq<T>)
    ensures (a + b) + c == a + (b + c)
  {
  }

  lemma {:induction false} BodyIsValid(lib: Library, ls: seq<Leaf>, media: string)
    ensures Utf8.Valid(BodyOf(lib, ls, media))
  {
    if ls != [] {
      BodyIsValid(lib, ls[1..], media);
      if ls[0].Leaf? {
        TextIsValid(lib, ls[0].content, ls[0].header.charset);
      }
      Utf8.ValidConcat(BodyPart(lib, ls[0], media), BodyOf(lib, ls[1..], media));
    }
  }

  /** A body is what its inline leaves decode to, one after the other; other
      leaves leave no trace in it. */
  lemma BodyAroundLeaf(lib: Library, ls: seq<Leaf>, j: nat, media: string)
    requires j < |ls| && ls[j].Leaf?
    ensures !IsAttachment(lib, ls[j].header) && MediaType(ls[j].header) == media ==>
      BodyOf(lib, ls, media)
      == BodyOf(lib, ls[..j], media) + DecodeText(lib, ls[j].content, ls[j].header.charset)
         + BodyOf(lib, ls[j + 1..], media)
    ensures IsAttachment(lib, ls[j].header) || MediaType(ls[j].header) != media ==>
      BodyOf(lib, ls, media) == BodyOf(lib, ls[..j], media) + BodyOf(lib, ls[j + 1..], media)
  {
    CollectAround(BodyParts(lib, media), ls, j);
    assert BodyParts(lib, media)(ls[j]) == BodyPart(lib, ls[j], media);
    assert BodyOf(lib, ls[..j], media) + [] == BodyOf(lib, ls[..j], media);
  }

  /** A multipart that can be read to its end is read part by part from left to
      right; anything else is one leaf. */
  lemma LeavesInOrder(e: Entity, k: nat)
    ensures !IsMultipart(e) && !e.body.broken ==> Leaves(e) == [Leaf(e.header, e.body.content)]
    ensures IsMultipart(e) && e.header.boundary != "" && !e.partsBroken && k < |e.parts| ==>
      Leaves(e) == LeavesOfAll(e.parts[..k]) + Leaves(e.parts[k]) + LeavesOfAll(e.parts[k + 1..])
  {
    if k < |e.parts| {
      LeavesSplit(e.parts, k + 1);
      LeavesSnoc(e.parts, k);
    }
  }

  /** Every multipart has its boundary and can be read to its end, and so can
      every leaf. */
  predicate Readable(e: Entity) {
    if IsMultipart(e)
    then e.header.boundary != "" && !e.partsBroken && forall i :: 0 <= i < |e.parts| ==> Readable(e.parts[i])
    else !e.body.broken
  }

  /** A parse fails exactly when something in the tree cannot be read. */
  lemma {:induction false} FailsIff(e: Entity)
    ensures Failure(Leaves(e)).None? <==> Readable(e)
    decreases e, 1
  {
    if IsMultipart(e) && e.header.boundary != "" {
      FailsIffAll(e.parts);
      FailureConcat(LeavesOfAll(e.parts), if e.partsBroken then [Broken(BadPart)] else []);
    }
  }

  lemma {:induction false} FailsIffAll(parts: seq<Entity>)
    ensures Failure(LeavesOfAll(parts)).None? <==> forall i :: 0 <= i < |parts| ==> Readable(parts[i])
    decreases parts, 0
  {
    if parts != [] {
      FailsIff(parts[0]);
      FailsIffAll(parts[1..]);
      FailureConcat(Leaves(parts[0]), LeavesOfAll(parts[1..]));
      assert forall i :: 0 < i < |parts| ==> parts[i] == parts[1..][i - 1];
    }
  }

  /** A multipart of readable parts that are no multiparts has its parts as its
      leaves, in the order they stand in the message. */
  lemma FlatLeaves(e: Entity)
    requires IsMultipart(e) && e.header.boundary != "" && !e.partsBroken
    requires forall i :: 0 <= i < |e.parts| ==> !IsMultipart(e.parts[i]) && !e.parts[i].body.broken
    ensures |Leaves(e)| == |e.parts|
    ensures forall i :: 0 <= i < |e.parts| ==> Leaves(e)[i] == Leaf(e.parts[i].header, e.parts[i].body.content)
  {
    FlatParts(e.parts);
  }

  lemma {:induction false} FlatParts(parts: seq<Entity>)
    requires forall i :: 0 <= i < |parts| ==> !IsMultipart(parts[i]) && !parts[i].body.broken
    ensures |LeavesOfAll(parts)| == |parts|
    ensures forall i :: 0 <= i < |parts| ==> LeavesOfAll(parts)[i] == Leaf(parts[i].header, parts[i].body.content)
  {
    if parts != [] {
      FlatParts(parts[1..]);
    }
  }

  /** How many leaves are attachments. */
  function AttachmentLeaves(lib: Library, ls: seq<Leaf>): nat {
    if ls == [] then 0
    else (if ls[0].Leaf? && IsAttachment(lib, ls[0].header) then 1 else 0) + AttachmentLeaves(lib, ls[1..])
  }

  lemma {:induction false} AttachmentCount(lib: Library, ls: seq<Leaf>)
    ensures |AttachmentsOf(lib, ls)| == AttachmentLeaves(lib, ls)
  {
    if ls != [] {
      AttachmentCount(lib, ls[1..]);
    }
  }

  /** There are as many attachments as attachment leaves, and an attachment leaf
      with k such leaves before it is attachment k: the list neither drops, adds
      nor reorders any. */
  lemma AttachmentIsLeaf(lib: Library, ls: seq<Leaf>, j: nat)
    requires j < |ls| && ls[j].Leaf? && IsAttachment(lib, ls[j].header)
    ensures |AttachmentsOf(lib, ls)| == AttachmentLeaves(lib, ls)
    ensures var k := AttachmentLeaves(lib, ls[..j]);
      && k < |AttachmentsOf(lib, ls)|
      && var a := AttachmentsOf(lib, ls)[k];
         && a.content == ls[j].content && a.mimeType == MediaType(ls[j].header)
         && a.filename == Filename(lib, ls[j].header)
         && a.size == |ls[j].content| && a.contentHash.preimage == ls[j].content
  {
    AttachmentCount(lib, ls);
    AttachmentCount(lib, ls[..j]);
    CollectConcat(Attachments(lib), ls[..j], ls[j..]);
    assert ls == ls[..j] + ls[j..];
    assert AttachmentsOf(lib, ls[j..]) == [AsAttachment(lib, ls[j])] + AttachmentsOf(lib, ls[j..][1..]);
  }

  // ---------------------------------------------------------------------
  // Whole messages
  // ---------------------------------------------------------------------

  function Sender(lib: Library, msg: RawMessage): Bytes {
    if msg.from == [] then []
    else if msg.fromAddress.Some? then lib.canonicalEmail(msg.fromAddress.value)
    else DecodeText(lib, msg.from, "")
  }

  /** What ParseMIME returns for a message it can read completely. */
  function Complete(lib: Library, raw: Bytes, msg: RawMessage): ParsedMessage {
    var ls := Leaves(msg.entity);
    var text, html := BodyOf(lib, ls, PLAIN), BodyOf(lib, ls, HTML);
    ParsedMessage(HashBytes(raw), Sender(lib, msg), DecodeHeaderText(lib, msg.subject), msg.recipients,
                  if text == [] && html != [] then lib.htmlToText(html) else text, html, AttachmentsOf(lib, ls))
  }

  function ParseFailure(lib: Library, raw: Bytes): Option<ParseError> {
    var msg := lib.readMessage(raw);
    if msg.None? then Some(Unreadable) else Failure(Leaves(msg.value.entity))
  }

  /** Every field of a complete parse, from the message's own fields. */
  ghost predicate HasFields(lib: Library, msg: RawMessage, p: ParsedMessage) {
    var ls := Leaves(msg.entity);
    && (msg.from == [] ==> p.sender == [])
    && (msg.from != [] && msg.fromAddress.Some? ==> p.sender == lib.canonicalEmail(msg.fromAddress.value))
    && (msg.from != [] && msg.fromAddress.None? ==> p.sender == DecodeText(lib, msg.from, ""))
    && p.subject == DecodeHeaderText(lib, msg.subject)
    && p.recipients == msg.recipients
    && p.htmlBody == BodyOf(lib, ls, "text/html")
    && (BodyOf(lib, ls, "text/plain") != [] || p.htmlBody == [] ==> p.textBody == BodyOf(lib, ls, "text/plain"))
    && (BodyOf(lib, ls, "text/plain") == [] && p.htmlBody != [] ==> p.textBody == lib.htmlToText(p.htmlBody))
    && p.attachments == AttachmentsOf(lib, ls)
  }

  lemma CompleteHasFields(lib: Library, raw: Bytes, msg: RawMessage)
    ensures HasFields(lib, msg, Complete(lib, raw, msg))
  {
  }

  /** ParseMIME. */
  method ParseMime(lib: Library, raw: Bytes) returns (parsed: ParsedMessage, err: Option<ParseError>)
    ensures err == ParseFailure(lib, raw)
    ensures err.None? ==> parsed == Complete(lib, raw, lib.readMessage(raw).value)
    ensures err.None? ==> HasFields(lib, lib.readMessage(raw).value, parsed)
    ensures parsed.contentHash.preimage == raw
  {
    var msg := lib.readMessage(raw);
    if msg.None? {
      return ParsedMessage(HashBytes(raw), [], [], [], [], [], []), Some(Unreadable);
    }
    var sender := Sender(lib, msg.value);
    var subject := DecodeHeaderText(lib, msg.value.subject);
    var record := new Parsed();
    err := ParseEntity(lib, msg.value.entity, record);
    if err.None? {
      AllBefore(Leaves(msg.value.entity));
      PlusNothing(lib, Leaves(msg.value.entity));
      CompleteHasFields(lib, raw, msg.value);
    }
    if err.None? && record.textBody == [] && record.htmlBody != [] {
      record.textBody := lib.htmlToText(record.htmlBody);
    }
    parsed := ParsedMessage(HashBytes(raw), sender, subject, msg.value.recipients,
                            record.textBody, record.htmlBody, record.attachments);
  }

  /** The HTML the fallback shows: the first non-empty text/html part of the
      top level, in whatever state it could be read. */
  function FirstHtml(lib: Library, parts: seq<Entity>): Bytes {
    if parts == [] then []
    else if Lower(parts[0].header.mediaType) == HTML && parts[0].body.content != []
    then DecodeText(lib, parts[0].body.content, parts[0].header.charset)
    else FirstHtml(lib, parts[1..])
  }

  function FallbackHtml(lib: Library, e: Entity): Bytes {
    var h := e.header;
    if h.ctypeOk && HasPrefix(Lower(h.mediaType), "multipart/") then
      if h.boundary != "" then FirstHtml(lib, e.parts) else []
    else if HasPrefix(Lower(h.mediaType), HTML) && e.body.content != []
    then DecodeText(lib, e.body.content, h.charset)
    else []
  }

  function Fallback(lib: Library, raw: Bytes, err: ParseError): ParsedMessage {
    var minimal := ParsedMessage(HashBytes(raw), [], [], [], lib.errorText(err), [], []);
    var msg := lib.readMessage(raw);
    if msg.None? then minimal
    else minimal.(
      sender := if msg.value.from != [] && msg.value.fromAddress.Some?
                then lib.canonicalEmail(msg.value.fromAddress.value) else [],
      subject := DecodeHeaderText(lib, msg.value.subject),
      htmlBody := FallbackHtml(lib, msg.value.entity))
  }

  /** Every field of the fallback: no attachments, the error as the text, the
      sender only if the From header parsed, and of the HTML the first part of the
      top level that says text/html and has content, or the body of a message
      that says so itself. */
  ghost predicate HasFallbackFields(lib: Library, raw: Bytes, err: ParseError, p: ParsedMessage) {
    && p.contentHash.preimage == raw && p.textBody == lib.errorText(err)
    && p.recipients == [] && p.attachments == []
    && match lib.readMessage(raw)
       case None => p.sender == [] && p.subject == [] && p.htmlBody == []
       case Some(msg) =>
         var h := msg.entity.header;
         var multipart := h.ctypeOk && HasPrefix(Lower(h.mediaType), "multipart/");
         && p.sender == (if msg.from != [] && msg.fromAddress.Some? then lib.canonicalEmail(msg.fromAddress.value)
                         else [])
         && p.subject == DecodeHeaderText(lib, msg.subject)
         && (multipart && h.boundary != "" ==> IsFirstHtml(lib, msg.entity.parts, p.htmlBody))
         && (multipart && h.boundary == "" ==> p.htmlBody == [])
         && (!multipart ==>
               p.htmlBody == if HasPrefix(Lower(h.mediaType), "text/html") && msg.entity.body.content != []
                             then DecodeText(lib, msg.entity.body.content, h.charset) else [])
  }

  predicate UsableHtml(part: Entity) {
    Lower(part.header.mediaType) == "text/html" && part.body.content != []
  }

  ghost predicate IsFirstHtml(lib: Library, parts: seq<Entity>, html: Bytes) {
    if exists i :: 0 <= i < |parts| && UsableHtml(parts[i]) then
      exists i :: 0 <= i < |parts| && UsableHtml(parts[i]) && (forall j :: 0 <= j < i ==> !UsableHtml(parts[j]))
        && html == DecodeText(lib, parts[i].body.content, parts[i].header.charset)
    else html == []
  }

  lemma {:induction false} FirstHtmlIsFirst(lib: Library, parts: seq<Entity>)
    ensures IsFirstHtml(lib, parts, FirstHtml(lib, parts))
  {
    if parts != [] {
      if UsableHtml(parts[0]) {
        assert FirstHtml(lib, parts) == DecodeText(lib, parts[0].body.content, parts[0].header.charset);
      } else {
        var rest := parts[1..];
        FirstHtmlIsFirst(lib, rest);
        if i :| 0 <= i < |rest| && UsableHtml(rest[i]) && (forall j :: 0 <= j < i ==> !UsableHtml(rest[j]))
                && FirstHtml(lib, rest) == DecodeText(lib, rest[i].body.content, rest[i].header.charset) {
          assert parts[i + 1] == rest[i];
          assert forall j :: 0 < j < i + 1 ==> parts[j] == rest[j - 1];
        } else {
          assert forall i :: 0 <= i < |rest| ==> !UsableHtml(rest[i]);
          assert forall j :: 0 < j < |parts| ==> parts[j] == rest[j - 1];
        }
      }
    }
  }

  lemma FallbackHasFields(lib: Library, raw: Bytes, err: ParseError)
    ensures HasFallbackFields(lib, raw, err, Fallback(lib, raw, err))
  {
    var msg := lib.readMessage(raw);
    if msg.Some? {
      FirstHtmlIsFirst(lib, msg.value.entity.parts);
    }
  }

  /** fallbackParsedMessageWithError. */
  method FallbackParsedMessage(lib: Library, raw: Bytes, err: ParseError) returns (parsed: ParsedMessage)
    ensures parsed == Fallback(lib, raw, err)
    ensures HasFallbackFields(lib, raw, err, parsed)
  {
    FallbackHasFields(lib, raw, err);
    parsed := ParsedMessage(HashBytes(raw), [], [], [], lib.errorText(err), [], []);
    var msg := lib.readMessage(raw);
    if msg.None? {
      return;
    }
    if msg.value.from != [] && msg.value.fromAddress.Some? {
      parsed := parsed.(sender := lib.canonicalEmail(msg.value.fromAddress.value));
    }
    parsed := parsed.(subject := DecodeHeaderText(lib, msg.value.subject));
    var e := msg.value.entity;
    if e.header.ctypeOk && HasPrefix(Lower(e.header.mediaType), "multipart/") {
      if e.header.boundary != "" {
        for i := 0 to |e.parts|
          invariant parsed.htmlBody == []
          invariant FirstHtml(lib, e.parts) == FirstHtml(lib, e.parts[i..])
          invariant parsed == Fallback(lib, raw, err).(htmlBody := [])
        {
          var part := e.parts[i];
          assert e.parts[i..][1..] == e.parts[i + 1..];
          if Lower(part.header.mediaType) == HTML {
            var partContent := part.body.content;
            if |partContent| > 0 {
              parsed := parsed.(htmlBody := DecodeText(lib, partContent, part.header.charset));
              return;
            }
          }
        }
      }
    } else if HasPrefix(Lower(e.header.mediaType), HTML) {
      var content := e.body.content;
      if |content| > 0 {
        parsed := parsed.(htmlBody := DecodeText(lib, content, e.header.charset));
      }
    }
  }

  /** What the ingest handler stores for a raw message, and whether it is
      marked as failed. */
  function ForStorage(lib: Library, raw: Bytes): (ParsedMessage, bool) {
    var err := ParseFailure(lib, raw);
    if err.Some? then (Fallback(lib, raw, err.value), true)
    else (Complete(lib, raw, lib.readMessage(raw).value), false)
  }

  method ParseForStorage(lib: Library, raw: Bytes) returns (parsed: ParsedMessage, failed: bool)
    ensures (parsed, failed) == ForStorage(lib, raw)
  {
    var parseErr;
    parsed, parseErr := ParseMime(lib, raw);
    failed := parseErr.Some?;
    if failed {
      parsed := FallbackParsedMessage(lib, raw, parseErr.value);
    }
  }

  /** A message that can be read, with a tree that can be read, is stored with
      every field of the complete parse, and any other with those of the
      fallback and the mark. */
  lemma StoredFields(lib: Library, raw: Bytes)
    ensures var (p, failed) := ForStorage(lib, raw);
      && p.contentHash.preimage == raw
      && (lib.readMessage(raw).None? ==> failed && HasFallbackFields(lib, raw, Unreadable, p))
      && (lib.readMessage(raw).Some? ==>
            var e := lib.readMessage(raw).value.entity;
            && (failed <==> !Readable(e))
            && (failed ==> Failure(Leaves(e)).Some? && HasFallbackFields(lib, raw, Failure(Leaves(e)).value, p))
            && (!failed ==> HasFields(lib, lib.readMessage(raw).value, p)))
  {
    match lib.readMessage(raw) {
      case None => FallbackHasFields(lib, raw, Unreadable);
      case Some(msg) =>
        FailsIff(msg.entity);
        CompleteHasFields(lib, raw, msg);
        if Failure(Leaves(msg.entity)).Some? {
          FallbackHasFields(lib, raw, Failure(Leaves(msg.entity)).value);
        }
    }
  }

  /** The media type that a Content-Type names; none if it is missing or does not
      parse. */
  function Declared(h: Header): string {
    if h.ctypeOk then Lower(h.mediaType) else ""
  }

  /** Whether the headers of a leaf make it an attachment, and its file name. */
  predicate NamesFile(lib: Library, h: Header, filename: Bytes) {
    filename == if h.dispositionFilename != [] then DecodeHeaderText(lib, h.dispositionFilename)
                else DecodeHeaderText(lib, h.name)
  }

  /** What the headers of a leaf say: an attachment or not, and the media type,
      which is text/plain if none is named. */
  lemma LeafHeaders(lib: Library, h: Header, filename: Bytes)
    requires NamesFile(lib, h, filename)
    ensures Filename(lib, h) == filename
    ensures IsAttachment(lib, h) <==> filename != [] || "attachment" <= Lower(h.disposition)
    ensures Declared(h) == "" ==> MediaType(h) == "text/plain"
    ensures Declared(h) != "" ==> MediaType(h) == Declared(h)
  {
    LeafType(h);
  }

  lemma LeafType(h: Header)
    ensures Declared(h) == "" ==> MediaType(h) == "text/plain"
    ensures Declared(h) != "" ==> MediaType(h) == Declared(h)
  {
    var plain := "text/plain";
    LowerKeeps(plain);
    assert |Lower(h.mediaType)| == |h.mediaType|;
  }

  /** Where a single leaf goes. */
  lemma LeafGoes(lib: Library, l: Leaf, filename: Bytes)
    requires l.Leaf? && NamesFile(lib, l.header, filename)
    ensures var attached := filename != [] || "attachment" <= Lower(l.header.disposition);
      var text, media := DecodeText(lib, l.content, l.header.charset), MediaType(l.header);
      && AttachmentsOf(lib, [l])
         == (if attached then [Attachment(l.content, media, filename, |l.content|, HashBytes(l.content))] else [])
      && BodyOf(lib, [l], PLAIN) == (if !attached && media == PLAIN then text else [])
      && BodyOf(lib, [l], HTML) == (if !attached && media == HTML then text else [])
  {
    LeafHeaders(lib, l.header, filename);
    var c := Content([], [], []);
    OneLeaf(lib, c, l);
    PlusNothing(lib, [l]);
    assert [] + BodyPart(lib, l, PLAIN) == BodyPart(lib, l, PLAIN);
    assert [] + BodyPart(lib, l, HTML) == BodyPart(lib, l, HTML);
    assert [] + AttachmentPart(lib, l) == AttachmentPart(lib, l);
  }

  /** A readable message without parts. With a file name or an attachment
      disposition it has one attachment and no body; otherwise it has no
      attachment, and its decoded content is the text body if it is text/plain or
      names no type, the HTML body if it is text/html, and dropped for any other
      type. */
  lemma SingleLeaf(lib: Library, raw: Bytes, e: Entity, filename: Bytes)
    requires lib.readMessage(raw).Some? && lib.readMessage(raw).value.entity == e
    requires !e.body.broken && !IsMultipart(e) && NamesFile(lib, e.header, filename)
    ensures var (p, failed) := ForStorage(lib, raw);
      var declared, text := Declared(e.header), DecodeText(lib, e.body.content, e.header.charset);
      var attached := filename != [] || "attachment" <= Lower(e.header.disposition);
      && !failed
      && (attached ==>
            && p.textBody == [] && p.htmlBody == [] && |p.attachments| == 1
            && p.attachments[0].content == e.body.content && p.attachments[0].filename == filename
            && p.attachments[0].mimeType == if declared == "" then "text/plain" else declared)
      && (!attached ==> p.attachments == [])
      && (!attached && declared in {"", "text/plain"} ==> p.textBody == text && p.htmlBody == [])
      && (!attached && declared == "text/html" ==>
            p.htmlBody == text && p.textBody == if text == [] then [] else lib.htmlToText(text))
      && (!attached && declared !in {"", "text/plain", "text/html"} ==> p.textBody == [] && p.htmlBody == [])
  {
    LeafHeaders(lib, e.header, filename);
    LeafGoes(lib, Leaf(e.header, e.body.content), filename);
    StoredFields(lib, raw);
  }

  lemma {:induction false} FirstHtmlIsValid(lib: Library, parts: seq<Entity>)
    ensures Utf8.Valid(FirstHtml(lib, parts))
  {
    if parts != [] {
      TextIsValid(lib, parts[0].body.content, parts[0].header.charset);
      FirstHtmlIsValid(lib, parts[1..]);
    }
  }

  lemma FallbackIsValid(lib: Library, raw: Bytes, err: ParseError)
    ensures Utf8.Valid(Fallback(lib, raw, err).subject)
    ensures Utf8.Valid(Fallback(lib, raw, err).htmlBody)
  {
    var msg := lib.readMessage(raw);
    if msg.Some? {
      var e := msg.value.entity;
      DecodedIsValid(lib, msg.value.subject, "");
      FirstHtmlIsValid(lib, e.parts);
      TextIsValid(lib, e.body.content, e.header.charset);
      assert Utf8.Valid(FallbackHtml(lib, e));
    }
  }

  lemma CompleteIsValid(lib: Library, raw: Bytes, msg: RawMessage)
    ensures var p := Complete(lib, raw, msg);
      && Utf8.Valid(p.subject) && Utf8.Valid(p.htmlBody)
      && (BodyOf(lib, Leaves(msg.entity), PLAIN) != [] ==> Utf8.Valid(p.textBody))
  {
    var ls := Leaves(msg.entity);
    DecodedIsValid(lib, msg.subject, "");
    BodyIsValid(lib, ls, PLAIN);
    BodyIsValid(lib, ls, HTML);
  }

  /** Whatever bytes arrive, the stored subject and HTML body are well-formed,
      on the normal and on the fallback path; so is the text body collected
      from text/plain leaves. */
  lemma StoredTextIsValid(lib: Library, raw: Bytes)
    ensures var (p, failed) := ForStorage(lib, raw);
      && Utf8.Valid(p.subject) && Utf8.Valid(p.htmlBody)
      && (!failed && BodyOf(lib, Leaves(lib.readMessage(raw).value.entity), PLAIN) != [] ==> Utf8.Valid(p.textBody))
  {
    var err := ParseFailure(lib, raw);
    if err.Some? {
      FallbackIsValid(lib, raw, err.value);
    } else {
      CompleteIsValid(lib, raw, lib.readMessage(raw).value);
    }
  }

  /** A message that cannot be parsed is stored without recipients and without
      attachments, so it never meets an attachment conflict. */
  lemma FailedHasNoAttachments(lib: Library, raw: Bytes)
    ensures ForStorage(lib, raw).1 ==>
              ForStorage(lib, raw).0.attachments == [] && ForStorage(lib, raw).0.recipients == []
    ensures ForStorage(lib, raw).0.contentHash == HashBytes(raw)
  {
  }
}

/** The Telegram summary of worker/src/mail/render.ts. Strings are sequences of
    UTF-16 code units. */
module Render {
  import opened Common
  import opened Strings

  const MAX_MESSAGE_LEN: nat := 3500
  const BODY_PREVIEW_LEN: nat := 300

  /** String.replace with a global one-character pattern. */
  function ReplaceAll(s: string, c: char, with: string): string {
    if s == "" then "" else (if s[0] == c then with else [s[0]]) + ReplaceAll(s[1..], c, with)
  }

  function EscapeHtml(s: string): string {
    ReplaceAll(ReplaceAll(ReplaceAll(s, '&', "&amp;"), '<', "&lt;"), '>', "&gt;")
  }

  /** The reference: one substitution per character. */
  function Entity(c: char): string {
    match c
    case '&' => "&amp;"
    case '<' => "&lt;"
    case '>' => "&gt;"
    case _ => [c]
  }

  function EscapeEach(s: string): string {
    if s == "" then "" else Entity(s[0]) + EscapeEach(s[1..])
  }

  lemma {:induction false} ReplaceConcat(a: string, b: string, c: char, with: string)
    ensures ReplaceAll(a + b, c, with) == ReplaceAll(a, c, with) + ReplaceAll(b, c, with)
  {
    if a == "" {
      assert a + b == b;
    } else {
      ReplaceConcat(a[1..], b, c, with);
      var head := if a[0] == c then with else [a[0]];
      assert (a + b)[0] == a[0] && (a + b)[1..] == a[1..] + b;
      assert head + (ReplaceAll(a[1..], c, with) + ReplaceAll(b, c, with))
          == (head + ReplaceAll(a[1..], c, with)) + ReplaceAll(b, c, with);
    }
  }

  lemma ReplaceOne(c: char, d: char, with: string)
    ensures ReplaceAll([d], c, with) == if d == c then with else [d]
  {
    assert ReplaceAll([d][1..], c, with) == "";
  }

  lemma {:induction false} ReplaceAbsent(s: string, c: char, with: string)
    requires c !in s
    ensures ReplaceAll(s, c, with) == s
  {
    if s != "" {
      ReplaceAbsent(s[1..], c, with);
    }
  }

  lemma EscapeOne(c: char)
    ensures EscapeHtml([c]) == Entity(c)
  {
    ReplaceOne('&', c, "&amp;");
    ReplaceOne('<', c, "&lt;");
    ReplaceOne('>', c, "&gt;");
    ReplaceAbsent("&amp;", '<', "&lt;");
    ReplaceAbsent("&amp;", '>', "&gt;");
    ReplaceAbsent("&lt;", '>', "&gt;");
  }

  /** Three replaces in this order are one substitution per character: the
      later passes never touch the entities of the earlier ones. */
  lemma {:induction false} EscapeIsPerCharacter(s: string)
    ensures EscapeHtml(s) == EscapeEach(s)
  {
    if s != "" {
      EscapeIsPerCharacter(s[1..]);
      assert s == [s[0]] + s[1..];
      ReplaceConcat([s[0]], s[1..], '&', "&amp;");
      var a, b := ReplaceAll([s[0]], '&', "&amp;"), ReplaceAll(s[1..], '&', "&amp;");
      ReplaceConcat(a, b, '<', "&lt;");
      ReplaceConcat(ReplaceAll(a, '<', "&lt;"), ReplaceAll(b, '<', "&lt;"), '>', "&gt;");
      EscapeOne(s[0]);
    }
  }

  /** Reads an escaped text back. */
  function Unescape(s: string): string
    decreases |s|
  {
    if s == "" then ""
    else if "&amp;" <= s then "&" + Unescape(s[5..])
    else if "&lt;" <= s then "<" + Unescape(s[4..])
    else if "&gt;" <= s then ">" + Unescape(s[4..])
    else [s[0]] + Unescape(s[1..])
  }

  lemma UnescapeEntity(c: char, rest: string)
    ensures Unescape(Entity(c) + rest) == [c] + Unescape(rest)
  {
    var s := Entity(c) + rest;
    assert s[|Entity(c)|..] == rest;
    if c == '&' {
      assert s[..5] == "&amp;";
    } else if c == '<' {
      assert s[..4] == "&lt;" && s[1] == 'l';
    } else if c == '>' {
      assert s[..4] == "&gt;" && s[1] == 'g';
    } else {
      assert s[0] == c;
    }
  }

  /** No information is lost. */
  lemma {:induction false} UnescapeEscape(s: string)
    ensures Unescape(EscapeHtml(s)) == s
  {
    EscapeIsPerCharacter(s);
    if s != "" {
      UnescapeEscape(s[1..]);
      EscapeIsPerCharacter(s[1..]);
      UnescapeEntity(s[0], EscapeEach(s[1..]));
    }
  }

  /** `&` stands only at the head of one of the three entities. */
  ghost predicate SafeHtml(s: string) {
    forall i :: 0 <= i < |s| ==> s[i] != '<' && s[i] != '>' && (s[i] == '&' ==> StartsEntity(s[i..]))
  }

  predicate StartsEntity(s: string) {
    "&amp;" <= s || "&lt;" <= s || "&gt;" <= s
  }

  lemma {:induction false} EscapedIsSafe(s: string)
    ensures SafeHtml(EscapeHtml(s))
    ensures |s| <= |EscapeHtml(s)| <= 5 * |s|
  {
    EscapeIsPerCharacter(s);
    if s != "" {
      EscapedIsSafe(s[1..]);
      EscapeIsPerCharacter(s[1..]);
      EntityIsSafe(s[0]);
      SafeConcat(Entity(s[0]), EscapeEach(s[1..]));
    }
  }

  lemma EntityIsSafe(c: char)
    ensures SafeHtml(Entity(c))
  {
    var s := Entity(c);
    assert s[0..] == s;
  }

  // ---------------------------------------------------------------------

  datatype Summary = Summary(from: string, to: string, subject: string, text: Option<string>)

  function HeaderLines(cache: Summary, date: string): seq<string> {
    [ "From: " + EscapeHtml(cache.from),
      "To: " + EscapeHtml(cache.to),
      "Subject: " + EscapeHtml(cache.subject),
      "Date: " + EscapeHtml(date) ]
  }

  function Preview(cache: Summary): string {
    var text := if cache.text.Some? then cache.text.value else "";
    if |text| <= BODY_PREVIEW_LEN then text else text[..BODY_PREVIEW_LEN]
  }

  /** The summary before the final cut. */
  function FullText(cache: Summary, date: string): string {
    var header := Join(HeaderLines(cache, date), "\n");
    var body := EscapeHtml(Preview(cache));
    if body == "" then header else header + "\n\n" + body
  }

  // ---------------------------------------------------------------------
  // Reading the summary back
  // ---------------------------------------------------------------------

  /** Unescaping turns `s` into `t`, whatever follows. */
  ghost predicate Reads(s: string, t: string) {
    forall rest :: Unescape(s + rest) == t + Unescape(rest)
  }

  lemma ReadsBoth(a: string, t: string, b: string, u: string, rest: string)
    requires Unescape(a + (b + rest)) == t + Unescape(b + rest) && Unescape(b + rest) == u + Unescape(rest)
    ensures Unescape(a + b + rest) == t + u + Unescape(rest)
  {
    assert a + b + rest == a + (b + rest);
    assert t + (u + Unescape(rest)) == t + u + Unescape(rest);
  }

  lemma ReadsConcat(a: string, t: string, b: string, u: string)
    requires Reads(a, t) && Reads(b, u)
    ensures Reads(a + b, t + u)
  {
    forall rest ensures Unescape(a + b + rest) == t + u + Unescape(rest) {
      ReadsBoth(a, t, b, u, rest);
    }
  }

  lemma ReadsWhole(s: string, t: string)
    requires Reads(s, t)
    ensures Unescape(s) == t
  {
    assert s + "" == s;
    assert Unescape(s + "") == t + Unescape("");
  }

  lemma ReadsOne(c: char)
    ensures Reads(Entity(c), [c]) && (c != '&' ==> Reads([c], [c]))
  {
    forall rest ensures Unescape(Entity(c) + rest) == [c] + Unescape(rest) {
      UnescapeEntity(c, rest);
    }
    if c != '&' {
      forall rest ensures Unescape([c] + rest) == [c] + Unescape(rest) {
        assert ([c] + rest)[0] == c && ([c] + rest)[1..] == rest;
      }
    }
  }

  lemma ReadsNothing()
    ensures Reads("", "")
  {
    forall rest: string ensures Unescape("" + rest) == "" + Unescape(rest) {
      assert "" + rest == rest;
    }
  }

  lemma {:induction false} ReadsEscaped(s: string)
    ensures Reads(EscapeEach(s), s)
  {
    if s == "" {
      ReadsNothing();
    } else {
      ReadsOne(s[0]);
      ReadsEscaped(s[1..]);
      ReadsConcat(Entity(s[0]), [s[0]], EscapeEach(s[1..]), s[1..]);
      assert [s[0]] + s[1..] == s;
    }
  }

  lemma {:induction false} ReadsPlain(s: string)
    requires '&' !in s
    ensures Reads(s, s)
  {
    if s == "" {
      ReadsNothing();
    } else {
      ReadsOne(s[0]);
      ReadsPlain(s[1..]);
      ReadsConcat([s[0]], [s[0]], s[1..], s[1..]);
      assert [s[0]] + s[1..] == s;
    }
  }

  lemma ReadsLine(start: string, value: string)
    requires '&' !in start
    ensures Reads(start + EscapeHtml(value), start + value)
  {
    EscapeIsPerCharacter(value);
    ReadsPlain(start);
    ReadsEscaped(value);
    ReadsConcat(start, start, EscapeEach(value), value);
  }

  lemma {:induction false} ReadsJoin(lines: seq<string>, plain: seq<string>)
    requires |lines| == |plain| && forall i :: 0 <= i < |lines| ==> Reads(lines[i], plain[i])
    ensures Reads(Join(lines, "\n"), Join(plain, "\n"))
  {
    if lines == [] {
      ReadsNothing();
    } else if |lines| > 1 {
      ReadsPlain("\n");
      ReadsJoin(lines[1..], plain[1..]);
      ReadsConcat(lines[0], plain[0], "\n", "\n");
      ReadsConcat(lines[0] + "\n", plain[0] + "\n", Join(lines[1..], "\n"), Join(plain[1..], "\n"));
    }
  }

  /** The header before its fields are escaped. */
  function PlainHeader(cache: Summary, date: string): string {
    Join(["From: " + cache.from, "To: " + cache.to, "Subject: " + cache.subject, "Date: " + date], "\n")
  }

  lemma HeaderReadsBack(cache: Summary, date: string)
    ensures Reads(Join(HeaderLines(cache, date), "\n"), PlainHeader(cache, date))
  {
    ReadsLine("From: ", cache.from);
    ReadsLine("To: ", cache.to);
    ReadsLine("Subject: ", cache.subject);
    ReadsLine("Date: ", date);
    ReadsJoin(HeaderLines(cache, date),
              ["From: " + cache.from, "To: " + cache.to, "Subject: " + cache.subject, "Date: " + date]);
  }

  lemma BodyReadsBack(lines: string, header: string, preview: string)
    requires Reads(lines, header)
    ensures Unescape(lines + "\n\n" + EscapeHtml(preview)) == header + "\n\n" + preview
  {
    ReadsPlain("\n\n");
    ReadsConcat(lines, header, "\n\n", "\n\n");
    EscapeIsPerCharacter(preview);
    ReadsEscaped(preview);
    ReadsConcat(lines + "\n\n", header + "\n\n", EscapeEach(preview), preview);
    ReadsWhole(lines + "\n\n" + EscapeEach(preview), header + "\n\n" + preview);
  }

  /** Undoing the escapes of the summary gives back every field under its label,
      and the first 300 code units of the text after an empty line; a message
      without text has no such part. */
  lemma SummaryReadsBack(cache: Summary, date: string)
    ensures var text := if cache.text.Some? then cache.text.value else "";
      && (text == "" ==> Unescape(FullText(cache, date)) == PlainHeader(cache, date))
      && (0 < |text| <= 300 ==> Unescape(FullText(cache, date)) == PlainHeader(cache, date) + "\n\n" + text)
      && (|text| > 300 ==> Unescape(FullText(cache, date)) == PlainHeader(cache, date) + "\n\n" + text[..300])
  {
    var lines, header := Join(HeaderLines(cache, date), "\n"), PlainHeader(cache, date);
    HeaderReadsBack(cache, date);
    EscapedIsSafe(Preview(cache));
    if Preview(cache) == "" {
      ReadsWhole(lines, header);
    } else {
      BodyReadsBack(lines, header, Preview(cache));
    }
  }

  /** buildSummaryText. */
  method BuildSummaryText(cache: Summary, date: string) returns (text: string)
    ensures |text| <= MAX_MESSAGE_LEN && text <= FullText(cache, date)
    ensures text != FullText(cache, date) ==>
              |text| == MAX_MESSAGE_LEN && |Join(HeaderLines(cache, date), "\n")| > 1998
    ensures |text| == if |FullText(cache, date)| <= 3500 then |FullText(cache, date)| else 3500
    ensures |FullText(cache, date)| <= MAX_MESSAGE_LEN ==> SafeHtml(text)
  {
    var body := Preview(cache);
    var headerLines := HeaderLines(cache, date);
    var escapedBody := EscapeHtml(body);
    var parts := headerLines;
    if |escapedBody| > 0 {
      parts := parts + ["", escapedBody];
    }
    text := Join(parts, "\n");
    JoinHeader(headerLines, escapedBody);
    EscapedIsSafe(body);
    FullTextIsSafe(cache, date);
    if |text| > MAX_MESSAGE_LEN {
      text := text[..MAX_MESSAGE_LEN];
    }
  }


  lemma JoinHeader(lines: seq<string>, body: string)
    requires |lines| == 4
    ensures Join(lines + ["", body], "\n") == Join(lines, "\n") + "\n\n" + body
  {
    var all := lines + ["", body];
    assert all[1..][1..][1..][1..] == ["", body];
    assert all[1..][1..][1..][1..][1..] == [body];
    assert lines[1..][1..][1..] == [lines[3]];
    assert Join(["", body], "\n") == "\n" + body;
    assert Join(all[1..][1..][1..], "\n") == lines[3] + "\n" + ("\n" + body);
    assert Join(all[1..][1..], "\n") == lines[2] + "\n" + (lines[3] + "\n\n" + body);
    assert Join(all[1..], "\n") == lines[1] + "\n" + (lines[2] + "\n" + (lines[3] + "\n\n" + body));
    assert Join(lines[1..][1..], "\n") == lines[2] + "\n" + lines[3];
    assert Join(lines[1..], "\n") == lines[1] + "\n" + (lines[2] + "\n" + lines[3]);
  }

  lemma SafeConcat(a: string, b: string)
    requires SafeHtml(a) && SafeHtml(b)
    ensures SafeHtml(a + b)
  {
    var s := a + b;
    forall i | 0 <= i < |s| ensures s[i] != '<' && s[i] != '>' && (s[i] == '&' ==> StartsEntity(s[i..])) {
      if i < |a| {
        assert s[i] == a[i];
        assert s[i..] == a[i..] + b;
      } else {
        assert s[i] == b[i - |a|] && s[i..] == b[i - |a|..];
      }
    }
  }

  lemma SafeLine(start: string, value: string)
    requires '&' !in start && '<' !in start && '>' !in start
    ensures SafeHtml(start + EscapeHtml(value))
  {
    EscapedIsSafe(value);
    SafeConcat(start, EscapeHtml(value));
  }

  lemma HeaderIsSafe(cache: Summary, date: string)
    ensures SafeHtml(Join(HeaderLines(cache, date), "\n"))
  {
    SafeLine("From: ", cache.from);
    SafeLine("To: ", cache.to);
    SafeLine("Subject: ", cache.subject);
    SafeLine("Date: ", date);
    SafeJoin(HeaderLines(cache, date));
  }

  /** Before the final cut, no user text can open a tag or a stray entity. */
  lemma FullTextIsSafe(cache: Summary, date: string)
    ensures SafeHtml(FullText(cache, date))
  {
    var header, body := Join(HeaderLines(cache, date), "\n"), EscapeHtml(Preview(cache));
    HeaderIsSafe(cache, date);
    SafeLine("\n\n", Preview(cache));
    SafeConcat(header, "\n\n" + body);
    assert header + "\n\n" + body == header + ("\n\n" + body);
  }

  lemma {:induction false} SafeJoin(lines: seq<string>)
    requires forall i :: 0 <= i < |lines| ==> SafeHtml(lines[i])
    ensures SafeHtml(Join(lines, "\n"))
  {
    if |lines| > 1 {
      SafeJoin(lines[1..]);
      SafeConcat(lines[0], "\n");
      SafeConcat(lines[0] + "\n", Join(lines[1..], "\n"));
    }
  }
}

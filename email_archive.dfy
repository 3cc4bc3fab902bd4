/** The HTML rendering of an archived e-mail in
    services/email_archive_service.py: which MIME part becomes the body, how a
    plain-text body and the headers are escaped, and the page that wraps
    them. Parsing the raw message is left to the caller: a message is given
    as the parts `Message.walk()` yields. */
module EmailArchive {
  import opened Common
  import opened Text

  // ------------------------------------------------------------------ escape

  /** The characters `html.escape` rewrites besides `&`. */
  predicate IsMarkup(c: char) {
    c == '<' || c == '>' || c == '"' || c == '\''
  }

  /** `html.escape` of one character (with `quote=True`). */
  function EscapeChar(c: char): string {
    match c
    case '&' => "&amp;"
    case '<' => "&lt;"
    case '>' => "&gt;"
    case '"' => "&quot;"
    case '\'' => "&#x27;"
    case _ => [c]
  }

  /** `html.escape(s)`: the escaped text holds no markup character, so it
      cannot open a tag or close an attribute, and it is never shorter. */
  function Escape(s: string): (r: string)
    ensures |r| >= |s|
    ensures forall i | 0 <= i < |r| :: !IsMarkup(r[i])
  {
    if s == [] then []
    else
      var head := EscapeChar(s[0]);
      assert forall i | 0 <= i < |head| :: !IsMarkup(head[i]);
      head + Escape(s[1..])
  }

  /** Decoding of the five entities `html.escape` produces; every other
      character stands for itself. */
  function Unescape(s: string): string {
    if s == [] then []
    else if StartsWith(s, "&amp;") then "&" + Unescape(s[5..])
    else if StartsWith(s, "&lt;") then "<" + Unescape(s[4..])
    else if StartsWith(s, "&gt;") then ">" + Unescape(s[4..])
    else if StartsWith(s, "&quot;") then "\"" + Unescape(s[6..])
    else if StartsWith(s, "&#x27;") then "'" + Unescape(s[6..])
    else [s[0]] + Unescape(s[1..])
  }

  /** A string starting with one entity does not start with another: the
      five entities already differ in their second character. */
  lemma NotEntity(s: string, e: string)
    requires 2 <= |e| && 2 <= |s| && s[1] != e[1]
    ensures !StartsWith(s, e)
  {
    assert |e| <= |s| ==> s[..|e|][1] == s[1];
  }

  /** Decoding undoes the escape of one character in front of any text. */
  lemma UnescapeStep(c: char, rest: string)
    ensures Unescape(EscapeChar(c) + rest) == [c] + Unescape(rest)
  {
    var e := EscapeChar(c);
    var s := e + rest;
    assert s[..|e|] == e && s[|e|..] == rest;
    if c == '&' {
      assert StartsWith(s, "&amp;");
    } else if c == '<' {
      NotEntity(s, "&amp;");
      assert StartsWith(s, "&lt;");
    } else if c == '>' {
      NotEntity(s, "&amp;");
      NotEntity(s, "&lt;");
      assert StartsWith(s, "&gt;");
    } else if c == '"' {
      NotEntity(s, "&amp;");
      NotEntity(s, "&lt;");
      NotEntity(s, "&gt;");
      assert StartsWith(s, "&quot;");
    } else if c == '\'' {
      NotEntity(s, "&amp;");
      NotEntity(s, "&lt;");
      NotEntity(s, "&gt;");
      NotEntity(s, "&quot;");
      assert StartsWith(s, "&#x27;");
    } else {
      assert s[0] == c;
      assert !StartsWith(s, "&amp;") && !StartsWith(s, "&lt;") && !StartsWith(s, "&gt;");
      assert !StartsWith(s, "&quot;") && !StartsWith(s, "&#x27;");
    }
  }

  /** Escaping loses nothing: decoding the escaped text gives the text back. */
  lemma {:induction false} EscapeRoundTrip(s: string)
    ensures Unescape(Escape(s)) == s
  {
    if s != [] {
      EscapeRoundTrip(s[1..]);
      UnescapeStep(s[0], Escape(s[1..]));
      assert s == [s[0]] + s[1..];
    }
  }

  // ------------------------------------------------------------------- parts

  /** One entry of `message.walk()`: whether it is a container, its
      `get_content_disposition()`, its `get_content_type()` and its decoded
      `get_content()`. */
  datatype Part = Part(isMultipart: bool, disposition: Option<string>, contentType: string, content: string)

  /** A parsed message: its own type and content (used when it is not
      multipart), the parts `walk()` yields, and its headers. */
  datatype Message = Message(isMultipart: bool, contentType: string, content: string,
                             parts: seq<Part>, headers: map<string, string>)

  /** The part is neither a container nor an attachment. */
  predicate Readable(p: Part) {
    !p.isMultipart && p.disposition != Some("attachment")
  }

  /** The part is readable and of the given type. */
  predicate Selected(p: Part, contentType: string) {
    Readable(p) && p.contentType == contentType
  }

  /** The content of the first readable part of the given type, if any. */
  function FirstOfType(parts: seq<Part>, contentType: string): (r: Option<string>)
    ensures r.None? <==> forall j | 0 <= j < |parts| :: !Selected(parts[j], contentType)
    ensures r.Some? ==> exists i | 0 <= i < |parts| ::
      Selected(parts[i], contentType) && parts[i].content == r.value
      && forall j | 0 <= j < i :: !Selected(parts[j], contentType)
  {
    if parts == [] then None
    else
      var init := parts[..|parts| - 1];
      var last := parts[|parts| - 1];
      var before := FirstOfType(init, contentType);
      assert forall j | 0 <= j < |init| :: init[j] == parts[j];
      if before.Some? then before
      else if Selected(last, contentType) then Some(last.content)
      else None
  }

  /** What the parts after a prefix contribute: nothing once the prefix has a
      part of the type, since only the first one is kept. */
  lemma {:induction false} FirstOfTypeConcat(a: seq<Part>, b: seq<Part>, contentType: string)
    ensures FirstOfType(a + b, contentType) ==
      if FirstOfType(a, contentType).Some? then FirstOfType(a, contentType) else FirstOfType(b, contentType)
  {
    if b != [] {
      var b' := b[..|b| - 1];
      FirstOfTypeConcat(a, b', contentType);
      assert (a + b)[..|a + b| - 1] == a + b';
    } else {
      assert a + b == a;
    }
  }

  /** The HTML and the plain-text candidates `_extrair_corpo_html` settles
      on. */
  function Candidates(m: Message): (Option<string>, Option<string>) {
    if m.isMultipart then (FirstOfType(m.parts, "text/html"), FirstOfType(m.parts, "text/plain"))
    else if m.contentType == "text/html" then (Some(m.content), None)
    else (None, Some(m.content))
  }

  /** A non-empty HTML body verbatim, otherwise the escaped text (or nothing)
      in a `<pre>` block. */
  function BodyOf(m: Message): (body: string)
    ensures body != ""
  {
    var (html, text) := Candidates(m);
    if html.Some? && html.value != "" then html.value
    else "<pre>" + Escape(text.GetOr("")) + "</pre>"
  }

  /** `_extrair_corpo_html(message)` */
  method ExtractBody(m: Message) returns (body: string)
    ensures body == BodyOf(m)
  {
    var html: Option<string> := None;
    var text: Option<string> := None;
    if m.isMultipart {
      for i := 0 to |m.parts|
        invariant html == FirstOfType(m.parts[..i], "text/html")
        invariant text == FirstOfType(m.parts[..i], "text/plain")
      {
        assert m.parts[..i + 1][..i] == m.parts[..i];
        var part := m.parts[i];
        if !part.isMultipart && part.disposition != Some("attachment") {
          if part.contentType == "text/html" && html.None? {
            html := Some(part.content);
          } else if part.contentType == "text/plain" && text.None? {
            text := Some(part.content);
          }
        }
      }
      assert m.parts[..|m.parts|] == m.parts;
    } else if m.contentType == "text/html" {
      html := Some(m.content);
    } else {
      text := Some(m.content);
    }
    if html.Some? && html.value != "" {
      body := html.value;
    } else {
      body := "<pre>" + Escape(text.GetOr("")) + "</pre>";
    }
  }

  lemma FirstOfTypeSkip(a: seq<Part>, p: Part, b: seq<Part>, contentType: string)
    requires !Readable(p)
    ensures FirstOfType(a + [p] + b, contentType) == FirstOfType(a + b, contentType)
  {
    assert [p][..0] == [];
    assert FirstOfType([p], contentType) == None;
    FirstOfTypeConcat(a + [p], b, contentType);
    FirstOfTypeConcat(a, [p], contentType);
    FirstOfTypeConcat(a, b, contentType);
  }

  /** A container or an attachment, wherever it sits in the walk, does not
      change the body. */
  lemma SkippedPartIgnored(m: Message, i: nat, p: Part)
    requires m.isMultipart && i <= |m.parts| && !Readable(p)
    ensures BodyOf(m.(parts := m.parts[..i] + [p] + m.parts[i..])) == BodyOf(m)
  {
    var a := m.parts[..i];
    var b := m.parts[i..];
    assert m.parts == a + b;
    FirstOfTypeSkip(a, p, b, "text/html");
    FirstOfTypeSkip(a, p, b, "text/plain");
  }

  /** Only the first HTML part counts: parts after it change nothing of the
      body when it is non-empty. */
  lemma LaterPartsIgnored(m: Message, more: seq<Part>)
    requires m.isMultipart
    requires FirstOfType(m.parts, "text/html").Some? && FirstOfType(m.parts, "text/html").value != ""
    ensures BodyOf(m.(parts := m.parts + more)) == BodyOf(m) == FirstOfType(m.parts, "text/html").value
  {
    FirstOfTypeConcat(m.parts, more, "text/html");
  }

  /** Without a non-empty HTML part the body is the plain text escaped in a
      `<pre>` block: no markup from the text survives, and decoding the
      block's content gives the text back. */
  lemma PlainBodyEscaped(m: Message)
    requires var html := Candidates(m).0; !(html.Some? && html.value != "")
    ensures var text := Candidates(m).1.GetOr("");
      && BodyOf(m) == "<pre>" + Escape(text) + "</pre>"
      && Unescape(BodyOf(m)[5..|BodyOf(m)| - 6]) == text
      && forall i | 5 <= i < |BodyOf(m)| - 6 :: !IsMarkup(BodyOf(m)[i])
  {
    var text := Candidates(m).1.GetOr("");
    var e := Escape(text);
    var body := "<pre>" + e + "</pre>";
    assert body[5..|body| - 6] == e;
    EscapeRoundTrip(text);
    forall i | 5 <= i < |body| - 6 ensures !IsMarkup(body[i]) {
      assert body[i] == e[i - 5];
    }
  }

  // -------------------------------------------------------------------- page

  /** `message.get(name, "")` */
  function Header(m: Message, name: string): string {
    if name in m.headers then m.headers[name] else ""
  }

  const HeaderOpen := "\n    <div style=\"border-bottom: 1px solid #ccc; padding-bottom: 8px; margin-bottom: 12px;\">\n        <strong>Assunto:</strong> "
  const SenderLine := "<br>\n        <strong>De:</strong> "
  const DateLine := "<br>\n        <strong>Data:</strong> "
  const HeaderClose := "\n    </div>\n    "
  const PageOpen := "\n    <html>\n        <head>\n            <meta charset=\"utf-8\">\n        </head>\n        <body>\n            "
  const BodyIndent := "\n            "
  const PageClose := "\n        </body>\n    </html>\n    "

  /** The header block of `_montar_html_email`. */
  function HeaderHtml(subject: string, sender: string, date: string): string {
    HeaderOpen + Escape(subject) + SenderLine + Escape(sender) + DateLine + Escape(date) + HeaderClose
  }

  /** The page that wraps the header block and the body. */
  function PageHtml(header: string, body: string): string {
    PageOpen + header + BodyIndent + body + PageClose
  }

  /** `_montar_html_email(message)`: the raw subject, and the page holding the
      escaped subject, sender and date and then the body. */
  function BuildHtmlEmail(m: Message): (r: (string, string))
    ensures r.0 == Header(m, "Subject")
    ensures Contains(r.1, Escape(Header(m, "Subject")))
    ensures Contains(r.1, Escape(Header(m, "From")))
    ensures Contains(r.1, Escape(Header(m, "Date")))
    ensures Contains(r.1, BodyOf(m))
  {
    var subject := Header(m, "Subject");
    var sender := Header(m, "From");
    var date := Header(m, "Date");
    var page := PageHtml(HeaderHtml(subject, sender, date), BodyOf(m));
    PageContains(subject, sender, date, BodyOf(m));
    (subject, page)
  }

  lemma ContainsSelf(s: string)
    ensures Contains(s, s)
  {
    assert OccursAt(s, s, 0);
  }

  lemma ContainsInLeft(a: string, b: string, sub: string)
    requires Contains(a, sub)
    ensures Contains(a + b, sub)
  {
    var i :| 0 <= i <= |a| - |sub| && OccursAt(a, sub, i);
    assert (a + b)[i..i + |sub|] == a[i..i + |sub|];
    assert OccursAt(a + b, sub, i);
  }

  lemma ContainsInRight(a: string, b: string, sub: string)
    requires Contains(b, sub)
    ensures Contains(a + b, sub)
  {
    var i :| 0 <= i <= |b| - |sub| && OccursAt(b, sub, i);
    assert (a + b)[|a| + i..|a| + i + |sub|] == b[i..i + |sub|];
    assert OccursAt(a + b, sub, |a| + i);
  }

  /** The text of the header block is found in the page. */
  lemma HeaderInPage(header: string, body: string, sub: string)
    requires Contains(header, sub)
    ensures Contains(PageHtml(header, body), sub)
  {
    ContainsInRight(PageOpen, header, sub);
    ContainsInLeft(PageOpen + header, BodyIndent, sub);
    ContainsInLeft(PageOpen + header + BodyIndent, body, sub);
    ContainsInLeft(PageOpen + header + BodyIndent + body, PageClose, sub);
  }

  lemma PageContains(subject: string, sender: string, date: string, body: string)
    ensures var page := PageHtml(HeaderHtml(subject, sender, date), body);
      && Contains(page, Escape(subject)) && Contains(page, Escape(sender))
      && Contains(page, Escape(date)) && Contains(page, body)
  {
    var es, ef, ed := Escape(subject), Escape(sender), Escape(date);
    var header := HeaderHtml(subject, sender, date);
    var h1 := HeaderOpen + es;
    var h2 := h1 + SenderLine + ef;
    var h3 := h2 + DateLine + ed;
    assert header == h3 + HeaderClose;
    ContainsSelf(es);
    ContainsInRight(HeaderOpen, es, es);
    ContainsInLeft(h1, SenderLine, es);
    ContainsInLeft(h1 + SenderLine, ef, es);
    ContainsInLeft(h2, DateLine, es);
    ContainsInLeft(h2 + DateLine, ed, es);
    ContainsInLeft(h3, HeaderClose, es);
    ContainsSelf(ef);
    ContainsInRight(h1 + SenderLine, ef, ef);
    ContainsInLeft(h2, DateLine, ef);
    ContainsInLeft(h2 + DateLine, ed, ef);
    ContainsInLeft(h3, HeaderClose, ef);
    ContainsSelf(ed);
    ContainsInRight(h2 + DateLine, ed, ed);
    ContainsInLeft(h3, HeaderClose, ed);
    HeaderInPage(header, body, es);
    HeaderInPage(header, body, ef);
    HeaderInPage(header, body, ed);
    ContainsSelf(body);
    ContainsInRight(PageOpen + header + BodyIndent, body, body);
    ContainsInLeft(PageOpen + header + BodyIndent + body, PageClose, body);
  }
}

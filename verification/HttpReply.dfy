/** Replies (HttpWrapper/src/reply.*, request_handler.cpp): how they are built, printed,
    and read back by a client. */
module HttpReply {
  import opened Text
  import opened Decimal
  import opened HttpRequest
  import opened HttpGrammar
  import opened HttpPrinter
  import opened UrlCoding

  datatype Status =
    | Ok | Created | Accepted | NoContent | MultipleChoices | MovedPermanently | MovedTemporarily | NotModified
    | BadRequest | Unauthorized | Forbidden | NotFound | InternalServerError | NotImplemented | BadGateway
    | ServiceUnavailable

  datatype Reply = Reply(status: Status, headers: seq<Header>, content: string)

  /** Code and reason phrase of the successful and redirecting statuses ... */
  function Reason(status: Status): (r: string)
    ensures '\r' !in r && |r| >= 4
  {
    match status
    case Ok => "200 OK"
    case Created => "201 Created"
    case Accepted => "202 Accepted"
    case NoContent => "204 No Content"
    case MultipleChoices => "300 Multiple Choices"
    case MovedPermanently => "301 Moved Permanently"
    case MovedTemporarily => "302 Moved Temporarily"
    case NotModified => "304 Not Modified"
    case _ => ErrorReason(status)
  }

  /** ... and of the errors. */
  function ErrorReason(status: Status): (r: string)
    ensures '\r' !in r && |r| >= 4
  {
    match status
    case BadRequest => "400 Bad Request"
    case Unauthorized => "401 Unauthorized"
    case Forbidden => "403 Forbidden"
    case NotFound => "404 Not Found"
    case NotImplemented => "501 Not Implemented"
    case BadGateway => "502 Bad Gateway"
    case ServiceUnavailable => "503 Service Unavailable"
    case _ => "500 Internal Server Error"
  }

  function StatusLine(status: Status): (line: string)
    ensures '\r' !in line
  {
    "HTTP/1.0 " + Reason(status)
  }

  /** The page of a stock reply; its heading repeats the code and the reason, except that
      the page for 204 says "204 Content". */
  function StockContent(status: Status): string {
    if status.Ok? then ""
    else
      "<html><head><title>" + Reason(status)[4..] + "</title></head><body><h1>"
      + (if status.NoContent? then "204 Content" else Reason(status)) + "</h1></body></html>"
  }

  function StockReply(status: Status): Reply {
    var content := StockContent(status);
    Reply(status, [Header("Content-Length", Print(|content|)), Header("Content-Type", "text/html")], content)
  }

  /** The bytes a reply puts on the wire. */
  function ReplyText(rep: Reply): string {
    StatusLine(rep.status) + (CRLF + (PrintHeaders(rep.headers) + (CRLF + rep.content)))
  }

  /** The text of the first headers, written in order. */
  lemma {:induction false} PrintHeadersSnoc(hs: seq<Header>, h: Header)
    ensures PrintHeaders(hs + [h]) == PrintHeaders(hs) + PrintHeader(h)
  {
    if hs == [] {
      assert [] + [h] == [h] && [h][1..] == [];
    } else {
      assert (hs + [h])[1..] == hs[1..] + [h];
      PrintHeadersSnoc(hs[1..], h);
    }
  }

  lemma {:induction false} ConcatPush(buffers: seq<string>, s: string)
    ensures Concat(buffers + [s]) == Concat(buffers) + s
  {
    ConcatAppend(buffers, [s]);
    assert [s][1..] == [];
  }

  /** The four buffers of one header. */
  method PushHeader(buffers: seq<string>, h: Header) returns (more: seq<string>)
    ensures Concat(more) == Concat(buffers) + PrintHeader(h)
    ensures |more| == |buffers| + 4
  {
    more := buffers + [h.name];
    ConcatPush(buffers, h.name);
    ConcatPush(more, ": ");
    more := more + [": "];
    ConcatPush(more, h.value);
    more := more + [h.value];
    ConcatPush(more, CRLF);
    more := more + [CRLF];
    RightAssoc(Concat(buffers), h.name, ": ", h.value, CRLF);
  }

  /** `reply::to_buffers`: the buffers, written one after the other, are the reply's text. */
  method ToBuffers(rep: Reply) returns (buffers: seq<string>)
    ensures Concat(buffers) == ReplyText(rep)
    ensures |buffers| == 4 * |rep.headers| + 3
  {
    ghost var head := StatusLine(rep.status) + CRLF;
    buffers := [StatusLine(rep.status) + CRLF];
    assert Concat(buffers) == head by { assert [head][1..] == [] && head + "" == head; }
    assert head + "" == head;
    var i := 0;
    while i < |rep.headers|
      invariant 0 <= i <= |rep.headers| && |buffers| == 4 * i + 1
      invariant Concat(buffers) == head + PrintHeaders(rep.headers[..i])
    {
      PrintHeadersSnoc(rep.headers[..i], rep.headers[i]);
      assert rep.headers[..i + 1] == rep.headers[..i] + [rep.headers[i]];
      Assoc(head, PrintHeaders(rep.headers[..i]), PrintHeader(rep.headers[i]));
      buffers := PushHeader(buffers, rep.headers[i]);
      i := i + 1;
    }
    assert rep.headers[..i] == rep.headers;
    ConcatPush(buffers, CRLF);
    buffers := buffers + [CRLF];
    ConcatPush(buffers, rep.content);
    buffers := buffers + [rep.content];
    RightAssoc(StatusLine(rep.status), CRLF, PrintHeaders(rep.headers), CRLF, rep.content);
  }

  lemma RightAssoc(a: string, b: string, c: string, d: string, e: string)
    ensures a + b + c + d + e == a + (b + (c + (d + e)))
  {
  }

  // ---------- a client that reads a reply ----------

  /** The first line, without its CRLF, and what follows it. */
  function ReadLine(x: string): (r: Option<(string, string)>)
    ensures r.Some? ==> |r.value.1| + 2 <= |x|
  {
    if |x| < 2 then None
    else if x[0] == '\r' && x[1] == '\n' then Some(("", x[2..]))
    else
      var r := ReadLine(x[1..]);
      if r.None? then None else Some(([x[0]] + r.value.0, r.value.1))
  }

  /** `name: value` */
  function ReadHeader(line: string): Option<Header> {
    var k := Find(line, ':');
    if k + 1 < |line| && line[k + 1] == ' ' then Some(Header(line[..k], line[k + 2..])) else None
  }

  /** Header lines up to the first blank line, and what follows it. */
  function ReadHeaders(x: string): (r: Option<(seq<Header>, string)>)
    decreases |x|
  {
    var l := ReadLine(x);
    if l.None? then None
    else if l.value.0 == "" then Some(([], l.value.1))
    else
      var h := ReadHeader(l.value.0);
      var r := ReadHeaders(l.value.1);
      if h.None? || r.None? then None else Some(([h.value] + r.value.0, r.value.1))
  }

  /** The number in the first Content-Length header. */
  function ContentLength(hs: seq<Header>): Option<nat> {
    if hs == [] then None
    else if hs[0].name == "Content-Length" then
      if hs[0].value != "" && IsNumeral(hs[0].value) then Some(Value(hs[0].value)) else None
    else ContentLength(hs[1..])
  }

  datatype Received = Received(statusLine: string, headers: seq<Header>, content: string, leftover: string)

  function ReadReply(x: string): Option<Received> {
    var l := ReadLine(x);
    if l.None? then None
    else
      var h := ReadHeaders(l.value.1);
      if h.None? then None
      else
        var n := ContentLength(h.value.0);
        if n.None? || n.value > |h.value.1| then None
        else Some(Received(l.value.0, h.value.0, h.value.1[..n.value], h.value.1[n.value..]))
  }

  lemma {:induction false} ReadLineAt(line: string, rest: string)
    requires '\r' !in line
    ensures ReadLine(line + (CRLF + rest)) == Some((line, rest))
  {
    var x := line + (CRLF + rest);
    if line == "" {
      assert x == CRLF + rest && x[2..] == rest;
    } else {
      assert x[1..] == line[1..] + (CRLF + rest);
      ReadLineAt(line[1..], rest);
      assert [line[0]] + line[1..] == line;
    }
  }

  lemma {:induction false} ReadHeadersAt(hs: seq<Header>, rest: string)
    requires AllPrintable(hs)
    ensures ReadHeaders(PrintHeaders(hs) + (CRLF + rest)) == Some((hs, rest))
  {
    var x := PrintHeaders(hs) + (CRLF + rest);
    if hs == [] {
      ReadLineAt("", rest);
      assert x == "" + (CRLF + rest);
    } else {
      var h, y := hs[0], PrintHeaders(hs[1..]) + (CRLF + rest);
      var line := h.name + (": " + h.value);
      assert x == line + (CRLF + y);
      HeaderLineIsClean(h);
      ReadLineAt(line, y);
      ReadHeadersAt(hs[1..], rest);
      assert [h] + hs[1..] == hs;
    }
  }

  /** A printed header line has no carriage return and reads back as the header. */
  lemma HeaderLineIsClean(h: Header)
    requires Printable(h)
    ensures var line := h.name + (": " + h.value);
            line != "" && '\r' !in line && ReadHeader(line) == Some(h)
  {
    assert !IsTokenChar(':') && !IsTokenChar('\r') && IsCtl('\r');
    var line := h.name + (": " + h.value);
    assert line == h.name + [':'] + (" " + h.value);
    FindAt(h.name, ':', " " + h.value);
    assert line[..|h.name|] == h.name && line[|h.name| + 2..] == h.value;
  }

  /** A printed reply is read up to its content. */
  lemma ReadHead(rep: Reply)
    requires AllPrintable(rep.headers)
    ensures ReadLine(ReplyText(rep)) == Some((StatusLine(rep.status), PrintHeaders(rep.headers) + (CRLF + rep.content)))
    ensures ReadHeaders(PrintHeaders(rep.headers) + (CRLF + rep.content)) == Some((rep.headers, rep.content))
  {
    var line := StatusLine(rep.status);
    ReadLineAt(line, PrintHeaders(rep.headers) + (CRLF + rep.content));
    ReadHeadersAt(rep.headers, rep.content);
  }

  /** What a reader should get: the whole reply and nothing left over. */
  predicate Framed(rep: Reply) {
    ReadReply(ReplyText(rep)) == Some(Received(StatusLine(rep.status), rep.headers, rep.content, ""))
  }

  /** A reader recovers the content of a reply exactly, with nothing left over, if and only
      if the first Content-Length header holds the content's length. */
  lemma FramedIffLength(rep: Reply)
    requires AllPrintable(rep.headers)
    ensures Framed(rep) <==> ContentLength(rep.headers) == Some(|rep.content|)
  {
    ReadHead(rep);
    var n := ContentLength(rep.headers);
    if n.Some? && n.value <= |rep.content| {
      assert n.value == |rep.content| ==> rep.content[..n.value] == rep.content && rep.content[n.value..] == "";
      assert |rep.content[..n.value]| == n.value;
    }
  }

  // ---------- handle_request ----------

  /** What a request handler can ask of its surroundings. */
  datatype Site = Site(
    docRoot: string,
    files: string -> Option<string>,      // contents of the files that can be opened
    isValidCall: string -> bool,          // rdb_handler::isValidCall
    provider: string -> Option<string>,   // rdb_handler::parse and getResponse
    hex: HexReader)

  predicate HasDotDot(path: string) {
    exists i | 0 <= i < |path| - 1 :: path[i] == '.' && path[i + 1] == '.'
  }

  predicate StartsWith(x: string, prefix: string) {
    prefix <= x
  }

  /** Position of the last `c`, or -1. */
  function FindLast(s: string, c: char): (k: int)
    ensures -1 <= k < |s|
  {
    if s == "" then -1 else if Last(s) == c then |s| - 1 else FindLast(Front(s), c)
  }

  function Extension(path: string): string {
    var slash, dot := FindLast(path, '/'), FindLast(path, '.');
    if dot != -1 && dot > slash then path[dot + 1..] else ""
  }

  function ExtensionToType(extension: string): (mime: string)
    ensures IsFieldText(mime)
  {
    if extension == "gif" then "image/gif"
    else if extension == "htm" then "text/html"
    else if extension == "html" then "text/html"
    else if extension == "jpg" then "image/jpeg"
    else if extension == "png" then "image/png"
    else if extension == "css" then "text/css"
    else "text/plain"
  }

  /** The path of a request that is neither malformed nor outside the document root. */
  function RequestPath(site: Site, uri: string): Option<string> {
    var path := Decode(uri, site.hex);
    if path.None? || path.value == "" || path.value[0] != '/' || HasDotDot(path.value) then None else path
  }

  /** The data provider answers this request. */
  predicate ServedByProvider(site: Site, uri: string) {
    var path := RequestPath(site, uri);
    && path.Some? && StartsWith(path.value, "/rdb/")
    && site.isValidCall(path.value) && site.provider(path.value).Some?
  }

  function FileName(path: string): string
    requires path != ""
  {
    if Last(path) == '/' then path + "index.html" else path
  }

  /** The reply to a request, filled into `rep`. */
  function Handled(site: Site, uri: string, rep: Reply): Reply {
    var path := RequestPath(site, uri);
    if path.None? then StockReply(BadRequest)
    else if StartsWith(path.value, "/rdb/") then
      if !ServedByProvider(site, uri) then StockReply(BadRequest)
      else
        var response := site.provider(path.value).value;
        Reply(Ok,
              [Header("Content-Length", Print(|response|)), Header("Content-Type", "application/json"),
               Header("Access-Control-Allow-Origin", "*")],
              rep.content + response)
    else
      var name := FileName(path.value);
      var file := site.files(site.docRoot + name);
      if file.None? then StockReply(NotFound)
      else
        var content := rep.content + file.value;
        Reply(Ok,
              [Header("Content-Length", Print(|content|)), Header("Content-Type", ExtensionToType(Extension(name)))],
              content)
  }

  method HandleRequest(site: Site, uri: string, given: Reply) returns (rep: Reply)
    ensures rep == Handled(site, uri, given)
  {
    rep := given;
    var ok, path := UrlDecode(uri, site.hex);
    if !ok {
      return StockReply(BadRequest);
    }
    if path == "" || path[0] != '/' || HasDotDot(path) {
      return StockReply(BadRequest);
    }
    if StartsWith(path, "/rdb/") {
      if site.isValidCall(path) {
        var response := site.provider(path);
        if response.Some? {
          rep := rep.(status := Ok);
          rep := rep.(content := rep.content + response.value);
          rep := rep.(headers := [Header("Content-Length", Print(|response.value|)),
                                  Header("Content-Type", "application/json"),
                                  Header("Access-Control-Allow-Origin", "*")]);
          return;
        }
      }
      return StockReply(BadRequest);
    }
    if Last(path) == '/' {
      path := path + "index.html";
    }
    var extension := Extension(path);
    var file := site.files(site.docRoot + path);
    if file.None? {
      return StockReply(NotFound);
    }
    rep := rep.(status := Ok);
    var read := 0;
    while read < |file.value|
      invariant 0 <= read <= |file.value|
      invariant rep == given.(status := Ok, content := given.content + file.value[..read])
    {
      var count := if |file.value| - read < 512 then |file.value| - read else 512;
      assert file.value[..read + count] == file.value[..read] + file.value[read..read + count];
      rep := rep.(content := rep.content + file.value[read..read + count]);
      read := read + count;
    }
    assert file.value[..read] == file.value;
    rep := rep.(headers := [Header("Content-Length", Print(|rep.content|)),
                            Header("Content-Type", ExtensionToType(extension))]);
  }

  lemma NumeralIsText(s: string)
    requires IsNumeral(s)
    ensures IsFieldText(s)
  {
    forall c | c in s ensures !IsCtl(c) {
      assert IsDigit(c);
    }
  }

  predicate IsNameChar(c: char) {
    'A' <= c <= 'Z' || 'a' <= c <= 'z' || c == '-'
  }

  /** The header names the program writes are tokens. */
  lemma NamesAreTokens(name: string)
    requires name != "" && forall i | 0 <= i < |name| :: IsNameChar(name[i])
    ensures IsToken(name)
  {
    forall c | c in name ensures IsTokenChar(c) {
      assert IsNameChar(c);
    }
  }

  lemma OriginIsPrintable()
    ensures Printable(Header("Access-Control-Allow-Origin", "*"))
  {
    NamesAreTokens("Access-Control-Allow-Origin");
    assert IsFieldText("*");
  }

  /** The headers the program writes are printable and start with the length. */
  lemma HeadersArePrintable(n: nat, mime: string, more: seq<Header>)
    requires IsFieldText(mime) && AllPrintable(more)
    ensures var hs := [Header("Content-Length", Print(n)), Header("Content-Type", mime)] + more;
            AllPrintable(hs) && ContentLength(hs) == Some(n)
  {
    var length, kind := Header("Content-Length", Print(n)), Header("Content-Type", mime);
    var hs := [length, kind] + more;
    NumeralIsText(Print(n));
    ValueOfPrint(n);
    NamesAreTokens("Content-Length");
    NamesAreTokens("Content-Type");
    assert hs[1..] == [kind] + more && hs[1..][1..] == more;
    assert Printable(length) && Printable(kind);
  }

  lemma ProviderHeaders(rep: Reply, n: nat)
    requires rep.headers == [Header("Content-Length", Print(n)), Header("Content-Type", "application/json"),
                             Header("Access-Control-Allow-Origin", "*")]
    ensures AllPrintable(rep.headers) && ContentLength(rep.headers) == Some(n)
  {
    var more := [Header("Access-Control-Allow-Origin", "*")];
    OriginIsPrintable();
    assert more[1..] == [];
    HeadersArePrintable(n, "application/json", more);
    assert rep.headers == [Header("Content-Length", Print(n)), Header("Content-Type", "application/json")] + more;
  }

  lemma PageHeaders(rep: Reply, mime: string)
    requires IsFieldText(mime)
    requires rep.headers == [Header("Content-Length", Print(|rep.content|)), Header("Content-Type", mime)]
    ensures AllPrintable(rep.headers) && ContentLength(rep.headers) == Some(|rep.content|)
  {
    HeadersArePrintable(|rep.content|, mime, []);
    assert rep.headers == rep.headers + [];
  }

  lemma StockHeaders(status: Status)
    ensures var rep := StockReply(status);
            AllPrintable(rep.headers) && ContentLength(rep.headers) == Some(|rep.content|)
  {
    PageHeaders(StockReply(status), "text/html");
  }

  /** Every answer carries a length: that of what this call added to the content. */
  lemma HandledHeaders(site: Site, uri: string, given: Reply)
    ensures var rep := Handled(site, uri, given);
            var missed := if ServedByProvider(site, uri) then |given.content| else 0;
            AllPrintable(rep.headers) && ContentLength(rep.headers) == Some(|rep.content| - missed)
  {
    StockHeaders(BadRequest);
    StockHeaders(NotFound);
    var path := RequestPath(site, uri);
    if ServedByProvider(site, uri) {
      var rep := Handled(site, uri, given);
      ProviderHeaders(rep, |rep.content| - |given.content|);
    } else if path.Some? && !StartsWith(path.value, "/rdb/") && site.files(site.docRoot + FileName(path.value)).Some? {
      PageHeaders(Handled(site, uri, given), ExtensionToType(Extension(FileName(path.value))));
    }
  }

  /** Framing of whatever `handle_request` answers, for every site, URI and initial reply:
      the client recovers the reply unless the provider's response was appended to content
      that was already there, because only then Content-Length counts less than is sent. */
  lemma HandledIsFramed(site: Site, uri: string, given: Reply)
    ensures Framed(Handled(site, uri, given)) <==> (given.content == "" || !ServedByProvider(site, uri))
  {
    HandledHeaders(site, uri, given);
    FramedIffLength(Handled(site, uri, given));
  }

  /** Stock replies are framed. */
  lemma StockIsFramed(status: Status)
    ensures Framed(StockReply(status))
  {
    StockHeaders(status);
    FramedIffLength(StockReply(status));
  }

  lemma IndexAddsNoDotDot(path: string)
    requires path != "" && Last(path) == '/' && !HasDotDot(path)
    ensures !HasDotDot(path + "index.html")
  {
    var name := path + "index.html";
    forall i | 0 <= i < |name| - 1 ensures !(name[i] == '.' && name[i + 1] == '.') {
      if i < |path| - 1 {
        assert name[i] == path[i] && name[i + 1] == path[i + 1];
      } else if i >= |path| {
        assert name[i] == "index.html"[i - |path|] && name[i + 1] == "index.html"[i + 1 - |path|];
      }
    }
  }

  /** The answer depends on no file other than those named by an absolute path without
      `..` below the document root. */
  lemma OnlyFilesBelowRoot(site: Site, other: Site, uri: string, given: Reply)
    requires other == site.(files := other.files)
    requires forall p | p != "" && p[0] == '/' && !HasDotDot(p) ::
               site.files(site.docRoot + p) == other.files(site.docRoot + p)
    ensures Handled(site, uri, given) == Handled(other, uri, given)
  {
    var path := RequestPath(site, uri);
    if path.Some? {
      if Last(path.value) == '/' {
        IndexAddsNoDotDot(path.value);
      }
      assert !HasDotDot(FileName(path.value)) && FileName(path.value)[0] == '/';
    }
  }

  /** The provider's answer shows: the same request gets the same reply from two sites that
      differ in their provider only, if and only if the providers answer alike. */
  lemma ProviderShows(site: Site, other: Site, uri: string, given: Reply)
    requires other == site.(provider := other.provider)
    requires ServedByProvider(site, uri) && ServedByProvider(other, uri)
    ensures var path := RequestPath(site, uri).value;
            Handled(site, uri, given) == Handled(other, uri, given) <==> site.provider(path) == other.provider(path)
  {
    var path := RequestPath(site, uri).value;
    var a, b := site.provider(path).value, other.provider(path).value;
    assert (given.content + a)[|given.content|..] == a && (given.content + b)[|given.content|..] == b;
  }
}

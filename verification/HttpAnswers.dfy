/** What the web server answers, branch by branch, in terms of the request's path and the
    files and provider answers it meets. */
module HttpAnswers {
  import opened Text
  import opened Decimal
  import opened HttpRequest
  import opened UrlCoding
  import opened HttpReply

  // ---------- the path ----------

  /** Served are absolute paths without two dots in a row, and all of them. */
  lemma PathIff(site: Site, uri: string, path: string)
    ensures RequestPath(site, uri) == Some(path) <==>
            && Decode(uri, site.hex) == Some(path)
            && path != "" && path[0] == '/'
            && forall i | 0 < i < |path| :: path[i - 1] == '.' ==> path[i] != '.'
  {
    if HasDotDot(path) {
      var i :| 0 <= i < |path| - 1 && path[i] == '.' && path[i + 1] == '.';
      assert path[i + 1 - 1] == '.' && path[i + 1] == '.';
    }
  }

  lemma RefusedPath(site: Site, uri: string, given: Reply)
    requires RequestPath(site, uri).None?
    ensures Handled(site, uri, given).status == BadRequest
  {
  }

  // ---------- files ----------

  /** The file of that name is sent, all of it. */
  lemma FileIsSent(site: Site, uri: string, path: string, name: string, file: string, given: Reply)
    requires RequestPath(site, uri) == Some(path) && !("/rdb/" <= path)
    requires name == if path[|path| - 1] == '/' then path + "index.html" else path
    requires site.files(site.docRoot + name) == Some(file)
    ensures Handled(site, uri, given).status == Ok && Handled(site, uri, given).content == given.content + file
  {
  }

  /** If the reply was empty before, a client that reads it has exactly the file. */
  lemma FileIsReceived(site: Site, uri: string, path: string, name: string, file: string, given: Reply)
    requires RequestPath(site, uri) == Some(path) && !("/rdb/" <= path) && given.content == ""
    requires name == if path[|path| - 1] == '/' then path + "index.html" else path
    requires site.files(site.docRoot + name) == Some(file)
    ensures var rep := Handled(site, uri, given);
            ReadReply(ReplyText(rep)) == Some(Received("HTTP/1.0 200 OK", rep.headers, file, ""))
  {
    FileIsSent(site, uri, path, name, file, given);
    HandledIsFramed(site, uri, given);
    assert "" + file == file;
    ReadsContent(Handled(site, uri, given), file);
  }

  lemma ReadsContent(rep: Reply, file: string)
    requires Framed(rep) && rep.status == Ok && rep.content == file
    ensures ReadReply(ReplyText(rep)) == Some(Received("HTTP/1.0 200 OK", rep.headers, file, ""))
  {
    assert StatusLine(Ok) == "HTTP/1.0 200 OK";
  }

  lemma MissingFile(site: Site, uri: string, path: string, name: string, given: Reply)
    requires RequestPath(site, uri) == Some(path) && !("/rdb/" <= path)
    requires name == if path[|path| - 1] == '/' then path + "index.html" else path
    requires site.files(site.docRoot + name).None?
    ensures Handled(site, uri, given).status == NotFound
  {
  }

  lemma {:induction false} FindLastIs(s: string, c: char)
    ensures FindLast(s, c) >= 0 ==> s[FindLast(s, c)] == c
    ensures forall i | FindLast(s, c) < i < |s| :: s[i] != c
  {
    if s != "" && Last(s) != c {
      FindLastIs(Front(s), c);
      assert forall i | 0 <= i < |s| - 1 :: s[i] == Front(s)[i];
    }
  }

  /** The extension is what follows the last dot of the last segment of the name. */
  lemma ExtensionIs(dir: string, stem: string, ext: string)
    requires '/' !in stem && '/' !in ext && '.' !in ext
    ensures Extension(dir + ("/" + (stem + ("." + ext)))) == ext
  {
    var name := dir + ("/" + (stem + ("." + ext)));
    FindLastIs(name, '/');
    FindLastIs(name, '.');
    var dot := |dir| + 1 + |stem|;
    assert name[|dir|] == '/' && name[dot] == '.' && name[dot + 1..] == ext;
    assert forall i | |dir| < i < |name| :: name[i] != '/' by {
      forall i | |dir| < i < |name| ensures name[i] != '/' {
        if i < dot {
          assert name[i] == stem[i - |dir| - 1];
        } else if i > dot {
          assert name[i] == ext[i - dot - 1];
        }
      }
    }
    assert forall i | dot < i < |name| :: name[i] == ext[i - dot - 1];
  }

  lemma NoExtension(dir: string, last: string)
    requires '/' !in last && '.' !in last
    ensures Extension(dir + ("/" + last)) == ""
  {
    var name := dir + ("/" + last);
    FindLastIs(name, '/');
    FindLastIs(name, '.');
    assert name[|dir|] == '/';
    assert forall i | |dir| < i < |name| :: name[i] == last[i - |dir| - 1];
  }

  /** The type of a file that is sent. */
  lemma TypeOfFile(site: Site, uri: string, path: string, name: string, given: Reply)
    requires RequestPath(site, uri) == Some(path) && !("/rdb/" <= path)
    requires name == if path[|path| - 1] == '/' then path + "index.html" else path
    requires site.files(site.docRoot + name).Some?
    ensures var hs := Handled(site, uri, given).headers;
            |hs| == 2 && hs[1] == Header("Content-Type", ExtensionToType(Extension(name)))
  {
  }

  lemma KnownTypes()
    ensures ExtensionToType("htm") == "text/html" && ExtensionToType("html") == "text/html"
    ensures ExtensionToType("gif") == "image/gif" && ExtensionToType("jpg") == "image/jpeg"
    ensures ExtensionToType("png") == "image/png" && ExtensionToType("css") == "text/css"
  {
  }

  lemma OtherTypes(ext: string)
    requires ext !in ["htm", "html", "gif", "jpg", "png", "css"]
    ensures ExtensionToType(ext) == "text/plain"
  {
  }

  // ---------- the data provider ----------

  /** The provider's answer is sent as JSON that any page may read. */
  lemma AnswerIsSent(site: Site, uri: string, path: string, response: string, given: Reply)
    requires RequestPath(site, uri) == Some(path) && "/rdb/" <= path
    requires site.isValidCall(path) && site.provider(path) == Some(response)
    ensures var rep := Handled(site, uri, given);
            && rep.status == Ok && rep.content == given.content + response
            && |rep.headers| == 3 && rep.headers[1] == Header("Content-Type", "application/json")
            && rep.headers[2] == Header("Access-Control-Allow-Origin", "*")
  {
  }

  lemma NoAnswer(site: Site, uri: string, path: string, given: Reply)
    requires RequestPath(site, uri) == Some(path) && "/rdb/" <= path
    requires !site.isValidCall(path) || site.provider(path).None?
    ensures Handled(site, uri, given).status == BadRequest
  {
  }

  // ---------- the status ----------

  /** The codes of `reply::status_type`. */
  function Code(status: Status): nat {
    match status
    case Ok => 200
    case Created => 201
    case Accepted => 202
    case NoContent => 204
    case MultipleChoices => 300
    case MovedPermanently => 301
    case MovedTemporarily => 302
    case NotModified => 304
    case BadRequest => 400
    case Unauthorized => 401
    case Forbidden => 403
    case NotFound => 404
    case InternalServerError => 500
    case NotImplemented => 501
    case BadGateway => 502
    case ServiceUnavailable => 503
  }

  lemma ThreeDigits(s: string)
    requires |s| == 3 && IsNumeral(s)
    ensures Value(s) == 100 * DigitValue(s[0]) + 10 * DigitValue(s[1]) + DigitValue(s[2])
  {
    assert Front(Front(Front(s))) == "";
    assert Value(Front(Front(s))) == DigitValue(s[0]);
  }

  /** The status line of every reply carries its code. */
  lemma StatusLineShowsCode(status: Status)
    ensures var line := StatusLine(status);
            && |line| > 13 && line[..9] == "HTTP/1.0 " && line[12] == ' '
            && IsNumeral(line[9..12]) && Value(line[9..12]) == Code(status)
  {
    var line, reason := StatusLine(status), Reason(status);
    assert line[..9] == "HTTP/1.0 " && line[9..] == reason;
    ReasonShowsCode(status);
    var digits := [reason[0], reason[1], reason[2]];
    assert line[9..12] == digits;
    ThreeDigits(digits);
  }

  predicate Shows(r: string, code: nat) {
    && |r| > 4 && IsDigit(r[0]) && IsDigit(r[1]) && IsDigit(r[2]) && r[3] == ' '
    && code == 100 * DigitValue(r[0]) + 10 * DigitValue(r[1]) + DigitValue(r[2])
  }

  lemma ClientErrorShowsCode(status: Status)
    requires 400 <= Code(status) < 500
    ensures Shows(ErrorReason(status), Code(status))
  {
  }

  lemma ServerErrorShowsCode(status: Status)
    requires 500 <= Code(status)
    ensures Shows(ErrorReason(status), Code(status))
  {
  }

  lemma SuccessShowsCode(status: Status)
    requires Code(status) < 300
    ensures Shows(Reason(status), Code(status))
  {
  }

  lemma RedirectShowsCode(status: Status)
    requires 300 <= Code(status) < 400
    ensures Shows(Reason(status), Code(status))
  {
  }

  lemma ReasonShowsCode(status: Status)
    ensures Shows(Reason(status), Code(status))
  {
    if Code(status) < 300 {
      SuccessShowsCode(status);
    } else if Code(status) < 400 {
      RedirectShowsCode(status);
    } else if Code(status) < 500 {
      ClientErrorShowsCode(status);
    } else {
      ServerErrorShowsCode(status);
    }
  }

  /** A stock reply has the status asked for, and an HTML page as long as its header says. */
  lemma StockReplyIs(status: Status)
    ensures var rep := StockReply(status);
            && rep.status == status && |rep.headers| == 2
            && rep.headers[0] == Header("Content-Length", Print(|rep.content|))
            && rep.headers[1] == Header("Content-Type", "text/html")
  {
  }

  /** The page is titled with the reason of the status line and repeats code and reason; there
      is none for `Ok`, and the one for 204 says "204 Content". */
  lemma StockPage(status: Status)
    ensures var page, line := StockReply(status).content, StatusLine(status);
            && |line| > 13
            && (status == Ok <==> page == "")
            && (status != Ok ==>
                  page == "<html><head><title>" + line[13..] + "</title></head><body><h1>"
                        + (if status == NoContent then "204 Content" else line[9..]) + "</h1></body></html>")
  {
    StatusLineShowsCode(status);
    var line, reason := StatusLine(status), Reason(status);
    assert line[9..] == reason && line[13..] == reason[4..];
  }
}

/** Parsing of the request line and selection of the handler (`handleClient`). */
module Routing {
  import opened Common
  import opened Text

  /** The first two space-separated tokens of a request line. */
  datatype RequestLine = RequestLine(httpMethod: string, target: string)

  /**
   * `readLine()` gives None at end of input.  The line is split on every space
   * (empty tokens kept); fewer than two tokens is a malformed line.
   */
  function ParseRequestLine(line: Option<string>): (r: Option<RequestLine>)
    ensures r.Some? <==> line.Some? && |Split(line.value, ' ')| >= 2
    ensures r.Some? ==> ' ' !in r.value.httpMethod && ' ' !in r.value.target
  {
    if line.None? then None
    else
      var parts := Split(line.value, ' ');
      SplitPiecesLackSep(line.value, ' ');
      if |parts| < 2 then None else Some(RequestLine(parts[0], parts[1]))
  }

  /** The handler chosen for a decoded request path. */
  datatype Route =
    | Html                       // `serveHtml`
    | Info                       // `serveInfo`
    | Files(subPath: string)     // `serveJsonList(subPath)`
    | Download(path: string)     // `serveFile(path)`
    | NotFound                   // `send404`

  const FilesPrefix: string := "/api/files"
  const DownloadPrefix: string := "/download/"

  /**
   * The `when` of `handleClient`, first match wins.  The listing sub-path is
   * everything from index 11 on, whatever character stands at index 10.
   */
  function RouteOf(path: string): Route
  {
    if path == "/" || path == "/files" then Html
    else if path == "/api/info" then Info
    else if FilesPrefix <= path then Files(if |path| > 10 then path[11..] else "")
    else if DownloadPrefix <= path then Download(path)
    else NotFound
  }

  /**
   * A well-formed `METHOD SP TARGET SP VERSION` line yields its method and
   * target, whatever follows them.
   */
  lemma ParseOfWellFormedLine(httpMethod: string, target: string, rest: string)
    requires ' ' !in httpMethod && ' ' !in target
    ensures ParseRequestLine(Some(httpMethod + " " + target + " " + rest)) == Some(RequestLine(httpMethod, target))
  {
    var line := httpMethod + " " + target + " " + rest;
    assert line == httpMethod + [' '] + (target + [' '] + rest);
    SplitAround(httpMethod, target + [' '] + rest, ' ');
    SplitAround(target, rest, ' ');
    SplitWithoutSep(httpMethod, ' ');
    SplitWithoutSep(target, ' ');
  }

  /** A `METHOD SP TARGET` line with no version yields its method and target too. */
  lemma ParseOfTwoTokenLine(httpMethod: string, target: string)
    requires ' ' !in httpMethod && ' ' !in target
    ensures ParseRequestLine(Some(httpMethod + " " + target)) == Some(RequestLine(httpMethod, target))
  {
    assert httpMethod + " " + target == httpMethod + [' '] + target;
    SplitAround(httpMethod, target, ' ');
    SplitWithoutSep(httpMethod, ' ');
    SplitWithoutSep(target, ' ');
  }

  /**
   * Conversely, a line that parses to a method and a target is those two
   * tokens, alone or followed by a space and anything else.
   */
  lemma ParsedLineShape(line: string, httpMethod: string, target: string)
    requires ParseRequestLine(Some(line)) == Some(RequestLine(httpMethod, target))
    ensures line == httpMethod + " " + target || httpMethod + " " + target + " " <= line
  {
    var parts := Split(line, ' ');
    JoinSplit(line, ' ');
    assert parts[..2][..1] == [httpMethod];
    assert Join(parts[..2], ' ') == httpMethod + " " + target;
    if |parts| == 2 {
      assert parts[..2] == parts;
    } else {
      JoinPrefix(parts, 2, ' ');
    }
  }

  /** A line without any space is malformed. */
  lemma SingleTokenIsMalformed(line: string)
    requires ' ' !in line
    ensures ParseRequestLine(Some(line)).None?
  {
    SplitWithoutSep(line, ' ');
  }

  /**
   * The five rules never overlap, so the first-match order changes nothing:
   * each handler is chosen exactly when its own condition holds.
   */
  lemma RouteTable(path: string)
    ensures RouteOf(path) == Html <==> path == "/" || path == "/files"
    ensures RouteOf(path) == Info <==> path == "/api/info"
    ensures RouteOf(path).Files? <==> FilesPrefix <= path
    ensures RouteOf(path).Download? <==> DownloadPrefix <= path
    ensures RouteOf(path) == NotFound <==>
      !(path == "/" || path == "/files" || path == "/api/info" || FilesPrefix <= path || DownloadPrefix <= path)
  {
    if FilesPrefix <= path {
      assert path[..10] == FilesPrefix;
      assert path[1] == 'a';
    }
    if DownloadPrefix <= path {
      assert path[..10] == DownloadPrefix;
      assert path[1] == 'd';
    }
  }

  /**
   * `/api/files` lists the root and `/api/files/<s>` lists `<s>`; in general the
   * character after `/api/files` is dropped, whatever it is.
   */
  lemma FilesSubPath(c: char, s: string)
    ensures RouteOf(FilesPrefix) == Files("")
    ensures RouteOf(FilesPrefix + [c] + s) == Files(s)
  {
    var path := FilesPrefix + [c] + s;
    assert path[..10] == FilesPrefix;
    assert path[11..] == s;
    assert path[1] == 'a' && path[5] == 'f';
  }

  /** Every path under `/download/` goes to the download handler unchanged. */
  lemma DownloadRoute(s: string)
    ensures RouteOf(DownloadPrefix + s) == Download(DownloadPrefix + s)
  {
    var path := DownloadPrefix + s;
    assert path[..10] == DownloadPrefix;
    assert path[1] == 'd';
  }
}

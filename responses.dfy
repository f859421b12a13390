/** The response frames the server writes (`sendResponse`, `send404`, the download header block). */
module Responses {
  import opened Common
  import opened Numbers
  import opened Streams
  import opened Text

  const CacheControl: string := "Cache-Control: " + "no-cache, no-store, must-revalidate"
  const ContentLengthField: string := "Content-Length: "
  /** The download header line up to the file name, which follows as it is, then a closing quote. */
  const DispositionStart: string := "Content-Disposition: " + "attachment; filename=\""

  /** The 64 KiB copy buffer of `serveFile`. */
  const BufferSize: nat := 65536

  /** `sendResponse`'s header block; the empty last line ends the headers. */
  function ResponseHead(status: string, contentType: string, length: nat): seq<string>
  {
    ["HTTP/1.1 " + status,
     "Content-Type: " + contentType,
     ContentLengthField + NatToString(length),
     CacheControl,
     "Connection: close",
     ""]
  }

  /** `send404`'s header block; no body follows. */
  function NotFoundHead(): seq<string>
  {
    ["HTTP/1.1 404 Not Found", ContentLengthField + "0", ""]
  }

  /** The header block of a successful download; a length is only sent when positive. */
  function StreamHead(downloadName: string, fileSize: int): seq<string>
  {
    ["HTTP/1.1 200 OK",
     "Content-Type: application/octet-stream",
     DispositionStart + downloadName + "\""]
    + (if fileSize > 0 then [ContentLengthField + NatToString(fileSize)] else [])
    + [CacheControl, "Connection: close", ""]
  }

  /** What follows the header block: nothing, one `write` of the whole content, or the copy loop's chunks. */
  datatype Body = NoBody | Whole(bytes: seq<byte>) | Streamed(bytes: seq<byte>)

  /**
   * What handling one connection writes.  `NoReply(closed)`: nothing at all,
   * with the connection closed by the handler or (when an exception escaped)
   * left open.
   */
  datatype Reply = NoReply(closed: bool) | Reply(head: seq<string>, body: Body)

  /** `sendResponse(status, contentType, content)` */
  function PageReply(status: string, contentType: string, content: seq<byte>): Reply
  {
    Reply(ResponseHead(status, contentType, |content|), Whole(content))
  }

  const NotFoundReply: Reply := Reply(NotFoundHead(), NoBody)

  /** The writes `ws` are the ones `r` describes. */
  predicate Conforms(ws: seq<Write>, r: Reply)
  {
    match r
    case NoReply(_) => ws == []
    case Reply(head, NoBody) => ws == Lines(head)
    case Reply(head, Whole(bytes)) => ws == Lines(head) + [Data(bytes)]
    case Reply(head, Streamed(bytes)) =>
      |head| <= |ws| && ws[..|head|] == Lines(head) && Chunked(ws[|head|..], bytes, BufferSize)
  }

  /** The value of the first header line starting with `field`, if any. */
  function HeaderValue(head: seq<string>, field: string): (v: Option<string>)
    ensures v.Some? ==> exists i | 0 <= i < |head| :: head[i] == field + v.value
  {
    if head == [] then None
    else if field <= head[0] then
      assert head[0] == field + head[0][|field|..];
      Some(head[0][|field|..])
    else
      var v := HeaderValue(head[1..], field);
      if v.Some? then
        var i :| 0 <= i < |head[1..]| && head[1..][i] == field + v.value;
        assert head[i + 1] == field + v.value;
        v
      else v
  }

  lemma HeaderValueSkip(line: string, rest: seq<string>, field: string)
    requires !(field <= line)
    ensures HeaderValue([line] + rest, field) == HeaderValue(rest, field)
  {
    assert ([line] + rest)[1..] == rest;
  }

  lemma HeaderValueHere(line: string, rest: seq<string>, field: string, value: string)
    requires line == field + value
    ensures HeaderValue([line] + rest, field) == Some(value)
  {
    assert field <= line && line[|field|..] == value;
  }

  /** `sendResponse` declares exactly the body's length, readable back as a number. */
  lemma ResponseContentLength(status: string, contentType: string, length: nat)
    ensures var v := HeaderValue(ResponseHead(status, contentType, length), ContentLengthField);
      && v == Some(NatToString(length))
      && DigitsValue(v.value) == length
  {
    var h := ResponseHead(status, contentType, length);
    assert h == [h[0]] + ([h[1]] + ([h[2]] + h[3..]));
    assert h[0][0] == 'H';
    HeaderValueSkip(h[0], h[1..], ContentLengthField);
    assert h[1][8] == 'T';
    assert h[1..] == [h[1]] + h[2..];
    HeaderValueSkip(h[1], h[2..], ContentLengthField);
    assert h[2..] == [h[2]] + h[3..];
    HeaderValueHere(h[2], h[3..], ContentLengthField, NatToString(length));
    DigitsValueOfNatToString(length);
  }

  /** `send404` declares a zero length. */
  lemma NotFoundContentLength()
    ensures HeaderValue(NotFoundHead(), ContentLengthField) == Some("0")
  {
    var h := NotFoundHead();
    assert h[0][0] == 'H';
    assert h == [h[0]] + h[1..];
    HeaderValueSkip(h[0], h[1..], ContentLengthField);
    assert h[1..] == [h[1]] + h[2..];
    HeaderValueHere(h[1], h[2..], ContentLengthField, "0");
  }

  /** Lines that do not carry the field can be skipped when looking it up. */
  lemma {:induction false} HeaderValueAfter(a: seq<string>, b: seq<string>, field: string)
    requires forall i | 0 <= i < |a| :: !(field <= a[i])
    ensures HeaderValue(a + b, field) == HeaderValue(b, field)
    decreases |a|
  {
    if a != [] {
      assert a + b == [a[0]] + (a[1..] + b);
      HeaderValueSkip(a[0], a[1..] + b, field);
      HeaderValueAfter(a[1..], b, field);
    } else {
      assert a + b == b;
    }
  }

  /** The fixed lines before and after the optional length line of a download. */
  lemma StreamHeadFixedLines(downloadName: string)
    ensures var before := ["HTTP/1.1 200 OK",
                           "Content-Type: application/octet-stream",
                           DispositionStart + downloadName + "\""];
      forall i | 0 <= i < |before| :: !(ContentLengthField <= before[i])
    ensures var after := [CacheControl, "Connection: close", ""];
      forall i | 0 <= i < |after| :: !(ContentLengthField <= after[i])
  {
    var d := DispositionStart + downloadName + "\"";
    assert d[8] == 'D';
    assert "HTTP/1.1 200 OK"[0] == 'H';
    assert "Content-Type: application/octet-stream"[8] == 'T';
    assert CacheControl[8] == 'n';
    assert "Connection: close"[3] == 'n';
  }

  /**
   * A download declares a length exactly when the size is positive, and then
   * declares that size.
   */
  lemma StreamContentLength(downloadName: string, fileSize: int)
    ensures var v := HeaderValue(StreamHead(downloadName, fileSize), ContentLengthField);
      && (v.Some? <==> fileSize > 0)
      && (fileSize > 0 ==> v == Some(NatToString(fileSize)) && DigitsValue(v.value) == fileSize)
  {
    var before := ["HTTP/1.1 200 OK",
                   "Content-Type: application/octet-stream",
                   DispositionStart + downloadName + "\""];
    var after := [CacheControl, "Connection: close", ""];
    var middle := if fileSize > 0 then [ContentLengthField + NatToString(fileSize)] else [];
    StreamHeadFixedLines(downloadName);
    assert StreamHead(downloadName, fileSize) == before + (middle + after);
    HeaderValueAfter(before, middle + after, ContentLengthField);
    HeaderValueAfter(after, [], ContentLengthField);
    assert after + [] == after;
    if fileSize > 0 {
      assert middle + after == [middle[0]] + after;
      HeaderValueHere(middle[0], after, ContentLengthField, NatToString(fileSize));
      DigitsValueOfNatToString(fileSize);
    } else {
      assert middle + after == after;
    }
  }

  /**
   * The header lines a client reads: each `println` argument ends one line,
   * and every '\n' inside an argument ends another.
   */
  function WireLines(head: seq<string>): seq<string>
  {
    if head == [] then [] else Split(head[0], '\n') + WireLines(head[1..])
  }

  /** Arguments without a line break are the lines on the wire. */
  lemma {:induction false} WireLinesOfPlainHead(head: seq<string>)
    requires forall i | 0 <= i < |head| :: '\n' !in head[i]
    ensures WireLines(head) == head
  {
    if head != [] {
      SplitWithoutSep(head[0], '\n');
      WireLinesOfPlainHead(head[1..]);
    }
  }

  /** The fixed lines of a download head hold no line break. */
  lemma StatusLinesLackBreak()
    ensures '\n' !in "HTTP/1.1 200 OK" && '\n' !in "Content-Type: application/octet-stream"
  {
  }

  lemma DispositionLacksBreak()
    ensures '\n' !in DispositionStart && '\n' !in "\""
  {
  }

  lemma TrailerLinesLackBreak()
    ensures '\n' !in CacheControl && '\n' !in "Connection: close"
  {
  }

  lemma FieldNameLacksBreak()
    ensures '\n' !in ContentLengthField
  {
  }

  /** A decimal numeral holds no line break. */
  lemma NumeralLacksBreak(n: nat)
    ensures '\n' !in NatToString(n)
  {
    var s := NatToString(n);
    forall k | 0 <= k < |s| ensures s[k] != '\n' {
      assert IsDigit(s[k]);
    }
  }

  /**
   * On the wire, a download whose name has no line break declares a length
   * exactly when the size is positive, and then declares that size.
   */
  lemma StreamWireContentLength(downloadName: string, fileSize: int)
    requires '\n' !in downloadName
    ensures var v := HeaderValue(WireLines(StreamHead(downloadName, fileSize)), ContentLengthField);
      && (v.Some? <==> fileSize > 0)
      && (fileSize > 0 ==> v == Some(NatToString(fileSize)) && DigitsValue(v.value) == fileSize)
  {
    var h := StreamHead(downloadName, fileSize);
    StatusLinesLackBreak();
    DispositionLacksBreak();
    TrailerLinesLackBreak();
    if fileSize > 0 {
      NumeralLacksBreak(fileSize);
    }
    assert forall i | 0 <= i < |h| :: '\n' !in h[i];
    WireLinesOfPlainHead(h);
    StreamContentLength(downloadName, fileSize);
  }

  /**
   * The name is copied into the `Content-Disposition` line as it is, so a
   * name holding a line break adds header lines of its own: a name carrying
   * `Content-Length: <value>` on a line of its own makes a client read that
   * value ahead of any size the server declares.
   */
  lemma NameInjectsLength(pre: string, value: string, post: string, fileSize: int)
    requires '\n' !in pre && '\n' !in value && '\n' !in post
    ensures var name := pre + "\n" + ContentLengthField + value + "\n" + post;
      HeaderValue(WireLines(StreamHead(name, fileSize)), ContentLengthField) == Some(value)
  {
    var name := pre + "\n" + ContentLengthField + value + "\n" + post;
    var h := StreamHead(name, fileSize);
    InjectedWireLines(pre, value, post, fileSize);
    StreamHeadStart(name, fileSize);
    StreamHeadFixedLines(name);
    assert !(ContentLengthField <= DispositionStart + pre) by {
      assert (DispositionStart + pre)[8] == 'D';
    }
    InjectedLengthFound(h[0], h[1], DispositionStart + pre, value, post + "\"", WireLines(h[3..]));
  }

  /** With such a name, the download head reaches the wire as these lines. */
  lemma InjectedWireLines(pre: string, value: string, post: string, fileSize: int)
    requires '\n' !in pre && '\n' !in value && '\n' !in post
    ensures var name := pre + "\n" + ContentLengthField + value + "\n" + post;
      var h := StreamHead(name, fileSize);
      |h| > 3
      && WireLines(h)
         == [h[0]] + ([h[1]] + ([DispositionStart + pre] + ([ContentLengthField + value] + ([post + "\""] + WireLines(h[3..])))))
  {
    var name := pre + "\n" + ContentLengthField + value + "\n" + post;
    var h := StreamHead(name, fileSize);
    StreamHeadStart(name, fileSize);
    StatusLinesLackBreak();
    WireLinesOfThirdLine(h);
    assert name == pre + "\n" + (ContentLengthField + value) + "\n" + post;
    FieldNameLacksBreak();
    InjectedDispositionLines(pre, ContentLengthField + value, post);
    var w := WireLines(h[3..]);
    var a, b, c := DispositionStart + pre, ContentLengthField + value, post + "\"";
    assert [a, b, c] + w == [a] + ([b] + ([c] + w));
  }

  /** Two lines without a break reach the wire unchanged, ahead of the third line's pieces. */
  lemma WireLinesOfThirdLine(h: seq<string>)
    requires |h| > 3 && '\n' !in h[0] && '\n' !in h[1]
    ensures WireLines(h) == [h[0]] + ([h[1]] + (Split(h[2], '\n') + WireLines(h[3..])))
  {
    var h1, h2 := h[1..], h[2..];
    assert h1[1..] == h2 && h2[1..] == h[3..];
    SplitWithoutSep(h[0], '\n');
    SplitWithoutSep(h[1], '\n');
    assert WireLines(h) == [h[0]] + WireLines(h1);
    assert WireLines(h1) == [h[1]] + WireLines(h2);
    assert WireLines(h2) == Split(h[2], '\n') + WireLines(h[3..]);
  }

  /** The first three arguments of a download head. */
  lemma StreamHeadStart(downloadName: string, fileSize: int)
    ensures var h := StreamHead(downloadName, fileSize);
      && |h| > 3
      && h[0] == "HTTP/1.1 200 OK" && h[1] == "Content-Type: application/octet-stream"
      && h[2] == DispositionStart + downloadName + "\""
  {
  }

  /** The `Content-Disposition` argument with such a name is three lines. */
  lemma InjectedDispositionLines(pre: string, b: string, post: string)
    requires '\n' !in pre && '\n' !in b && '\n' !in post
    ensures var d := DispositionStart;
      Split(d + (pre + "\n" + b + "\n" + post) + "\"", '\n') == [d + pre, b, post + "\""]
  {
    var d := DispositionStart;
    var a, c := d + pre, post + "\"";
    assert d + (pre + "\n" + b + "\n" + post) + "\"" == a + ['\n'] + b + ['\n'] + c;
    SplitAround(a + ['\n'] + b, c, '\n');
    SplitAround(a, b, '\n');
    DispositionLacksBreak();
    SplitWithoutSep(a, '\n');
    SplitWithoutSep(b, '\n');
    SplitWithoutSep(c, '\n');
  }

  /** In those lines the injected length is the first `Content-Length` a client meets. */
  lemma InjectedLengthFound(l0: string, l1: string, a: string, value: string, c: string, rest: seq<string>)
    requires !(ContentLengthField <= l0) && !(ContentLengthField <= l1) && !(ContentLengthField <= a)
    ensures HeaderValue([l0] + ([l1] + ([a] + ([ContentLengthField + value] + ([c] + rest)))), ContentLengthField)
         == Some(value)
  {
    var b := ContentLengthField + value;
    var t3 := [c] + rest;
    var t2 := [b] + t3;
    var t1 := [a] + t2;
    var t0 := [l1] + t1;
    HeaderValueHere(b, t3, ContentLengthField, value);
    HeaderValueSkip(a, t2, ContentLengthField);
    HeaderValueSkip(l1, t1, ContentLengthField);
    HeaderValueSkip(l0, t0, ContentLengthField);
  }
}

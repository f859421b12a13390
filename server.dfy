/**
 * One connection of the QuickDrop web server (`WebServer.handleClient` and the
 * handlers it dispatches to), from the request line to what is written back.
 */
module Server {
  import opened Common
  import opened Text
  import opened Numbers
  import opened Storage
  import opened Handles
  import opened Streams
  import opened Listing
  import opened Download
  import opened Responses
  import opened Routing

  /** The `/api/info` record: there is no `is_private` field. */
  datatype ServerInfo = ServerInfo(rootFolderName: string, isSharedMode: bool)

  /** The two JSON documents the server produces. */
  datatype Json = InfoJson(info: ServerInfo) | ListJson(entries: seq<Entry>)

  /**
   * What a request depends on: the handle list the server was built with, the
   * external storage directory, and the library behaviour left abstract
   * (`URLDecoder.decode` in UTF-8, None when it throws; `org.json` text as
   * bytes; the bytes of the embedded HTML page).
   */
  datatype Config = Config(
    sharedUris: Option<seq<Uri>>,
    storage: Storage,
    urlDecode: string -> Option<string>,
    toJson: Json -> seq<byte>,
    page: seq<byte>)

  /** `serveInfo`'s record. */
  function InfoOf(sharedUris: Option<seq<Uri>>): ServerInfo
  {
    var isSharedMode := SharedMode(sharedUris);
    ServerInfo(if isSharedMode then "Shared Files" else "Internal Storage", isSharedMode)
  }

  /** What a download hit streams: the name for the header, the size (-1 when unknown) and the bytes. */
  datatype Opened = Opened(downloadName: string, fileSize: int, content: seq<byte>)

  /**
   * The stream `serveFile` opens for a decoded file name: a shared handle's
   * bytes under its display name with an unknown size, or a stored file's bytes
   * under its own name and length; None when nothing can be opened.
   */
  function OpenedOf(cfg: Config, filename: string): Option<Opened>
  {
    match Resolve(cfg.sharedUris, cfg.storage, filename)
    case Miss => None
    case SharedHit(index) =>
      var uri := cfg.sharedUris.value[index];
      if uri.content.None? then None else Some(Opened(FileName(uri), -1, uri.content.value))
    case FileHit(file) =>
      Some(Opened(cfg.storage.Name(file), cfg.storage.Length(file), cfg.storage.nodes[file].content))
  }

  /** What `serveFile` writes for a path under `/download/`. */
  function FileReply(cfg: Config, path: string): Reply
  {
    match DownloadFilename(cfg.urlDecode, path)
    case None => NoReply(false)
    case Some(filename) =>
      match OpenedOf(cfg, filename)
      case None => NotFoundReply
      case Some(Opened(downloadName, fileSize, content)) =>
        Reply(StreamHead(downloadName, fileSize), Streamed(content))
  }

  /** What a GET for the decoded `path` is answered with. */
  function Answer(cfg: Config, path: string, now: int): Reply
  {
    match RouteOf(path)
    case Html => PageReply("200 OK", "text/html", cfg.page)
    case Info => PageReply("200 OK", "application/json", cfg.toJson(InfoJson(InfoOf(cfg.sharedUris))))
    case Files(subPath) =>
      PageReply("200 OK", "application/json",
                cfg.toJson(ListJson(ListingOf(cfg.sharedUris, cfg.storage, subPath, now))))
    case Download(p) => FileReply(cfg, p)
    case NotFound => NotFoundReply
  }

  /** What handling one connection writes, given its request line and the clock reading. */
  function Exchange(cfg: Config, requestLine: Option<string>, now: int): Reply
  {
    match ParseRequestLine(requestLine)
    case None => NoReply(true)
    case Some(RequestLine(httpMethod, target)) =>
      match cfg.urlDecode(target)
      case None => NoReply(false)
      case Some(path) => if httpMethod != "GET" then NoReply(true) else Answer(cfg, path, now)
  }

  /** `after` is `before` followed by the writes `r` describes. */
  predicate Appended(before: seq<Write>, after: seq<Write>, r: Reply)
  {
    |before| <= |after| && after[..|before|] == before && Conforms(after[|before|..], r)
  }

  /** The number of body bytes a reply carries. */
  function BodyLength(b: Body): nat
  {
    match b
    case NoBody => 0
    case Whole(bytes) => |bytes|
    case Streamed(bytes) => |bytes|
  }

  method SendResponse(out: PrintStream, status: string, contentType: string, content: seq<byte>)
    modifies out
    ensures out.log == old(out.log) + Lines(ResponseHead(status, contentType, |content|)) + [Data(content)]
    ensures out.closed == old(out.closed)
  {
    out.Println("HTTP/1.1 " + status);
    out.Println("Content-Type: " + contentType);
    out.Println(ContentLengthField + NatToString(|content|));
    out.Println(CacheControl);
    out.Println("Connection: close");
    out.Println("");
    out.WriteAll(content);
  }

  method Send404(out: PrintStream)
    modifies out
    ensures out.log == old(out.log) + Lines(NotFoundHead()) && out.closed == old(out.closed)
  {
    out.Println("HTTP/1.1 404 Not Found");
    out.Println(ContentLengthField + "0");
    out.Println("");
  }

  method ServeHtml(cfg: Config, out: PrintStream)
    modifies out
    ensures Appended(old(out.log), out.log, PageReply("200 OK", "text/html", cfg.page))
    ensures out.closed == old(out.closed)
  {
    SendResponse(out, "200 OK", "text/html", cfg.page);
    assert out.log[|old(out.log)|..] == Lines(ResponseHead("200 OK", "text/html", |cfg.page|)) + [Data(cfg.page)];
  }

  method ServeInfo(cfg: Config, out: PrintStream)
    modifies out
    ensures Appended(old(out.log), out.log,
                     PageReply("200 OK", "application/json", cfg.toJson(InfoJson(InfoOf(cfg.sharedUris)))))
    ensures out.closed == old(out.closed)
  {
    var isSharedMode := cfg.sharedUris.Some? && |cfg.sharedUris.value| > 0;
    var rootName := if isSharedMode then "Shared Files" else "Internal Storage";
    var json := cfg.toJson(InfoJson(ServerInfo(rootName, isSharedMode)));
    SendResponse(out, "200 OK", "application/json", json);
    assert out.log[|old(out.log)|..] == Lines(ResponseHead("200 OK", "application/json", |json|)) + [Data(json)];
  }

  method ServeJsonList(cfg: Config, subPath: string, now: int, out: PrintStream)
    modifies out
    ensures Appended(old(out.log), out.log,
                     PageReply("200 OK", "application/json",
                               cfg.toJson(ListJson(ListingOf(cfg.sharedUris, cfg.storage, subPath, now)))))
    ensures out.closed == old(out.closed)
  {
    var entries := BuildListing(cfg.sharedUris, cfg.storage, subPath, now);
    var json := cfg.toJson(ListJson(entries));
    SendResponse(out, "200 OK", "application/json", json);
    assert out.log[|old(out.log)|..] == Lines(ResponseHead("200 OK", "application/json", |json|)) + [Data(json)];
  }

  /**
   * The copy loop of `serveFile`: read into a 64 KiB buffer until the stream
   * reports -1, writing each filled prefix.  What is written is exactly the
   * rest of the stream, in order, in pieces of 1 to 65536 bytes.
   */
  method CopyStream(input: InputStream, out: PrintStream)
    requires input.Valid()
    modifies input, out
    ensures input.Valid() && input.pos == |input.data| && input.closed == old(input.closed)
    ensures |old(out.log)| <= |out.log| && out.log[..|old(out.log)|] == old(out.log)
    ensures Chunked(out.log[|old(out.log)|..], input.data[old(input.pos)..], BufferSize)
    ensures out.closed == old(out.closed)
  {
    var buffer := new byte[BufferSize];
    ghost var start := input.pos;
    ghost var before := out.log;
    ghost var chunks: seq<Write> := [];
    while true
      invariant input.Valid() && start <= input.pos && input.closed == old(input.closed)
      invariant out.log == before + chunks
      invariant Chunked(chunks, input.data[start..input.pos], BufferSize)
      invariant out.closed == old(out.closed)
      decreases |input.data| - input.pos
    {
      ghost var from := input.pos;
      var bytesRead := input.Read(buffer);
      if bytesRead == -1 {
        break;
      }
      out.WriteRange(buffer, 0, bytesRead);
      ghost var piece := input.data[from..input.pos];
      PayloadAppend(chunks, piece);
      assert input.data[start..input.pos] == input.data[start..from] + piece;
      chunks := chunks + [Data(piece)];
    }
    assert out.log[|before|..] == chunks;
  }

  /** The header block `serveFile` prints before the bytes of a download. */
  method SendStreamHead(out: PrintStream, downloadName: string, fileSize: int)
    modifies out
    ensures out.log == old(out.log) + Lines(StreamHead(downloadName, fileSize))
    ensures out.closed == old(out.closed)
  {
    out.Println("HTTP/1.1 200 OK");
    out.Println("Content-Type: application/octet-stream");
    out.Println(DispositionStart + downloadName + "\"");
    if fileSize > 0 {
      out.Println(ContentLengthField + NatToString(fileSize));
    }
    out.Println(CacheControl);
    out.Println("Connection: close");
    out.Println("");
  }

  lemma StreamConforms(before: seq<Write>, head: seq<string>, headed: seq<Write>, after: seq<Write>, bytes: seq<byte>)
    requires headed == before + Lines(head)
    requires |headed| <= |after| && after[..|headed|] == headed
    requires Chunked(after[|headed|..], bytes, BufferSize)
    ensures Appended(before, after, Reply(head, Streamed(bytes)))
  {
    var ws := after[|before|..];
    assert |headed| == |before| + |head|;
    assert ws[..|head|] == headed[|before|..] by {
      forall i | 0 <= i < |head| ensures ws[i] == headed[|before| + i] {
        assert ws[i] == after[|before| + i] == after[..|headed|][|before| + i];
      }
    }
    assert headed[|before|..] == Lines(head);
    assert ws[|head|..] == after[|headed|..];
  }

  /**
   * The resolution steps of `serveFile`: start from the last '/'-piece as the
   * name and an unknown size; a `shared_item_` name (with a handle list present)
   * opens the handle at its parsed index when in range, any other name opens
   * the stored file when it exists and is not a directory.
   */
  method OpenDownload(cfg: Config, filename: string) returns (input: InputStream?, fileSize: int, downloadName: string)
    ensures input == null <==> OpenedOf(cfg, filename).None?
    ensures input != null ==>
      && fresh(input) && input.Valid() && input.pos == 0 && !input.closed
      && OpenedOf(cfg, filename) == Some(Opened(downloadName, fileSize, input.data))
  {
    input := null;
    fileSize := -1;
    downloadName := Last(Split(filename, '/'));
    if cfg.sharedUris.Some? && SharedPrefix <= filename {
      var index := ToIntOrNull(filename[|SharedPrefix|..]);
      if index.Some? && 0 <= index.value < |cfg.sharedUris.value| {
        var uri := cfg.sharedUris.value[index.value];
        if uri.content.Some? {
          input := new InputStream(uri.content.value);
        }
        downloadName := FileName(uri);
      }
    } else {
      var file := Key(filename);
      if cfg.storage.IsFile(file) {
        input := new InputStream(cfg.storage.nodes[file].content);
        fileSize := cfg.storage.Length(file);
        downloadName := cfg.storage.Name(file);
      }
    }
  }

  /**
   * `serveFile`: decode the file name, resolve it step by step as the source
   * does, then either write the download header block and stream the bytes, or
   * send the 404 frame.  Returns false when the second decoding throws, in
   * which case nothing is written.
   */
  method ServeFile(cfg: Config, path: string, out: PrintStream) returns (completed: bool)
    modifies out
    ensures completed <==> FileReply(cfg, path) != NoReply(false)
    ensures Appended(old(out.log), out.log, FileReply(cfg, path))
    ensures out.closed == old(out.closed)
  {
    var decoded := DownloadFilename(cfg.urlDecode, path);
    if decoded.None? {
      assert out.log[|old(out.log)|..] == [];
      return false;
    }
    var input, fileSize, downloadName := OpenDownload(cfg, decoded.value);
    if input != null {
      SendStreamHead(out, downloadName, fileSize);
      ghost var headed := out.log;
      CopyStream(input, out);
      input.Close();
      StreamConforms(old(out.log), StreamHead(downloadName, fileSize), headed, out.log, input.data);
    } else {
      Send404(out);
      assert out.log[|old(out.log)|..] == Lines(NotFoundHead());
    }
    completed := true;
  }

  /**
   * `handleClient` for one accepted connection: read the request line, drop a
   * missing or malformed one, decode the target, answer GET requests by route,
   * and close.  When a decoding throws, the exception is caught and logged by
   * the thread and the connection is not closed.
   */
  method HandleClient(cfg: Config, requestLine: Option<string>, now: int, out: PrintStream)
    modifies out
    ensures Appended(old(out.log), out.log, Exchange(cfg, requestLine, now))
    ensures out.closed == (old(out.closed) || Exchange(cfg, requestLine, now) != NoReply(false))
  {
    if requestLine.None? {
      out.Close();
      assert out.log[|old(out.log)|..] == [];
      return;
    }
    var parts := Split(requestLine.value, ' ');
    if |parts| < 2 {
      out.Close();
      assert out.log[|old(out.log)|..] == [];
      return;
    }
    var httpMethod := parts[0];
    var decoded := cfg.urlDecode(parts[1]);
    if decoded.None? {
      assert out.log[|old(out.log)|..] == [];
      return;
    }
    var path := decoded.value;
    if httpMethod == "GET" {
      match RouteOf(path)
      case Html => ServeHtml(cfg, out);
      case Info => ServeInfo(cfg, out);
      case Files(subPath) => ServeJsonList(cfg, subPath, now, out);
      case Download(_) =>
        var completed := ServeFile(cfg, path, out);
        if !completed {
          return;
        }
      case NotFound =>
        Send404(out);
        assert out.log[|old(out.log)|..] == Lines(NotFoundHead());
    } else {
      assert out.log[|old(out.log)|..] == [];
    }
    out.Close();
  }

  /** A missing line, or one with fewer than two tokens, is closed with nothing written. */
  lemma MalformedLineWritesNothing(cfg: Config, requestLine: Option<string>, now: int)
    requires requestLine.None? || |Split(requestLine.value, ' ')| < 2
    ensures Exchange(cfg, requestLine, now) == NoReply(true)
  {
  }

  /**
   * Any method but GET gets no response bytes; the connection is closed unless
   * decoding the target threw first.
   */
  lemma NonGetWritesNothing(cfg: Config, line: string, httpMethod: string, target: string, now: int)
    requires ParseRequestLine(Some(line)) == Some(RequestLine(httpMethod, target)) && httpMethod != "GET"
    ensures var r := Exchange(cfg, Some(line), now);
      r.NoReply? && (r.closed <==> cfg.urlDecode(target).Some?)
  {
  }

  /** A GET line whose target decodes is answered by route. */
  lemma GetLine(cfg: Config, line: string, target: string, now: int)
    requires ParseRequestLine(Some(line)) == Some(RequestLine("GET", target)) && cfg.urlDecode(target).Some?
    ensures Exchange(cfg, Some(line), now) == Answer(cfg, cfg.urlDecode(target).value, now)
  {
  }

  /**
   * A GET whose target decodes is always answered, except a download whose
   * path has a segment the second decoding rejects: that one gets nothing and
   * the connection is left open.
   */
  lemma GetIsAnswered(cfg: Config, line: string, target: string, now: int)
    requires ParseRequestLine(Some(line)) == Some(RequestLine("GET", target)) && cfg.urlDecode(target).Some?
    ensures var path := cfg.urlDecode(target).value;
      var r := Exchange(cfg, Some(line), now);
      && (r.Reply? <==> !(DownloadPrefix <= path && DownloadFilename(cfg.urlDecode, path).None?))
      && (r.NoReply? ==> !r.closed)
  {
    GetLine(cfg, line, target, now);
    var path := cfg.urlDecode(target).value;
    RouteTable(path);
    if RouteOf(path).Download? && DownloadFilename(cfg.urlDecode, path).Some? {
      assert OpenedOf(cfg, DownloadFilename(cfg.urlDecode, path).value).None? ==> FileReply(cfg, path) == NotFoundReply;
    }
  }

  /**
   * Whenever a response carries `Content-Length`, it is the number of body
   * bytes that follow; only a download may omit it (a shared handle, whose size
   * is unknown, or an empty file).
   */
  lemma DeclaredLengthIsBodyLength(cfg: Config, requestLine: Option<string>, now: int)
    ensures var r := Exchange(cfg, requestLine, now);
      r.Reply? ==>
        var v := HeaderValue(r.head, ContentLengthField);
        && (v.Some? ==> AllDigits(v.value) && DigitsValue(v.value) == BodyLength(r.body))
        && (v.None? ==> r.body.Streamed? && (|r.body.bytes| == 0 || OpenedFromHandle(cfg, requestLine)))
  {
    var r := Exchange(cfg, requestLine, now);
    if r.Reply? {
      var rl := ParseRequestLine(requestLine).value;
      var path := cfg.urlDecode(rl.target).value;
      assert r == Answer(cfg, path, now);
      match RouteOf(path) {
        case Html =>
          PageReplyLength("200 OK", "text/html", cfg.page);
        case Info =>
          PageReplyLength("200 OK", "application/json", cfg.toJson(InfoJson(InfoOf(cfg.sharedUris))));
        case Files(subPath) =>
          PageReplyLength("200 OK", "application/json",
                          cfg.toJson(ListJson(ListingOf(cfg.sharedUris, cfg.storage, subPath, now))));
        case Download(_) =>
          FileReplyLength(cfg, path);
        case NotFound =>
          NotFoundLength();
      }
    }
  }

  /** A page declares its own length. */
  lemma PageReplyLength(status: string, contentType: string, content: seq<byte>)
    ensures var r := PageReply(status, contentType, content);
      var v := HeaderValue(r.head, ContentLengthField);
      v.Some? && AllDigits(v.value) && DigitsValue(v.value) == BodyLength(r.body)
  {
    ResponseContentLength(status, contentType, |content|);
  }

  /** The 404 reply declares the empty body it has. */
  lemma NotFoundLength()
    ensures var v := HeaderValue(NotFoundReply.head, ContentLengthField);
      v.Some? && AllDigits(v.value) && DigitsValue(v.value) == BodyLength(NotFoundReply.body)
  {
    NotFoundContentLength();
    assert DigitsValue("0") == DigitsValue("") * 10 + 0;
  }

  /**
   * A download declares the length of what it streams, or nothing when it
   * streams a handle or an empty file.
   */
  lemma FileReplyLength(cfg: Config, path: string)
    ensures var r := FileReply(cfg, path);
      r.Reply? ==>
        var v := HeaderValue(r.head, ContentLengthField);
        && (v.Some? ==> AllDigits(v.value) && DigitsValue(v.value) == BodyLength(r.body))
        && (v.None? ==>
              && r.body.Streamed?
              && (|r.body.bytes| == 0
                  || Resolve(cfg.sharedUris, cfg.storage, DownloadFilename(cfg.urlDecode, path).value).SharedHit?))
  {
    match DownloadFilename(cfg.urlDecode, path) {
      case None =>
      case Some(filename) =>
        match OpenedOf(cfg, filename) {
          case None =>
            NotFoundLength();
          case Some(Opened(downloadName, fileSize, content)) =>
            StreamContentLength(downloadName, fileSize);
        }
    }
  }

  /** The request is a download that opened a shared handle. */
  predicate OpenedFromHandle(cfg: Config, requestLine: Option<string>)
  {
    match ParseRequestLine(requestLine)
    case None => false
    case Some(rl) =>
      match cfg.urlDecode(rl.target)
      case None => false
      case Some(path) =>
        match DownloadFilename(cfg.urlDecode, path)
        case None => false
        case Some(filename) => Resolve(cfg.sharedUris, cfg.storage, filename).SharedHit?
  }

  /**
   * A GET whose target decodes to `/download/shared_item_<i>` streams the
   * i-th handle's bytes under its display name, without a length, or answers
   * 404 when the handle cannot be opened.
   */
  lemma SharedItemDownload(cfg: Config, index: nat, line: string, target: string, now: int)
    requires cfg.sharedUris.Some? && index < |cfg.sharedUris.value| <= IntMax
    requires ParseRequestLine(Some(line)) == Some(RequestLine("GET", target))
    requires cfg.urlDecode(target) == Some(DownloadPrefix + SharedId(index))
    requires cfg.urlDecode(SharedId(index)) == Some(SharedId(index))
    ensures var uri := cfg.sharedUris.value[index];
      Exchange(cfg, Some(line), now)
      == if uri.content.None? then NotFoundReply
         else Reply(StreamHead(FileName(uri), -1), Streamed(uri.content.value))
  {
    GetDownload(cfg, line, target, SharedId(index), now);
    SharedFileReply(cfg, index);
  }

  /** `serveFile` on a handle identifier opens that handle. */
  lemma SharedFileReply(cfg: Config, index: nat)
    requires cfg.sharedUris.Some? && index < |cfg.sharedUris.value| <= IntMax
    requires cfg.urlDecode(SharedId(index)) == Some(SharedId(index))
    ensures var uri := cfg.sharedUris.value[index];
      FileReply(cfg, DownloadPrefix + SharedId(index))
      == if uri.content.None? then NotFoundReply
         else Reply(StreamHead(FileName(uri), -1), Streamed(uri.content.value))
  {
    var id := SharedId(index);
    SharedIdIsPlain(index);
    DownloadFilenameOfSegment(cfg.urlDecode, id);
    ListedSharedItemResolves(cfg.sharedUris.value, cfg.storage, index);
    SharedHitReply(cfg, DownloadPrefix + id, id, index);
  }

  /** A download that resolves to a handle streams that handle, or answers 404 when it cannot be opened. */
  lemma SharedHitReply(cfg: Config, path: string, filename: string, index: nat)
    requires DownloadFilename(cfg.urlDecode, path) == Some(filename)
    requires Resolve(cfg.sharedUris, cfg.storage, filename) == SharedHit(index)
    ensures var uri := cfg.sharedUris.value[index];
      FileReply(cfg, path)
      == if uri.content.None? then NotFoundReply
         else Reply(StreamHead(FileName(uri), -1), Streamed(uri.content.value))
  {
  }

  /** A handle identifier has neither spaces nor slashes, so it is one path segment. */
  lemma SharedIdIsPlain(index: nat)
    ensures ' ' !in SharedId(index) && '/' !in SharedId(index)
  {
    var id := SharedId(index);
    assert ' ' !in id && '/' !in id by {
      forall i | 0 <= i < |id| ensures id[i] != ' ' && id[i] != '/' {
        if i >= |SharedPrefix| {
          assert id[i] == NatToString(index)[i - |SharedPrefix|];
        }
      }
    }
  }

  /**
   * A GET whose target decodes to `/download/<p>` naming a stored file, say
   * `GET /download/my%20file.txt` for `my file.txt`, streams exactly that
   * file's bytes under its own name, with its length, unless the name is
   * taken for a handle identifier.
   */
  lemma StoredFileDownload(cfg: Config, line: string, target: string, p: string, filename: string, now: int)
    requires ParseRequestLine(Some(line)) == Some(RequestLine("GET", target))
    requires cfg.urlDecode(target) == Some(DownloadPrefix + p)
    requires DownloadFilename(cfg.urlDecode, DownloadPrefix + p) == Some(filename)
    requires cfg.sharedUris.None? || !(SharedPrefix <= filename)
    requires cfg.storage.IsFile(Key(filename))
    ensures var content := cfg.storage.nodes[Key(filename)].content;
      Exchange(cfg, Some(line), now)
      == Reply(StreamHead(cfg.storage.Name(Key(filename)), |content|), Streamed(content))
  {
    GetDownload(cfg, line, target, p, now);
    StoredHitReply(cfg, DownloadPrefix + p, filename);
  }

  /**
   * End to end in browse mode: a GET for the path a listing reports for a
   * regular file streams that file, under its listed name, provided the second
   * decoding leaves every segment of that path alone.
   */
  lemma ListedFileDownload(cfg: Config, subPath: string, listedAt: int, k: nat, line: string, target: string, now: int)
    requires !SharedMode(cfg.sharedUris) && cfg.storage.WellFormed()
    requires k < |ListingOf(cfg.sharedUris, cfg.storage, subPath, listedAt)|
    requires var e := ListingOf(cfg.sharedUris, cfg.storage, subPath, listedAt)[k];
      && cfg.storage.IsFile(TargetDir(subPath) + [e.name])
      && (cfg.sharedUris.None? || !(SharedPrefix <= e.path))
      && ParseRequestLine(Some(line)) == Some(RequestLine("GET", target))
      && cfg.urlDecode(target) == Some(DownloadPrefix + e.path)
      && forall i | 0 <= i < |Split(e.path, '/')| :: cfg.urlDecode(Split(e.path, '/')[i]) == Some(Split(e.path, '/')[i])
    ensures var e := ListingOf(cfg.sharedUris, cfg.storage, subPath, listedAt)[k];
      var content := cfg.storage.nodes[TargetDir(subPath) + [e.name]].content;
      Exchange(cfg, Some(line), now) == Reply(StreamHead(e.name, |content|), Streamed(content))
  {
    var e := ListingOf(cfg.sharedUris, cfg.storage, subPath, listedAt)[k];
    BrowsePathDenotesChild(cfg.sharedUris, cfg.storage, subPath, listedAt, k);
    DownloadFilenameOfPlainPath(cfg.urlDecode, e.path);
    StoredFileDownload(cfg, line, target, e.path, e.path, now);
  }

  /**
   * The other side, for a file listed at the root in browse mode: the second
   * decoding turns its name into another one, or throws.  A throw leaves the
   * connection without a reply, and a new name that is no stored file gets the
   * 404 frame (as for `a+b.txt`, read back as `a b.txt`).
   */
  lemma ListedRootNameRedecoded(cfg: Config, listedAt: int, k: nat, line: string, target: string, now: int)
    requires !SharedMode(cfg.sharedUris) && cfg.storage.WellFormed()
    requires k < |ListingOf(cfg.sharedUris, cfg.storage, "", listedAt)|
    requires var e := ListingOf(cfg.sharedUris, cfg.storage, "", listedAt)[k];
      && ParseRequestLine(Some(line)) == Some(RequestLine("GET", target))
      && cfg.urlDecode(target) == Some(DownloadPrefix + e.path)
    ensures var e := ListingOf(cfg.sharedUris, cfg.storage, "", listedAt)[k];
      cfg.urlDecode(e.path).None? ==> Exchange(cfg, Some(line), now) == NoReply(false)
    ensures var e := ListingOf(cfg.sharedUris, cfg.storage, "", listedAt)[k];
      var d := cfg.urlDecode(e.path);
      d.Some? && (cfg.sharedUris.None? || !(SharedPrefix <= d.value)) && !cfg.storage.IsFile(Key(d.value))
      ==> Exchange(cfg, Some(line), now) == NotFoundReply
  {
    var e := ListingOf(cfg.sharedUris, cfg.storage, "", listedAt)[k];
    BrowseModeListing(cfg.sharedUris, cfg.storage, "", listedAt);
    var children := cfg.storage.nodes[TargetDir("")].children;
    NonEmptyMembers(children);
    var j :| 0 <= j < |children| && children[j] == e.name;
    assert '/' !in e.path;
    GetDownload(cfg, line, target, e.path, now);
    DownloadFilenameOfSegment(cfg.urlDecode, e.path);
    var d := cfg.urlDecode(e.path);
    if d.Some? && (cfg.sharedUris.None? || !(SharedPrefix <= d.value)) {
      StorageNameResolution(cfg.sharedUris, cfg.storage, d.value);
    }
    MissReply(cfg, DownloadPrefix + e.path);
  }

  /** A GET whose target decodes to a path under `/download/` goes to `serveFile`. */
  lemma GetDownload(cfg: Config, line: string, target: string, p: string, now: int)
    requires ParseRequestLine(Some(line)) == Some(RequestLine("GET", target))
    requires cfg.urlDecode(target) == Some(DownloadPrefix + p)
    ensures Exchange(cfg, Some(line), now) == FileReply(cfg, DownloadPrefix + p)
  {
    GetLine(cfg, line, target, now);
    DownloadRoute(p);
  }

  /**
   * A download whose file name denotes a stored file, and is not taken for a
   * handle identifier, streams exactly that file's bytes under its own name,
   * with its length.
   */
  lemma StoredHitReply(cfg: Config, path: string, filename: string)
    requires DownloadFilename(cfg.urlDecode, path) == Some(filename)
    requires cfg.sharedUris.None? || !(SharedPrefix <= filename)
    requires cfg.storage.IsFile(Key(filename))
    ensures var content := cfg.storage.nodes[Key(filename)].content;
      FileReply(cfg, path) == Reply(StreamHead(cfg.storage.Name(Key(filename)), |content|), Streamed(content))
  {
    StorageNameResolution(cfg.sharedUris, cfg.storage, filename);
  }

  /**
   * A download whose name resolves to nothing gets the 404 frame; one whose
   * segments fail the second decoding gets nothing, and the socket stays open.
   */
  lemma MissReply(cfg: Config, path: string)
    ensures DownloadFilename(cfg.urlDecode, path).None? ==> FileReply(cfg, path) == NoReply(false)
    ensures var f := DownloadFilename(cfg.urlDecode, path);
      f.Some? && Resolve(cfg.sharedUris, cfg.storage, f.value) == Miss ==> FileReply(cfg, path) == NotFoundReply
  {
  }

  /** `serveFile` on the path of a stored file, whose segments decode to themselves, opens that file. */
  lemma StoredFileReply(cfg: Config, p: string)
    requires forall i | 0 <= i < |Split(p, '/')| :: cfg.urlDecode(Split(p, '/')[i]) == Some(Split(p, '/')[i])
    requires cfg.sharedUris.None? || !(SharedPrefix <= p)
    requires cfg.storage.IsFile(Key(p))
    ensures var content := cfg.storage.nodes[Key(p)].content;
      FileReply(cfg, DownloadPrefix + p) == Reply(StreamHead(cfg.storage.Name(Key(p)), |content|), Streamed(content))
  {
    DownloadFilenameOfPlainPath(cfg.urlDecode, p);
    StoredHitReply(cfg, DownloadPrefix + p, p);
  }

  /** A GET whose target decodes to `/api/files/<s>` answers with the listing of `s` as JSON. */
  lemma ListingRequest(cfg: Config, line: string, target: string, s: string, now: int)
    requires ParseRequestLine(Some(line)) == Some(RequestLine("GET", target))
    requires cfg.urlDecode(target) == Some(FilesPrefix + "/" + s)
    ensures Exchange(cfg, Some(line), now)
      == PageReply("200 OK", "application/json",
                   cfg.toJson(ListJson(ListingOf(cfg.sharedUris, cfg.storage, s, now))))
  {
    GetLine(cfg, line, target, now);
    assert FilesPrefix + "/" + s == FilesPrefix + ['/'] + s;
    FilesSubPath('/', s);
  }

  /**
   * What `/api/info` reports matches what the root listing shows: in shared
   * mode the root lists one `shared_item_` file of size 0 per handle; otherwise
   * it lists the stored root's children, each under its own name.
   */
  lemma InfoAgreesWithListing(sharedUris: Option<seq<Uri>>, st: Storage, now: int)
    ensures InfoOf(sharedUris).isSharedMode ==>
      var l := ListingOf(sharedUris, st, "", now);
      |l| == |sharedUris.value|
      && forall k | 0 <= k < |l| :: SharedPrefix <= l[k].path && !l[k].isDir && l[k].size == 0
    ensures !InfoOf(sharedUris).isSharedMode ==>
      var l := ListingOf(sharedUris, st, "", now);
      forall k | 0 <= k < |l| ::
        && l[k].path == l[k].name
        && l[k].isDir == st.IsDirectory([l[k].name])
        && l[k].size == st.Length([l[k].name])
  {
    if SharedMode(sharedUris) {
      SharedModeListing(sharedUris.value, st, "", now);
    } else {
      BrowseModeListing(sharedUris, st, "", now);
      var l := ListingOf(sharedUris, st, "", now);
      assert TargetDir("") == [];
      forall k | 0 <= k < |l| ensures l[k].path == l[k].name && [] + [l[k].name] == [l[k].name] {
      }
    }
  }
}

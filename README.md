# QuickDrop web server: a Dafny model of one request

QuickDrop is an Android app that shares files over the local network. It starts a small
HTTP/1.1 server (`WebServer`). The server answers five kinds of request:

- `GET /` and `GET /files` return the embedded HTML page;
- `GET /api/info` returns a JSON record saying whether the server shares a fixed list of
  content handles ("shared mode") or the whole external storage ("browse mode");
- `GET /api/files[/<sub-path>]` returns a JSON array describing the shared handles, or
  the children of a storage directory;
- `GET /download/<path>` streams a shared handle or a stored file as an attachment, in
  chunks of at most 64 KiB;
- any other GET gets the three-line 404 frame; other methods and malformed request lines get
  no bytes at all.

This project models what one connection does, from the request line it reads to the bytes
and lines written back. The modules follow the program's structure:

| module | what it holds |
|---|---|
| `Common` | `Option` and a `byte` newtype |
| `Text` | Kotlin's `split`, `joinToString`, `last` and `lastIndexOf` on strings, with their round-trip laws |
| `Numbers` | decimal rendering of lengths and indices, and Kotlin's `toIntOrNull` (sign, digits, 32-bit range) |
| `Storage` | the external storage tree as `java.io.File` sees it: a map from segment paths to file and directory nodes, and `File(root, child)` as `Key(child)` |
| `Handles` | shared content handles (`Uri`), `getFileName` and the `shared_item_<i>` identifiers |
| `Listing` | the records of `serveJsonList`, the two loops that build them, and the mode-by-mode description of the listing |
| `Streams` | the socket's `PrintStream`, as a log of `println`/`write` calls, and an `InputStream` over a byte sequence, as classes |
| `Routing` | request-line parsing and the route table of `handleClient` |
| `Responses` | the header blocks and the reply shapes, plus `Content-Length` lookup |
| `Download` | the two decodings of a download path and how a file name resolves to a handle, a stored file or a miss |
| `Server` | the handlers as methods on the output stream, each proved against `Exchange`, the function saying what one connection writes |

`HandleClient` states what every connection writes. `Exchange(cfg, line, now)` describes
the whole output as a `Reply`:

- nothing, with the socket closed or left open; or
- a header block followed by no body, the whole body, or the body in 1..65536-byte chunks.

The lemmas then state what the server promises in terms of `Exchange`: the route table, the
declared length, the listing contents, and which listed paths download: a listed path
streams its file when the second decoding of a download leaves its segments alone, and
names that this decoding changes ('+', '%') do not.

## Model

All source paths are relative to the repository root.

| member | source | states |
|---|---|---|
| `Text.Split` | app/src/main/java/com/example/quickdrop/WebServer.kt:61 | `split` on one character never returns an empty list |
| `Text.Join` | app/src/main/java/com/example/quickdrop/WebServer.kt:589 | `joinToString` joins the pieces with the separator between consecutive pieces; its round trips with `Split` are `Text.JoinSplit` and `Text.SplitJoin` |
| `Text.Last` | app/src/main/java/com/example/quickdrop/WebServer.kt:594 | `last()` of a split is its final piece; `Text.AfterLastIsLastPiece` relates it to `lastIndexOf` |
| `Text.SplitPiecesLackSep` | app/src/main/java/com/example/quickdrop/WebServer.kt:61-68 | no piece of a split holds the separator, so request tokens hold no space |
| `Text.SplitWithoutSep` | app/src/main/java/com/example/quickdrop/WebServer.kt:594 | a string without the separator splits into itself alone |
| `Text.SplitAround` | app/src/main/java/com/example/quickdrop/WebServer.kt:61 | splitting `a + sep + b` yields the pieces of `a` followed by the pieces of `b` |
| `Text.JoinSplit` | app/src/main/java/com/example/quickdrop/WebServer.kt:589 | joining the pieces of a split with the same separator gives back the string |
| `Text.SplitJoin` | app/src/main/java/com/example/quickdrop/WebServer.kt:589 | splitting a join of separator-free pieces gives back the pieces |
| `Text.NonEmpty` | app/src/main/java/com/example/quickdrop/WebServer.kt:571 | filtering out empty names never lengthens the list |
| `Text.NonEmptyMembers` | app/src/main/java/com/example/quickdrop/WebServer.kt:571 | the filter keeps exactly the non-empty names: every kept name is non-empty and listed, and every non-empty name is kept |
| `Text.NonEmptyAppend` | app/src/main/java/com/example/quickdrop/WebServer.kt:606 | filtering empty pieces distributes over concatenation |
| `Text.LastIndexOf` | app/src/main/java/com/example/quickdrop/WebServer.kt:656 | the result is -1 or an index holding the character, and no later index holds it |
| `Text.AfterLastIsLastPiece` | app/src/main/java/com/example/quickdrop/WebServer.kt:656-658 | the text after the last '/' is the last piece of `split("/")`, so `getFileName` and `serveFile` name files by the same rule |
| `Numbers.NatToString` | app/src/main/java/com/example/quickdrop/WebServer.kt:667 | a number renders as at least one ASCII digit, with no leading zero unless it is 0 |
| `Numbers.ToIntOrNull` | app/src/main/java/com/example/quickdrop/WebServer.kt:597 | a value comes back exactly when the text is an optional `+` or `-` followed by at least one ASCII digit and the number it denotes lies in the 32-bit signed range; the value is that number |
| `Numbers.DigitsValueOfNatToString` | app/src/main/java/com/example/quickdrop/WebServer.kt:667 | the digits written for a length read back as that length |
| `Numbers.ToIntOrNullOfNatToString` | app/src/main/java/com/example/quickdrop/WebServer.kt:553 | the index written into `shared_item_<i>` parses back to `i` whenever `i` fits in 32 bits |
| `Numbers.ToIntOrNullOfPlusSign` | app/src/main/java/com/example/quickdrop/WebServer.kt:597 | a leading `+` is accepted and changes nothing |
| `Numbers.ToIntOrNullOfLeadingZero` | app/src/main/java/com/example/quickdrop/WebServer.kt:597 | a leading zero is accepted and changes nothing |
| `Storage.Storage.Length` | app/src/main/java/com/example/quickdrop/WebServer.kt:610 | a file's length is its byte count, and a missing node has length 0 |
| `Storage.Storage.Name` | app/src/main/java/com/example/quickdrop/WebServer.kt:611 | a file's name is the last segment of its path |
| `Storage.Storage.IsDirectory` | app/src/main/java/com/example/quickdrop/WebServer.kt:566 | `exists() && isDirectory`: a node is present and is a directory |
| `Storage.Storage.IsFile` | app/src/main/java/com/example/quickdrop/WebServer.kt:608 | `exists() && !isDirectory`: a node is present and is a regular file |
| `Storage.Storage.LastModified` | app/src/main/java/com/example/quickdrop/WebServer.kt:578 | `lastModified()` of a node in milliseconds, 0 for a missing one; `Listing.BrowseModeListing` states that records carry it |
| `Storage.Key` | app/src/main/java/com/example/quickdrop/WebServer.kt:606 | `File(root, child)` denotes a path of non-empty segments without '/' |
| `Storage.KeyOfEmpty` | app/src/main/java/com/example/quickdrop/WebServer.kt:564 | the empty sub-path denotes the root |
| `Storage.KeyOfChildPath` | app/src/main/java/com/example/quickdrop/WebServer.kt:574 | `subPath/name` denotes the child `name` of the directory `subPath` denotes |
| `Storage.KeyOfName` | app/src/main/java/com/example/quickdrop/WebServer.kt:574 | a non-empty name without '/' denotes that child of the root |
| `Storage.ParentSegmentKept` | app/src/main/java/com/example/quickdrop/WebServer.kt:606 | a `..` segment is kept as it is: nothing confines a download to the storage root |
| `Handles.FileNameFallback` | app/src/main/java/com/example/quickdrop/WebServer.kt:654-661 | without a display name, the name is the last '/'-piece of the handle's path (never holding '/'), or "file" when there is no path |
| `Handles.SharedIdIndex` | app/src/main/java/com/example/quickdrop/WebServer.kt:596-597 | a handle identifier starts with `shared_item_` and its suffix parses back to the index |
| `Handles.SharedId` | app/src/main/java/com/example/quickdrop/WebServer.kt:553 | the path `shared_item_<i>` a listing reports for the i-th handle; `Handles.SharedIdIndex` states that the download side parses it back to `i` |
| `Handles.FileName` | app/src/main/java/com/example/quickdrop/WebServer.kt:639-662 | `getFileName`: the display name when there is one, else the text after the last '/' of the path, else "file"; `Handles.FileNameFallback` states the fallback cases |
| `Listing.BuildListing` | app/src/main/java/com/example/quickdrop/WebServer.kt:544-583 | both accumulation loops build exactly `ListingOf` for the mode and sub-path |
| `Listing.ListingOf` | app/src/main/java/com/example/quickdrop/WebServer.kt:544-583 | the listing of a sub-path, mode by mode; `Listing.SharedModeListing` and `Listing.BrowseModeListing` state its contents, and `Listing.BuildListing` is proved equal to it |
| `Listing.SharedEntry` | app/src/main/java/com/example/quickdrop/WebServer.kt:551-556 | the record of the `index`-th handle: its display name, path `shared_item_<index>`, not a directory, size 0, the clock reading; `Listing.SharedEntriesAt` states it per handle |
| `Listing.SharedEntries` | app/src/main/java/com/example/quickdrop/WebServer.kt:549-558 | the records the handle loop accumulates, one per handle in order; `Listing.SharedEntriesAt` states their contents |
| `Listing.BrowseEntry` | app/src/main/java/com/example/quickdrop/WebServer.kt:572-578 | the record of one child: its name, relative path, type, length and time; `Listing.BrowseEntriesAt` states it per child |
| `Listing.BrowseEntries` | app/src/main/java/com/example/quickdrop/WebServer.kt:568-581 | the records the child loop accumulates, skipping empty names, in order; `Listing.BrowseEntriesAt` states their contents |
| `Listing.SharedMode` | app/src/main/java/com/example/quickdrop/WebServer.kt:547 | shared mode is a present, non-empty handle list; `Listing.SharedModeListing` and `Listing.BrowseModeListing` state the listing in each mode |
| `Listing.TargetDir` | app/src/main/java/com/example/quickdrop/WebServer.kt:564 | the directory browse mode lists: the root for an empty sub-path, else `File(root, subPath)`; `Listing.BrowseModeListing` states its listing |
| `Listing.RelativePath` | app/src/main/java/com/example/quickdrop/WebServer.kt:574 | the path a browse record reports; `Listing.BrowsePathDenotesChild` states that it denotes the very child the record describes |
| `Listing.SharedEntriesAt` | app/src/main/java/com/example/quickdrop/WebServer.kt:549-558 | the i-th shared record describes the i-th handle, one record per handle |
| `Listing.BrowseEntriesAt` | app/src/main/java/com/example/quickdrop/WebServer.kt:568-581 | the k-th browse record describes the k-th non-empty child name, one record per such name |
| `Listing.SharedModeListing` | app/src/main/java/com/example/quickdrop/WebServer.kt:547-560 | in shared mode, the root lists each handle as a file of size 0 with path `shared_item_<i>`, and any other sub-path lists nothing |
| `Listing.BrowseModeListing` | app/src/main/java/com/example/quickdrop/WebServer.kt:561-583 | in browse mode, a missing or non-directory target lists nothing; a directory lists its non-empty children in order, with relative path, type, length and time |
| `Listing.BrowsePathDenotesChild` | app/src/main/java/com/example/quickdrop/WebServer.kt:574 | the path a browse record reports denotes, through `File(root, path)`, the very child it describes |
| `Streams.Lines` | app/src/main/java/com/example/quickdrop/WebServer.kt:665-670 | a header block is one `println` per line, in order |
| `Streams.PayloadAppend` | app/src/main/java/com/example/quickdrop/WebServer.kt:627 | one more `write` appends its bytes to what the log carries |
| `Streams.PrintStream.constructor` | app/src/main/java/com/example/quickdrop/WebServer.kt:53 | a fresh output stream is open and has nothing written |
| `Streams.PrintStream.Println` | app/src/main/java/com/example/quickdrop/WebServer.kt:665 | `println` appends one line and changes nothing else |
| `Streams.PrintStream.WriteRange` | app/src/main/java/com/example/quickdrop/WebServer.kt:627 | `write(buffer, 0, n)` appends the first `n` buffer bytes |
| `Streams.PrintStream.WriteAll` | app/src/main/java/com/example/quickdrop/WebServer.kt:671 | `write(content)` appends the whole content |
| `Streams.PrintStream.Close` | app/src/main/java/com/example/quickdrop/WebServer.kt:83 | closing writes nothing |
| `Streams.InputStream.constructor` | app/src/main/java/com/example/quickdrop/WebServer.kt:609 | a fresh input stream is open and positioned at the first byte |
| `Streams.InputStream.Read` | app/src/main/java/com/example/quickdrop/WebServer.kt:626 | with a non-empty buffer, `read(buffer)` returns -1 exactly at the end of the data; otherwise it copies the next 1..buffer-size bytes into the front of the buffer and advances by that many |
| `Streams.InputStream.Close` | app/src/main/java/com/example/quickdrop/WebServer.kt:630 | closing keeps the data and the position |
| `Routing.ParseRequestLine` | app/src/main/java/com/example/quickdrop/WebServer.kt:55-67 | a line parses exactly when it is present and splits on ' ' into at least two tokens; the method and target hold no space |
| `Routing.ParseOfWellFormedLine` | app/src/main/java/com/example/quickdrop/WebServer.kt:61-68 | `method target rest` parses to that method and target, whatever `rest` holds |
| `Routing.ParseOfTwoTokenLine` | app/src/main/java/com/example/quickdrop/WebServer.kt:61-68 | `method target` with no version parses to that method and target too |
| `Routing.ParsedLineShape` | app/src/main/java/com/example/quickdrop/WebServer.kt:61-68 | conversely, a line that parses to a method and a target is exactly those two tokens joined by a space, alone or followed by a space and anything else |
| `Routing.SingleTokenIsMalformed` | app/src/main/java/com/example/quickdrop/WebServer.kt:61-65 | a line without a space is dropped |
| `Routing.RouteOf` | app/src/main/java/com/example/quickdrop/WebServer.kt:71-80 | the `when` of `handleClient`, first match first; `Routing.RouteTable` states that each handler is chosen exactly when its own condition holds |
| `Routing.RouteTable` | app/src/main/java/com/example/quickdrop/WebServer.kt:71-80 | each handler is chosen exactly when its own condition holds, so the first-match order changes nothing |
| `Routing.FilesSubPath` | app/src/main/java/com/example/quickdrop/WebServer.kt:74-76 | `/api/files` lists the root, and `/api/files` + any one code point + `s` lists `s` (the code point at index 10 is dropped, whatever it is) |
| `Routing.DownloadRoute` | app/src/main/java/com/example/quickdrop/WebServer.kt:78 | every path under `/download/` goes to `serveFile` with the path unchanged |
| `Responses.ResponseContentLength` | app/src/main/java/com/example/quickdrop/WebServer.kt:664-671 | the `Content-Length` of `sendResponse` is the content's length, in decimal |
| `Responses.NotFoundContentLength` | app/src/main/java/com/example/quickdrop/WebServer.kt:675-679 | the 404 frame declares length 0 |
| `Responses.PageReply` | app/src/main/java/com/example/quickdrop/WebServer.kt:664-672 | what `sendResponse` writes: the six header lines and then the whole content; `Server.PageReplyLength` states that the declared length is the content's |
| `Responses.ResponseHead` | app/src/main/java/com/example/quickdrop/WebServer.kt:665-670 | the six `println` arguments of `sendResponse`; `Responses.ResponseContentLength` states the declared length |
| `Responses.NotFoundHead` | app/src/main/java/com/example/quickdrop/WebServer.kt:676-678 | the three `println` arguments of `send404`; `Responses.NotFoundContentLength` states the declared length |
| `Responses.StreamHead` | app/src/main/java/com/example/quickdrop/WebServer.kt:616-622 | the `println` arguments of a download head, the length line only for a positive size; `Responses.StreamContentLength` states the declared length |
| `Responses.StreamContentLength` | app/src/main/java/com/example/quickdrop/WebServer.kt:616-622 | among the `println` arguments of a download head, a length is declared exactly when the size is positive, and then it is that size |
| `Responses.WireLines` | app/src/main/java/com/example/quickdrop/WebServer.kt:616-622 | the header lines a client reads: each `println` argument ends a line, and so does each '\n' inside one |
| `Responses.WireLinesOfPlainHead` | app/src/main/java/com/example/quickdrop/WebServer.kt:616-622 | header arguments without a line break reach the client as exactly those lines |
| `Responses.StreamWireContentLength` | app/src/main/java/com/example/quickdrop/WebServer.kt:616-622 | on the wire, a download whose name has no line break declares a length exactly when the size is positive, and then that size |
| `Responses.NameInjectsLength` | app/src/main/java/com/example/quickdrop/WebServer.kt:603-618 | the name goes into `Content-Disposition` unescaped, so a name holding `\nContent-Length: <v>\n` makes a client read the length `v`, ahead of any size the server declares |
| `Download.DecodeSegments` | app/src/main/java/com/example/quickdrop/WebServer.kt:589 | the second decoding succeeds exactly when every segment decodes, and then it yields each segment's decoding in place |
| `Download.RawPath` | app/src/main/java/com/example/quickdrop/WebServer.kt:588 | the raw path is everything after `/download/`, or empty for a shorter path |
| `Download.DownloadFilename` | app/src/main/java/com/example/quickdrop/WebServer.kt:588-589 | the file name is the raw path decoded segment by segment and joined again with '/', or nothing when a segment fails; `Download.DownloadFilenameOfPlainPath` and `Download.DownloadFilenameOfSegment` state it for plain paths and single segments |
| `Download.Resolve` | app/src/main/java/com/example/quickdrop/WebServer.kt:596-613 | a handle hit is an index in range; a file hit is an existing non-directory at `File(root, filename)` |
| `Download.SharedNameResolution` | app/src/main/java/com/example/quickdrop/WebServer.kt:596-602 | under a handle list, a `shared_item_` name hits exactly when its suffix parses to an index in range, and storage plays no part |
| `Download.StorageNameResolution` | app/src/main/java/com/example/quickdrop/WebServer.kt:603-613 | any other name hits exactly when it denotes an existing non-directory, and then it hits that file |
| `Download.SharedSuffixResolves` | app/src/main/java/com/example/quickdrop/WebServer.kt:596-599 | a suffix parsing to an in-range index opens that handle |
| `Download.ListedSharedItemResolves` | app/src/main/java/com/example/quickdrop/WebServer.kt:596-599 | `shared_item_<i>` and its `+` and leading-zero aliases all open handle `i` |
| `Download.SharedListingDownloads` | app/src/main/java/com/example/quickdrop/WebServer.kt:549-558 | every path in a shared-mode listing downloads the handle its record describes |
| `Download.BrowseListingDownloads` | app/src/main/java/com/example/quickdrop/WebServer.kt:571-581 | a listed regular file's path, taken as the file name a download resolves, denotes that very file, unless it starts with `shared_item_` while a handle list is present; the request still goes through the second decoding, so `Server.ListedFileDownload` and `Server.ListedRootNameRedecoded` state what a download of it gets |
| `Download.SharedNamedFileUnreachable` | app/src/main/java/com/example/quickdrop/WebServer.kt:596 | with the empty handle list used for full storage, a root file named `shared_item_...` is listed, yet downloading it always misses |
| `Download.DownloadFilenameOfPlainPath` | app/src/main/java/com/example/quickdrop/WebServer.kt:588-589 | when decoding leaves each segment alone, the file name is the raw path after `/download/` |
| `Download.DownloadFilenameOfSegment` | app/src/main/java/com/example/quickdrop/WebServer.kt:588-589 | the file name of `/download/<s>`, for a segment `s` without '/', is the second decoding of `s`: it fails exactly when that decoding fails |
| `Download.PlusInNameIsLost` | app/src/main/java/com/example/quickdrop/WebServer.kt:589 | an example of `Download.DownloadFilenameOfSegment`: when the decoder reads `a+b.txt` as `a b.txt`, as `URLDecoder` does, the second decoding turns a download of `a+b.txt` into a request for `a b.txt` |
| `Download.PercentInNameThrows` | app/src/main/java/com/example/quickdrop/WebServer.kt:589 | an example of `Download.DownloadFilenameOfSegment`: when the decoder rejects the bare '%' of `100%.txt`, as `URLDecoder` does, the download of `/download/100%.txt` gets no file name, so the second decoding throws |
| `Download.MinusZeroOpensFirstHandle` | app/src/main/java/com/example/quickdrop/WebServer.kt:596-599 | `shared_item_-0` and `shared_item_000` both open the first handle, since `-0` and `000` parse to 0 |
| `Server.SendResponse` | app/src/main/java/com/example/quickdrop/WebServer.kt:664-673 | writes the six header lines and then the content |
| `Server.Send404` | app/src/main/java/com/example/quickdrop/WebServer.kt:675-680 | writes the 404 frame and nothing else |
| `Server.ServeHtml` | app/src/main/java/com/example/quickdrop/WebServer.kt:541 | the page reply is appended to the log |
| `Server.ServeInfo` | app/src/main/java/com/example/quickdrop/WebServer.kt:92-100 | the info record for the handle list is appended as JSON |
| `Server.InfoOf` | app/src/main/java/com/example/quickdrop/WebServer.kt:92-94 | the record `/api/info` reports; `Server.InfoAgreesWithListing` relates it to the root listing |
| `Server.ServeJsonList` | app/src/main/java/com/example/quickdrop/WebServer.kt:544-585 | the listing of the sub-path is appended as JSON |
| `Server.CopyStream` | app/src/main/java/com/example/quickdrop/WebServer.kt:624-628 | the copy loop writes exactly the unread rest of the stream, in order, in pieces of 1 to 65536 bytes, and consumes the stream |
| `Server.SendStreamHead` | app/src/main/java/com/example/quickdrop/WebServer.kt:616-622 | writes the download header block, with the length line only for a positive size |
| `Server.OpenDownload` | app/src/main/java/com/example/quickdrop/WebServer.kt:592-613 | a stream is opened exactly when `OpenedOf` finds something, and then with that name, size and data |
| `Server.OpenedOf` | app/src/main/java/com/example/quickdrop/WebServer.kt:592-613 | what `serveFile` opens for a file name; `Server.OpenDownload` is proved against it, and `Server.SharedHitReply`, `Server.StoredHitReply` and `Server.MissReply` state its cases |
| `Server.FileReply` | app/src/main/java/com/example/quickdrop/WebServer.kt:587-637 | what `serveFile` writes for a path; `Server.FileReplyLength` states its declared length and `Server.ServeFile` is proved against it |
| `Server.ServeFile` | app/src/main/java/com/example/quickdrop/WebServer.kt:587-637 | writes `FileReply` for the path, and reports failure exactly when the second decoding throws |
| `Server.HandleClient` | app/src/main/java/com/example/quickdrop/WebServer.kt:49-90 | writes `Exchange` for the request line, and closes the socket unless a decoding threw |
| `Server.Exchange` | app/src/main/java/com/example/quickdrop/WebServer.kt:49-90 | what one connection writes for a request line; `Server.HandleClient` is proved against it and the lemmas below state its cases |
| `Server.Answer` | app/src/main/java/com/example/quickdrop/WebServer.kt:70-80 | what a GET of a decoded path writes, by route; `Server.GetLine` ties it to `Server.Exchange` |
| `Server.MalformedLineWritesNothing` | app/src/main/java/com/example/quickdrop/WebServer.kt:55-65 | a missing line, or one with fewer than two tokens, is closed with nothing written |
| `Server.NonGetWritesNothing` | app/src/main/java/com/example/quickdrop/WebServer.kt:67-81 | any line that parses with a method other than GET gets no bytes; the socket is closed exactly when the target decodes |
| `Server.GetLine` | app/src/main/java/com/example/quickdrop/WebServer.kt:67-80 | any line that parses as a GET whose target decodes, with or without a version, is answered by the route of the decoded path |
| `Server.GetIsAnswered` | app/src/main/java/com/example/quickdrop/WebServer.kt:68-80 | such a GET gets a response exactly unless it is a download whose segments fail to decode; a request without a response leaves the socket open |
| `Server.DeclaredLengthIsBodyLength` | app/src/main/java/com/example/quickdrop/WebServer.kt:615-680 | among the `println` arguments of any response, a declared `Content-Length` always equals the body length; only a download of a handle or of an empty file declares none |
| `Server.PageReplyLength` | app/src/main/java/com/example/quickdrop/WebServer.kt:664-671 | a page declares its own length |
| `Server.NotFoundLength` | app/src/main/java/com/example/quickdrop/WebServer.kt:675-679 | the 404 frame declares its empty body |
| `Server.FileReplyLength` | app/src/main/java/com/example/quickdrop/WebServer.kt:615-633 | among the `println` arguments of a download, the declared length is that of what it streams; none is declared for a handle or an empty file |
| `Server.SharedItemDownload` | app/src/main/java/com/example/quickdrop/WebServer.kt:596-628 | a GET whose target decodes to `/download/shared_item_<i>` streams handle `i` under its display name without a length, or answers 404 when the handle cannot be opened |
| `Server.SharedFileReply` | app/src/main/java/com/example/quickdrop/WebServer.kt:596-602 | `serveFile` on a handle identifier opens that handle |
| `Server.SharedHitReply` | app/src/main/java/com/example/quickdrop/WebServer.kt:596-628 | a download whose file name resolves to handle `i` streams that handle under its display name without a length, or answers 404 when it cannot be opened |
| `Server.StoredFileDownload` | app/src/main/java/com/example/quickdrop/WebServer.kt:603-628 | a GET whose target decodes, percent-encoded or not, to `/download/<p>` whose file name denotes a stored file streams exactly its bytes under its own name and length, unless the name is taken for a handle identifier |
| `Server.ListedFileDownload` | app/src/main/java/com/example/quickdrop/WebServer.kt:587-628 | end to end in browse mode: a GET for the path a listing reports for a regular file streams exactly that file's bytes under its listed name and length, when the second decoding leaves every segment of the path alone and the path is not taken for a handle identifier |
| `Server.ListedRootNameRedecoded` | app/src/main/java/com/example/quickdrop/WebServer.kt:587-637 | the other side, for a root-level listed file: when the second decoding throws on its name the connection gets no reply, and when it turns the name into one that is no stored file (`a+b.txt` read as `a b.txt`) the reply is the 404 frame |
| `Server.StoredFileReply` | app/src/main/java/com/example/quickdrop/WebServer.kt:603-613 | corollary for paths whose segments decode to themselves: `serveFile` on a stored file's own path opens that file |
| `Server.StoredHitReply` | app/src/main/java/com/example/quickdrop/WebServer.kt:603-628 | a download whose file name denotes a stored file, and is not taken for a handle identifier, streams exactly that file's bytes under its own name and length |
| `Server.MissReply` | app/src/main/java/com/example/quickdrop/WebServer.kt:589-637 | a download whose name resolves to nothing gets the 404 frame; one whose segments fail the second decoding gets nothing and leaves the socket open |
| `Server.GetDownload` | app/src/main/java/com/example/quickdrop/WebServer.kt:78 | a GET whose target decodes to a path under `/download/` is answered by `serveFile` on that path |
| `Server.ListingRequest` | app/src/main/java/com/example/quickdrop/WebServer.kt:74-76 | a GET whose target decodes to `/api/files/<s>` answers with the listing of `s` as JSON |
| `Server.InfoAgreesWithListing` | app/src/main/java/com/example/quickdrop/WebServer.kt:92-94 | when `/api/info` reports shared mode, the root lists one `shared_item_` file of size 0 per handle; otherwise the root lists stored children, each under its own name with its own type and length |

## Left out

- The accept loop, `stopServer` and the thread per connection (`WebServer.kt:25-47`, `:50`, `:89`) are not modelled: each connection is modelled on its own. Concurrency between connections is not captured.
- Only the request line is read. Header lines and any request body are never read by the server either.
- `flush()` is not modelled: the log records writes as they are issued.
- Character encodings are not modelled. Header lines stay strings; the HTML page and the `org.json` text enter as bytes (`Config.page`, `Config.toJson`). `URLDecoder.decode` in UTF-8 is the parameter `Config.urlDecode`, which returns None where it would throw.
- The JSON text is not modelled; the records are. `last_modified` is a float of seconds in the source; here it is the integer millisecond value before the division.
- The clock is read once per listing, as the parameter `now`. The source reads it once per shared record, so the records may differ by a few milliseconds.
- `Numbers.ToIntOrNull`: non-ASCII decimal digits, which Kotlin also accepts, are not modelled.
- `Responses.StreamContentLength`: it is stated over the `println` arguments, not over the lines a client reads. The file or display name is written into `Content-Disposition` unescaped, so a name holding '\n' adds header lines of its own. `Responses.StreamWireContentLength` states the property on the wire for names without a line break, and `Responses.NameInjectsLength` shows a name that makes a client read a length of its choosing.
- `Server.FileReplyLength`: stated over the `println` arguments, for the same reason as `Responses.StreamContentLength`; on the wire it holds for names without a line break.
- `Server.DeclaredLengthIsBodyLength`: stated over the `println` arguments, for the same reason. Pages and the 404 frame have fixed header text, so only a download's name can break a header line.
- Only '\n' is taken as a line break on the wire (`Responses.WireLines`); a client that also ends lines at a lone '\r' would see further lines in the same way.
- `Routing.FilesSubPath`: Kotlin counts `length` and `substring(11)` in UTF-16 units, while a Dafny string is a sequence of code points. When the character at index 10 lies outside the Basic Multilingual Plane, the source drops only its first half and keeps the second; the model drops the whole character. Paths whose first ten characters are `/api/files` or `/download/` are ASCII there, so no other index is affected.
- Path resolution by the operating system is not modelled. `Storage.Key` keeps "." and ".." as plain segments and the storage map is taken as given, so paths the system would treat as the same file are not tied together. In the source, `GET /download/docs/../a.txt` streams `a.txt`; in the model that request finds a file only if the map holds the key `["docs", "..", "a.txt"]`, and nothing relates that key to `["a.txt"]`. Symbolic links are left out for the same reason.
- `listFiles()` returning null for a readable directory is not modelled: a directory always lists its children.
- The content resolver is a pair of results per handle (`Uri.displayName`, `Uri.content`), not a call.
- `Server.OpenDownload`: a `FileInputStream` that throws on an existing file (a permission error, say) is not modelled. In the source the catch at `:634-636` then sends a 404.
- `Server.CopyStream`: a read error in the middle of a transfer is not modelled. In the source the catch at `:634-636` then sends a 404 frame after the bytes already written. Write errors never reach that catch: `PrintStream.write` does not throw, it only sets an error flag, so the loop goes on to the end of the input. The model agrees there, since its writes cannot fail.
- The embedded HTML page and its script (`:103-540`) are only bytes here.
- The `rootPath` constructor argument is stored but never read; downloads and listings always use the external storage directory.
- `MainActivity.kt` and `QuickDropService.kt` are not part of this model. They build the handle list; the model takes `Some([])`, `None` or a non-empty list as given. The service calls a five-argument constructor, with an extra privacy flag, that `WebServer.kt` does not declare. The model follows the four-parameter class as written.
- Behaviour that is described for the server but absent from `WebServer.kt` is not modelled, since the model follows the code:
  - an `is_private` field in `/api/info`;
  - a forced full-storage path segment;
  - a `filename*` parameter in `Content-Disposition`.

  The code also answers a non-empty sub-path in shared mode with an empty listing, and the model does the same.

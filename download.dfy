/** How `serveFile` turns a `/download/...` path into a shared handle, a stored file, or a miss. */
module Download {
  import opened Common
  import opened Text
  import opened Numbers
  import opened Storage
  import opened Handles
  import opened Listing

  /** The part after `/download/` (`substring(10)` when the path is longer than 10). */
  function RawPath(path: string): string
  {
    if |path| > 10 then path[10..] else ""
  }

  /**
   * `URLDecoder.decode` applied to every segment; None when any of them throws
   * (a malformed '%' escape).
   */
  function DecodeSegments(decode: string -> Option<string>, segments: seq<string>): (r: Option<seq<string>>)
    ensures r.Some? <==> forall i | 0 <= i < |segments| :: decode(segments[i]).Some?
    ensures r.Some? ==>
      && |r.value| == |segments|
      && forall i | 0 <= i < |segments| :: decode(segments[i]) == Some(r.value[i])
  {
    if segments == [] then Some([])
    else
      var init := segments[..|segments| - 1];
      match DecodeSegments(decode, init)
      case None => None
      case Some(ds) =>
        match decode(segments[|segments| - 1])
        case None => None
        case Some(d) => Some(ds + [d])
  }

  /**
   * `filename` of `serveFile`: the raw path split on '/', each segment decoded a
   * second time (the whole path was already decoded once), and joined again.
   */
  function DownloadFilename(decode: string -> Option<string>, path: string): Option<string>
  {
    match DecodeSegments(decode, Split(RawPath(path), '/'))
    case None => None
    case Some(segments) => Some(Join(segments, '/'))
  }

  /** Where a download request leads. */
  datatype Target = Miss | SharedHit(index: nat) | FileHit(key: Path)

  /**
   * With a (possibly empty) handle list present, a `shared_item_` name is looked
   * up only among the handles, by its parsed index; any other name is looked up
   * in storage, where it must exist and not be a directory.
   */
  function Resolve(sharedUris: Option<seq<Uri>>, st: Storage, filename: string): (t: Target)
    ensures t.SharedHit? ==> sharedUris.Some? && t.index < |sharedUris.value|
    ensures t.FileHit? ==> st.IsFile(t.key) && t.key == Key(filename)
  {
    if sharedUris.Some? && SharedPrefix <= filename then
      var index := ToIntOrNull(filename[|SharedPrefix|..]);
      if index.Some? && 0 <= index.value < |sharedUris.value| then SharedHit(index.value) else Miss
    else
      var key := Key(filename);
      if st.IsFile(key) then FileHit(key) else Miss
  }

  /**
   * A `shared_item_` name under a handle list is a hit exactly when its suffix
   * parses to an index in range, and storage plays no part in the answer.
   */
  lemma SharedNameResolution(uris: seq<Uri>, st: Storage, st': Storage, filename: string)
    requires SharedPrefix <= filename
    ensures var n := ToIntOrNull(filename[|SharedPrefix|..]);
      Resolve(Some(uris), st, filename) != Miss <==> n.Some? && 0 <= n.value < |uris|
    ensures Resolve(Some(uris), st, filename) == Resolve(Some(uris), st', filename)
    ensures !Resolve(Some(uris), st, filename).FileHit?
  {
  }

  /**
   * Every other name, in shared mode too, is served from storage whenever it
   * denotes an existing non-directory: shared mode does not hide storage from
   * downloads.
   */
  lemma StorageNameResolution(sharedUris: Option<seq<Uri>>, st: Storage, filename: string)
    requires sharedUris.None? || !(SharedPrefix <= filename)
    ensures Resolve(sharedUris, st, filename) != Miss <==> st.IsFile(Key(filename))
    ensures st.IsFile(Key(filename)) ==> Resolve(sharedUris, st, filename) == FileHit(Key(filename))
  {
  }

  /** A `shared_item_` name whose suffix parses to an index in range is that handle. */
  lemma SharedSuffixResolves(uris: seq<Uri>, st: Storage, suffix: string, index: nat)
    requires ToIntOrNull(suffix) == Some(index) && index < |uris|
    ensures Resolve(Some(uris), st, SharedPrefix + suffix) == SharedHit(index)
  {
    var name := SharedPrefix + suffix;
    assert SharedPrefix <= name && name[|SharedPrefix|..] == suffix;
  }

  /**
   * The path the listing gives the i-th shared handle resolves back to that
   * handle; so do its aliases with a `+` sign or a leading zero.
   */
  lemma ListedSharedItemResolves(uris: seq<Uri>, st: Storage, index: nat)
    requires index < |uris| && index <= IntMax
    ensures Resolve(Some(uris), st, SharedId(index)) == SharedHit(index)
    ensures Resolve(Some(uris), st, SharedPrefix + ("+" + NatToString(index))) == SharedHit(index)
    ensures Resolve(Some(uris), st, SharedPrefix + ("0" + NatToString(index))) == SharedHit(index)
  {
    ToIntOrNullOfNatToString(index);
    SharedSuffixResolves(uris, st, NatToString(index), index);
    ToIntOrNullOfPlusSign(index);
    SharedSuffixResolves(uris, st, "+" + NatToString(index), index);
    ToIntOrNullOfLeadingZero(index);
    SharedSuffixResolves(uris, st, "0" + NatToString(index), index);
  }

  /**
   * Every file a shared-mode listing reports downloads as the handle it
   * describes.
   */
  lemma SharedListingDownloads(uris: seq<Uri>, st: Storage, now: int, k: nat)
    requires |uris| > 0 && |uris| <= IntMax
    requires k < |ListingOf(Some(uris), st, "", now)|
    ensures Resolve(Some(uris), st, ListingOf(Some(uris), st, "", now)[k].path) == SharedHit(k)
  {
    SharedModeListing(uris, st, "", now);
    ListedSharedItemResolves(uris, st, k);
  }

  /**
   * In browse mode, every listed regular file downloads as that very file,
   * provided its path does not begin with `shared_item_` while a handle list
   * is present.
   */
  lemma BrowseListingDownloads(sharedUris: Option<seq<Uri>>, st: Storage, subPath: string, now: int, k: nat)
    requires !SharedMode(sharedUris) && st.WellFormed()
    requires k < |ListingOf(sharedUris, st, subPath, now)|
    requires var e := ListingOf(sharedUris, st, subPath, now)[k];
      st.IsFile(TargetDir(subPath) + [e.name])
      && (sharedUris.None? || !(SharedPrefix <= e.path))
    ensures var e := ListingOf(sharedUris, st, subPath, now)[k];
      Resolve(sharedUris, st, e.path) == FileHit(TargetDir(subPath) + [e.name])
  {
    BrowsePathDenotesChild(sharedUris, st, subPath, now, k);
  }

  /**
   * The app starts full-storage mode with an empty, non-null handle list.  A
   * root file named `shared_item_...` is then listed with that name as its
   * path, yet every download of that path misses: the download guard tests the
   * list for null, not for emptiness as the listing does.
   */
  lemma SharedNamedFileUnreachable(st: Storage, now: int, name: string)
    requires SharedPrefix <= name && '/' !in name
    requires st.IsDirectory([]) && name in st.nodes[[]].children && st.IsFile([name])
    ensures exists k | 0 <= k < |ListingOf(Some([]), st, "", now)| ::
      ListingOf(Some([]), st, "", now)[k].path == name
    ensures Resolve(Some([]), st, name) == Miss
  {
    var children := st.nodes[[]].children;
    BrowseModeListing(Some([]), st, "", now);
    var names := NonEmpty(children);
    NonEmptyMembers(children);
    var j :| 0 <= j < |children| && children[j] == name;
    assert name != "";
    var k :| 0 <= k < |names| && names[k] == name;
    assert ListingOf(Some([]), st, "", now)[k].path == name;
  }

  /**
   * When decoding leaves every segment unchanged, the second decoding is
   * harmless and the file name is the raw path itself.
   */
  lemma DownloadFilenameOfPlainPath(decode: string -> Option<string>, p: string)
    requires forall i | 0 <= i < |Split(p, '/')| :: decode(Split(p, '/')[i]) == Some(Split(p, '/')[i])
    ensures DownloadFilename(decode, "/download/" + p) == Some(p)
  {
    var path := "/download/" + p;
    assert RawPath(path) == p by {
      if |path| > 10 { assert path[10..] == p; } else { assert p == ""; }
    }
    var segments := Split(p, '/');
    var r := DecodeSegments(decode, segments);
    assert r.Some? && r.value == segments;
    JoinSplit(p, '/');
  }

  /**
   * For a path with a single segment after `/download/`, the second decoding is
   * just `decode` applied to that segment, whatever it yields.
   */
  lemma DownloadFilenameOfSegment(decode: string -> Option<string>, segment: string)
    requires '/' !in segment
    ensures DownloadFilename(decode, "/download/" + segment) == decode(segment)
  {
    var path := "/download/" + segment;
    assert RawPath(path) == segment by {
      if |path| > 10 { assert path[10..] == segment; } else { assert segment == ""; }
    }
    SplitWithoutSep(segment, '/');
    assert DecodeSegments(decode, [segment][..0]) == Some([]);
  }

  /**
   * The double decoding loses a '+' in a file name: the page requests
   * `a+b.txt` as `/download/a%2Bb.txt`, the first decoding yields
   * `/download/a+b.txt`, and the second (URLDecoder maps '+' to ' ') asks for
   * `a b.txt`.
   */
  lemma PlusInNameIsLost(decode: string -> Option<string>)
    requires decode("a+b.txt") == Some("a b.txt")
    ensures DownloadFilename(decode, "/download/a+b.txt") == Some("a b.txt")
  {
    DownloadFilenameOfSegment(decode, "a+b.txt");
  }

  /**
   * A file name holding a '%' that is not an escape (say `100%.txt`, requested
   * as `100%25.txt`) makes the second decoding throw.
   */
  lemma PercentInNameThrows(decode: string -> Option<string>)
    requires decode("100%.txt") == None
    ensures DownloadFilename(decode, "/download/100%.txt") == None
  {
    DownloadFilenameOfSegment(decode, "100%.txt");
  }

  /**
   * `toIntOrNull` reads `-0` as 0, so `shared_item_-0` is one more name for the
   * first handle; so is any number of leading zeros before its index.
   */
  lemma MinusZeroOpensFirstHandle(uris: seq<Uri>, st: Storage)
    requires |uris| > 0
    ensures Resolve(Some(uris), st, SharedPrefix + "-0") == SharedHit(0)
    ensures Resolve(Some(uris), st, SharedPrefix + "000") == SharedHit(0)
  {
    assert IsSignedDecimal("-0") && DecimalValue("-0") == 0 by {
      assert "-0"[1..] == "0";
      assert DigitsValue("0") == DigitsValue("") * 10 + 0;
    }
    assert IsSignedDecimal("000") && DecimalValue("000") == 0 by {
      assert "000"[..2] == "00" && "00"[..1] == "0" && "0"[..0] == "";
    }
    SharedSuffixResolves(uris, st, "-0", 0);
    SharedSuffixResolves(uris, st, "000", 0);
  }
}

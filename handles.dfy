/**
 * Shared content handles: the Android `Uri`s the server was started with,
 * together with what the ContentResolver would answer about each.
 */
module Handles {
  import opened Common
  import opened Text
  import opened Numbers

  /**
   * A content handle.  `displayName` is what a `DISPLAY_NAME` query yields
   * (None when the query fails, finds no row or column, or the value is null);
   * `content` is what `openInputStream` delivers (None when it throws or
   * returns null).
   */
  datatype Uri = Uri(
    scheme: Option<string>,
    path: Option<string>,
    displayName: Option<string>,
    content: Option<seq<byte>>)

  const SharedPrefix: string := "shared_item_"

  /** The identifier of the `index`-th shared handle in listings and download paths. */
  function SharedId(index: nat): string
  {
    SharedPrefix + NatToString(index)
  }

  /**
   * `getFileName`: the resolver's display name for a `content:` handle; failing
   * that, what follows the last '/' of the handle's path (the whole path when it
   * has none); and "file" when the handle has no path.
   */
  function FileName(uri: Uri): string
  {
    var queried := if uri.scheme == Some("content") then uri.displayName else None;
    if queried.Some? then queried.value
    else match uri.path
      case None => "file"
      case Some(p) =>
        var cut := LastIndexOf(p, '/');
        if cut != -1 then p[cut + 1..] else p
  }

  /**
   * Without a display name, the name is the last '/'-piece of the path, i.e. the
   * same rule `split("/").last()` applies to download paths, and it never holds a '/'.
   */
  lemma FileNameFallback(uri: Uri)
    requires uri.scheme != Some("content") || uri.displayName.None?
    ensures uri.path.None? ==> FileName(uri) == "file"
    ensures uri.path.Some? ==> FileName(uri) == Last(Split(uri.path.value, '/'))
    ensures uri.path.Some? ==> '/' !in FileName(uri)
  {
    if uri.path.Some? {
      var p := uri.path.value;
      AfterLastIsLastPiece(p, '/');
      assert p[0..] == p;
    }
  }

  /** The identifier of a handle starts with the prefix and reads back as its index. */
  lemma SharedIdIndex(index: nat)
    requires index <= IntMax
    ensures SharedPrefix <= SharedId(index)
    ensures ToIntOrNull(SharedId(index)[|SharedPrefix|..]) == Some(index)
  {
    assert SharedId(index)[|SharedPrefix|..] == NatToString(index);
    ToIntOrNullOfNatToString(index);
  }
}

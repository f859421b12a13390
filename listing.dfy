/** The JSON listing served under `/api/files` (`serveJsonList`), as a sequence of records. */
module Listing {
  import opened Common
  import opened Text
  import opened Storage
  import opened Handles

  /** One element of the listing array; `lastModified` is kept in milliseconds. */
  datatype Entry = Entry(name: string, path: string, isDir: bool, size: int, lastModified: int)

  /** The entry for the `index`-th shared handle, stamped with the clock reading `now`. */
  function SharedEntry(uri: Uri, index: nat, now: int): Entry
  {
    Entry(FileName(uri), SharedId(index), false, 0, now)
  }

  /** One entry per shared handle, in order. */
  function SharedEntries(uris: seq<Uri>, now: int): seq<Entry>
  {
    if uris == [] then []
    else SharedEntries(uris[..|uris| - 1], now) + [SharedEntry(uris[|uris| - 1], |uris| - 1, now)]
  }

  /** The relative path reported for child `name` of the directory requested as `subPath`. */
  function RelativePath(subPath: string, name: string): string
  {
    if subPath == "" then name else subPath + "/" + name
  }

  /** The entry for child `name` of directory `dir`, its flags read from the child node. */
  function BrowseEntry(st: Storage, dir: Path, subPath: string, name: string): Entry
  {
    var child := dir + [name];
    Entry(name, RelativePath(subPath, name), st.IsDirectory(child), st.Length(child), st.LastModified(child))
  }

  /** One entry per child name, skipping empty names, in enumeration order. */
  function BrowseEntries(st: Storage, dir: Path, subPath: string, names: seq<string>): seq<Entry>
  {
    if names == [] then []
    else
      BrowseEntries(st, dir, subPath, names[..|names| - 1])
      + (if names[|names| - 1] == "" then [] else [BrowseEntry(st, dir, subPath, names[|names| - 1])])
  }

  /** Shared mode: a non-null, non-empty list of handles. */
  predicate SharedMode(sharedUris: Option<seq<Uri>>)
  {
    sharedUris.Some? && |sharedUris.value| > 0
  }

  /** The directory browse mode lists: the root for an empty sub-path, else `File(root, subPath)`. */
  function TargetDir(subPath: string): Path
  {
    if subPath == "" then [] else Key(subPath)
  }

  /**
   * The listing for `subPath`.  In shared mode the handles are listed for the
   * empty sub-path and nothing for any other.  Otherwise the children of the
   * target directory are listed, and a target that is missing or not a
   * directory lists nothing.
   */
  function ListingOf(sharedUris: Option<seq<Uri>>, st: Storage, subPath: string, now: int): seq<Entry>
  {
    if SharedMode(sharedUris) then
      if subPath == "" then SharedEntries(sharedUris.value, now) else []
    else
      var dir := TargetDir(subPath);
      if st.IsDirectory(dir) then BrowseEntries(st, dir, subPath, st.nodes[dir].children) else []
  }

  /** `serveJsonList`'s two accumulation loops, appending one record per iteration. */
  method BuildListing(sharedUris: Option<seq<Uri>>, st: Storage, subPath: string, now: int)
    returns (entries: seq<Entry>)
    ensures entries == ListingOf(sharedUris, st, subPath, now)
  {
    entries := [];
    if sharedUris.Some? && |sharedUris.value| > 0 {
      if subPath == "" {
        var uris := sharedUris.value;
        for index := 0 to |uris|
          invariant entries == SharedEntries(uris[..index], now)
        {
          assert uris[..index + 1][..index] == uris[..index];
          entries := entries + [SharedEntry(uris[index], index, now)];
        }
        assert uris[..|uris|] == uris;
      }
    } else {
      var targetDir := if subPath == "" then [] else Key(subPath);
      if st.IsDirectory(targetDir) {
        var files := st.nodes[targetDir].children;
        for i := 0 to |files|
          invariant entries == BrowseEntries(st, targetDir, subPath, files[..i])
        {
          assert files[..i + 1][..i] == files[..i];
          var name := files[i];
          if name != "" {
            entries := entries + [BrowseEntry(st, targetDir, subPath, name)];
          }
        }
        assert files[..|files|] == files;
      }
    }
  }

  lemma {:induction false} SharedEntriesAt(uris: seq<Uri>, now: int)
    ensures |SharedEntries(uris, now)| == |uris|
    ensures forall i | 0 <= i < |uris| :: SharedEntries(uris, now)[i] == SharedEntry(uris[i], i, now)
  {
    if uris != [] {
      SharedEntriesAt(uris[..|uris| - 1], now);
    }
  }

  lemma {:induction false} BrowseEntriesAt(st: Storage, dir: Path, subPath: string, names: seq<string>)
    ensures |BrowseEntries(st, dir, subPath, names)| == |NonEmpty(names)|
    ensures forall k | 0 <= k < |NonEmpty(names)| ::
      BrowseEntries(st, dir, subPath, names)[k] == BrowseEntry(st, dir, subPath, NonEmpty(names)[k])
  {
    if names != [] {
      BrowseEntriesAt(st, dir, subPath, names[..|names| - 1]);
    }
  }

  /**
   * Shared mode: the empty sub-path lists exactly one entry per handle, the
   * i-th named `shared_item_<i>`, not a directory, of size 0; any other
   * sub-path lists nothing (it is not looked up in storage).
   */
  lemma SharedModeListing(uris: seq<Uri>, st: Storage, subPath: string, now: int)
    requires |uris| > 0
    ensures var l := ListingOf(Some(uris), st, subPath, now);
      && (subPath != "" ==> l == [])
      && (subPath == "" ==>
            && |l| == |uris|
            && forall i | 0 <= i < |uris| ::
                 l[i].path == SharedId(i) && l[i].name == FileName(uris[i])
                 && !l[i].isDir && l[i].size == 0)
  {
    SharedEntriesAt(uris, now);
  }

  /**
   * Browse mode: a missing or non-directory target lists nothing; a directory
   * lists exactly its children with non-empty names, in enumeration order, each
   * with the relative path `subPath/name` (or `name` at the root) and the
   * child's own type, length and modification time.
   */
  lemma BrowseModeListing(sharedUris: Option<seq<Uri>>, st: Storage, subPath: string, now: int)
    requires !SharedMode(sharedUris)
    ensures var dir := TargetDir(subPath);
      var l := ListingOf(sharedUris, st, subPath, now);
      && (!st.IsDirectory(dir) ==> l == [])
      && (st.IsDirectory(dir) ==>
            var names := NonEmpty(st.nodes[dir].children);
            && |l| == |names|
            && forall k | 0 <= k < |names| ::
                 && l[k].name == names[k]
                 && l[k].path == (if subPath == "" then names[k] else subPath + "/" + names[k])
                 && l[k].isDir == st.IsDirectory(dir + [names[k]])
                 && l[k].size == st.Length(dir + [names[k]])
                 && l[k].lastModified == st.LastModified(dir + [names[k]]))
  {
    var dir := TargetDir(subPath);
    if st.IsDirectory(dir) {
      BrowseEntriesAt(st, dir, subPath, st.nodes[dir].children);
    }
  }

  /**
   * Every path a browse listing reports denotes, once handed back to
   * `File(root, path)`, the very child it describes; so listing it again or
   * downloading it reaches the same node.
   */
  lemma BrowsePathDenotesChild(sharedUris: Option<seq<Uri>>, st: Storage, subPath: string, now: int, k: nat)
    requires !SharedMode(sharedUris) && st.WellFormed()
    requires k < |ListingOf(sharedUris, st, subPath, now)|
    ensures var e := ListingOf(sharedUris, st, subPath, now)[k];
      Key(e.path) == TargetDir(subPath) + [e.name]
  {
    var dir := TargetDir(subPath);
    var children := st.nodes[dir].children;
    var names := NonEmpty(children);
    NonEmptyMembers(children);
    BrowseEntriesAt(st, dir, subPath, children);
    var name := names[k];
    var j :| 0 <= j < |children| && children[j] == name;
    assert '/' !in name;
    if subPath == "" {
      KeyOfName(name);
    } else {
      KeyOfChildPath(subPath, name);
    }
  }
}

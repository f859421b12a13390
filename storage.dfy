/**
 * The external storage directory as the server sees it through java.io.File.
 * Paths are relative to the storage root and are lists of segments: java.io.File
 * collapses repeated '/' and drops a trailing '/', so `File(root, child)` denotes
 * the node reached by the non-empty '/'-pieces of `child`.
 */
module Storage {
  import opened Common
  import opened Text

  type Path = seq<string>

  /** A regular file (its bytes) or a directory (its children in `listFiles` order). */
  datatype Node =
    | FileNode(content: seq<byte>, modified: int)
    | DirNode(children: seq<string>, size: int, modified: int)

  /** The storage tree: the root directory's own name and every node by path. */
  datatype Storage = Storage(rootName: string, nodes: map<Path, Node>) {

    /** Names returned by `listFiles` are single segments. */
    predicate WellFormed()
    {
      forall p | p in nodes && nodes[p].DirNode? ::
        forall k | 0 <= k < |nodes[p].children| :: '/' !in nodes[p].children[k]
    }

    /** `File.exists() && File.isDirectory()` */
    predicate IsDirectory(p: Path) { p in nodes && nodes[p].DirNode? }

    /** `File.exists() && !File.isDirectory()` */
    predicate IsFile(p: Path) { p in nodes && nodes[p].FileNode? }

    /** `File.length()`: the byte count of a file, whatever the system reports for a directory, 0 when missing. */
    function Length(p: Path): (n: int)
      ensures IsFile(p) ==> n == |nodes[p].content|
      ensures p !in nodes ==> n == 0
    {
      if p !in nodes then 0
      else match nodes[p]
        case FileNode(content, _) => |content|
        case DirNode(_, size, _) => size
    }

    /** `File.lastModified()` in milliseconds, 0 when missing. */
    function LastModified(p: Path): int
    {
      if p in nodes then nodes[p].modified else 0
    }

    /** `File.name`: the last segment, or the root directory's own name for the root. */
    function Name(p: Path): (name: string)
      ensures p != [] ==> name == p[|p| - 1]
    {
      if p == [] then rootName else p[|p| - 1]
    }
  }

  /**
   * The path of `File(root, child)` relative to the root: the non-empty pieces
   * of `child`.  Nothing is rejected: "." and ".." segments are kept.
   */
  function Key(child: string): (p: Path)
    ensures forall i | 0 <= i < |p| :: p[i] != "" && '/' !in p[i]
  {
    var pieces := Split(child, '/');
    SplitPiecesLackSep(child, '/');
    var r := NonEmpty(pieces);
    NonEmptyMembers(pieces);
    assert forall i | 0 <= i < |r| :: '/' !in r[i] by {
      forall i | 0 <= i < |r| ensures '/' !in r[i] {
        var j :| 0 <= j < |pieces| && pieces[j] == r[i];
      }
    }
    r
  }

  /** The empty sub-path denotes the root itself. */
  lemma KeyOfEmpty()
    ensures Key("") == []
  {
    assert Split("", '/') == [""];
  }

  /**
   * `subPath + "/" + name`, the relative path the listing reports for a child,
   * denotes that child of the directory `subPath` denotes.
   */
  lemma KeyOfChildPath(subPath: string, name: string)
    requires name != "" && '/' !in name
    ensures Key(subPath + "/" + name) == Key(subPath) + [name]
  {
    assert subPath + "/" + name == subPath + ['/'] + name;
    SplitAround(subPath, name, '/');
    SplitWithoutSep(name, '/');
    NonEmptyAppend(Split(subPath, '/'), [name]);
    assert NonEmpty([name]) == NonEmpty([]) + [name];
  }

  /** A single non-empty segment denotes itself. */
  lemma KeyOfName(name: string)
    requires name != "" && '/' !in name
    ensures Key(name) == [name]
  {
    SplitWithoutSep(name, '/');
    assert NonEmpty([name]) == NonEmpty([]) + [name];
  }

  /** A leading ".." segment reaches the filesystem unchanged: there is no containment check. */
  lemma ParentSegmentKept(rest: string)
    ensures Key("../" + rest) == [".."] + Key(rest)
  {
    assert "../" + rest == ".." + ['/'] + rest;
    SplitAround("..", rest, '/');
    SplitWithoutSep("..", '/');
    NonEmptyAppend([".."], Split(rest, '/'));
    assert [".."][..0] == [];
  }
}

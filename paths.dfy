/** java.nio.file.Path as the plugins use it: absolute paths, their file names and parents, and
    the folder identifiers the original-file-name history is keyed by. */
module Paths {
  import opened Common
  import opened Text

  /** One name element of a path: non-empty and free of the separator. */
  type Segment = s: string | s != "" && '/' !in s witness "x"

  /** An absolute path, as its name elements ("/" has none). */
  datatype Path = Path(names: seq<Segment>)

  /** `path.toString()`. */
  function ToString(p: Path): (r: string)
  {
    "/" + Join(p.names, '/')
  }

  /** Joining with a leading empty piece puts the separator in front. */
  lemma {:induction false} JoinLeadingEmpty(names: seq<string>, c: char)
    requires |names| >= 1
    ensures Join([""] + names, c) == [c] + Join(names, c)
    decreases |names|
  {
    var all := [""] + names;
    if |names| == 1 {
      assert all[..1] == [""];
    } else {
      var init := names[..|names| - 1];
      assert all[..|all| - 1] == [""] + init;
      JoinLeadingEmpty(init, c);
    }
  }

  /** `p.toString().split("/")` of a path with a file name: an empty piece, then its names. */
  lemma ToStringPieces(p: Path)
    requires HasFileName(p)
    ensures JavaSplit(ToString(p), '/') == [""] + p.names
  {
    var pieces := [""] + p.names;
    JoinLeadingEmpty(p.names, '/');
    assert ToString(p) == Join(pieces, '/');
    assert forall t :: t in pieces ==> '/' !in t;
    SplitJoin(pieces, '/');
    assert pieces[|pieces| - 1] != "";
  }

  predicate HasFileName(p: Path) { |p.names| > 0 }

  /** `path.getFileName().toString()`; the root has no file name. */
  function FileName(p: Path): (r: Segment)
    requires HasFileName(p)
  {
    p.names[|p.names| - 1]
  }

  /** `path.getParent()`. */
  function Parent(p: Path): (r: Path)
    requires HasFileName(p)
  {
    Path(p.names[..|p.names| - 1])
  }

  /** The non-empty pieces of a '/'-separated string, as Paths.get normalises them. */
  function NonEmptyPieces(parts: seq<string>): (r: seq<Segment>)
    requires forall t :: t in parts ==> '/' !in t
    ensures forall t :: t in r ==> t in parts
  {
    if parts == [] then []
    else
      assert parts[0] in parts;
      var head: seq<Segment> := if parts[0] == "" then [] else [parts[0]];
      head + NonEmptyPieces(parts[1..])
  }

  /** `Paths.get(folder.toString(), name)`: the folder extended by the pieces of name. */
  function Resolve(folder: Path, name: string): (r: Path)
  {
    var pieces := Split(name, '/');
    assert forall t :: t in pieces ==> '/' !in t;
    Path(folder.names + NonEmptyPieces(pieces))
  }

  /** A plain file name resolves to the one child of the folder with that name. */
  lemma ResolveSegment(folder: Path, name: Segment)
    ensures Resolve(folder, name) == Path(folder.names + [name])
    ensures HasFileName(Resolve(folder, name)) && FileName(Resolve(folder, name)) == name
    ensures Parent(Resolve(folder, name)) == folder
  {
    SplitSingle(name, '/');
    assert Split(name, '/') == [name];
    assert NonEmptyPieces([name]) == [name];
    assert (folder.names + [name])[..|folder.names|] == folder.names;
  }

  /** `folder.getParent().getFileName() + "_" + name.substring(name.lastIndexOf("_") + 1)` where
      name is the folder's own name; a folder without a named parent dereferences null. */
  function FolderIdentifier(folder: Path): (r: Result<string>)
    ensures r.Ok? <==> |folder.names| >= 2
  {
    var n := folder.names;
    if |n| < 2 then Err(NullPointer)
    else Ok(n[|n| - 2] + "_" + AfterLast(n[|n| - 1], '_'))
  }

  /** The history's folder identifier for a path: a path whose file name contains '.' is a file,
      and the identifier of its parent folder is used. */
  function FileFolderIdentifier(p: Path): (r: Result<string>)
    ensures r.Ok? ==> HasFileName(p)
    ensures r.Err? ==> r.error == NullPointer
  {
    if !HasFileName(p) then Err(NullPointer)
    else if '.' in FileName(p) then FolderIdentifier(Parent(p))
    else FolderIdentifier(p)
  }

  /** A folder renamed within its parent keeps its identifier as long as the suffix after its last
      '_' is the same. */
  lemma FolderIdentifierStable(parent: Path, a: Segment, b: Segment)
    requires HasFileName(parent)
    requires AfterLast(a, '_') == AfterLast(b, '_')
    ensures FolderIdentifier(Path(parent.names + [a])) == FolderIdentifier(Path(parent.names + [b]))
    ensures FolderIdentifier(Path(parent.names + [a])).Ok?
  {
  }

  /** Files with an extension in one folder share the folder's identifier. */
  lemma SiblingFilesShareIdentifier(folder: Path, a: Segment, b: Segment)
    requires '.' in a && '.' in b
    ensures FileFolderIdentifier(Path(folder.names + [a])) == FolderIdentifier(folder)
    ensures FileFolderIdentifier(Path(folder.names + [b])) == FolderIdentifier(folder)
  {
    assert Path(folder.names + [a]).names[..|folder.names|] == folder.names;
    assert Path(folder.names + [b]).names[..|folder.names|] == folder.names;
  }
}

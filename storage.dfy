/** The file system as the plugins reach it through StorageProvider: which paths exist, which are
    directories, the files of a folder, and moving a file. */
module Storage {
  import opened Common
  import opened Ordering
  import opened Paths

  predicate IsChildOf(p: Path, folder: Path)
  {
    |p.names| == |folder.names| + 1 && p.names[..|folder.names|] == folder.names
  }

  /** Some enumeration of a set, each element once. */
  ghost function SeqOf(s: set<string>): (r: seq<string>)
    ensures multiset(r) == multiset(s)
    decreases s
  {
    if s == {} then []
    else
      var x :| x in s;
      var rest := SeqOf(s - {x});
      assert multiset(s) == multiset(s - {x}) + multiset{x};
      [x] + rest
  }

  /** The names of a set in `Collections.sort` order. */
  ghost function SortedSet(s: set<string>): (r: seq<string>)
    ensures Sorted(r) && multiset(r) == multiset(s)
  {
    Sort(SeqOf(s))
  }

  /** However the storage lists a folder, sorting the listing gives the one sorted order of its
      names. */
  lemma ListingSorted(listing: seq<string>, s: set<string>)
    requires multiset(listing) == multiset(s)
    ensures Sort(listing) == SortedSet(s)
  {
    SortIgnoresListingOrder(listing, SeqOf(s));
  }

  /** The names of the files directly inside a folder: plain names, each naming a file there. */
  function ChildNamesIn(files: set<Path>, folder: Path): (r: set<string>)
    ensures forall x :: x in r ==> x != "" && '/' !in x && Path(folder.names + [x]) in files
  {
    var r := set p | p in files && IsChildOf(p, folder) :: p.names[|p.names| - 1];
    assert forall x :: x in r ==> x != "" && '/' !in x && Path(folder.names + [x]) in files by {
      forall x | x in r
        ensures x != "" && '/' !in x && Path(folder.names + [x]) in files
      {
        var p :| p in files && IsChildOf(p, folder) && x == p.names[|p.names| - 1];
        assert p.names == folder.names + [x];
      }
    }
    r
  }

  /** Whether `move(from, to)` goes ahead rather than throwing IOException: there is a file to move
      and the target is no directory; a file already at the target makes it fail unless the storage
      replaces existing files. */
  predicate CanMove(replaceExisting: bool, files: set<Path>, dirs: set<Path>, from: Path, to: Path)
  {
    from in files && to !in dirs && (replaceExisting || to !in files)
  }

  /** A move to a free name keeps every file; a move onto another existing file, which only a
      replacing storage makes, leaves one file fewer: the content that was at the target is gone. */
  lemma MoveCount(replaceExisting: bool, files: set<Path>, dirs: set<Path>, from: Path, to: Path)
    requires CanMove(replaceExisting, files, dirs, from, to) && from != to
    ensures to !in files ==> |files - {from} + {to}| == |files|
    ensures to in files ==> replaceExisting && |files - {from} + {to}| == |files| - 1
  {
    var rest := files - {from};
    assert |rest| == |files| - 1;
    if to in files {
      assert rest + {to} == rest;
    }
  }

  /** A listing is one the storage could give for the folder: every file of it once. */
  ghost predicate Fits(files: set<Path>, folder: Path, names: seq<string>)
  {
    multiset(names) == multiset(ChildNamesIn(files, folder))
  }

  /** The listed names are plain names, each naming a file of the folder, none twice. */
  lemma ListedNames(files: set<Path>, folder: Path, names: seq<string>)
    requires Fits(files, folder, names)
    ensures forall k :: 0 <= k < |names| ==> names[k] != "" && '/' !in names[k] && Path(folder.names + [names[k]]) in files
    ensures forall a, b :: 0 <= a < b < |names| ==> names[a] != names[b]
  {
    forall k | 0 <= k < |names|
      ensures names[k] != "" && '/' !in names[k] && Path(folder.names + [names[k]]) in files
    {
      assert names[k] in multiset(ChildNamesIn(files, folder));
    }
    forall a, b | 0 <= a < b < |names|
      ensures names[a] != names[b]
    {
      assert names == names[..b] + [names[b]] + names[b + 1..];
      assert multiset(names)[names[b]] == multiset(names[..b])[names[b]] + 1 + multiset(names[b + 1..])[names[b]];
      assert multiset(names)[names[b]] <= 1;
      assert names[b] !in names[..b];
      assert names[a] == names[..b][a];
    }
  }

  /** The plain names of a listing, as file names. */
  function Segments(names: seq<string>): (r: seq<Segment>)
    requires forall k :: 0 <= k < |names| ==> names[k] != "" && '/' !in names[k]
    ensures r == names
  {
    seq(|names|, k requires 0 <= k < |names| => names[k])
  }

  class Storage {
    var files: set<Path>
    var directories: set<Path>
    /** Whether a move onto an existing file replaces it. What StorageProvider does there is not
        part of this model, so both behaviours are kept open. */
    const replaceExisting: bool

    constructor (files: set<Path>, directories: set<Path>, replaceExisting: bool)
      ensures this.files == files && this.directories == directories && this.replaceExisting == replaceExisting
    {
      this.files := files;
      this.directories := directories;
      this.replaceExisting := replaceExisting;
    }

    /** `isFileExists`: a file or a directory at that path. */
    predicate IsFileExists(p: Path)
      reads this
    {
      p in files || p in directories
    }

    /** `isDirectory`. */
    predicate IsDirectory(p: Path)
      reads this
    {
      p in directories
    }

    /** The names of the files directly inside a folder. */
    function ChildNames(folder: Path): (r: set<string>)
      reads this
    {
      ChildNamesIn(files, folder)
    }

    /** `listFiles(folder)`: every file of the folder once, in an order this model leaves open. */
    method ListFiles(folder: Path) returns (names: seq<string>)
      ensures multiset(names) == multiset(ChildNames(folder))
    {
      var rest := ChildNames(folder);
      names := [];
      while rest != {}
        invariant rest <= ChildNames(folder)
        invariant multiset(names) + multiset(rest) == multiset(ChildNames(folder))
        decreases rest
      {
        var x :| x in rest;
        assert multiset(rest) == multiset(rest - {x}) + multiset{x};
        names := names + [x];
        rest := rest - {x};
      }
    }

    /** `move(from, to)`: an IOException when there is no file to move, the target is a directory,
        or the target is a file and the storage does not replace existing files. */
    method Move(from: Path, to: Path) returns (r: Result<()>)
      modifies this
      ensures r.Ok? <==> old(CanMove(replaceExisting, files, directories, from, to))
      ensures r.Err? ==> r.error == IoException && unchanged(this)
      ensures r.Ok? ==> files == old(files) - {from} + {to} && directories == old(directories)
    {
      if !CanMove(replaceExisting, files, directories, from, to) {
        return Err(IoException);
      }
      files := files - {from} + {to};
      return Ok(());
    }

    /** `deleteFile(p)`: an IOException when there is no such file. */
    method DeleteFile(p: Path) returns (r: Result<()>)
      modifies this
      ensures r.Ok? <==> old(p in files)
      ensures r.Err? ==> r.error == IoException && unchanged(this)
      ensures r.Ok? ==> files == old(files) - {p} && directories == old(directories)
    {
      if p !in files {
        return Err(IoException);
      }
      files := files - {p};
      return Ok(());
    }
  }
}

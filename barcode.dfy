/** The DeleteBarcodeImagePlugin of the step plugin: deletes the images of the master and media
    folders whose name, without its extension, ends in a token of two or more zeros ("x_00.tif"),
    the placeholder number the renaming gives to barcode images. */
module DeleteBarcodeImage {
  import opened Common
  import opened Text
  import opened Numerals
  import opened Paths
  import opened Storage

  /** The `namepartSplitter` of the plugin. */
  const NamePartSplitter: char := '_'

  /** `name.substring(0, name.lastIndexOf("."))`: the name up to its last '.'; a name without '.'
      makes substring(0, -1) throw StringIndexOutOfBoundsException. */
  function NameWithoutExtension(name: string): (r: Result<string>)
    ensures r.Err? <==> '.' !in name
    ensures r.Err? ==> r.error == IndexOutOfBounds
    ensures r.Ok? ==> name == r.value + "." + AfterLast(name, '.')
  {
    if '.' !in name then Err(IndexOutOfBounds) else Ok(BeforeLast(name, '.'))
  }

  /** The last token of `split("_")` of the name without extension: a piece between underscores.
      A name that is only underscores before its extension splits into no token at all, and
      reading the last one throws ArrayIndexOutOfBoundsException. */
  function LastToken(name: string): (r: Result<string>)
    ensures r.Ok? ==> NamePartSplitter !in r.value && '.' in name
    ensures '.' !in name ==> r == Err(IndexOutOfBounds)
  {
    var base :- NameWithoutExtension(name);
    var tokens := JavaSplit(base, NamePartSplitter);
    if tokens == [] then Err(IndexOutOfBounds)
    else
      assert base != "" ==> tokens[|tokens| - 1] in Split(base, NamePartSplitter);
      Ok(tokens[|tokens| - 1])
  }

  /** The test `execute` applies to the token: numeric, longer than one character and parsing to
      zero; Integer.parseInt throws NumberFormatException on digits beyond Integer.MAX_VALUE. */
  function IsBarcodeToken(d: DigitClass, token: string): (r: Result<bool>)
  {
    if IsNumericIn(d, token) && |token| > 1 then
      var v :- ParseInt(d, token);
      Ok(v == 0)
    else Ok(false)
  }

  /** Whether `execute` deletes the file with this name. */
  function ShouldDelete(d: DigitClass, name: string): (r: Result<bool>)
  {
    var token :- LastToken(name);
    IsBarcodeToken(d, token)
  }

  /** A token marks a barcode image exactly when it is two or more digits each worth zero ("00",
      and in Unicode also "٠٠" or "００"); a lone zero never does. The test fails only on digits
      whose value is too large for an int. */
  lemma BarcodeTokenIff(d: DigitClass, token: string)
    ensures IsBarcodeToken(d, token) == Ok(true) <==>
      |token| >= 2 && forall i :: 0 <= i < |token| ==> d.isDigit(token[i]) && d.value(token[i]) == 0
    ensures IsBarcodeToken(d, token).Err? <==> |token| >= 2 && IsNumericIn(d, token) && ValueIn(d, token) > 0x7FFF_FFFF
    ensures IsBarcodeToken(d, token).Err? ==> IsBarcodeToken(d, token).error == NumberFormat
  {
    ZeroValueIn(d, token);
  }

  /** Under any Unicode version, two or more ASCII zeros mark a barcode image, and a token of ASCII
      digits marks one only when all of them are '0'. */
  lemma AsciiBarcodeToken(d: DigitClass, token: string)
    requires IsDigitClass(d) && IsNumeric(token)
    ensures IsBarcodeToken(d, token) == Ok(true) <==>
      |token| >= 2 && forall i :: 0 <= i < |token| ==> token[i] == '0'
  {
    BarcodeTokenIff(d, token);
    AsciiValueIn(d, token);
    AllZerosValue(token);
    ZeroValueIn(d, token);
  }

  /** The last token of "prefix_token.ext", for a token without '_' and an extension without '.'. */
  lemma TokenAfterUnderscore(prefix: string, token: string, ext: string)
    requires token != "" && NamePartSplitter !in token && '.' !in ext
    ensures LastToken(prefix + "_" + token + "." + ext) == Ok(token)
  {
    var base := prefix + "_" + token;
    var name := base + "." + ext;
    LastIndexOfAfterSeparator(base, ext, '.');
    assert name[..|base|] == base;
    assert BeforeLast(name, '.') == base;
    assert base[|base| - 1] == token[|token| - 1];
    JavaSplitPlain(base, NamePartSplitter);
    SplitAppend(prefix, token, NamePartSplitter);
  }

  /** The last token of "token.ext" when the token holds no '_': the whole name without extension. */
  lemma TokenWithoutUnderscore(token: string, ext: string)
    requires token != "" && NamePartSplitter !in token && '.' !in ext
    ensures LastToken(token + "." + ext) == Ok(token)
  {
    var name := token + "." + ext;
    LastIndexOfAfterSeparator(token, ext, '.');
    assert name[..|token|] == token;
    assert BeforeLast(name, '.') == token;
    JavaSplitPlain(token, NamePartSplitter);
    SplitSingle(token, NamePartSplitter);
  }

  /** The paths of a folder's listed files. */
  function ChildPaths(folder: Path, names: seq<string>): (r: seq<Path>)
    requires forall k :: 0 <= k < |names| ==> names[k] != "" && '/' !in names[k]
    ensures |r| == |names|
    ensures forall k :: 0 <= k < |r| ==> HasFileName(r[k]) && FileName(r[k]) == names[k] && Parent(r[k]) == folder
  {
    seq(|names|, k requires 0 <= k < |names| => Path(folder.names + [names[k]]))
  }

  /** The test a file name is put to. */
  type NameTest = string -> Result<bool>

  /** The files left after `execute`'s deletion loop over the candidates: each candidate whose name
      passes the test is deleted; a deletion that fails (IOException) ends the loop quietly, and a
      runtime exception from the test ends it with that exception. */
  function Deletions(test: NameTest, files: set<Path>, candidates: seq<Path>): (r: Result<set<Path>>)
    ensures r.Ok? ==> r.value <= files
    decreases |candidates|
  {
    if candidates == [] then Ok(files)
    else
      var c := candidates[0];
      if !HasFileName(c) then Err(NullPointer)
      else
        var delete :- test(FileName(c));
        if !delete then Deletions(test, files, candidates[1..])
        else if c !in files then Ok(files)
        else Deletions(test, files - {c}, candidates[1..])
  }

  /** The candidates whose name passes the test. */
  ghost function Marked(test: NameTest, candidates: seq<Path>): (r: set<Path>)
  {
    set k | 0 <= k < |candidates| && HasFileName(candidates[k]) && test(FileName(candidates[k])) == Ok(true)
      :: candidates[k]
  }

  /** When every candidate is an existing file, listed once, and the test answers for each without
      an exception, exactly the marked files are deleted and no other file is touched. */
  lemma {:induction false} DeletesExactlyMarked(test: NameTest, files: set<Path>, candidates: seq<Path>)
    requires forall k :: 0 <= k < |candidates| ==> candidates[k] in files && HasFileName(candidates[k])
    requires forall k :: 0 <= k < |candidates| ==> test(FileName(candidates[k])).Ok?
    requires forall i, j :: 0 <= i < j < |candidates| ==> candidates[i] != candidates[j]
    ensures Deletions(test, files, candidates) == Ok(files - Marked(test, candidates))
    decreases |candidates|
  {
    if candidates != [] {
      var c := candidates[0];
      var rest := candidates[1..];
      var marked := test(FileName(c)) == Ok(true);
      var files1 := if marked then files - {c} else files;
      forall k | 0 <= k < |rest|
        ensures rest[k] in files1 && HasFileName(rest[k]) && test(FileName(rest[k])).Ok?
      {
        assert rest[k] == candidates[k + 1];
      }
      forall i, j | 0 <= i < j < |rest|
        ensures rest[i] != rest[j]
      {
        assert rest[i] == candidates[i + 1] && rest[j] == candidates[j + 1];
      }
      assert Deletions(test, files, candidates) == Deletions(test, files1, rest);
      DeletesExactlyMarked(test, files1, rest);
      MarkedSplit(test, candidates);
      MarkedFrom(test, rest, c);
      assert c in candidates;
      assert files1 - Marked(test, rest) == files - Marked(test, candidates);
    } else {
      assert Marked(test, candidates) == {};
      assert files - Marked(test, candidates) == files;
    }
  }

  lemma MarkedSplit(test: NameTest, candidates: seq<Path>)
    requires candidates != []
    ensures Marked(test, candidates) == Marked(test, candidates[1..]) +
      (if HasFileName(candidates[0]) && test(FileName(candidates[0])) == Ok(true) then {candidates[0]} else {})
  {
    var rest := candidates[1..];
    forall p | p in Marked(test, rest)
      ensures p in Marked(test, candidates)
    {
      var k :| 0 <= k < |rest| && HasFileName(rest[k]) && test(FileName(rest[k])) == Ok(true) && p == rest[k];
      assert candidates[k + 1] == p;
    }
    forall p | p in Marked(test, candidates) && p != candidates[0]
      ensures p in Marked(test, rest)
    {
      var k :| 0 <= k < |candidates| && HasFileName(candidates[k]) && test(FileName(candidates[k])) == Ok(true) && p == candidates[k];
      assert k > 0 && rest[k - 1] == p;
    }
  }

  /** Only candidates are marked. */
  lemma MarkedFrom(test: NameTest, candidates: seq<Path>, c: Path)
    requires c !in candidates
    ensures c !in Marked(test, candidates)
  {
  }

  /** The names a folder's listing yields: the folder's children in some order when the folder
      exists, none otherwise; each is a plain file name. */
  predicate FolderListing(folderExists: bool, children: set<string>, names: seq<string>)
  {
    (folderExists ==> multiset(names) == multiset(children)) &&
    (!folderExists ==> names == []) &&
    (forall k :: 0 <= k < |names| ==> names[k] != "" && '/' !in names[k])
  }

  /** The test `execute` puts each file name to. */
  function DeletionTest(d: DigitClass): (r: NameTest)
  {
    name => ShouldDelete(d, name)
  }

  class DeleteBarcodeImagePlugin {
    const storage: Storage
    /** The decimal digits of the running Java platform's Unicode data. */
    const digits: DigitClass
    /** `getImagesOrigDirectory(false)`. */
    const masterFolder: Path
    /** `getImagesTifDirectory(false)`. */
    const mediaFolder: Path

    constructor (storage: Storage, digits: DigitClass, masterFolder: Path, mediaFolder: Path)
      ensures this.storage == storage && this.digits == digits
      ensures this.masterFolder == masterFolder && this.mediaFolder == mediaFolder
    {
      this.storage := storage;
      this.digits := digits;
      this.masterFolder := masterFolder;
      this.mediaFolder := mediaFolder;
    }

    /** The files of a folder that exists, as paths, in the order the storage lists them. */
    method ListIfExists(folder: Path) returns (paths: seq<Path>, ghost names: seq<string>)
      ensures FolderListing(storage.IsFileExists(folder), storage.ChildNames(folder), names)
      ensures paths == ChildPaths(folder, names)
    {
      var listed: seq<string> := [];
      if storage.IsFileExists(folder) {
        listed := storage.ListFiles(folder);
        forall k | 0 <= k < |listed|
          ensures listed[k] != "" && '/' !in listed[k]
        {
          assert listed[k] in multiset(storage.ChildNames(folder));
        }
      }
      names := listed;
      paths := ChildPaths(folder, listed);
    }

    /** `execute`: the master folder's files, then the media folder's, each folder only if it exists,
        are collected first and then deleted one by one when their name passes the token test. The
        answer is true whenever `execute` returns at all, even when a deletion failed. */
    method Execute() returns (r: Result<bool>, ghost candidates: seq<Path>)
      modifies storage
      ensures r.Ok? ==> r.value
      ensures exists masterNames, mediaNames ::
        FolderListing(old(storage.IsFileExists(masterFolder)), old(storage.ChildNames(masterFolder)), masterNames) &&
        FolderListing(old(storage.IsFileExists(mediaFolder)), old(storage.ChildNames(mediaFolder)), mediaNames) &&
        candidates == ChildPaths(masterFolder, masterNames) + ChildPaths(mediaFolder, mediaNames)
      ensures r.Ok? ==> Deletions(DeletionTest(digits), old(storage.files), candidates) == Ok(storage.files)
      ensures r.Err? ==> Deletions(DeletionTest(digits), old(storage.files), candidates) == Err(r.error)
      ensures storage.directories == old(storage.directories)
    {
      var masterPaths, masterNames := ListIfExists(masterFolder);
      var mediaPaths, mediaNames := ListIfExists(mediaFolder);
      var imagesInAllFolder := masterPaths + mediaPaths;
      candidates := imagesInAllFolder;
      for i := 0 to |imagesInAllFolder|
        invariant Deletions(DeletionTest(digits), old(storage.files), imagesInAllFolder) == Deletions(DeletionTest(digits), storage.files, imagesInAllFolder[i..])
        invariant storage.directories == old(storage.directories)
      {
        var imageName := imagesInAllFolder[i];
        assert imagesInAllFolder[i..][1..] == imagesInAllFolder[i + 1..];
        if !HasFileName(imageName) {
          return Err(NullPointer), candidates;
        }
        var delete := ShouldDelete(digits, FileName(imageName));
        if delete.Err? {
          return Err(delete.error), candidates;
        }
        if delete.value {
          var deleted := storage.DeleteFile(imageName);
          if deleted.Err? {
            return Ok(true), candidates;
          }
        }
      }
      r := Ok(true);
    }

    /** `run`: FINISH whenever `execute` returns, since it always answers true. */
    method Run() returns (r: Result<PluginReturnValue>)
      modifies storage
      ensures r.Ok? ==> r.value == Finish
      ensures storage.directories == old(storage.directories)
    {
      var executed, _ := Execute();
      if executed.Err? {
        return Err(executed.error);
      }
      r := if executed.value then Ok(Finish) else Ok(Error);
    }
  }
}

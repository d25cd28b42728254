/** The MetsFileUpdater of the intermediate plugin: every METS file reference keeps its directory
    prefix and its extension, and the file's base name is replaced through a map from old to new
    base names. */
module MetsBasenames {
  import opened Common
  import opened Text
  import opened Paths

  /** A location's directory prefix: everything up to and including its last '/', or "" when it has
      none. */
  function LocationPrefix(location: string): (r: string)
    ensures r <= location
    ensures r == "" || r[|r| - 1] == '/'
    ensures location == r + AfterLast(location, '/')
  {
    location[..LastIndexOf(location, '/') + 1]
  }

  /** A location without '/' is all file name. */
  lemma NoSlashNoPrefix(location: string)
    requires '/' !in location
    ensures LocationPrefix(location) == "" && AfterLast(location, '/') == location
  {
    LastIndexOfAbsent(location, '/');
  }

  /** `getNewFileName`: the name's base (before its last '.') is looked up in the map and the
      suffix from that '.' on is kept; a base the map does not hold leaves the name as it is. A
      name without '.' makes `substring(-1)` throw StringIndexOutOfBoundsException. */
  function GetNewFileName(oldFileName: string, namesMap: map<string, string>): (r: Result<string>)
    ensures r.Err? <==> '.' !in oldFileName
    ensures r.Err? ==> r.error == IndexOutOfBounds
    ensures r.Ok? && BeforeLast(oldFileName, '.') !in namesMap ==> r.value == oldFileName
  {
    var suffixIndex := LastIndexOf(oldFileName, '.');
    LastIndexOfAbsent(oldFileName, '.');
    if suffixIndex < 0 then Err(IndexOutOfBounds)
    else
      var suffix := oldFileName[suffixIndex..];
      var oldName := oldFileName[..suffixIndex];
      if oldName in namesMap then Ok(namesMap[oldName] + suffix) else Ok(oldFileName)
  }

  /** The new name of a file whose base name is mapped: the mapped base, '.', the old extension. */
  lemma NewFileNameMapped(oldFileName: string, namesMap: map<string, string>)
    requires '.' in oldFileName && BeforeLast(oldFileName, '.') in namesMap
    ensures GetNewFileName(oldFileName, namesMap)
         == Ok(namesMap[BeforeLast(oldFileName, '.')] + "." + AfterLast(oldFileName, '.'))
  {
    var i := LastIndexOf(oldFileName, '.');
    LastIndexOfAbsent(oldFileName, '.');
    assert BeforeLast(oldFileName, '.') == oldFileName[..i];
    assert oldFileName[i..] == "." + AfterLast(oldFileName, '.');
    var r := GetNewFileName(oldFileName, namesMap);
    var mapped := namesMap[oldFileName[..i]];
    assert r.value == mapped + oldFileName[i..];
    assert mapped + "." + AfterLast(oldFileName, '.') == mapped + oldFileName[i..];
  }

  /** A renamed file keeps its extension: the new name is the mapped base name, '.', and the old
      extension, so its own base name is the mapped one. */
  lemma NewFileNameKeepsExtension(oldFileName: string, namesMap: map<string, string>)
    requires '.' in oldFileName && BeforeLast(oldFileName, '.') in namesMap
    ensures var r := GetNewFileName(oldFileName, namesMap);
      r.Ok? && r.value == namesMap[BeforeLast(oldFileName, '.')] + "." + AfterLast(oldFileName, '.') &&
      AfterLast(r.value, '.') == AfterLast(oldFileName, '.') &&
      BeforeLast(r.value, '.') == namesMap[BeforeLast(oldFileName, '.')]
  {
    var ext := AfterLast(oldFileName, '.');
    var base := BeforeLast(oldFileName, '.');
    var n := namesMap[base] + "." + ext;
    NewFileNameMapped(oldFileName, namesMap);
    LastIndexOfAfterSeparator(namesMap[base], ext, '.');
    assert n[..|namesMap[base]|] == namesMap[base];
  }

  /** Renaming through a map and then through its inverse restores the file name. */
  lemma NewFileNameRoundTrip(oldFileName: string, namesMap: map<string, string>, inverse: map<string, string>)
    requires '.' in oldFileName
    requires var base := BeforeLast(oldFileName, '.');
      base in namesMap && namesMap[base] in inverse && inverse[namesMap[base]] == base
    ensures var r := GetNewFileName(oldFileName, namesMap);
      r.Ok? && GetNewFileName(r.value, inverse) == Ok(oldFileName)
  {
    var base := BeforeLast(oldFileName, '.');
    NewFileNameKeepsExtension(oldFileName, namesMap);
    var r := GetNewFileName(oldFileName, namesMap).value;
    assert r == namesMap[base] + "." + AfterLast(oldFileName, '.');
    assert '.' in r by { assert r[|namesMap[base]|] == '.'; }
    NewFileNameKeepsExtension(r, inverse);
  }

  /** `getBasename(path)`: FilenameUtils.getBaseName of the path's file name: the part after the
      last '\' (a separator to FilenameUtils) without the text from its last '.'; a path without
      file name is a NullPointerException. */
  function GetBasename(p: Path): (r: Result<string>)
    ensures r.Ok? <==> HasFileName(p)
    ensures r.Err? ==> r.error == NullPointer
  {
    if !HasFileName(p) then Err(NullPointer)
    else Ok(BeforeLast(AfterLast(FileName(p), '\\'), '.'))
  }

  /** The lookup key of `getNewFileName` for a file is that file's `getBasename`: a name map built
      from base names renames the locations of those files, keeping their extension. */
  lemma BasenameIsLookupKey(p: Path, namesMap: map<string, string>)
    requires HasFileName(p) && '.' in FileName(p) && '\\' !in FileName(p)
    ensures GetBasename(p) == Ok(BeforeLast(FileName(p), '.'))
    ensures GetBasename(p).value in namesMap ==>
      GetNewFileName(FileName(p), namesMap) == Ok(namesMap[GetBasename(p).value] + "." + AfterLast(FileName(p), '.'))
  {
    LastIndexOfAbsent(FileName(p), '\\');
    if BeforeLast(FileName(p), '.') in namesMap {
      NewFileNameKeepsExtension(FileName(p), namesMap);
    }
  }

  /** The new location of one reference: its prefix, then the new file name. */
  function NewLocation(oldLocation: string, namesMap: map<string, string>): (r: Result<string>)
    ensures r.Err? <==> '.' !in AfterLast(oldLocation, '/')
  {
    var newFileName :- GetNewFileName(AfterLast(oldLocation, '/'), namesMap);
    Ok(LocationPrefix(oldLocation) + newFileName)
  }

  /** `NewLocation` in the terms the update loop computes it. */
  lemma NewLocationUnfolded(oldLocation: string, namesMap: map<string, string>)
    ensures var start := LastIndexOf(oldLocation, '/') + 1;
      var newFileName := GetNewFileName(oldLocation[start..], namesMap);
      NewLocation(oldLocation, namesMap)
      == if newFileName.Err? then Err(newFileName.error) else Ok(oldLocation[..start] + newFileName.value)
  {
    var start := LastIndexOf(oldLocation, '/') + 1;
    assert AfterLast(oldLocation, '/') == oldLocation[start..];
    assert LocationPrefix(oldLocation) == oldLocation[..start];
  }

  /** A rewritten reference keeps its directory prefix and its extension, and carries the mapped
      base name, or is left as it was when its base name is not mapped. */
  lemma NewLocationContent(oldLocation: string, namesMap: map<string, string>)
    requires '.' in AfterLast(oldLocation, '/')
    ensures var name := AfterLast(oldLocation, '/');
      var r := NewLocation(oldLocation, namesMap);
      r.Ok? && LocationPrefix(oldLocation) <= r.value &&
      (BeforeLast(name, '.') !in namesMap ==> r.value == oldLocation) &&
      (BeforeLast(name, '.') in namesMap ==>
        r.value == LocationPrefix(oldLocation) + namesMap[BeforeLast(name, '.')] + "." + AfterLast(name, '.'))
  {
    var name := AfterLast(oldLocation, '/');
    var prefix := LocationPrefix(oldLocation);
    var newFileName := GetNewFileName(name, namesMap);
    assert NewLocation(oldLocation, namesMap) == Ok(prefix + newFileName.value);
    if BeforeLast(name, '.') in namesMap {
      NewFileNameMapped(name, namesMap);
      var mapped := namesMap[BeforeLast(name, '.')];
      var ext := AfterLast(name, '.');
      ConcatAssoc(prefix, mapped, ext);
    }
  }

  lemma ConcatAssoc(prefix: string, base: string, ext: string)
    ensures prefix + (base + "." + ext) == prefix + base + "." + ext
  {
  }

  /** How one reference is rewritten. */
  type Rewrite = string -> Result<string>

  /** The references after rewriting each in turn; the first failing one ends the update. */
  function RewriteAll(rewrite: Rewrite, locations: seq<string>): (r: Result<seq<string>>)
    ensures r.Ok? ==> |r.value| == |locations|
  {
    if locations == [] then Ok([])
    else
      var init :- RewriteAll(rewrite, locations[..|locations| - 1]);
      var loc :- rewrite(locations[|locations| - 1]);
      Ok(init + [loc])
  }

  /** `NewLocation` for one name map, as a function of the reference. */
  function NewLocationIn(namesMap: map<string, string>): (r: Rewrite)
  {
    loc => NewLocation(loc, namesMap)
  }

  /** `updateMetsFile` as a value: the references after the update. */
  function UpdatedLocations(namesMap: map<string, string>, locations: seq<string>): (r: Result<seq<string>>)
  {
    RewriteAll(NewLocationIn(namesMap), locations)
  }

  /** Rewriting all references fails exactly when rewriting one of them fails. */
  lemma {:induction false} RewriteFailsIff(rewrite: Rewrite, locations: seq<string>)
    ensures RewriteAll(rewrite, locations).Err? <==>
      exists i :: 0 <= i < |locations| && rewrite(locations[i]).Err?
    decreases |locations|
  {
    if locations != [] {
      var init := locations[..|locations| - 1];
      RewriteFailsIff(rewrite, init);
      if exists i :: 0 <= i < |init| && rewrite(init[i]).Err? {
        var i :| 0 <= i < |init| && rewrite(init[i]).Err?;
        assert locations[i] == init[i];
      }
      if exists i :: 0 <= i < |locations| && rewrite(locations[i]).Err? {
        var i :| 0 <= i < |locations| && rewrite(locations[i]).Err?;
        if i < |init| {
          assert init[i] == locations[i];
        }
      }
    }
  }

  /** Each entry of a successful rewrite is the rewrite of the entry at the same place. */
  lemma {:induction false} RewriteAt(rewrite: Rewrite, locations: seq<string>, i: nat)
    requires i < |locations| && RewriteAll(rewrite, locations).Ok?
    ensures rewrite(locations[i]).Ok? && RewriteAll(rewrite, locations).value[i] == rewrite(locations[i]).value
    decreases |locations|
  {
    var init := locations[..|locations| - 1];
    if i < |init| {
      RewriteAt(rewrite, init, i);
      assert init[i] == locations[i];
    }
  }

  /** The update fails exactly when some reference's file name has no '.'. */
  lemma UpdateFailsIffDotless(namesMap: map<string, string>, locations: seq<string>)
    ensures UpdatedLocations(namesMap, locations).Err? <==>
      exists i :: 0 <= i < |locations| && '.' !in AfterLast(locations[i], '/')
  {
    RewriteFailsIff(NewLocationIn(namesMap), locations);
    assert forall i :: 0 <= i < |locations| ==>
      (NewLocationIn(namesMap)(locations[i]).Err? <==> '.' !in AfterLast(locations[i], '/'));
  }

  /** After a successful update every reference keeps its directory prefix and its extension, and
      carries the mapped base name, or is unchanged when its base name is not mapped; the number of
      references stays the same. */
  lemma UpdatedAt(namesMap: map<string, string>, locations: seq<string>, i: nat)
    requires i < |locations| && UpdatedLocations(namesMap, locations).Ok?
    ensures var location := locations[i];
      var name := AfterLast(location, '/');
      var loc := UpdatedLocations(namesMap, locations).value[i];
      |UpdatedLocations(namesMap, locations).value| == |locations| &&
      '.' in name && LocationPrefix(location) <= loc &&
      (BeforeLast(name, '.') !in namesMap ==> loc == location) &&
      (BeforeLast(name, '.') in namesMap ==>
        loc == LocationPrefix(location) + namesMap[BeforeLast(name, '.')] + "." + AfterLast(name, '.'))
  {
    RewriteAt(NewLocationIn(namesMap), locations, i);
    NewLocationContent(locations[i], namesMap);
  }

  /** The METS document's file references, as `updateMetsFile` reads, rewrites and writes them. */
  class MetsFileSet {
    /** The references in the stored document. */
    var locations: seq<string>

    constructor (locations: seq<string>)
      ensures this.locations == locations
    {
      this.locations := locations;
    }

    /** `updateMetsFile`: each reference rewritten in place in the document read from storage; the
        document is written back once, after the last reference, so a failure leaves the stored
        references as they were. */
    method UpdateMetsFile(filenameMap: map<string, string>) returns (r: Result<()>)
      modifies this
      ensures r.Ok? ==> UpdatedLocations(filenameMap, old(locations)) == Ok(locations)
      ensures r.Err? ==> UpdatedLocations(filenameMap, old(locations)) == Err(r.error) && locations == old(locations)
    {
      var filesList := locations;
      var updated: seq<string> := [];
      for i := 0 to |filesList|
        invariant locations == filesList
        invariant UpdatedLocations(filenameMap, filesList[..i]) == Ok(updated)
      {
        var newLocation := RewriteLocation(filesList[i], filenameMap);
        UpdatedStep(filenameMap, filesList, i, updated);
        if newLocation.Err? {
          UpdateErrorPersists(filenameMap, filesList, i + 1);
          return Err(newLocation.error);
        }
        updated := updated + [newLocation.value];
      }
      assert filesList[..|filesList|] == filesList;
      locations := updated;
      r := Ok(());
    }

    /** The body of the update loop for one reference: split at the last '/', keep the prefix and
        append the new file name. */
    static method RewriteLocation(oldLocation: string, filenameMap: map<string, string>) returns (r: Result<string>)
      ensures r == NewLocation(oldLocation, filenameMap)
    {
      var fileNameStartIndex := LastIndexOf(oldLocation, '/') + 1;
      var locationPrefix := oldLocation[..fileNameStartIndex];
      var oldFileName := oldLocation[fileNameStartIndex..];
      var newFileName := GetNewFileName(oldFileName, filenameMap);
      NewLocationUnfolded(oldLocation, filenameMap);
      if newFileName.Err? {
        return Err(newFileName.error);
      }
      r := Ok(locationPrefix + newFileName.value);
    }
  }

  /** The update of one more reference. */
  lemma UpdatedStep(namesMap: map<string, string>, locations: seq<string>, i: nat, updated: seq<string>)
    requires i < |locations| && UpdatedLocations(namesMap, locations[..i]) == Ok(updated)
    ensures var found := NewLocation(locations[i], namesMap);
      UpdatedLocations(namesMap, locations[..i + 1])
      == if found.Err? then Err(found.error) else Ok(updated + [found.value])
  {
    assert locations[..i + 1][..i] == locations[..i];
    assert locations[..i + 1][i] == locations[i];
  }

  /** Once a prefix of the references fails, rewriting all of them fails the same way. */
  lemma {:induction false} RewriteErrorPersists(rewrite: Rewrite, locations: seq<string>, n: nat)
    requires n <= |locations| && RewriteAll(rewrite, locations[..n]).Err?
    ensures RewriteAll(rewrite, locations) == RewriteAll(rewrite, locations[..n])
    decreases |locations| - n
  {
    if n < |locations| {
      var next := locations[..n + 1];
      assert next[..|next| - 1] == locations[..n];
      assert RewriteAll(rewrite, next) == RewriteAll(rewrite, locations[..n]);
      RewriteErrorPersists(rewrite, locations, n + 1);
    } else {
      assert locations[..n] == locations;
    }
  }

  /** Once a prefix of the references fails, the whole update fails the same way. */
  lemma UpdateErrorPersists(namesMap: map<string, string>, locations: seq<string>, n: nat)
    requires n <= |locations| && UpdatedLocations(namesMap, locations[..n]).Err?
    ensures UpdatedLocations(namesMap, locations) == UpdatedLocations(namesMap, locations[..n])
  {
    RewriteErrorPersists(NewLocationIn(namesMap), locations, n);
  }
}

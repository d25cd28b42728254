/** The original-file-name history of the module-base plugin: for every folder identifier, a record
    from a file's current name to the name it had before its first rename. */
module History {
  import opened Common
  import opened Paths

  /** One folder's record: current file name to original file name. */
  type FileNameMap = map<string, string>

  /** The whole history: folder identifier to that folder's record. */
  type FolderHistory = map<string, FileNameMap>

  /** The original name recorded for a current name; a name without a record is its own original. */
  function OriginalOf(m: FileNameMap, name: string): (r: string)
  {
    if name in m then m[name] else name
  }

  /** A folder's record after renaming `from` to `to`: the entry of `from` (or `from` itself when it
      has none) moves to the key `to`; every other entry stays. */
  function RecordRename(m: FileNameMap, from: string, to: string): (r: FileNameMap)
    ensures OriginalOf(r, to) == OriginalOf(m, from)
    ensures r.Keys == m.Keys - {from} + {to}
    ensures forall x :: x in r && x != from && x != to ==> r[x] == m[x]
  {
    (m - {from})[to := OriginalOf(m, from)]
  }

  lemma RecordRenameUnfolded(m: FileNameMap, from: string, to: string, r: FileNameMap)
    requires r == if from in m then (m - {from})[to := m[from]] else m[to := from]
    ensures r == RecordRename(m, from, to)
  {
    if from !in m {
      assert m - {from} == m;
    }
  }

  lemma OverwriteTwice<K, V>(m: map<K, V>, k: K, first: V, second: V)
    ensures m[k := first][k := second] == m[k := second]
  {
  }

  /** Renaming a into b and then b into c records a as the original of c. */
  lemma RecordRenameChain(m: FileNameMap, a: string, b: string, c: string)
    ensures OriginalOf(RecordRename(RecordRename(m, a, b), b, c), c) == OriginalOf(m, a)
  {
  }

  /** A folder's record, or the empty record the history creates for a folder it has not seen. */
  function FolderRecord(h: FolderHistory, id: string): (r: FileNameMap)
  {
    if id in h then h[id] else map[]
  }

  /** The history after a folder's record has been fetched: a folder seen for the first time now
      has an empty record, and nothing else changes. */
  function Touch(h: FolderHistory, id: string): (r: FolderHistory)
    ensures r.Keys == h.Keys + {id}
    ensures forall f :: f in h ==> r[f] == h[f]
    ensures FolderRecord(r, id) == FolderRecord(h, id)
  {
    if id in h then h else h[id := map[]]
  }

  /** The original name of a file, looked up in the record of its folder. */
  function Original(h: FolderHistory, id: string, name: string): (r: string)
  {
    OriginalOf(FolderRecord(h, id), name)
  }

  /** `getOriginalFileNameOf(path)` as a value: the original name recorded for the path's file name
      in the record of the path's folder; fails where the folder identifier does. */
  function LookUp(h: FolderHistory, p: Path): (r: Result<string>)
    ensures r.Ok? <==> FileFolderIdentifier(p).Ok?
    ensures r.Ok? ==> HasFileName(p)
    ensures r.Ok? && FileName(p) !in FolderRecord(h, FileFolderIdentifier(p).value) ==> r.value == FileName(p)
  {
    var id :- FileFolderIdentifier(p);
    Ok(Original(h, id, FileName(p)))
  }

  /** One rename within the history: the folder it happened in and the old and new file names. */
  datatype Step = Step(folder: string, from: string, to: string)

  /** The history after one rename: only the step's folder record changes. */
  function ApplyStep(h: FolderHistory, s: Step): (r: FolderHistory)
  {
    h[s.folder := RecordRename(FolderRecord(h, s.folder), s.from, s.to)]
  }

  /** `updateFileName(from, to)` as a value: the rename recorded in the folder both paths belong to;
      NullPointerException when either path lacks a folder identifier, IllegalArgumentException when
      the two identifiers differ. */
  function Renamed(h: FolderHistory, from: Path, to: Path): (r: Result<FolderHistory>)
    ensures r.Ok? <==> (FileFolderIdentifier(from).Ok? && FileFolderIdentifier(to).Ok?
                        && FileFolderIdentifier(from).value == FileFolderIdentifier(to).value)
    ensures FileFolderIdentifier(from).Err? ==> r == Err(NullPointer)
    ensures FileFolderIdentifier(from).Ok? && FileFolderIdentifier(to).Ok? && !r.Ok? ==> r == Err(IllegalArgument)
    ensures r.Ok? ==>
      HasFileName(from) && HasFileName(to) &&
      r.value == ApplyStep(h, Step(FileFolderIdentifier(from).value, FileName(from), FileName(to)))
  {
    var fromFolder :- FileFolderIdentifier(from);
    var toFolder :- FileFolderIdentifier(to);
    if fromFolder != toFolder then Err(IllegalArgument)
    else Ok(ApplyStep(h, Step(fromFolder, FileName(from), FileName(to))))
  }

  /** The history after a sequence of renames, applied in order. */
  function Replay(h: FolderHistory, steps: seq<Step>): (r: FolderHistory)
  {
    if steps == [] then h else ApplyStep(Replay(h, steps[..|steps| - 1]), steps[|steps| - 1])
  }

  /** One more step replays on top of the steps before it. */
  lemma ReplayAppend(h: FolderHistory, steps: seq<Step>, s: Step)
    ensures Replay(h, steps + [s]) == ApplyStep(Replay(h, steps), s)
  {
    assert (steps + [s])[..|steps|] == steps;
  }

  /** Renames that do not feed into one another: no step renames into a name a later step renames
      away, and sources and targets are pairwise distinct (names compared within their folder). */
  predicate Independent(steps: seq<Step>)
  {
    forall i, j :: 0 <= i < j < |steps| ==>
      (steps[i].folder, steps[i].to) != (steps[j].folder, steps[j].from) &&
      (steps[i].folder, steps[i].from) != (steps[j].folder, steps[j].from) &&
      (steps[i].folder, steps[i].to) != (steps[j].folder, steps[j].to)
  }

  /** A step leaves the original of every other (folder, name) alone. */
  lemma StepFrame(h: FolderHistory, s: Step, id: string, name: string)
    requires (id, name) != (s.folder, s.from) && (id, name) != (s.folder, s.to)
    ensures Original(ApplyStep(h, s), id, name) == Original(h, id, name)
  {
    if id == s.folder {
      assert FolderRecord(ApplyStep(h, s), id) == RecordRename(FolderRecord(h, s.folder), s.from, s.to);
    }
  }

  /** A (folder, name) no step touches keeps its original through the whole sequence. */
  lemma {:induction false} ReplayFrame(h: FolderHistory, steps: seq<Step>, id: string, name: string)
    requires forall k :: 0 <= k < |steps| ==>
      (id, name) != (steps[k].folder, steps[k].from) && (id, name) != (steps[k].folder, steps[k].to)
    ensures Original(Replay(h, steps), id, name) == Original(h, id, name)
    decreases |steps|
  {
    if steps != [] {
      var init := steps[..|steps| - 1];
      ReplayFrame(h, init, id, name);
      StepFrame(Replay(h, init), steps[|steps| - 1], id, name);
    }
  }

  /** Independent renames carry every original forward: after all of them, each step's new name has
      the original its old name had before any of them. */
  lemma {:induction false} CarriedForward(h: FolderHistory, steps: seq<Step>, i: int)
    requires Independent(steps)
    requires 0 <= i < |steps|
    ensures Original(Replay(h, steps), steps[i].folder, steps[i].to)
         == Original(h, steps[i].folder, steps[i].from)
    decreases |steps|
  {
    var init := steps[..|steps| - 1];
    var last := steps[|steps| - 1];
    assert Independent(init);
    if i == |steps| - 1 {
      ReplayFrame(h, init, last.folder, last.from);
      assert FolderRecord(ApplyStep(Replay(h, init), last), last.folder)
          == RecordRename(FolderRecord(Replay(h, init), last.folder), last.from, last.to);
    } else {
      CarriedForward(h, init, i);
      StepFrame(Replay(h, init), last, steps[i].folder, steps[i].to);
    }
  }

  /** The history object: updated in place by lookups (which create empty folder records) and by
      renames. */
  class OriginalFileNameHistory {
    var mapping: FolderHistory

    constructor ()
      ensures mapping == map[]
    {
      mapping := map[];
    }

    /** `getOriginalFileNameOf`: the lookup, which also leaves an empty record for a new folder. */
    method GetOriginalFileNameOf(p: Path) returns (r: Result<string>)
      modifies this
      ensures r == LookUp(old(mapping), p)
      ensures r.Ok? ==> mapping == Touch(old(mapping), FileFolderIdentifier(p).value)
      ensures r.Err? ==> mapping == old(mapping)
    {
      var id := FileFolderIdentifier(p);
      if id.Err? {
        return Err(id.error);
      }
      mapping := Touch(mapping, id.value);
      var folderMapping := mapping[id.value];
      var currentFileName := FileName(p);
      if currentFileName !in folderMapping {
        return Ok(currentFileName);
      }
      return Ok(folderMapping[currentFileName]);
    }

    /** `updateFileName`: records the rename, or throws before changing anything. */
    method UpdateFileName(from: Path, to: Path) returns (r: Result<()>)
      modifies this
      ensures r.Ok? ==> Renamed(old(mapping), from, to) == Ok(mapping)
      ensures r.Err? ==> Renamed(old(mapping), from, to) == Err(r.error) && mapping == old(mapping)
    {
      ghost var before := mapping;
      var fromFolder := FileFolderIdentifier(from);
      if fromFolder.Err? {
        return Err(fromFolder.error);
      }
      var toFolder := FileFolderIdentifier(to);
      if toFolder.Err? {
        return Err(toFolder.error);
      }
      if fromFolder.value != toFolder.value {
        return Err(IllegalArgument);
      }
      if fromFolder.value !in mapping {
        mapping := mapping[fromFolder.value := map[]];
      }
      var folderMapping := mapping[fromFolder.value];
      assert folderMapping == FolderRecord(before, fromFolder.value);
      var fromFile := FileName(from);
      var toFile := FileName(to);
      var originalFileName := fromFile;
      if fromFile in folderMapping {
        originalFileName := folderMapping[fromFile];
        folderMapping := folderMapping - {fromFile};
      }
      folderMapping := folderMapping[toFile := originalFileName];
      RecordRenameUnfolded(FolderRecord(before, fromFolder.value), fromFile, toFile, folderMapping);
      if fromFolder.value !in before {
        OverwriteTwice(before, fromFolder.value, map[], folderMapping);
      }
      mapping := mapping[fromFolder.value := folderMapping];
      r := Ok(());
    }
  }
}

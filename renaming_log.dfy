/** The second generation of the plugin (plugin/): name parts are filtered by their conditions and
    prepared once per run; each folder's files are named in listing order with the barcode counter
    rule, and every rename is entered in a renaming log kept per folder identifier, which maps a
    file's current name to its original name and feeds the "originalfilename" name part. */
module RenamingLog {
  import opened Common
  import opened Text
  import opened Paths
  import opened History
  import opened Template
  import opened BarcodeCounter
  import opened Storage
  import Planner

  /** The part type that renders the file's original name without its extension (compared case
      sensitively). */
  const OriginalFileNameType: string := "originalfilename"

  /** A configured name part with its replacements and conditions; preparation gives a counter part
      the DecimalFormat pattern it renders the counter with. */
  datatype NamePartConfiguration = NamePartConfiguration(
    namePartValue: string, namePartType: string, replacements: seq<Replacement>, conditions: seq<Condition>,
    format: Option<string>)

  /** `allConditionsMatch`: every condition's value, with its variables substituted, fully matches
      the condition's regular expression. */
  predicate PartApplies(env: Env, npc: NamePartConfiguration)
  {
    forall k :: 0 <= k < |npc.conditions| ==>
      env.fullyMatches(env.substitute(npc.conditions[k].value), npc.conditions[k].matches)
  }

  /** The parts whose conditions all match, in template order. */
  function Selected(env: Env, parts: seq<NamePartConfiguration>): (r: seq<NamePartConfiguration>)
    ensures |r| <= |parts|
    ensures forall x :: x in r <==> x in parts && PartApplies(env, x)
  {
    if parts == [] then []
    else
      var last := parts[|parts| - 1];
      assert parts == parts[..|parts| - 1] + [last];
      Selected(env, parts[..|parts| - 1]) + (if PartApplies(env, last) then [last] else [])
  }

  /** Filtering a template in two pieces filters each piece and keeps them in order: together with
      the one-part case (the part when its conditions match, nothing otherwise), the parts kept
      are those whose conditions match, in template order and each as often as it is configured. */
  lemma {:induction false} SelectedAppend(env: Env, a: seq<NamePartConfiguration>, b: seq<NamePartConfiguration>)
    ensures Selected(env, a + b) == Selected(env, a) + Selected(env, b)
    decreases |b|
  {
    if b == [] {
      assert a + b == a;
    } else {
      var c := a + b;
      var init, last := b[..|b| - 1], b[|b| - 1];
      var kept := if PartApplies(env, last) then [last] else [];
      assert c[..|c| - 1] == a + init;
      assert c[|c| - 1] == last;
      assert Selected(env, c) == Selected(env, a + init) + kept;
      SelectedAppend(env, a, init);
      SeqAssoc(Selected(env, a), Selected(env, init), kept);
    }
  }

  lemma SeqAssoc<T>(x: seq<T>, y: seq<T>, z: seq<T>)
    ensures (x + y) + z == x + (y + z)
  {
  }

  /** Filtering keeps every part whose conditions all match, in order. */
  lemma {:induction false} SelectedAll(env: Env, parts: seq<NamePartConfiguration>)
    requires forall k :: 0 <= k < |parts| ==> PartApplies(env, parts[k])
    ensures Selected(env, parts) == parts
  {
    if parts != [] {
      SelectedAll(env, parts[..|parts| - 1]);
      FrontLast(parts);
    }
  }

  /** One part prepared: a "variable" part (any letter case) holds its substituted text with its
      replacements applied in order, a "counter" part gets its text as DecimalFormat pattern; a
      counter text DecimalFormat refuses is an IllegalArgumentException. */
  function Prepared(env: Env, npc: NamePartConfiguration): (r: Result<NamePartConfiguration>)
    ensures r.Err? ==> r.error == IllegalArgument
  {
    if EqualsIgnoreCase(npc.namePartType, "variable") then
      Ok(npc.(namePartValue := ApplyReplacements(env, env.substitute(npc.namePartValue), npc.replacements)))
    else if EqualsIgnoreCase(npc.namePartType, "counter") then
      if ValidPattern(env, npc.namePartValue) then Ok(npc.(format := Some(npc.namePartValue))) else Err(IllegalArgument)
    else Ok(npc)
  }

  /** What one part contributes to a new file name: the formatted counter for a part with a format,
      the original name of the current file without its extension for an "originalfilename" part
      (the current name itself when the log has no entry for it), the part's text otherwise. */
  function RenderPart(env: Env, npc: NamePartConfiguration, log: FileNameMap, current: string, counter: int): (r: string)
  {
    if npc.format.Some? then Format(env, npc.format.value, counter)
    else if npc.namePartType == OriginalFileNameType then BeforeLast(OriginalOf(log, current), '.')
    else npc.namePartValue
  }

  /** The parts rendered in order. */
  function Rendered(env: Env, parts: seq<NamePartConfiguration>, log: FileNameMap, current: string, counter: int): (r: string)
  {
    if parts == [] then ""
    else Rendered(env, parts[..|parts| - 1], log, current, counter) + RenderPart(env, parts[|parts| - 1], log, current, counter)
  }

  /** `generateNewFileName` as a value: the rendered parts, then '.' and the extension unless it is
      blank. */
  function NewFileName(env: Env, parts: seq<NamePartConfiguration>, log: FileNameMap, current: string, counter: int,
                       extension: string): (r: string)
  {
    Rendered(env, parts, log, current, counter) + (if IsBlank(extension) then "" else "." + extension)
  }

  /** The template made of one "originalfilename" part gives a file back its recorded original
      name, when the extension it is named with is the original's. */
  lemma OriginalNameRestored(env: Env, npc: NamePartConfiguration, log: FileNameMap, current: string, counter: int)
    requires npc.format.None? && npc.namePartType == OriginalFileNameType
    requires '.' in OriginalOf(log, current) && !IsBlank(AfterLast(OriginalOf(log, current), '.'))
    ensures NewFileName(env, [npc], log, current, counter, AfterLast(OriginalOf(log, current), '.')) == OriginalOf(log, current)
  {
    RenderedOriginal(env, npc, log, current, counter);
    JoinAtLast(OriginalOf(log, current), '.');
  }

  /** The "originalfilename" part alone renders the original name without its extension. */
  lemma RenderedOriginal(env: Env, npc: NamePartConfiguration, log: FileNameMap, current: string, counter: int)
    requires npc.format.None? && npc.namePartType == OriginalFileNameType
    ensures Rendered(env, [npc], log, current, counter) == BeforeLast(OriginalOf(log, current), '.')
  {
    RenderedSingle(env, npc, log, current, counter);
  }

  /** A template of one part renders as that part. */
  lemma RenderedSingle(env: Env, npc: NamePartConfiguration, log: FileNameMap, current: string, counter: int)
    ensures Rendered(env, [npc], log, current, counter) == RenderPart(env, npc, log, current, counter)
  {
    assert [npc][..0] == [];
  }

  /** A renamed file keeps its extension: read off the new name, it is the text after the last '.'
      of the old name. */
  lemma ExtensionKept(env: Env, parts: seq<NamePartConfiguration>, log: FileNameMap, current: string, counter: int)
    requires !IsBlank(AfterLast(current, '.'))
    ensures AfterLast(NewFileName(env, parts, log, current, counter, AfterLast(current, '.')), '.') == AfterLast(current, '.')
  {
    var ext := AfterLast(current, '.');
    var rendered := Rendered(env, parts, log, current, counter);
    assert NewFileName(env, parts, log, current, counter, ext) == rendered + ['.'] + ext;
    LastIndexOfAfterSeparator(rendered, ext, '.');
  }

  /** How a file is named from the folder's record, its current name and its counter. */
  type Namer = (FileNameMap, string, int) -> string

  /** The template's namer: the extension is the text after the last '.' of the current name, the
      whole name when there is none. */
  function TemplateNamer(env: Env, parts: seq<NamePartConfiguration>): (r: Namer)
  {
    (log: FileNameMap, current: string, counter: int) => NewFileName(env, parts, log, current, counter, AfterLast(current, '.'))
  }

  /** The log after naming the first k files of a folder's listing, starting from history h, and
      the renames entered: each file whose new name (generated with the folder's record as it is at
      that moment) differs from its name is entered as a rename of the folder. */
  function FolderPass(namer: Namer, startValue: int, h: FolderHistory, id: string, names: seq<string>, k: nat)
    : (r: (FolderHistory, seq<Step>))
    requires k <= |names|
    ensures r.0 == Replay(h, r.1)
    ensures |r.1| <= k
    ensures forall s :: s in r.1 ==> s.folder == id && s.from != s.to
  {
    if k == 0 then (h, [])
    else
      var prev := FolderPass(namer, startValue, h, id, names, k - 1);
      var name := names[k - 1];
      var newName := namer(FolderRecord(prev.0, id), name, CounterOf(names, startValue, k - 1));
      if name == newName then prev
      else
        var step := Step(id, name, newName);
        ReplayAppend(h, prev.1, step);
        (ApplyStep(prev.0, step), prev.1 + [step])
  }

  /** The history after naming the file at index i with the folder's record as it is in `log`. */
  function NextLog(namer: Namer, startValue: int, log: FolderHistory, id: string, names: seq<string>, i: nat): (r: FolderHistory)
    requires i < |names|
  {
    var newName := namer(FolderRecord(log, id), names[i], CounterOf(names, startValue, i));
    if names[i] == newName then log else ApplyStep(log, Step(id, names[i], newName))
  }

  /** One more file named. */
  lemma PassStep(namer: Namer, startValue: int, h: FolderHistory, id: string, names: seq<string>, i: nat)
    requires i < |names|
    ensures FolderPass(namer, startValue, h, id, names, i + 1).0
         == NextLog(namer, startValue, FolderPass(namer, startValue, h, id, names, i).0, id, names, i)
  {
  }

  /** When a folder's renames do not feed into one another, the log maps each new name to the
      original of the name it replaced: originals are carried forward, not lost. */
  lemma LogCarriesOriginals(namer: Namer, startValue: int, h: FolderHistory, id: string, names: seq<string>, i: nat)
    requires Independent(FolderPass(namer, startValue, h, id, names, |names|).1)
    requires i < |FolderPass(namer, startValue, h, id, names, |names|).1|
    ensures var pass := FolderPass(namer, startValue, h, id, names, |names|);
      Original(pass.0, id, pass.1[i].to) == Original(h, id, pass.1[i].from)
  {
    var pass := FolderPass(namer, startValue, h, id, names, |names|);
    CarriedForward(h, pass.1, i);
  }

  /** A file whose new name is its own name is not entered: a listing whose every file keeps its
      name leaves the log as it was. */
  lemma {:induction false} NoRenameNoEntry(namer: Namer, startValue: int, h: FolderHistory, id: string, names: seq<string>, k: nat)
    requires k <= |names|
    requires forall j :: 0 <= j < k ==> namer(FolderRecord(h, id), names[j], CounterOf(names, startValue, j)) == names[j]
    ensures FolderPass(namer, startValue, h, id, names, k) == (h, [])
  {
    if k > 0 {
      NoRenameNoEntry(namer, startValue, h, id, names, k - 1);
    }
  }

  /** A listed entry of the folder that is a directory. */
  predicate ListedDirectory(dirs: set<Path>, folder: Path, name: string)
  {
    name != "" && '/' !in name && Path(folder.names + [name]) in dirs
  }

  /** None of the first k listed entries is a directory. */
  predicate NoDirectoryAmong(dirs: set<Path>, folder: Path, names: seq<string>, k: nat)
    requires k <= |names|
  {
    k == 0 || (NoDirectoryAmong(dirs, folder, names, k - 1) && !ListedDirectory(dirs, folder, names[k - 1]))
  }

  lemma {:induction false} NoDirectoryAmongAll(dirs: set<Path>, folder: Path, names: seq<string>, k: nat)
    requires k <= |names|
    ensures NoDirectoryAmong(dirs, folder, names, k) <==> forall j :: 0 <= j < k ==> !ListedDirectory(dirs, folder, names[j])
  {
    if k > 0 {
      NoDirectoryAmongAll(dirs, folder, names, k - 1);
    }
  }

  class RenameFilesPlugin {
    const env: Env
    const storage: Storage
    const startValue: int
    var namePartList: seq<NamePartConfiguration>
    var renamingLog: FolderHistory

    constructor (env: Env, storage: Storage, startValue: int, namePartList: seq<NamePartConfiguration>, renamingLog: FolderHistory)
      ensures this.env == env && this.storage == storage && this.startValue == startValue
      ensures this.namePartList == namePartList && this.renamingLog == renamingLog
    {
      this.env := env;
      this.storage := storage;
      this.startValue := startValue;
      this.namePartList := namePartList;
      this.renamingLog := renamingLog;
    }

    /** The preparation in `run`: only the parts whose conditions all match are kept, and each of
        them is prepared in place, before any file is named; the first part that fails ends it with
        that exception, the parts before it prepared and the rest as selected. */
    method PrepareNameParts() returns (r: Result<()>, ghost failedAt: nat)
      modifies this
      ensures |namePartList| == |Selected(env, old(namePartList))|
      ensures r.Ok? <==> forall k :: 0 <= k < |namePartList| ==> Prepared(env, Selected(env, old(namePartList))[k]).Ok?
      ensures r.Ok? ==> forall k :: 0 <= k < |namePartList| ==>
        namePartList[k] == Prepared(env, Selected(env, old(namePartList))[k]).value
      ensures r.Err? ==>
        r.error == IllegalArgument && failedAt < |namePartList| && Prepared(env, Selected(env, old(namePartList))[failedAt]).Err?
      ensures r.Err? ==> forall k :: 0 <= k < failedAt ==>
        Prepared(env, Selected(env, old(namePartList))[k]).Ok? && namePartList[k] == Prepared(env, Selected(env, old(namePartList))[k]).value
      ensures r.Err? ==> forall k :: failedAt <= k < |namePartList| ==> namePartList[k] == Selected(env, old(namePartList))[k]
      ensures renamingLog == old(renamingLog)
    {
      failedAt := 0;
      var selected := Selected(env, namePartList);
      namePartList := selected;
      for i := 0 to |namePartList|
        invariant |namePartList| == |selected|
        invariant forall k :: 0 <= k < i ==> Prepared(env, selected[k]).Ok? && namePartList[k] == Prepared(env, selected[k]).value
        invariant forall k :: i <= k < |namePartList| ==> namePartList[k] == selected[k]
        invariant renamingLog == old(renamingLog)
      {
        var prepared := Prepared(env, namePartList[i]);
        if prepared.Err? {
          return Err(prepared.error), i;
        }
        namePartList := namePartList[i := prepared.value];
      }
      r := Ok(());
    }

    /** `getFolderRenamingLog`: the folder's record, created empty on first access; reading the
        identifier of a folder with fewer than two path names is a NullPointerException. */
    method GetFolderRenamingLog(folder: Path) returns (r: Result<FileNameMap>)
      modifies this
      ensures r.Ok? <==> FolderIdentifier(folder).Ok?
      ensures r.Ok? ==> (r.value == FolderRecord(old(renamingLog), FolderIdentifier(folder).value) &&
                         renamingLog == Touch(old(renamingLog), FolderIdentifier(folder).value))
      ensures r.Err? ==> r.error == NullPointer && renamingLog == old(renamingLog)
      ensures namePartList == old(namePartList)
    {
      var id := FolderIdentifier(folder);
      if id.Err? {
        return Err(NullPointer);
      }
      if id.value !in renamingLog {
        renamingLog := renamingLog[id.value := map[]];
      }
      r := Ok(renamingLog[id.value]);
    }

    /** `updateRenameLog` on the record of folder `id`: the entry of `from` (or `from` itself) moves
        to the key `to`. */
    method UpdateRenameLog(id: string, from: string, to: string)
      modifies this
      ensures renamingLog == ApplyStep(old(renamingLog), Step(id, from, to))
      ensures namePartList == old(namePartList)
    {
      var record := FolderRecord(renamingLog, id);
      var originalFileName := from;
      var updated := record;
      if from in record {
        originalFileName := record[from];
        updated := record - {from};
      }
      updated := updated[to := originalFileName];
      RecordRenameUnfolded(record, from, to, updated);
      renamingLog := renamingLog[id := updated];
    }

    /** `generateNewFileName`: the parts appended in order, then '.' and the extension unless blank. */
    method GenerateNewFileName(folderRenamingLog: FileNameMap, currentFileName: string, counter: int, extension: string)
      returns (r: string)
      ensures r == NewFileName(env, namePartList, folderRenamingLog, currentFileName, counter, extension)
    {
      var sb := "";
      for i := 0 to |namePartList|
        invariant sb == Rendered(env, namePartList[..i], folderRenamingLog, currentFileName, counter)
      {
        assert namePartList[..i + 1][..i] == namePartList[..i];
        var npc := namePartList[i];
        if npc.format.Some? {
          sb := sb + Format(env, npc.format.value, counter);
        } else if npc.namePartType == OriginalFileNameType {
          var originalFileName := if currentFileName in folderRenamingLog then folderRenamingLog[currentFileName] else currentFileName;
          sb := sb + BeforeLast(originalFileName, '.');
        } else {
          sb := sb + npc.namePartValue;
        }
      }
      assert namePartList[..|namePartList|] == namePartList;
      if !IsBlank(extension) {
        sb := sb + "." + extension;
      }
      r := sb;
    }

    /** One turn of the naming loop: the file at index i is named with counter 0 when it is a
        barcode image and with the current counter otherwise, which then advances; the rename is
        entered in the log when the name differs. */
    method NameFile(id: string, names: seq<string>, i: nat, counter: int) returns (next: int)
      requires i < |names| && counter == CounterBefore(names, startValue, i)
      modifies this
      ensures next == CounterBefore(names, startValue, i + 1)
      ensures renamingLog == NextLog(TemplateNamer(env, namePartList), startValue, old(renamingLog), id, names, i)
      ensures namePartList == old(namePartList)
    {
      var oldFileName := names[i];
      var extension := AfterLast(oldFileName, '.');
      var fileName: string;
      CounterStep(names, startValue, i);
      var folderRenamingLog := FolderRecord(renamingLog, id);
      next := counter;
      if IsBarcodeImage(oldFileName) {
        fileName := GenerateNewFileName(folderRenamingLog, oldFileName, 0, extension);
      } else {
        fileName := GenerateNewFileName(folderRenamingLog, oldFileName, counter, extension);
        next := counter + 1;
      }
      assert fileName == TemplateNamer(env, namePartList)(folderRenamingLog, oldFileName, CounterOf(names, startValue, i));
      if oldFileName != fileName {
        UpdateRenameLog(id, oldFileName, fileName);
      }
    }

    /** One turn of the naming loop, stated on the log after the files before it. */
    method NameNextFile(id: string, names: seq<string>, i: nat, counter: int, ghost h0: FolderHistory) returns (next: int)
      requires i < |names| && counter == CounterBefore(names, startValue, i)
      requires renamingLog == FolderPass(TemplateNamer(env, namePartList), startValue, h0, id, names, i).0
      modifies this
      ensures next == CounterBefore(names, startValue, i + 1)
      ensures renamingLog == FolderPass(TemplateNamer(env, namePartList), startValue, h0, id, names, i + 1).0
      ensures namePartList == old(namePartList)
    {
      PassStep(TemplateNamer(env, namePartList), startValue, h0, id, names, i);
      next := NameFile(id, names, i, counter);
    }

    /** The naming loop of `renameFilesInFolder` over a listing of the folder with identifier `id`:
        an IOException at the first listed entry that is a directory (the renames entered before it
        stay in the log); otherwise every file is named with the barcode counter rule and each
        rename is entered in the log. */
    method NameListedFiles(folder: Path, id: string, names: seq<string>) returns (r: Result<()>, ghost done: nat)
      modifies this
      ensures namePartList == old(namePartList)
      ensures done <= |names| &&
              renamingLog == FolderPass(TemplateNamer(env, namePartList), startValue, old(renamingLog), id, names, done).0
      ensures NoDirectoryAmong(storage.directories, folder, names, done)
      ensures r.Ok? ==> done == |names|
      ensures r.Err? ==> r.error == IoException && done < |names| && ListedDirectory(storage.directories, folder, names[done])
    {
      ghost var h0 := renamingLog;
      ghost var namer := TemplateNamer(env, namePartList);
      var directories := storage.directories;
      var counter := startValue;
      for i := 0 to |names|
        invariant namePartList == old(namePartList) && storage.directories == directories
        invariant counter == CounterBefore(names, startValue, i)
        invariant renamingLog == FolderPass(namer, startValue, h0, id, names, i).0
        invariant NoDirectoryAmong(directories, folder, names, i)
      {
        if ListedDirectory(directories, folder, names[i]) {
          return Err(IoException), i;
        }
        counter := NameNextFile(id, names, i, counter, h0);
      }
      r, done := Ok(()), |names|;
    }

    /** `renameFilesInFolder`: an IOException when the folder is not a directory; otherwise its
        listing is named by the loop above. */
    method RenameFilesInFolder(folder: Path, id: string) returns (r: Result<()>, names: seq<string>, ghost done: nat)
      modifies this
      ensures namePartList == old(namePartList)
      ensures r.Err? ==> r.error == IoException
      ensures folder !in storage.directories ==> r.Err? && renamingLog == old(renamingLog) && names == [] && done == 0
      ensures folder in storage.directories ==> Fits(storage.files, folder, names)
      ensures done <= |names| &&
              renamingLog == FolderPass(TemplateNamer(env, namePartList), startValue, old(renamingLog), id, names, done).0
      ensures folder in storage.directories ==>
        (r.Ok? <==> forall j :: 0 <= j < |names| ==> !ListedDirectory(storage.directories, folder, names[j]))
      ensures folder in storage.directories && r.Ok? ==> done == |names|
      ensures folder in storage.directories && r.Err? ==>
        done < |names| && ListedDirectory(storage.directories, folder, names[done]) &&
        forall j :: 0 <= j < done ==> !ListedDirectory(storage.directories, folder, names[j])
    {
      if folder !in storage.directories {
        return Err(IoException), [], 0;
      }
      names := storage.ListFiles(folder);
      r, done := NameListedFiles(folder, id, names);
      NoDirectoryAmongAll(storage.directories, folder, names, done);
    }
  }
}

/** The module-base plugin object: its run over the configured folders, planning each folder with
    the formatter, moving the files in a conflict-free order while the history records every move,
    and updating the METS file. */
module RenameFiles {
  import opened Common
  import opened Paths
  import opened History
  import opened Template
  import opened Storage
  import opened RenamingOrder
  import opened MetsLocations
  import opened Ordering
  import opened Planner

  // ---------------------------------------------------------------------------------------------
  // Steps of the loops, stated on the specification functions
  // ---------------------------------------------------------------------------------------------

  /** One file of a folder under the formatter's template: its generated name with its old
      extension, and its entry unless that is its old name. */
  lemma TemplateStep(env: Env, parts: seq<NamePart>, startValue: int, st0: State, folder: Path, names: seq<Segment>,
                     i: nat, result: Renaming, st: State, generated: string, st1: State)
    requires i < |names| && |st.counters| == |parts|
    requires PlanUpTo(TemplateNamer(env, parts, startValue), PathsGet, st0, folder, names, i) == Ok((result, st))
    requires GenerateName(env, parts, startValue, st, Child(folder, names[i])) == Ok((generated, st1))
    ensures var newName := NewFullName(generated, names[i]);
      PlanUpTo(TemplateNamer(env, parts, startValue), PathsGet, st0, folder, names, i + 1) ==
        Ok((if names[i] == newName then result else result[Child(folder, names[i]) := Resolve(folder, newName)], st1))
  {
    var file := Child(folder, names[i]);
    assert TemplateNamer(env, parts, startValue)(st, file) == Ok((NewFullName(generated, FileName(file)), st1));
  }

  /** A file the formatter cannot name fails the folder's plan with the formatter's error. */
  lemma TemplateStepFails(env: Env, parts: seq<NamePart>, startValue: int, st0: State, folder: Path, names: seq<Segment>,
                          i: nat, result: Renaming, st: State)
    requires i < |names| && |st.counters| == |parts|
    requires PlanUpTo(TemplateNamer(env, parts, startValue), PathsGet, st0, folder, names, i) == Ok((result, st))
    requires GenerateName(env, parts, startValue, st, Child(folder, names[i])).Err?
    ensures PlanUpTo(TemplateNamer(env, parts, startValue), PathsGet, st0, folder, names, |names|) ==
      Err(GenerateName(env, parts, startValue, st, Child(folder, names[i])).error)
  {
    var namer := TemplateNamer(env, parts, startValue);
    assert namer(st, Child(folder, names[i])) == Err(GenerateName(env, parts, startValue, st, Child(folder, names[i])).error);
    PlanErrorPersists(namer, PathsGet, st0, folder, names, i + 1);
  }

  /** The plan over the first i + 1 folders, from the plan over the first i. */
  lemma PlanAllStep(env: Env, parts: seq<NamePart>, startValue: int, h: FolderHistory, files: set<Path>, dirs: set<Path>,
                    folders: seq<Path>, i: nat)
    requires i < |folders|
    ensures PlanAll(env, parts, startValue, h, files, dirs, folders[..i + 1]) ==
      (var prefix := PlanAll(env, parts, startValue, h, files, dirs, folders[..i]);
       if prefix.Err? then prefix
       else
         var plan := FolderPlan(env, parts, startValue, prefix.value.1, files, dirs, folders[i]);
         if plan.Err? then Err(plan.error) else Ok((prefix.value.0 + plan.value.0, plan.value.1)))
  {
    assert folders[..i + 1][..i] == folders[..i];
  }

  /** Once a folder fails, the plan over all folders fails with its error. */
  lemma {:induction false} PlanAllErrorPersists(env: Env, parts: seq<NamePart>, startValue: int, h: FolderHistory,
                                                files: set<Path>, dirs: set<Path>, folders: seq<Path>, i: nat)
    requires i <= |folders|
    requires PlanAll(env, parts, startValue, h, files, dirs, folders[..i]).Err?
    ensures PlanAll(env, parts, startValue, h, files, dirs, folders) == PlanAll(env, parts, startValue, h, files, dirs, folders[..i])
    decreases |folders| - i
  {
    if i < |folders| {
      PlanAllStep(env, parts, startValue, h, files, dirs, folders, i);
      PlanAllErrorPersists(env, parts, startValue, h, files, dirs, folders, i + 1);
    } else {
      assert folders[..i] == folders;
    }
  }

  /** The moves of the first i + 1 sources, from the moves of the first i. */
  lemma PerformStep(replace: bool, files: set<Path>, dirs: set<Path>, h: FolderHistory, m: Renaming, order: seq<Path>, i: nat)
    requires i < |order| && forall k :: k in order ==> k in m
    ensures forall k :: k in order[..i] ==> k in m
    ensures forall k :: k in order[..i + 1] ==> k in m
    ensures Perform(replace, files, dirs, h, m, order[..i + 1]) ==
      (var prefix := Perform(replace, files, dirs, h, m, order[..i]);
       if prefix.Err? then prefix
       else
         var (files1, h1) := prefix.value;
         var from, to := order[i], m[order[i]];
         if !CanMove(replace, files1, dirs, from, to) then Err(IoException)
         else
           var h2 := Renamed(h1, from, to);
           if h2.Err? then Err(h2.error) else Ok((files1 - {from} + {to}, h2.value)))
  {
    assert forall k :: k in order[..i + 1] ==> k in order;
    assert forall k :: k in order[..i] ==> k in order;
    assert order[..i + 1][..i] == order[..i];
  }

  /** Once a move or its history record fails, the renaming fails with that error. */
  lemma {:induction false} PerformErrorPersists(replace: bool, files: set<Path>, dirs: set<Path>, h: FolderHistory, m: Renaming,
                                                order: seq<Path>, i: nat)
    requires i <= |order| && forall k :: k in order ==> k in m
    requires forall k :: k in order[..i] ==> k in m
    requires Perform(replace, files, dirs, h, m, order[..i]).Err?
    ensures Perform(replace, files, dirs, h, m, order) == Perform(replace, files, dirs, h, m, order[..i])
    decreases |order| - i
  {
    if i < |order| {
      PerformStep(replace, files, dirs, h, m, order, i);
      PerformErrorPersists(replace, files, dirs, h, m, order, i + 1);
    } else {
      assert order[..i] == order;
    }
  }

  // ---------------------------------------------------------------------------------------------
  // The plugin object
  // ---------------------------------------------------------------------------------------------

  class RenameFilesPlugin {
    const storage: Storage
    const history: OriginalFileNameHistory
    const formatter: RenamingFormatter
    const mets: MetsDocument
    const updateMetsFile: bool
    var perStructureElementCounters: map<StructId, int>

    constructor (storage: Storage, history: OriginalFileNameHistory, formatter: RenamingFormatter,
                 mets: MetsDocument, updateMetsFile: bool)
      ensures this.storage == storage && this.history == history && this.formatter == formatter
      ensures this.mets == mets && this.updateMetsFile == updateMetsFile
      ensures perStructureElementCounters == map[]
    {
      this.storage := storage;
      this.history := history;
      this.formatter := formatter;
      this.mets := mets;
      this.updateMetsFile := updateMetsFile;
      perStructureElementCounters := map[];
    }

    /** `determineRenamingForAllFilesInFolder`: nothing for a missing path, a PluginException for a
        file, and otherwise the folder's files in sorted order, each mapped to its generated name
        with its old extension unless that is its old name; the counters start again for every
        folder, and the history carries the lookups the naming made. */
    method DetermineRenamingForAllFilesInFolder(folder: Path) returns (r: Result<Renaming>)
      modifies this, formatter, history
      ensures var expected := FolderPlan(formatter.env, formatter.parts, formatter.startValue, old(history.mapping),
                                         storage.files, storage.directories, folder);
        (r.Ok? <==> expected.Ok?) &&
        (r.Ok? ==> (r.value, history.mapping) == expected.value) &&
        (r.Err? ==> r.error == expected.error)
    {
      if !storage.IsFileExists(folder) {
        return Ok(map[]);
      }
      if !storage.IsDirectory(folder) {
        return Err(PluginException);
      }
      var listing := storage.ListFiles(folder);
      var names := Sort(listing);
      ListingSorted(listing, storage.ChildNames(folder));
      assert names == SortedNames(storage.ChildNames(folder));
      r := RenameSortedFiles(folder, names);
    }

    /** The loop of `determineRenamingForAllFilesInFolder` over the sorted files: the per-element
        counters are cleared and the formatter reset, then every file is named in turn. */
    method RenameSortedFiles(folder: Path, names: seq<Segment>) returns (r: Result<Renaming>)
      modifies this, formatter, history
      ensures var expected := PlanUpTo(TemplateNamer(formatter.env, formatter.parts, formatter.startValue), PathsGet,
                                       State(ResetCounters(|formatter.parts|, formatter.startValue), map[], old(history.mapping)),
                                       folder, names, |names|);
        (r.Ok? <==> expected.Ok?) &&
        (r.Ok? ==> (r.value, history.mapping) == (expected.value.0, expected.value.1.history)) &&
        (r.Err? ==> r.error == expected.error)
    {
      perStructureElementCounters := map[];
      formatter.Reset();
      ghost var namer := TemplateNamer(formatter.env, formatter.parts, formatter.startValue);
      ghost var st0 := State(formatter.counters, perStructureElementCounters, history.mapping);
      var result: Renaming := map[];
      for i := 0 to |names|
        invariant |formatter.counters| == |formatter.parts|
        invariant PlanUpTo(namer, PathsGet, st0, folder, names, i) ==
          Ok((result, State(formatter.counters, perStructureElementCounters, history.mapping)))
      {
        var oldFullFileName := names[i];
        var file := Child(folder, oldFullFileName);
        ghost var st := State(formatter.counters, perStructureElementCounters, history.mapping);
        var generated, after := formatter.GenerateNewName(file, perStructureElementCounters, history);
        if generated.Err? {
          TemplateStepFails(formatter.env, formatter.parts, formatter.startValue, st0, folder, names, i, result, st);
          return Err(generated.error);
        }
        perStructureElementCounters := after;
        var newFullFileName := generated.value + "." + Extension(oldFullFileName);
        TemplateStep(formatter.env, formatter.parts, formatter.startValue, st0, folder, names, i, result, st,
                     generated.value, State(formatter.counters, perStructureElementCounters, history.mapping));
        if oldFullFileName != newFullFileName {
          result := result[file := Resolve(folder, newFullFileName)];
        }
      }
      return Ok(result);
    }

    /** `determineRenamingForAllFilesInAllFolders`: the folders' renamings merged in order, a later
        folder's entry replacing an earlier one for the same file. */
    method DetermineRenamingForAllFilesInAllFolders(folders: seq<Path>) returns (r: Result<Renaming>)
      modifies this, formatter, history
      ensures var expected := PlanAll(formatter.env, formatter.parts, formatter.startValue, old(history.mapping),
                                      storage.files, storage.directories, folders);
        (r.Ok? <==> expected.Ok?) &&
        (r.Ok? ==> (r.value, history.mapping) == expected.value) &&
        (r.Err? ==> r.error == expected.error)
    {
      ghost var h0 := history.mapping;
      var result: Renaming := map[];
      for i := 0 to |folders|
        invariant PlanAll(formatter.env, formatter.parts, formatter.startValue, h0, storage.files, storage.directories, folders[..i])
          == Ok((result, history.mapping))
      {
        PlanAllStep(formatter.env, formatter.parts, formatter.startValue, h0, storage.files, storage.directories, folders, i);
        var plan := DetermineRenamingForAllFilesInFolder(folders[i]);
        if plan.Err? {
          PlanAllErrorPersists(formatter.env, formatter.parts, formatter.startValue, h0, storage.files, storage.directories,
                               folders, i + 1);
          return Err(plan.error);
        }
        result := result + plan.value;
      }
      assert folders[..|folders|] == folders;
      return Ok(result);
    }

    /** `performRenaming`: each source in order is moved to its target and the history records the
        move; the first failure ends the renaming, leaving the earlier moves done. */
    method PerformRenaming(m: Renaming, order: seq<Path>) returns (r: Result<()>)
      requires forall k :: k in order ==> k in m
      modifies storage, history
      ensures storage.directories == old(storage.directories)
      ensures var expected := Perform(storage.replaceExisting, old(storage.files), storage.directories, old(history.mapping), m, order);
        (r.Ok? <==> expected.Ok?) &&
        (r.Ok? ==> (storage.files, history.mapping) == expected.value) &&
        (r.Err? ==> r.error == expected.error)
    {
      ghost var files0, h0 := storage.files, history.mapping;
      for i := 0 to |order|
        invariant storage.directories == old(storage.directories)
        invariant forall k :: k in order[..i] ==> k in m
        invariant Perform(storage.replaceExisting, files0, storage.directories, h0, m, order[..i]) == Ok((storage.files, history.mapping))
      {
        PerformStep(storage.replaceExisting, files0, storage.directories, h0, m, order, i);
        var from := order[i];
        var to := m[from];
        var moved := storage.Move(from, to);
        if moved.Err? {
          PerformErrorPersists(storage.replaceExisting, files0, storage.directories, h0, m, order, i + 1);
          return Err(moved.error);
        }
        var recorded := history.UpdateFileName(from, to);
        if recorded.Err? {
          PerformErrorPersists(storage.replaceExisting, files0, storage.directories, h0, m, order, i + 1);
          return Err(recorded.error);
        }
      }
      assert order[..|order|] == order;
      return Ok(());
    }

    /** `run`: plans every folder, finishes at once when there is nothing to rename, refuses a
        renaming that sends two files to one name or has no conflict-free order, and otherwise moves
        the files in that order and, when configured, updates the METS file. A PluginException or
        an IOException ends the run with ERROR; other exceptions escape it. */
    method Run(folders: seq<Path>) returns (r: Result<PluginReturnValue>, ghost order: seq<Path>)
      modifies this, formatter, history, storage, mets
      ensures storage.directories == old(storage.directories)
      ensures var planned := PlanAll(formatter.env, formatter.parts, formatter.startValue, old(history.mapping),
                                     old(storage.files), old(storage.directories), folders);
        planned.Err? ==>
          storage.files == old(storage.files) && mets.locations == old(mets.locations) &&
          r == (if planned.error == PluginException then Ok(Error) else Err(planned.error))
      ensures var planned := PlanAll(formatter.env, formatter.parts, formatter.startValue, old(history.mapping),
                                     old(storage.files), old(storage.directories), folders);
        planned.Ok? && planned.value.0 == map[] ==>
          r == Ok(Finish) && storage.files == old(storage.files) && mets.locations == old(mets.locations) &&
          history.mapping == planned.value.1
      ensures var planned := PlanAll(formatter.env, formatter.parts, formatter.startValue, old(history.mapping),
                                     old(storage.files), old(storage.directories), folders);
        planned.Ok? && planned.value.0 != map[] ==>
          var plan := planned.value.0;
          (ConflictFreeOrder(plan, order) || forall o :: !ConflictFreeOrder(plan, o)) &&
          (!ConflictFreeOrder(plan, order) || !Injective(plan) ==>
             r == Ok(Error) && storage.files == old(storage.files) && mets.locations == old(mets.locations))
      ensures var planned := PlanAll(formatter.env, formatter.parts, formatter.startValue, old(history.mapping),
                                     old(storage.files), old(storage.directories), folders);
        planned.Ok? && planned.value.0 != map[] && ConflictFreeOrder(planned.value.0, order) && Injective(planned.value.0) ==>
          var (plan, h) := planned.value;
          var performed := Perform(storage.replaceExisting, old(storage.files), old(storage.directories), h, plan, order);
          (performed.Err? ==>
             mets.locations == old(mets.locations) &&
             r == (if performed.error == IoException then Ok(Error) else Err(performed.error))) &&
          (performed.Ok? ==>
             (storage.files, history.mapping) == performed.value &&
             (!updateMetsFile ==> r == Ok(Finish) && mets.locations == old(mets.locations)) &&
             (updateMetsFile ==>
                var updated := UpdatedLocations(plan, old(mets.locations));
                (updated.Ok? ==> r == Ok(Finish) && mets.locations == updated.value) &&
                (updated.Err? ==> r == Err(updated.error) && mets.locations == old(mets.locations))))
    {
      order := [];
      var planned := DetermineRenamingForAllFilesInAllFolders(folders);
      if planned.Err? {
        if planned.error == PluginException {
          return Ok(Error), order;
        }
        return Err(planned.error), order;
      }
      var renamingMapping := planned.value;
      if |renamingMapping| == 0 {
        assert renamingMapping == map[];
        return Ok(Finish), order;
      }
      var found := FindConflictFreeRenamingOrder(renamingMapping);
      if found.Err? {
        return Ok(Error), order;
      }
      var orderedRenamingOrigins := found.value;
      order := orderedRenamingOrigins;
      CheckedOrderIffInjective(renamingMapping, order);
      if !CanRenameWithoutConflicts(renamingMapping, orderedRenamingOrigins) {
        return Ok(Error), order;
      }
      OrderCoversRenaming(renamingMapping, order);
      var performed := PerformRenaming(renamingMapping, orderedRenamingOrigins);
      if performed.Err? {
        if performed.error == IoException {
          return Ok(Error), order;
        }
        return Err(performed.error), order;
      }
      if updateMetsFile {
        var updated := mets.UpdateMetsFile(renamingMapping);
        if updated.Err? {
          return Err(updated.error), order;
        }
      }
      return Ok(Finish), order;
    }
  }
}

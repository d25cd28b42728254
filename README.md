# Goobi rename-files step plugins, modelled in Dafny

The repository holds three generations of a Goobi workflow step. Each one renames the per-page files of a
process's image and OCR folders according to a configured name template. This project models the core
of all three, together with the two METS updaters and the barcode-image deletion step, and proves what
each of them promises.

* **module-base `RenameFilesPlugin`**
  * The name template is an ordered list of static, counter, variable, metadata and original-file-name
    parts. Each part is gated by its conditions and post-processed by regex replacements (`Template`).
  * The original-file-name history records, per folder identifier, a map from current to original file
    name (`History`, `Paths`).
  * The per-folder planner sorts the files, names each one and keeps its extension (`Planner`,
    `Ordering`, `Storage`).
  * The conflict-free renaming order, the bijection check and the moves are in `RenamingOrder`. The
    whole `run` is in `RenameFiles`.
* **module-base `MetsFileUpdater`** (`MetsLocations`): a METS file reference is rewritten when exactly
  one planned rename agrees with it on its last two path names.
* **plugin `RenameFilesPlugin`** (`RenamingLog`): the renaming log, the name generation with the
  original-file-name part, and the counter loop with the barcode rule.
* **plugin `MetsFileUpdater`** (`MetsBasenames`): references are rewritten by base name. The directory
  prefix and the extension are kept.
* **goobi-plugin-step-rename-files `RenameFilesPlugin`** (`LegacyRenameFiles`, `BarcodeCounter`): the
  folder list, the configuration defaults, the part preparation, `getFilename`, and the per-folder
  counter loop that moves each file in listing order.
* **goobi-plugin-step-rename-files `DeleteBarcodeImagePlugin`** (`DeleteBarcodeImage`): the last-token
  test and the deletion loop.

Java exceptions are `Err` values of `Common.Result`, one `Common.Error` kind per exception class.
Runtime exceptions the code does not catch (NullPointerException, index out of bounds, NumberFormat,
IllegalArgumentException) are modelled as such errors, not excluded by preconditions, with one
exception: the regular expressions of conditions and replacements are total functions of
`Template.Env`, so their PatternSyntaxException and IndexOutOfBoundsException are not modelled (see
"Left out"). Java library
behaviour is written out where the code depends on it:

* `String.split` drops trailing empty pieces;
* `lastIndexOf`/`substring` slicing;
* `Paths.get` drops empty pieces;
* `Collections.sort` order;
* `StringUtils.isBlank`;
* `StringUtils.isNumeric` and `Integer.parseInt` over a class of decimal digits (`Numerals.DigitClass`). The class holds at least '0'..'9' with their usual values. Which other Unicode characters `Character.isDigit` accepts is a parameter;
* `Integer.parseInt` overflow;
* `DecimalFormat` for all-zero patterns. For other patterns, whether `new DecimalFormat` accepts the pattern is a parameter (`Template.ValidPattern`).

The file system is a `Storage.Storage` object: a set of file paths and a set of directory paths, with
listing, moving and deleting. What `StorageProvider.move` does when the target file exists is not part of
the source. The flag `replaceExisting` keeps both answers open: the move either fails or replaces the file. Variable substitution, regular expressions, other number formats,
`String.format` and the METS document tree are function-typed fields of `Template.Env`.

### Where the model departs from the Java

`findConflictFreeRenamingOrder` in module-base never terminates when every pending rename is blocked,
for example two files that swap names. The model does not loop: `RenamingOrder.FindConflictFreeRenamingOrder`
returns `Err(UnresolvableCycle)` and proves that no conflict-free order exists. The Java behaviour
itself is stated by `RenamingOrder.JavaOrderLoopSpinsOnSwap` (see Findings).

## Model

| member | source | states |
|---|---|---|
| History.RecordRename | module-base/src/main/java/de/intranda/goobi/plugins/RenameFilesPlugin.java:140-148 | a rename moves the entry of `from` to the key `to`, carrying `from`'s original (or `from` itself when it has no entry); every other entry stays and the key set is the old one minus `from` plus `to` |
| History.RecordRenameChain | module-base/src/main/java/de/intranda/goobi/plugins/RenameFilesPlugin.java:134-149 | renaming a→b then b→c records a's original as c's original |
| History.Touch | module-base/src/main/java/de/intranda/goobi/plugins/RenameFilesPlugin.java:164-169 | fetching a folder's record creates an empty one for a new folder and changes nothing else |
| History.LookUp | module-base/src/main/java/de/intranda/goobi/plugins/RenameFilesPlugin.java:125-132 | a lookup succeeds exactly when the path has a folder identifier, and a name without an entry is its own original |
| History.Renamed | module-base/src/main/java/de/intranda/goobi/plugins/RenameFilesPlugin.java:134-149 | `updateFileName` fails with NullPointerException without an identifier and with IllegalArgumentException when the two folder identifiers differ; otherwise it is the rename applied to that folder's record |
| History.StepFrame | module-base/src/main/java/de/intranda/goobi/plugins/RenameFilesPlugin.java:134-149 | a rename leaves the original of every other (folder, name) unchanged |
| History.ReplayFrame | module-base/src/main/java/de/intranda/goobi/plugins/RenameFilesPlugin.java:134-149 | a (folder, name) that no rename touches keeps its original through any sequence of renames |
| History.CarriedForward | module-base/src/main/java/de/intranda/goobi/plugins/RenameFilesPlugin.java:134-149 | after renames that do not feed into one another, each new name has the original its old name had before them |
| History.OriginalFileNameHistory.GetOriginalFileNameOf | module-base/src/main/java/de/intranda/goobi/plugins/RenameFilesPlugin.java:125-132 | returns the lookup's result and leaves the history with the folder's record created |
| History.OriginalFileNameHistory.UpdateFileName | module-base/src/main/java/de/intranda/goobi/plugins/RenameFilesPlugin.java:134-149 | updates the history in place to `Renamed`, or throws before changing anything |
| Paths.FolderIdentifier | module-base/src/main/java/de/intranda/goobi/plugins/RenameFilesPlugin.java:156-157 | the identifier is defined exactly for paths with a named parent (NullPointerException otherwise) |
| Paths.FileFolderIdentifier | module-base/src/main/java/de/intranda/goobi/plugins/RenameFilesPlugin.java:151-158 | a path whose file name contains '.' is identified by its parent folder; failures are NullPointerExceptions |
| Paths.FolderIdentifierStable | module-base/src/main/java/de/intranda/goobi/plugins/RenameFilesPlugin.java:156-157 | two folders of one parent with the same suffix after their last '_' share an identifier |
| Paths.SiblingFilesShareIdentifier | module-base/src/main/java/de/intranda/goobi/plugins/RenameFilesPlugin.java:151-158 | files with an extension in one folder all have that folder's identifier |
| Paths.ResolveSegment | module-base/src/main/java/de/intranda/goobi/plugins/RenameFilesPlugin.java:697 | `Paths.get(folder, name)` for a plain name is the folder's child with that file name |
| Paths.ToStringPieces | module-base/src/main/java/de/intranda/goobi/plugins/MetsFileUpdater.java:69 | splitting a path's string at '/' gives an empty piece followed by its names |
| Template.ParseNamePart | module-base/src/main/java/de/intranda/goobi/plugins/RenameFilesPlugin.java:514-537 | each of the five known types gives its part kind with the configured replacements and conditions; "originalfilename" is a variable part over the original-file-name variable; a missing type is a NullPointerException; an unknown type, or a counter whose text `new DecimalFormat` refuses as a pattern, is an IllegalArgumentException |
| Template.ReplaceValue | module-base/src/main/java/de/intranda/goobi/plugins/RenameFilesPlugin.java:197-213 | any value but the original-file-name variable goes to the process-variable replacer unchanged; the variable succeeds exactly when the history lookup does |
| Template.OriginalFileNameOfUnrenamedFile | module-base/src/main/java/de/intranda/goobi/plugins/RenameFilesPlugin.java:202-213 | a file without a history entry yields its own name without the text from its last '.' |
| Template.OriginalFileNameOfRenamedFile | module-base/src/main/java/de/intranda/goobi/plugins/RenameFilesPlugin.java:202-213 | a renamed file yields its recorded original name without the text from its last '.' |
| Template.AllConditionsMatch | module-base/src/main/java/de/intranda/goobi/plugins/RenameFilesPlugin.java:250-252 | the answer is true exactly when every condition's substituted value fully matches its pattern; the history only gains empty records |
| Template.FirstMetadata | module-base/src/main/java/de/intranda/goobi/plugins/RenameFilesPlugin.java:396-402 | there is no metadata value exactly when no structural element carries metadata of that name |
| Template.Formatted | module-base/src/main/java/de/intranda/goobi/plugins/RenameFilesPlugin.java:410-420 | without a format the text is kept; with one, the formatted text, or a PluginException when the format fits neither the text nor its integer value |
| Template.Generate | module-base/src/main/java/de/intranda/goobi/plugins/RenameFilesPlugin.java:310-407 | generating one part changes only that part's counter; only variable and metadata parts can fail |
| Template.GenerateStatic | module-base/src/main/java/de/intranda/goobi/plugins/RenameFilesPlugin.java:302-315 | a static part yields its text and changes nothing |
| Template.GenerateVariable | module-base/src/main/java/de/intranda/goobi/plugins/RenameFilesPlugin.java:358-376 | a variable part yields the substituted value, formatted when a format is set, and fails exactly when substitution or formatting fails |
| Template.GenerateMetadata | module-base/src/main/java/de/intranda/goobi/plugins/RenameFilesPlugin.java:378-407 | a metadata part yields the first value of that metadata on the file's structural elements, formatted when a format is set, and changes no counter; it fails with PluginException exactly when no element carries the metadata or the format does not fit |
| Template.GeneratePart | module-base/src/main/java/de/intranda/goobi/plugins/RenameFilesPlugin.java:259-268 | a part whose conditions do not all hold contributes "" and advances no counter; other parts' counters are untouched |
| Template.GeneratePartMatching | module-base/src/main/java/de/intranda/goobi/plugins/RenameFilesPlugin.java:259-268 | a part whose conditions all hold contributes the generated text with its replacements applied in order, or fails with the generator's error |
| Template.GenerateUpTo | module-base/src/main/java/de/intranda/goobi/plugins/RenameFilesPlugin.java:236-242 | the parts not yet reached keep their counters, and the history only gains empty records |
| Template.ResetCounters | module-base/src/main/java/de/intranda/goobi/plugins/RenameFilesPlugin.java:350-355 | after reset every counter is the start value |
| Template.PlainCounterPart | module-base/src/main/java/de/intranda/goobi/plugins/RenameFilesPlugin.java:347 | an unscoped counter renders its current value and advances by one |
| Template.ScopedCounterPart | module-base/src/main/java/de/intranda/goobi/plugins/RenameFilesPlugin.java:331-342 | a scoped counter gives the first file of a structural element the start value and each later one the element's last value plus one |
| Template.CounterOnlyName | module-base/src/main/java/de/intranda/goobi/plugins/RenameFilesPlugin.java:236-242 | a template of one plain counter names a file by its counter alone and advances it |
| Template.GenerateErrorPersists | module-base/src/main/java/de/intranda/goobi/plugins/RenameFilesPlugin.java:236-242 | once a part throws, the whole name fails with that error |
| Template.RenamingFormatter.Reset | module-base/src/main/java/de/intranda/goobi/plugins/RenameFilesPlugin.java:232-234 | every part's counter is set back to the start value |
| Template.RenamingFormatter.GenerateNewName | module-base/src/main/java/de/intranda/goobi/plugins/RenameFilesPlugin.java:236-242 | the name, the new counters, per-element counters and history are those of `GenerateName` |
| Planner.Extension | module-base/src/main/java/de/intranda/goobi/plugins/RenameFilesPlugin.java:692-693 | the extension is the longest '.'-free suffix of the name: the whole name when it has no '.' |
| Planner.ExtensionlessName | module-base/src/main/java/de/intranda/goobi/plugins/RenameFilesPlugin.java:692-694 | a name without '.' is appended whole as the new name's extension |
| Planner.NewFullNameParts | module-base/src/main/java/de/intranda/goobi/plugins/RenameFilesPlugin.java:694 | the new name splits at its last '.' into the generated name and the old extension |
| Planner.NewFullNameInjective | module-base/src/main/java/de/intranda/goobi/plugins/RenameFilesPlugin.java:694 | equal new names come from equal generated names and equal extensions |
| Planner.PlanNext | module-base/src/main/java/de/intranda/goobi/plugins/RenameFilesPlugin.java:690-699 | naming one file adds at most that file's entry |
| Planner.PlanUpTo | module-base/src/main/java/de/intranda/goobi/plugins/RenameFilesPlugin.java:690-699 | every planned source is one of the files named so far |
| Planner.PlanErrorPersists | module-base/src/main/java/de/intranda/goobi/plugins/RenameFilesPlugin.java:690-699 | a file the formatter cannot name fails the folder's plan |
| Planner.SortedNames | module-base/src/main/java/de/intranda/goobi/plugins/RenameFilesPlugin.java:685-686 | the folder's files are named in the one sorted order of their names |
| Planner.CounterPlan | module-base/src/main/java/de/intranda/goobi/plugins/RenameFilesPlugin.java:687-699 | under a counter template the i-th file of the order is numbered start + i, and the counter ends k further on |
| Planner.CounterFolderPlan | module-base/src/main/java/de/intranda/goobi/plugins/RenameFilesPlugin.java:674-702 | with a zero-pattern counter template a folder's sorted files are renamed to start, start+1, … with their own extensions, and the history is untouched |
| Planner.CounterFolderPlanInjective | module-base/src/main/java/de/intranda/goobi/plugins/RenameFilesPlugin.java:674-702 | with a zero-pattern counter template no two files of a folder get the same target |
| Planner.StaticFolderPlanCollides | module-base/src/main/java/de/intranda/goobi/plugins/RenameFilesPlugin.java:674-702 | with a static template two files with the same extension get one target, so the plan is not injective |
| Planner.CounterTemplateNumbers | module-base/src/main/java/de/intranda/goobi/plugins/RenameFilesPlugin.java:330-348 | the one-counter template names each file by its counter and advances it by one |
| Planner.StaticTemplateNamesAll | module-base/src/main/java/de/intranda/goobi/plugins/RenameFilesPlugin.java:310-313 | the static template names every file by its text and its own extension and changes no state |
| Ordering.Sort | module-base/src/main/java/de/intranda/goobi/plugins/RenameFilesPlugin.java:686 | the sorted list is ordered and a permutation of the listing |
| Ordering.SortedUnique | module-base/src/main/java/de/intranda/goobi/plugins/RenameFilesPlugin.java:686 | a multiset of names has exactly one sorted arrangement |
| Ordering.SortIgnoresListingOrder | module-base/src/main/java/de/intranda/goobi/plugins/RenameFilesPlugin.java:685-686 | the sorted order does not depend on the order the storage lists the files in |
| Storage.ListingSorted | module-base/src/main/java/de/intranda/goobi/plugins/RenameFilesPlugin.java:685-686 | sorting any listing of a folder gives the sorted set of its names |
| Storage.Storage.ListFiles | module-base/src/main/java/de/intranda/goobi/plugins/RenameFilesPlugin.java:685 | a listing holds every file of the folder exactly once |
| Storage.Storage.Move | module-base/src/main/java/de/intranda/goobi/plugins/RenameFilesPlugin.java:755 | a move succeeds exactly when the source is a file, the target is no directory, and either the target is free or the storage replaces existing files; it then replaces the source by the target |
| Storage.MoveCount | goobi-plugin-step-rename-files/src/main/java/de/intranda/goobi/plugins/RenameFilesPlugin.java:139-141 | a move to a free name keeps the number of files; a move onto another existing file, possible only on a replacing storage, leaves one file fewer |
| Storage.Storage.DeleteFile | goobi-plugin-step-rename-files/src/main/java/de/intranda/goobi/plugins/DeleteBarcodeImagePlugin.java:84 | a deletion succeeds exactly when the file exists, and removes it alone |
| RenamingOrder.FindConflictFreeRenamingSource | module-base/src/main/java/de/intranda/goobi/plugins/RenameFilesPlugin.java:717-733 | a pending source whose target is no pending source is found, and none is found exactly when every pending source is blocked |
| RenamingOrder.JavaOrderLoopSpinsOnSwap | module-base/src/main/java/de/intranda/goobi/plugins/RenameFilesPlugin.java:707-713 | as written, a pass over two files that swap names finds no source and changes nothing, so the loop never ends |
| RenamingOrder.BlockedHasNoOrder | module-base/src/main/java/de/intranda/goobi/plugins/RenameFilesPlugin.java:704-733 | when every pending source is blocked, every arrangement moves some file onto a pending source |
| RenamingOrder.SwapHasNoOrder | module-base/src/main/java/de/intranda/goobi/plugins/RenameFilesPlugin.java:704-733 | two files that swap names have no conflict-free order |
| RenamingOrder.NoConflictFreeOrder | module-base/src/main/java/de/intranda/goobi/plugins/RenameFilesPlugin.java:704-733 | a stuck search means no conflict-free order exists |
| RenamingOrder.FindConflictFreeRenamingOrder | module-base/src/main/java/de/intranda/goobi/plugins/RenameFilesPlugin.java:704-715 | the order lists every source once, and no source is moved onto a source still pending; it reports a cycle only when no such order exists |
| RenamingOrder.DistinctTargetsIffInjective | module-base/src/main/java/de/intranda/goobi/plugins/RenameFilesPlugin.java:741-743 | the distinct targets are as many as the sources exactly when no two files share a target |
| RenamingOrder.CheckedOrderIffInjective | module-base/src/main/java/de/intranda/goobi/plugins/RenameFilesPlugin.java:735-749 | for a conflict-free order, `canRenamingWithoutConflicts` holds exactly when the renaming is injective |
| RenamingOrder.OrderCoversRenaming | module-base/src/main/java/de/intranda/goobi/plugins/RenameFilesPlugin.java:704-715 | a conflict-free order holds exactly the planned sources, and their targets are all the planned targets |
| RenamingOrder.MoveIsFree | module-base/src/main/java/de/intranda/goobi/plugins/RenameFilesPlugin.java:751-757 | in a feasible renaming, each move's source is still present and its target free when its turn comes |
| RenamingOrder.PerformPrefix | module-base/src/main/java/de/intranda/goobi/plugins/RenameFilesPlugin.java:751-757 | the first n moves succeed, replacing their sources by their targets and replaying their history records |
| RenamingOrder.FeasibleStepsIndependent | module-base/src/main/java/de/intranda/goobi/plugins/RenameFilesPlugin.java:751-757 | the history records of a feasible order never rename into a name a later record renames away |
| RenamingOrder.TargetCarriesOriginal | module-base/src/main/java/de/intranda/goobi/plugins/RenameFilesPlugin.java:751-757 | after the moves, every target's history lookup gives what its source's gave before |
| RenamingOrder.PerformComplete | module-base/src/main/java/de/intranda/goobi/plugins/RenameFilesPlugin.java:751-762 | a feasible renaming completes, whether or not the storage replaces existing files: the files are the old ones minus the sources plus the targets, and every target carries its source's original name |
| RenameFiles.TemplateStep | module-base/src/main/java/de/intranda/goobi/plugins/RenameFilesPlugin.java:690-699 | one more file adds the entry to its generated name plus old extension, unless that is its old name |
| RenameFiles.TemplateStepFails | module-base/src/main/java/de/intranda/goobi/plugins/RenameFilesPlugin.java:690-699 | a file the formatter cannot name fails the folder's plan with the formatter's error |
| RenameFiles.PlanAllStep | module-base/src/main/java/de/intranda/goobi/plugins/RenameFilesPlugin.java:666-672 | the plan over one more folder merges that folder's plan into the earlier ones, later entries winning |
| RenameFiles.PlanAllErrorPersists | module-base/src/main/java/de/intranda/goobi/plugins/RenameFilesPlugin.java:666-672 | a folder's PluginException ends the planning of all folders |
| RenameFiles.PerformStep | module-base/src/main/java/de/intranda/goobi/plugins/RenameFilesPlugin.java:751-762 | one more move: an IOException when the source is gone or the target taken, otherwise the move followed by its history record |
| RenameFiles.PerformErrorPersists | module-base/src/main/java/de/intranda/goobi/plugins/RenameFilesPlugin.java:751-762 | the first failed move or history record ends the renaming with its error |
| RenameFiles.RenameFilesPlugin.DetermineRenamingForAllFilesInFolder | module-base/src/main/java/de/intranda/goobi/plugins/RenameFilesPlugin.java:674-702 | an empty map for a missing path, a PluginException for a file, and otherwise the folder's plan and history |
| RenameFiles.RenameFilesPlugin.RenameSortedFiles | module-base/src/main/java/de/intranda/goobi/plugins/RenameFilesPlugin.java:687-699 | with counters reset and per-element counters cleared, the loop computes the plan of the sorted files |
| RenameFiles.RenameFilesPlugin.DetermineRenamingForAllFilesInAllFolders | module-base/src/main/java/de/intranda/goobi/plugins/RenameFilesPlugin.java:666-672 | the folder plans merged in order, or the first folder's error |
| RenameFiles.RenameFilesPlugin.PerformRenaming | module-base/src/main/java/de/intranda/goobi/plugins/RenameFilesPlugin.java:751-762 | the files and history after the moves in order, with the earlier moves kept after a failure |
| RenameFiles.RenameFilesPlugin.Run | module-base/src/main/java/de/intranda/goobi/plugins/RenameFilesPlugin.java:594-624 | FINISH with nothing moved when there is nothing to rename; ERROR with nothing moved when the renaming is not injective or has no conflict-free order; otherwise the moves in that order and the METS update, with IOException and PluginException giving ERROR |
| MetsLocations.PathPieces | module-base/src/main/java/de/intranda/goobi/plugins/MetsFileUpdater.java:69 | a path's pieces end in its file name |
| MetsLocations.PathPiecesSplit | module-base/src/main/java/de/intranda/goobi/plugins/MetsFileUpdater.java:69 | PathPieces is `toString().split("/")` of the path |
| MetsLocations.RenamingDoesMatch | module-base/src/main/java/de/intranda/goobi/plugins/MetsFileUpdater.java:68-87 | the backward loop answers whether the two piece lists agree on their last min(2, both lengths) pieces |
| MetsLocations.ApplyRenaming | module-base/src/main/java/de/intranda/goobi/plugins/MetsFileUpdater.java:89-94 | an ArrayIndexOutOfBoundsException exactly when either side has no pieces |
| MetsLocations.ApplyToFile | module-base/src/main/java/de/intranda/goobi/plugins/MetsFileUpdater.java:89-94 | only the last piece of the location is replaced, by the target's file name |
| MetsLocations.UpdatedWith | module-base/src/main/java/de/intranda/goobi/plugins/MetsFileUpdater.java:38-46 | the update keeps the number of references |
| MetsLocations.MatchesByLastTwoNames | module-base/src/main/java/de/intranda/goobi/plugins/MetsFileUpdater.java:68-87 | a renamed file matches a location exactly when its last two names are the location's last two pieces |
| MetsLocations.UniqueMatch | module-base/src/main/java/de/intranda/goobi/plugins/MetsFileUpdater.java:55-66 | the file whose last two names the location ends in, and no other, is the one match |
| MetsLocations.RenamedReference | module-base/src/main/java/de/intranda/goobi/plugins/MetsFileUpdater.java:55-94 | a reference to a renamed file, unique in its last two names, gets the target's file name in the same directory |
| MetsLocations.LookUpApplyFails | module-base/src/main/java/de/intranda/goobi/plugins/MetsFileUpdater.java:56-60 | a match that cannot be applied makes the lookup an ArrayIndexOutOfBoundsException |
| MetsLocations.LookUpUnmatched | module-base/src/main/java/de/intranda/goobi/plugins/MetsFileUpdater.java:61-64 | zero or several matches give an IllegalArgumentException |
| MetsLocations.LookUpUnique | module-base/src/main/java/de/intranda/goobi/plugins/MetsFileUpdater.java:61-65 | exactly one match gives that match's new location |
| MetsLocations.UnmatchedReferenceKept | module-base/src/main/java/de/intranda/goobi/plugins/MetsFileUpdater.java:38-46 | a reference with no unique match keeps its location |
| MetsLocations.UpdatedAt | module-base/src/main/java/de/intranda/goobi/plugins/MetsFileUpdater.java:38-46 | each updated reference is its lookup, or the old reference where the lookup found no unique match |
| MetsLocations.UpdatedStep | module-base/src/main/java/de/intranda/goobi/plugins/MetsFileUpdater.java:38-46 | one more reference: kept on IllegalArgumentException, the update fails on any other error, replaced otherwise |
| MetsLocations.UpdateErrorPersists | module-base/src/main/java/de/intranda/goobi/plugins/MetsFileUpdater.java:32-53 | an escaping exception ends the whole update |
| MetsLocations.MetsDocument.LookUp | module-base/src/main/java/de/intranda/goobi/plugins/MetsFileUpdater.java:55-66 | computes `lookUpNewLocation` |
| MetsLocations.MetsDocument.CollectNewLocations | module-base/src/main/java/de/intranda/goobi/plugins/MetsFileUpdater.java:56-60 | one new location per matching renaming, or the failure of applying one of them |
| MetsLocations.MetsDocument.UpdateMetsFile | module-base/src/main/java/de/intranda/goobi/plugins/MetsFileUpdater.java:32-53 | the references are replaced once, after all are looked up, by the update; an escaping error leaves them unchanged |
| MetsBasenames.LocationPrefix | plugin/src/main/java/de/intranda/goobi/plugins/MetsFileUpdater.java:36-37 | the prefix ends in '/' (or is empty) and, followed by the file name, is the location |
| MetsBasenames.NoSlashNoPrefix | plugin/src/main/java/de/intranda/goobi/plugins/MetsFileUpdater.java:36-39 | a location without '/' is all file name |
| MetsBasenames.GetNewFileName | plugin/src/main/java/de/intranda/goobi/plugins/MetsFileUpdater.java:59-68 | fails with StringIndexOutOfBounds exactly for a name without '.'; a base name the map lacks leaves the name unchanged |
| MetsBasenames.NewFileNameMapped | plugin/src/main/java/de/intranda/goobi/plugins/MetsFileUpdater.java:59-64 | a mapped base name gives the mapped name, '.', and the old extension |
| MetsBasenames.NewFileNameKeepsExtension | plugin/src/main/java/de/intranda/goobi/plugins/MetsFileUpdater.java:59-64 | the new name's extension is the old one and its base name is the mapped one |
| MetsBasenames.NewFileNameRoundTrip | plugin/src/main/java/de/intranda/goobi/plugins/MetsFileUpdater.java:59-67 | renaming through a map and then its inverse restores the file name |
| MetsBasenames.GetBasename | plugin/src/main/java/de/intranda/goobi/plugins/MetsFileUpdater.java:74-76 | defined exactly for paths with a file name |
| MetsBasenames.BasenameIsLookupKey | plugin/src/main/java/de/intranda/goobi/plugins/MetsFileUpdater.java:59-76 | a file's `getBasename` is the key `getNewFileName` looks its name up by |
| MetsBasenames.NewLocation | plugin/src/main/java/de/intranda/goobi/plugins/MetsFileUpdater.java:35-41 | a reference fails exactly when its file name has no '.' |
| MetsBasenames.NewLocationContent | plugin/src/main/java/de/intranda/goobi/plugins/MetsFileUpdater.java:35-42 | the new location keeps the prefix and extension and carries the mapped base name, or is the old location when the base is unmapped |
| MetsBasenames.RewriteAll | plugin/src/main/java/de/intranda/goobi/plugins/MetsFileUpdater.java:34-43 | the rewrite keeps the number of references |
| MetsBasenames.RewriteFailsIff | plugin/src/main/java/de/intranda/goobi/plugins/MetsFileUpdater.java:34-43 | the update fails exactly when some reference fails |
| MetsBasenames.RewriteAt | plugin/src/main/java/de/intranda/goobi/plugins/MetsFileUpdater.java:34-43 | each rewritten reference is the rewrite of the reference at the same place |
| MetsBasenames.UpdateFailsIffDotless | plugin/src/main/java/de/intranda/goobi/plugins/MetsFileUpdater.java:34-43 | the update fails exactly when some reference's file name has no '.' |
| MetsBasenames.UpdatedAt | plugin/src/main/java/de/intranda/goobi/plugins/MetsFileUpdater.java:34-43 | after the update each reference keeps its prefix and extension and carries its mapped base name, or is unchanged |
| MetsBasenames.UpdatedStep | plugin/src/main/java/de/intranda/goobi/plugins/MetsFileUpdater.java:34-43 | one more reference rewritten, or the update fails with its error |
| MetsBasenames.UpdateErrorPersists | plugin/src/main/java/de/intranda/goobi/plugins/MetsFileUpdater.java:28-50 | the first failing reference ends the whole update |
| MetsBasenames.MetsFileSet.UpdateMetsFile | plugin/src/main/java/de/intranda/goobi/plugins/MetsFileUpdater.java:28-50 | the references are written once, after all are rewritten; a failure leaves them as they were |
| MetsBasenames.MetsFileSet.RewriteLocation | plugin/src/main/java/de/intranda/goobi/plugins/MetsFileUpdater.java:35-42 | the loop body computes the new location of one reference |
| RenamingLog.Selected | plugin/src/main/java/de/intranda/goobi/plugins/RenameFilesPlugin.java:95-97 | the kept parts are exactly the configured parts whose conditions all match, and never more than configured |
| RenamingLog.SelectedAppend | plugin/src/main/java/de/intranda/goobi/plugins/RenameFilesPlugin.java:95-97 | filtering keeps the template order and each part as often as it is configured: filtering two pieces of a template filters each and joins them in order |
| RenamingLog.SelectedAll | plugin/src/main/java/de/intranda/goobi/plugins/RenameFilesPlugin.java:95-97 | when every part's conditions match, filtering keeps the list as it is |
| RenamingLog.OriginalNameRestored | plugin/src/main/java/de/intranda/goobi/plugins/RenameFilesPlugin.java:326-351 | an "originalfilename" template gives a file back its recorded original name |
| RenamingLog.ExtensionKept | plugin/src/main/java/de/intranda/goobi/plugins/RenameFilesPlugin.java:293 | the new name's text after its last '.' is the old name's extension |
| RenamingLog.FolderPass | plugin/src/main/java/de/intranda/goobi/plugins/RenameFilesPlugin.java:284-313 | the log is the history with the folder's renames replayed; every entered rename is within the folder and changes the name |
| RenamingLog.PassStep | plugin/src/main/java/de/intranda/goobi/plugins/RenameFilesPlugin.java:287-313 | one more file named extends the log by that file's step |
| RenamingLog.LogCarriesOriginals | plugin/src/main/java/de/intranda/goobi/plugins/RenameFilesPlugin.java:317-324 | when a folder's renames do not feed into one another, each new name maps to the original of the name it replaced |
| RenamingLog.NoRenameNoEntry | plugin/src/main/java/de/intranda/goobi/plugins/RenameFilesPlugin.java:306-307 | files whose new name is their own name leave the log as it was |
| RenamingLog.NoDirectoryAmongAll | plugin/src/main/java/de/intranda/goobi/plugins/RenameFilesPlugin.java:287-290 | the loop's no-directory invariant says no listed entry so far is a directory |
| RenamingLog.RenameFilesPlugin.PrepareNameParts | plugin/src/main/java/de/intranda/goobi/plugins/RenameFilesPlugin.java:95-109 | the part list becomes the matching parts, in order, each prepared in place before any file is named; a counter text DecimalFormat refuses ends the preparation with IllegalArgumentException, the parts before it prepared and the rest as selected |
| RenamingLog.RenameFilesPlugin.GetFolderRenamingLog | plugin/src/main/java/de/intranda/goobi/plugins/RenameFilesPlugin.java:189-200 | the folder's record, created empty on first access; a NullPointerException for a folder without a named parent |
| RenamingLog.RenameFilesPlugin.UpdateRenameLog | plugin/src/main/java/de/intranda/goobi/plugins/RenameFilesPlugin.java:317-324 | the folder's record after moving `from`'s original to the key `to` |
| RenamingLog.RenameFilesPlugin.GenerateNewFileName | plugin/src/main/java/de/intranda/goobi/plugins/RenameFilesPlugin.java:326-344 | the rendered parts in order, then '.' and the extension unless it is blank |
| RenamingLog.RenameFilesPlugin.NameFile | plugin/src/main/java/de/intranda/goobi/plugins/RenameFilesPlugin.java:292-307 | a barcode image is named with counter 0 and does not advance the counter; the rename is logged only when the name changes |
| RenamingLog.RenameFilesPlugin.NameNextFile | plugin/src/main/java/de/intranda/goobi/plugins/RenameFilesPlugin.java:287-313 | one loop turn extends the folder's pass by one file |
| RenamingLog.RenameFilesPlugin.NameListedFiles | plugin/src/main/java/de/intranda/goobi/plugins/RenameFilesPlugin.java:284-313 | the counter starts at the start value; an IOException at the first listed directory, otherwise every file named and logged |
| RenamingLog.RenameFilesPlugin.RenameFilesInFolder | plugin/src/main/java/de/intranda/goobi/plugins/RenameFilesPlugin.java:279-315 | an IOException when the folder is not a directory or lists a directory; otherwise the whole listing is named and logged |
| BarcodeCounter.RegularCount | goobi-plugin-step-rename-files/src/main/java/de/intranda/goobi/plugins/RenameFilesPlugin.java:130-137 | no more files advance the counter than are listed |
| BarcodeCounter.CounterStep | goobi-plugin-step-rename-files/src/main/java/de/intranda/goobi/plugins/RenameFilesPlugin.java:130-137 | each file advances the counter by one unless its name contains "barcode" |
| BarcodeCounter.CounterMonotone | goobi-plugin-step-rename-files/src/main/java/de/intranda/goobi/plugins/RenameFilesPlugin.java:122-137 | the counter never goes back |
| BarcodeCounter.RegularCountersIncrease | goobi-plugin-step-rename-files/src/main/java/de/intranda/goobi/plugins/RenameFilesPlugin.java:122-137 | files that are not barcode images get strictly increasing counters in listing order |
| BarcodeCounter.RegularCounterInRange | goobi-plugin-step-rename-files/src/main/java/de/intranda/goobi/plugins/RenameFilesPlugin.java:122-137 | their counters lie in start .. start + n - 1 |
| BarcodeCounter.RegularCountersConsecutive | goobi-plugin-step-rename-files/src/main/java/de/intranda/goobi/plugins/RenameFilesPlugin.java:122-137 | every value of start .. start + n - 1 is used: the counters are consecutive |
| LegacyRenameFiles.InitConfig | goobi-plugin-step-rename-files/src/main/java/de/intranda/goobi/plugins/RenameFilesPlugin.java:236-245 | the start value defaults to 1, a part's type to "static", and each part keeps its configured text |
| LegacyRenameFiles.PreparedParts | goobi-plugin-step-rename-files/src/main/java/de/intranda/goobi/plugins/RenameFilesPlugin.java:113-119 | preparing a part fails with IllegalArgumentException exactly for a counter whose text DecimalFormat refuses; otherwise exactly the counter parts get a format, their text; variable parts hold their substituted text and other parts keep theirs |
| LegacyRenameFiles.ExtensionKept | goobi-plugin-step-rename-files/src/main/java/de/intranda/goobi/plugins/RenameFilesPlugin.java:125-126 | a renamed file keeps the extension it was read with |
| LegacyRenameFiles.RenderedLength | goobi-plugin-step-rename-files/src/main/java/de/intranda/goobi/plugins/RenameFilesPlugin.java:161-169 | with wide enough zero patterns the rendered length does not depend on the counter |
| LegacyRenameFiles.RenderedInjective | goobi-plugin-step-rename-files/src/main/java/de/intranda/goobi/plugins/RenameFilesPlugin.java:161-169 | with a counter part and wide enough zero patterns distinct counters render distinct texts |
| LegacyRenameFiles.FileNamesDistinct | goobi-plugin-step-rename-files/src/main/java/de/intranda/goobi/plugins/RenameFilesPlugin.java:161-175 | distinct counters give distinct file names whatever the extensions |
| LegacyRenameFiles.RegularNamesDistinct | goobi-plugin-step-rename-files/src/main/java/de/intranda/goobi/plugins/RenameFilesPlugin.java:128-137 | two files of a folder that are not barcode images never get the same new name |
| LegacyRenameFiles.NewNames | goobi-plugin-step-rename-files/src/main/java/de/intranda/goobi/plugins/RenameFilesPlugin.java:124-137 | each listed file's new name uses its own counter and extension |
| LegacyRenameFiles.FailurePersists | goobi-plugin-step-rename-files/src/main/java/de/intranda/goobi/plugins/RenameFilesPlugin.java:139-147 | a failed move ends the folder's loop |
| LegacyRenameFiles.PendingStaysPresent | goobi-plugin-step-rename-files/src/main/java/de/intranda/goobi/plugins/RenameFilesPlugin.java:139-141 | a file the loop has not reached is still in the folder |
| LegacyRenameFiles.MoveOntoPendingFile | goobi-plugin-step-rename-files/src/main/java/de/intranda/goobi/plugins/RenameFilesPlugin.java:121-141 | a move onto a file later in the listing either fails and ends the loop (storage that refuses existing targets) or overwrites that file, leaving the folder one file fewer (replacing storage) |
| LegacyRenameFiles.RenamesAllWithoutConflict | goobi-plugin-step-rename-files/src/main/java/de/intranda/goobi/plugins/RenameFilesPlugin.java:121-143 | without name conflicts every file whose name changes is moved and nothing else changes |
| LegacyRenameFiles.RunStep | goobi-plugin-step-rename-files/src/main/java/de/intranda/goobi/plugins/RenameFilesPlugin.java:121-143 | the run over one more folder extends the outcome by that folder's loop |
| LegacyRenameFiles.FolderList | goobi-plugin-step-rename-files/src/main/java/de/intranda/goobi/plugins/RenameFilesPlugin.java:72-101 | exactly the existing folders are chosen, the derivate folder only when its name differs from the master's, the thumbnail only when its name differs from the derivate's |
| LegacyRenameFiles.Existing | goobi-plugin-step-rename-files/src/main/java/de/intranda/goobi/plugins/RenameFilesPlugin.java:90-101 | the candidates kept are exactly those that exist |
| LegacyRenameFiles.RenameFilesPlugin.PrepareNameParts | goobi-plugin-step-rename-files/src/main/java/de/intranda/goobi/plugins/RenameFilesPlugin.java:113-119 | every part is prepared in place, in list order; a counter text DecimalFormat refuses ends the preparation with IllegalArgumentException, the parts before it prepared and the rest as they were |
| LegacyRenameFiles.RenameFilesPlugin.GetFilename | goobi-plugin-step-rename-files/src/main/java/de/intranda/goobi/plugins/RenameFilesPlugin.java:161-175 | the parts in order, then '.' and the extension unless it is blank |
| LegacyRenameFiles.RenameFilesPlugin.RenameFolder | goobi-plugin-step-rename-files/src/main/java/de/intranda/goobi/plugins/RenameFilesPlugin.java:121-143 | the counter restarts per folder, each listed file is moved to its new name when that differs, and the first failed move is reported |
| LegacyRenameFiles.RenameFilesPlugin.Run | goobi-plugin-step-rename-files/src/main/java/de/intranda/goobi/plugins/RenameFilesPlugin.java:107-158 | the parts are prepared once, the folders renamed in turn, and the first failed move ends the run with ERROR, keeping earlier moves; an IllegalArgumentException from preparing a counter pattern escapes `run` before any file is moved |
| DeleteBarcodeImage.NameWithoutExtension | goobi-plugin-step-rename-files/src/main/java/de/intranda/goobi/plugins/DeleteBarcodeImagePlugin.java:73-74 | the name up to its last '.'; a StringIndexOutOfBoundsException exactly when it has no '.' |
| DeleteBarcodeImage.LastToken | goobi-plugin-step-rename-files/src/main/java/de/intranda/goobi/plugins/DeleteBarcodeImagePlugin.java:73-77 | the last '_'-token holds no '_' and exists only for names with '.' |
| DeleteBarcodeImage.TokenAfterUnderscore | goobi-plugin-step-rename-files/src/main/java/de/intranda/goobi/plugins/DeleteBarcodeImagePlugin.java:73-77 | the token examined for "prefix_token.ext" is the token |
| DeleteBarcodeImage.TokenWithoutUnderscore | goobi-plugin-step-rename-files/src/main/java/de/intranda/goobi/plugins/DeleteBarcodeImagePlugin.java:73-77 | the token examined for "token.ext" is the token |
| DeleteBarcodeImage.BarcodeTokenIff | goobi-plugin-step-rename-files/src/main/java/de/intranda/goobi/plugins/DeleteBarcodeImagePlugin.java:80-85 | a token marks a barcode image exactly when it is two or more digits each worth zero, in any script `Character.isDigit` accepts (a lone zero never does); the test throws only for digits whose value is beyond Integer.MAX_VALUE |
| DeleteBarcodeImage.AsciiBarcodeToken | goobi-plugin-step-rename-files/src/main/java/de/intranda/goobi/plugins/DeleteBarcodeImagePlugin.java:80-85 | for a token of the digits '0'..'9', whatever the Unicode data, the test holds exactly when it is two or more '0' |
| DeleteBarcodeImage.ChildPaths | goobi-plugin-step-rename-files/src/main/java/de/intranda/goobi/plugins/DeleteBarcodeImagePlugin.java:64-70 | each listed name becomes the folder's file with that name |
| DeleteBarcodeImage.Deletions | goobi-plugin-step-rename-files/src/main/java/de/intranda/goobi/plugins/DeleteBarcodeImagePlugin.java:72-92 | the loop only ever removes files |
| DeleteBarcodeImage.DeletesExactlyMarked | goobi-plugin-step-rename-files/src/main/java/de/intranda/goobi/plugins/DeleteBarcodeImagePlugin.java:72-88 | for existing candidates, exactly the files whose name passes the test are deleted |
| DeleteBarcodeImage.DeleteBarcodeImagePlugin.ListIfExists | goobi-plugin-step-rename-files/src/main/java/de/intranda/goobi/plugins/DeleteBarcodeImagePlugin.java:64-70 | a folder's files when it exists, nothing otherwise |
| DeleteBarcodeImage.DeleteBarcodeImagePlugin.Execute | goobi-plugin-step-rename-files/src/main/java/de/intranda/goobi/plugins/DeleteBarcodeImagePlugin.java:55-95 | the candidates are the master folder's files then the media folder's; the files left are the loop's; the answer is always true when `execute` returns |
| DeleteBarcodeImage.DeleteBarcodeImagePlugin.Run | goobi-plugin-step-rename-files/src/main/java/de/intranda/goobi/plugins/DeleteBarcodeImagePlugin.java:126-131 | FINISH whenever `execute` returns |
| Numerals.ParseInt | goobi-plugin-step-rename-files/src/main/java/de/intranda/goobi/plugins/DeleteBarcodeImagePlugin.java:82 | `Integer.parseInt` of a string of decimal digits is its value, or NumberFormatException when empty or above Integer.MAX_VALUE |
| Numerals.ZeroValueIn | goobi-plugin-step-rename-files/src/main/java/de/intranda/goobi/plugins/DeleteBarcodeImagePlugin.java:81-82 | a string of digits is zero exactly when every digit is worth zero |
| Numerals.AsciiValueIn | goobi-plugin-step-rename-files/src/main/java/de/intranda/goobi/plugins/DeleteBarcodeImagePlugin.java:80-82 | the digits '0'..'9' are digits of every class and read as their usual value |
| Numerals.AllZerosValue | goobi-plugin-step-rename-files/src/main/java/de/intranda/goobi/plugins/DeleteBarcodeImagePlugin.java:81-82 | a string of '0'..'9' is zero exactly when it is all '0' |
| Numerals.ZeroPaddedValue | goobi-plugin-step-rename-files/src/main/java/de/intranda/goobi/plugins/RenameFilesPlugin.java:165 | a zero-pattern rendering is at least the pattern's width and reads back as the counter (with a sign when negative) |
| Numerals.ZeroPaddedInjective | goobi-plugin-step-rename-files/src/main/java/de/intranda/goobi/plugins/RenameFilesPlugin.java:165 | distinct counters render distinctly under one zero pattern |
| Numerals.ZeroPaddedLength | goobi-plugin-step-rename-files/src/main/java/de/intranda/goobi/plugins/RenameFilesPlugin.java:165 | a counter below 10^width renders at exactly the pattern's width |

## Left out

- The CDStar export and ingest plugins. They only build and submit message-queue tickets.
- Host glue is not modelled:
  - plugin lifecycle methods;
  - configuration lookup (`initialize`, `loadPluginConfiguration`);
  - process-property persistence;
  - `Helper` messages and journal entries.
- Folder discovery through process getters in module-base and in the plugin generation is not modelled. The folders are a parameter of `RenameFiles.RenameFilesPlugin.Run`. The first generation's folder rule is modelled by `LegacyRenameFiles.FolderList`, and its `Run` takes that list as its parameter.
- Foreign formatters and regular expressions are not evaluated: `VariableReplacer`, Java regex `matches`/`replaceAll`, `String.format`, and `DecimalFormat` patterns other than all zeros. They are function fields of `Template.Env`.
- Template.Env: `fullyMatches` and `replaceAll` are total. An invalid regular expression in a condition or replacement (PatternSyntaxException) and a replacement naming a missing group (IndexOutOfBoundsException) are not modelled. In the source, both escape `run` uncaught, because its catch covers only IOException, PluginException, SwapException and DAOException.
- Template.Formatted: when the text is an integer and the format fits neither the text nor its value, the second `String.format` throws an IllegalFormatException that is not caught. The model reports a PluginException for every format that does not fit.
- Storage.Storage.ListFiles: lists the folder's files, not its sub-directories. The source does not say whether `StorageProvider.listFiles` returns sub-directories. The sets `files` and `directories` are not required to be disjoint, so the plugin generation's IOException for a listed directory (`RenamingLog`) stands for a listing that returns a directory.
- The METS document tree is not modelled. The structural-element lookup and metadata values are also function fields of `Template.Env`. The unused `fallback` attribute of metadata parts is not modelled.
- The Gson serialisation of the history is not modelled. The history is kept as a map.
- Reading and writing the METS file are not modelled; the references are a field of the document object. For the same reason the IOException wrapping of read and write errors is not modelled.
- The plugin generation's `run`, `tryRenameFile`, the temp folder, `revertFiles` and `createFilenameMap` are not modelled. This orchestration does not compile: it refers to undefined members and calls with the wrong arity. Only its helpers and its counter loop are modelled.
- RenamingLog.RenameFilesPlugin.NameFile: the log update is entered whenever the name changes. The move through `tryRenameFile`, which guards it in the source, is not modelled.
- The plugin `MetsFileUpdater.getBasename(String)` overload is not modelled. Only the `Path` overload is used by the plugin.
- Hash-map iteration order is not modelled. `RenamingOrder.FindConflictFreeRenamingSource` picks some free pending source, not necessarily the one a `HashMap` would give first. The method's guarantees hold for any choice.
- The storage's listing order is left open (`Storage.Storage.ListFiles`).
- Storage.Storage.Move: the source does not say how `StorageProvider.move` treats an existing target file. The flag `replaceExisting` leaves it open, and no claim depends on one answer. A move onto a directory always fails. File contents are not modelled: an overwritten file shows only as one path fewer (`Storage.MoveCount`).
- Numerals.DigitClass: which characters besides '0'..'9' are Unicode decimal digits, and their values, are Unicode data. The model takes them as a parameter. A character outside the Basic Multilingual Plane is one Dafny `char` but two Java `char`s; the parameter should not count it as a digit.
- Counters are unbounded integers. The 32-bit wrap-around of `counter++` after Integer.MAX_VALUE files is not modelled.
- Paths are absolute paths whose names hold no '/'. Relative paths and `..` are not modelled.
- Case folding in `equalsIgnoreCase` is limited to ASCII letters.
- Paths.FileFolderIdentifier: this follows the source, treating a file name without '.' as a folder. Such a file therefore gets a different history identifier from its renamed target. The model keeps that behaviour and does not correct it.

## Findings

| source | as written | input that shows it | evidently intended | confidence | as-written member | corrected member |
|---|---|---|---|---|---|---|
| module-base/src/main/java/de/intranda/goobi/plugins/RenameFilesPlugin.java:704-715 | the `while` loop only removes an entry when a conflict-free source is found, so when every pending rename is blocked it spins forever | two files that swap names, `/p/images/x_media/1.tif` → `2.tif` and `2.tif` → `1.tif` | stop and report that the renaming cannot be ordered (the run then returns ERROR before any move) | high, not executed | RenamingOrder.JavaOrderLoopSpinsOnSwap | RenamingOrder.FindConflictFreeRenamingOrder |

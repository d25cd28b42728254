/** The renaming run of the module-base plugin: the per-folder plan (sorted files, generated names,
    kept extensions, no-op renames left out), the plan over all folders, the moves in a
    conflict-free order with their history records, and the METS update. */
module Planner {
  import opened Common
  import opened Text
  import opened Numerals
  import opened Ordering
  import opened Paths
  import opened History
  import opened Template
  import opened Storage
  import opened RenamingOrder
  import opened MetsLocations

  // ---------------------------------------------------------------------------------------------
  // New file names
  // ---------------------------------------------------------------------------------------------

  /** The extension a renamed file keeps: the text after the last '.' of its name. */
  function Extension(name: string): (r: string)
    ensures '.' !in r && |r| <= |name| && r == name[|name| - |r|..]
  {
    AfterLast(name, '.')
  }

  /** The new full file name: the generated name, a '.', and the old extension. */
  function NewFullName(generated: string, oldName: string): (r: string)
  {
    generated + "." + Extension(oldName)
  }

  /** A name without '.' is taken whole as its own extension, so the new name repeats it. */
  lemma ExtensionlessName(generated: string, name: string)
    requires '.' !in name
    ensures NewFullName(generated, name) == generated + "." + name
  {
    LastIndexOfAbsent(name, '.');
  }

  /** The new name splits back at its last '.' into the generated name and the old extension. */
  lemma NewFullNameParts(generated: string, oldName: string)
    ensures Extension(NewFullName(generated, oldName)) == Extension(oldName)
    ensures BeforeLast(NewFullName(generated, oldName), '.') == generated
  {
    var ext := Extension(oldName);
    assert NewFullName(generated, oldName) == generated + ['.'] + ext;
    SplitAtLast(generated, ext, '.');
  }

  /** Different generated names give different new names, whatever the extensions. */
  lemma NewFullNameInjective(g1: string, n1: string, g2: string, n2: string)
    requires NewFullName(g1, n1) == NewFullName(g2, n2)
    ensures g1 == g2 && Extension(n1) == Extension(n2)
  {
    NewFullNameParts(g1, n1);
    NewFullNameParts(g2, n2);
  }

  // ---------------------------------------------------------------------------------------------
  // The plan of one folder
  // ---------------------------------------------------------------------------------------------

  /** The file of a folder with a plain name: `Paths.get(folder.toString(), name)`. */
  function Child(folder: Path, name: Segment): (r: Path)
    ensures HasFileName(r) && FileName(r) == name && Parent(r) == folder
  {
    assert (folder.names + [name])[..|folder.names|] == folder.names;
    Path(folder.names + [name])
  }

  /** For a plain name, Child is what resolving the name in the folder gives. */
  lemma ChildIsResolved(folder: Path, name: Segment)
    ensures Child(folder, name) == Resolve(folder, name)
  {
    ResolveSegment(folder, name);
  }

  /** The files of the first k names. */
  function ListedPaths(folder: Path, names: seq<Segment>, k: nat): (r: set<Path>)
    requires k <= |names|
  {
    if k == 0 then {} else ListedPaths(folder, names, k - 1) + {Child(folder, names[k - 1])}
  }

  /** How a new name is placed in a folder. */
  type Resolver = (Path, string) -> Path

  /** `Paths.get(folder.toString(), name)`. */
  const PathsGet: Resolver := (folder: Path, name: string) => Resolve(folder, name)

  /** A resolver that places a plain name as the folder's child of that name. */
  ghost predicate ResolvesPlain(resolve: Resolver)
  {
    forall folder: Path, name: Segment :: resolve(folder, name) == Child(folder, name)
  }

  lemma PathsGetResolvesPlain()
    ensures ResolvesPlain(PathsGet)
  {
    forall folder: Path, name: Segment
      ensures PathsGet(folder, name) == Child(folder, name)
    {
      ChildIsResolved(folder, name);
    }
  }

  /** How a file is named: from the naming state and the file's path, its new full name and the
      state after it. */
  type Namer = (State, Path) -> Result<(string, State)>

  /** The new full name of a file under a formatter with this template and start value: the name
      `generateNewName` gives it, a '.', and its old extension. The formatter always holds one
      counter per part, and the files it names have names; any other input is refused. */
  function TemplateNamer(env: Env, parts: seq<NamePart>, startValue: int): (r: Namer)
  {
    (st: State, file: Path) =>
      if |st.counters| != |parts| || !HasFileName(file) then Err(IllegalArgument)
      else
        var (generated, st1) :- GenerateName(env, parts, startValue, st, file);
        Ok((NewFullName(generated, FileName(file)), st1))
  }

  /** One file of the loop: the namer names it, and unless the new name is its old one the file's
      entry maps it to the new name resolved in its folder. */
  function PlanNext(namer: Namer, resolve: Resolver, folder: Path, name: Segment, plan: Renaming, st: State): (r: Result<(Renaming, State)>)
    ensures r.Ok? ==> r.value.0.Keys <= plan.Keys + {Child(folder, name)}
  {
    var (newName, st2) :- namer(st, Child(folder, name));
    if name == newName then Ok((plan, st2))
    else Ok((plan[Child(folder, name) := resolve(folder, newName)], st2))
  }

  /** The renaming of the first k files of a folder, in the given order, and the naming state after
      them: each file gets the name the namer gives it, and a file whose new name equals its old one
      is left out. */
  function PlanUpTo(namer: Namer, resolve: Resolver, st: State, folder: Path, names: seq<Segment>, k: nat): (r: Result<(Renaming, State)>)
    requires k <= |names|
    ensures r.Ok? ==> r.value.0.Keys <= ListedPaths(folder, names, k)
  {
    if k == 0 then Ok((map[], st))
    else
      var (plan, st1) :- PlanUpTo(namer, resolve, st, folder, names, k - 1);
      PlanNext(namer, resolve, folder, names[k - 1], plan, st1)
  }

  /** Once naming a file fails, planning the folder fails. */
  lemma {:induction false} PlanErrorPersists(namer: Namer, resolve: Resolver, st: State, folder: Path, names: seq<Segment>, k: nat)
    requires k <= |names|
    requires PlanUpTo(namer, resolve, st, folder, names, k).Err?
    ensures PlanUpTo(namer, resolve, st, folder, names, |names|) == PlanUpTo(namer, resolve, st, folder, names, k)
    decreases |names| - k
  {
    if k < |names| {
      PlanErrorPersists(namer, resolve, st, folder, names, k + 1);
    }
  }

  /** The plain names of a folder in `Collections.sort` order. */
  ghost function SortedNames(names: set<string>): (r: seq<Segment>)
    requires forall x :: x in names ==> x != "" && '/' !in x
    ensures r == SortedSet(names)
  {
    var s := SortedSet(names);
    assert forall i :: 0 <= i < |s| ==> s[i] in multiset(names);
    s
  }

  /** The plan of a folder's files: sorted, with counters reset to the start value and the
      per-element counters cleared. */
  ghost function PlanFolder(env: Env, parts: seq<NamePart>, startValue: int, h: FolderHistory, folder: Path,
                            names: set<string>): Result<(Renaming, State)>
    requires forall x :: x in names ==> x != "" && '/' !in x
  {
    var sorted := SortedNames(names);
    PlanUpTo(TemplateNamer(env, parts, startValue), PathsGet, State(ResetCounters(|parts|, startValue), map[], h), folder, sorted, |sorted|)
  }

  /** `determineRenamingForAllFilesInFolder` as a value: nothing for a path that does not exist, a
      PluginException for a path that is not a directory, the folder's plan otherwise, with the
      history after naming. */
  ghost function FolderPlan(env: Env, parts: seq<NamePart>, startValue: int, h: FolderHistory,
                            files: set<Path>, dirs: set<Path>, folder: Path): Result<(Renaming, FolderHistory)>
  {
    if folder !in files && folder !in dirs then Ok((map[], h))
    else if folder !in dirs then Err(PluginException)
    else
      var (plan, st) :- PlanFolder(env, parts, startValue, h, folder, ChildNamesIn(files, folder));
      Ok((plan, st.history))
  }

  /** `determineRenamingForAllFilesInAllFolders` as a value: the folder plans merged in order, a
      later folder's entry replacing an earlier one for the same source. */
  ghost function PlanAll(env: Env, parts: seq<NamePart>, startValue: int, h: FolderHistory,
                         files: set<Path>, dirs: set<Path>, folders: seq<Path>): Result<(Renaming, FolderHistory)>
  {
    if folders == [] then Ok((map[], h))
    else
      var (acc, h1) :- PlanAll(env, parts, startValue, h, files, dirs, folders[..|folders| - 1]);
      var (plan, h2) :- FolderPlan(env, parts, startValue, h1, files, dirs, folders[|folders| - 1]);
      Ok((acc + plan, h2))
  }

  // ---------------------------------------------------------------------------------------------
  // What a plan looks like for two templates
  // ---------------------------------------------------------------------------------------------

  /** Pairwise distinct file names, as a folder listing gives them. */
  predicate ListingNames(names: seq<Segment>)
  {
    forall i, j :: 0 <= i < j < |names| ==> names[i] != names[j]
  }

  /** The plan renames the file `oldName` of the folder to `newName`, or leaves it out when the
      two are the same. */
  ghost predicate RenamesTo(plan: Renaming, resolve: Resolver, folder: Path, oldName: Segment, newName: string)
  {
    if newName == oldName then Child(folder, oldName) !in plan
    else Child(folder, oldName) in plan && plan[Child(folder, oldName)] == resolve(folder, newName)
  }

  /** Adding the entry of another file of the folder keeps what the plan says about this one. */
  lemma RenamesToKept(plan: Renaming, resolve: Resolver, folder: Path, name: Segment, newName: string, other: Segment, target: Path)
    requires name != other && RenamesTo(plan, resolve, folder, name, newName)
    ensures RenamesTo(plan[Child(folder, other) := target], resolve, folder, name, newName)
  {
  }

  /** A later file of the listing is not among the first k. */
  lemma {:induction false} NotListed(folder: Path, names: seq<Segment>, k: nat, j: nat)
    requires k <= j < |names| && ListingNames(names)
    ensures Child(folder, names[j]) !in ListedPaths(folder, names, k)
    decreases k
  {
    if k > 0 {
      NotListed(folder, names, k - 1, j);
      assert FileName(Child(folder, names[k - 1])) != FileName(Child(folder, names[j]));
    }
  }

  /** The plan renames each of the first k files to its label, numbered from `first`. */
  ghost predicate RenamesAll(plan: Renaming, resolve: Resolver, folder: Path, names: seq<Segment>, k: nat, nameOf: Label, first: int)
    requires k <= |names|
  {
    forall i :: 0 <= i < k ==> RenamesTo(plan, resolve, folder, names[i], nameOf(first + i, names[i]))
  }

  /** A plan that renames each of the first k - 1 files to its label and has no entry for the
      k-th, extended by the k-th file's entry, renames each of the first k so. */
  lemma PlanExtended(plan: Renaming, resolve: Resolver, folder: Path, names: seq<Segment>, k: nat, nameOf: Label, first: int)
    requires 0 < k <= |names| && ListingNames(names) && Child(folder, names[k - 1]) !in plan
    requires RenamesAll(plan, resolve, folder, names, k - 1, nameOf, first)
    ensures var name := nameOf(first + (k - 1), names[k - 1]);
      var plan1 := if names[k - 1] == name then plan else plan[Child(folder, names[k - 1]) := resolve(folder, name)];
      RenamesAll(plan1, resolve, folder, names, k, nameOf, first)
  {
    var name := nameOf(first + (k - 1), names[k - 1]);
    if names[k - 1] != name {
      forall i | 0 <= i < k - 1
        ensures RenamesTo(plan[Child(folder, names[k - 1]) := resolve(folder, name)], resolve, folder, names[i], nameOf(first + i, names[i]))
      {
        RenamesToKept(plan, resolve, folder, names[i], nameOf(first + i, names[i]), names[k - 1], resolve(folder, name));
      }
    }
  }

  /** One more file of the loop, named by its label: the plan then renames each of the first k
      files to its label. */
  lemma NextRenames(namer: Namer, resolve: Resolver, folder: Path, names: seq<Segment>, k: nat, nameOf: Label, first: int,
                    plan: Renaming, st: State, st2: State)
    requires 0 < k <= |names| && ListingNames(names)
    requires plan.Keys <= ListedPaths(folder, names, k - 1)
    requires RenamesAll(plan, resolve, folder, names, k - 1, nameOf, first)
    requires namer(st, Child(folder, names[k - 1])) == Ok((nameOf(first + (k - 1), names[k - 1]), st2))
    ensures var r := PlanNext(namer, resolve, folder, names[k - 1], plan, st);
      r.Ok? && r.value.1 == st2 && RenamesAll(r.value.0, resolve, folder, names, k, nameOf, first)
  {
    NotListed(folder, names, k - 1, k - 1);
    PlanExtended(plan, resolve, folder, names, k, nameOf, first);
  }

  /** The template of one plain counter part. */
  function CounterTemplate(pattern: string): (r: seq<NamePart>)
  {
    [NamePart(Counter(pattern, None), [], [])]
  }

  /** The name the counter template gives to a file numbered n. */
  function CounterFileName(pattern: string, n: int, oldName: string): (r: string)
  {
    NewFullName(ZeroPadded(n, |pattern|), oldName)
  }

  /** A file's new name as a function of its number and its old name. */
  type Label = (int, string) -> string

  function CounterLabel(pattern: string): (r: Label)
  {
    (n: int, oldName: string) => CounterFileName(pattern, n, oldName)
  }

  /** A namer that names a file by its number, the one counter, and advances the counter by one. */
  ghost predicate Numbers(namer: Namer, nameOf: Label)
  {
    forall st: State, file: Path :: |st.counters| == 1 && HasFileName(file) ==>
      namer(st, file) == Ok((nameOf(st.counters[0], FileName(file)), st.(counters := [st.counters[0] + 1])))
  }

  /** The counter template with a pattern of zeros is such a namer. */
  lemma CounterTemplateNumbers(env: Env, pattern: string, startValue: int)
    requires IsZeroPattern(pattern)
    ensures Numbers(TemplateNamer(env, CounterTemplate(pattern), startValue), CounterLabel(pattern))
  {
    var namer, resolve := TemplateNamer(env, CounterTemplate(pattern), startValue), PathsGet;
    forall st: State, file: Path | |st.counters| == 1 && HasFileName(file)
      ensures namer(st, file) == Ok((CounterLabel(pattern)(st.counters[0], FileName(file)), st.(counters := [st.counters[0] + 1])))
    {
      CounterOnlyName(env, startValue, st, pattern, file);
    }
  }

  /** The plan of the first k files numbers them from the counter's value on, and the counter ends
      k further on. */
  ghost predicate NumberedUpTo(namer: Namer, resolve: Resolver, nameOf: Label, st: State, folder: Path,
                               names: seq<Segment>, k: nat)
    requires |st.counters| == 1 && k <= |names|
  {
    var r := PlanUpTo(namer, resolve, st, folder, names, k);
    r.Ok? && r.value.1 == st.(counters := [st.counters[0] + k]) &&
    RenamesAll(r.value.0, resolve, folder, names, k, nameOf, st.counters[0])
  }

  /** One more file under a numbering namer: it is numbered one past the files before it. */
  lemma CounterStep(namer: Namer, resolve: Resolver, nameOf: Label, st: State, folder: Path, names: seq<Segment>, k: nat)
    requires Numbers(namer, nameOf) && |st.counters| == 1
    requires 0 < k <= |names| && ListingNames(names)
    requires NumberedUpTo(namer, resolve, nameOf, st, folder, names, k - 1)
    ensures NumberedUpTo(namer, resolve, nameOf, st, folder, names, k)
  {
    var (plan, st1) := PlanUpTo(namer, resolve, st, folder, names, k - 1).value;
    var file := Child(folder, names[k - 1]);
    var st2 := st.(counters := [st.counters[0] + k]);
    assert namer(st1, file) == Ok((nameOf(st1.counters[0], FileName(file)), st1.(counters := [st1.counters[0] + 1])));
    assert st1.(counters := [st1.counters[0] + 1]) == st2;
    NextRenames(namer, resolve, folder, names, k, nameOf, st.counters[0], plan, st1, st2);
  }

  /** Under a numbering namer the i-th file of the order is numbered `first + i`, and the counter
      ends `k` further on; nothing else in the naming state changes. */
  lemma {:induction false} CounterPlan(namer: Namer, resolve: Resolver, nameOf: Label, st: State, folder: Path,
                                       names: seq<Segment>, k: nat)
    requires Numbers(namer, nameOf) && |st.counters| == 1
    requires k <= |names| && ListingNames(names)
    ensures var r := PlanUpTo(namer, resolve, st, folder, names, k);
      r.Ok? && r.value.1 == st.(counters := [st.counters[0] + k]) &&
      RenamesAll(r.value.0, resolve, folder, names, k, nameOf, st.counters[0])
  {
    NumberedAll(namer, resolve, nameOf, st, folder, names, k);
  }

  lemma {:induction false} NumberedAll(namer: Namer, resolve: Resolver, nameOf: Label, st: State, folder: Path,
                                       names: seq<Segment>, k: nat)
    requires Numbers(namer, nameOf) && |st.counters| == 1
    requires k <= |names| && ListingNames(names)
    ensures NumberedUpTo(namer, resolve, nameOf, st, folder, names, k)
    decreases k
  {
    if k > 0 {
      NumberedAll(namer, resolve, nameOf, st, folder, names, k - 1);
      CounterStep(namer, resolve, nameOf, st, folder, names, k);
    } else {
      assert st.counters == [st.counters[0] + 0];
    }
  }

  /** A counter value in a pattern of zeros never holds '/' or '.'. */
  lemma ZeroPaddedPlain(n: int, width: nat)
    ensures '/' !in ZeroPadded(n, width) && '.' !in ZeroPadded(n, width)
  {
    ZeroPaddedValue(n, width);
    var p := ZeroPadded(n, width);
    if n < 0 {
      assert p == [p[0]] + p[1..];
    }
  }

  /** Every listed path comes from one of the listed names. */
  lemma {:induction false} ListedIndex(folder: Path, names: seq<Segment>, k: nat, p: Path) returns (i: nat)
    requires k <= |names| && p in ListedPaths(folder, names, k)
    ensures i < k && p == Child(folder, names[i])
    decreases k
  {
    if p == Child(folder, names[k - 1]) {
      i := k - 1;
    } else {
      i := ListedIndex(folder, names, k - 1, p);
    }
  }

  /** The extension of a plain name holds no '/'. */
  lemma ExtensionPlain(name: string)
    requires '/' !in name
    ensures '/' !in Extension(name)
  {
    var ext := Extension(name);
    forall c | c in ext
      ensures c != '/'
    {
      var x :| 0 <= x < |ext| && ext[x] == c;
      assert ext[x] == name[|name| - |ext| + x];
    }
  }

  /** A nameOf that gives the files of the order, numbered from `first`, plain and pairwise distinct
      names. */
  ghost predicate DistinctLabels(nameOf: Label, first: int, names: seq<Segment>)
  {
    (forall i :: 0 <= i < |names| ==> nameOf(first + i, names[i]) != "" && '/' !in nameOf(first + i, names[i])) &&
    forall i, j :: 0 <= i < |names| && 0 <= j < |names| && i != j ==>
      nameOf(first + i, names[i]) != nameOf(first + j, names[j])
  }

  /** A counter name is a plain name. */
  lemma CounterTargetPlain(pattern: string, n: int, oldName: Segment)
    ensures CounterFileName(pattern, n, oldName) != "" && '/' !in CounterFileName(pattern, n, oldName)
  {
    ZeroPaddedPlain(n, |pattern|);
    ExtensionPlain(oldName);
  }

  /** The counter names of two different files are different. */
  lemma CounterTargetsDistinct(pattern: string, first: int, names: seq<Segment>, i: nat, j: nat)
    requires i < |names| && j < |names| && i != j
    ensures CounterFileName(pattern, first + i, names[i]) != CounterFileName(pattern, first + j, names[j])
  {
    var gi, gj := ZeroPadded(first + i, |pattern|), ZeroPadded(first + j, |pattern|);
    if NewFullName(gi, names[i]) == NewFullName(gj, names[j]) {
      NewFullNameInjective(gi, names[i], gj, names[j]);
      ZeroPaddedInjective(first + i, first + j, |pattern|);
    }
  }

  /** The counter nameOf numbers distinct files with distinct plain names. */
  lemma CounterLabelsDistinct(pattern: string, first: int, names: seq<Segment>)
    ensures DistinctLabels(CounterLabel(pattern), first, names)
  {
    var nameOf := CounterLabel(pattern);
    forall i, j | 0 <= i < |names| && 0 <= j < |names| && i != j
      ensures nameOf(first + i, names[i]) != nameOf(first + j, names[j])
    {
      CounterTargetsDistinct(pattern, first, names, i, j);
    }
    forall i | 0 <= i < |names|
      ensures nameOf(first + i, names[i]) != "" && '/' !in nameOf(first + i, names[i])
    {
      CounterTargetPlain(pattern, first + i, names[i]);
    }
  }

  /** Under a numbering namer whose labels are distinct, no two files of a folder are renamed to
      the same name. */
  lemma CounterPlanInjective(namer: Namer, resolve: Resolver, nameOf: Label, st: State, folder: Path, names: seq<Segment>)
    requires Numbers(namer, nameOf) && |st.counters| == 1 && ListingNames(names)
    requires DistinctLabels(nameOf, st.counters[0], names) && ResolvesPlain(resolve)
    ensures var r := PlanUpTo(namer, resolve, st, folder, names, |names|);
      r.Ok? && Injective(r.value.0)
  {
    CounterPlan(namer, resolve, nameOf, st, folder, names, |names|);
    var plan := PlanUpTo(namer, resolve, st, folder, names, |names|).value.0;
    forall a, b | a in plan && b in plan && a != b
      ensures plan[a] != plan[b]
    {
      var i := ListedIndex(folder, names, |names|, a);
      var j := ListedIndex(folder, names, |names|, b);
      var ni, nj := nameOf(st.counters[0] + i, names[i]), nameOf(st.counters[0] + j, names[j]);
      assert RenamesTo(plan, resolve, folder, names[i], ni);
      assert RenamesTo(plan, resolve, folder, names[j], nj);
      assert resolve(folder, ni) == Child(folder, ni) && resolve(folder, nj) == Child(folder, nj);
      assert FileName(Child(folder, ni)) != FileName(Child(folder, nj));
    }
  }

  /** The template of one static part. */
  function StaticTemplate(text: string): (r: seq<NamePart>)
  {
    [NamePart(Static(text), [], [])]
  }

  /** A namer that names a file by its old name alone and changes no naming state. */
  ghost predicate NamesByOldName(namer: Namer, nameOf: string -> string)
  {
    forall st: State, file: Path :: |st.counters| == 1 && HasFileName(file) ==>
      namer(st, file) == Ok((nameOf(FileName(file)), st))
  }

  function StaticLabel(text: string): (r: string -> string)
  {
    (oldName: string) => NewFullName(text, oldName)
  }

  /** A naming by old names as a label that ignores the number. */
  function Unnumbered(nameOf: string -> string): (r: Label)
  {
    (n: int, oldName: string) => nameOf(oldName)
  }

  /** The static template is such a namer: every file gets the text and its own extension. */
  lemma StaticTemplateNamesAll(env: Env, startValue: int, text: string)
    ensures NamesByOldName(TemplateNamer(env, StaticTemplate(text), startValue), StaticLabel(text))
  {
    var parts := StaticTemplate(text);
    forall st: State, file: Path | |st.counters| == 1 && HasFileName(file)
      ensures TemplateNamer(env, parts, startValue)(st, file) == Ok((StaticLabel(text)(FileName(file)), st))
    {
      assert GenerateUpTo(env, parts, startValue, st, file, 0) == Ok(("", st));
      assert GeneratePart(env, startValue, st, 0, parts[0], file) == Ok((text, st));
      assert "" + text == text;
      assert GenerateName(env, parts, startValue, st, file) == GenerateUpTo(env, parts, startValue, st, file, 1);
    }
  }

  /** Under a namer by old names every file is renamed to its nameOf. */
  lemma {:induction false} StaticPlan(namer: Namer, resolve: Resolver, nameOf: string -> string, st: State, folder: Path,
                                      names: seq<Segment>, k: nat)
    requires NamesByOldName(namer, nameOf) && |st.counters| == 1 && k <= |names| && ListingNames(names)
    ensures var r := PlanUpTo(namer, resolve, st, folder, names, k);
      r.Ok? && r.value.1 == st && RenamesAll(r.value.0, resolve, folder, names, k, Unnumbered(nameOf), 0)
    decreases k
  {
    if k > 0 {
      StaticPlan(namer, resolve, nameOf, st, folder, names, k - 1);
      var plan := PlanUpTo(namer, resolve, st, folder, names, k - 1).value.0;
      var file := Child(folder, names[k - 1]);
      assert namer(st, file) == Ok((nameOf(FileName(file)), st));
      NextRenames(namer, resolve, folder, names, k, Unnumbered(nameOf), 0, plan, st, st);
    }
  }

  /** Under a namer by old names two files whose labels agree, neither already carrying its nameOf,
      are renamed to one name: the plan is not injective. */
  lemma StaticPlanCollides(namer: Namer, resolve: Resolver, nameOf: string -> string, st: State, folder: Path, names: seq<Segment>,
                           i: nat, j: nat)
    requires NamesByOldName(namer, nameOf) && |st.counters| == 1 && ListingNames(names)
    requires i < |names| && j < |names| && i != j && nameOf(names[i]) == nameOf(names[j])
    requires names[i] != nameOf(names[i]) && names[j] != nameOf(names[j])
    ensures var r := PlanUpTo(namer, resolve, st, folder, names, |names|);
      r.Ok? && !Injective(r.value.0)
  {
    StaticPlan(namer, resolve, nameOf, st, folder, names, |names|);
    var plan := PlanUpTo(namer, resolve, st, folder, names, |names|).value.0;
    assert RenamesTo(plan, resolve, folder, names[i], Unnumbered(nameOf)(0 + i, names[i]));
    assert RenamesTo(plan, resolve, folder, names[j], Unnumbered(nameOf)(0 + j, names[j]));
  }

  /** Two equal elements at different positions count twice. */
  lemma RepeatCounts(s: seq<string>, i: nat, j: nat)
    requires i < j < |s|
    ensures s[i] == s[j] ==> multiset(s)[s[i]] >= 2
  {
    assert s == s[..j] + s[j..];
    assert s[i] == s[..j][i] && s[j] == s[j..][0];
    assert multiset(s)[s[i]] == multiset(s[..j])[s[i]] + multiset(s[j..])[s[i]];
  }

  /** The sorted names of a folder are pairwise distinct. */
  lemma SortedDistinct(names: set<string>)
    requires forall x :: x in names ==> x != "" && '/' !in x
    ensures ListingNames(SortedNames(names))
  {
    var s := SortedNames(names);
    forall i, j | 0 <= i < j < |s|
      ensures s[i] != s[j]
    {
      RepeatCounts(s, i, j);
      assert multiset(names)[s[i]] <= 1;
    }
  }

  /** With a counter template of zeros a folder's files, in sorted order, are numbered from the start
      value on and keep their extensions; the history is not touched. */
  lemma CounterFolderPlan(env: Env, pattern: string, startValue: int, h: FolderHistory,
                          files: set<Path>, folder: Path)
    requires IsZeroPattern(pattern)
    ensures var sorted := SortedNames(ChildNamesIn(files, folder));
      var r := PlanFolder(env, CounterTemplate(pattern), startValue, h, folder, ChildNamesIn(files, folder));
      r.Ok? && r.value.1.history == h &&
      forall i :: 0 <= i < |sorted| ==>
        RenamesTo(r.value.0, PathsGet, folder, sorted[i], CounterFileName(pattern, startValue + i, sorted[i]))
  {
    var sorted := SortedNames(ChildNamesIn(files, folder));
    var namer, resolve := TemplateNamer(env, CounterTemplate(pattern), startValue), PathsGet;
    var st := State(ResetCounters(1, startValue), map[], h);
    assert st.counters == [startValue];
    SortedDistinct(ChildNamesIn(files, folder));
    CounterTemplateNumbers(env, pattern, startValue);
    CounterPlan(namer, resolve, CounterLabel(pattern), st, folder, sorted, |sorted|);
  }

  /** With a counter template of zeros no two files of a folder are renamed to the same name. */
  lemma CounterFolderPlanInjective(env: Env, pattern: string, startValue: int, h: FolderHistory,
                                   files: set<Path>, folder: Path)
    requires IsZeroPattern(pattern)
    ensures var r := PlanFolder(env, CounterTemplate(pattern), startValue, h, folder, ChildNamesIn(files, folder));
      r.Ok? && Injective(r.value.0)
  {
    var sorted := SortedNames(ChildNamesIn(files, folder));
    var namer, resolve := TemplateNamer(env, CounterTemplate(pattern), startValue), PathsGet;
    var st := State(ResetCounters(1, startValue), map[], h);
    assert st.counters == [startValue];
    SortedDistinct(ChildNamesIn(files, folder));
    CounterTemplateNumbers(env, pattern, startValue);
    CounterLabelsDistinct(pattern, startValue, sorted);
    PathsGetResolvesPlain();
    CounterPlanInjective(namer, resolve, CounterLabel(pattern), st, folder, sorted);
  }

  /** Every name of the folder has its place in the sorted order. */
  lemma SortedIndex(names: set<string>, x: string) returns (i: nat)
    requires forall y :: y in names ==> y != "" && '/' !in y
    requires x in names
    ensures i < |SortedNames(names)| && SortedNames(names)[i] == x
  {
    var sorted := SortedNames(names);
    assert x in multiset(sorted);
    i :| 0 <= i < |sorted| && sorted[i] == x;
  }

  /** With a static template, two names of a folder with the same extension that do not already
      carry the static name are planned onto one target. */
  lemma StaticNamesPlanCollides(env: Env, text: string, startValue: int, h: FolderHistory, folder: Path,
                                names: set<string>, a: string, b: string)
    requires forall x :: x in names ==> x != "" && '/' !in x
    requires a in names && b in names && a != b
    requires Extension(a) == Extension(b)
    requires a != NewFullName(text, a) && b != NewFullName(text, b)
    ensures var r := PlanFolder(env, StaticTemplate(text), startValue, h, folder, names);
      r.Ok? && !Injective(r.value.0)
  {
    var sorted := SortedNames(names);
    SortedDistinct(names);
    var i := SortedIndex(names, a);
    var j := SortedIndex(names, b);
    StaticTemplateNamesAll(env, startValue, text);
    StaticPlanCollides(TemplateNamer(env, StaticTemplate(text), startValue), PathsGet, StaticLabel(text),
                       State(ResetCounters(1, startValue), map[], h), folder, sorted, i, j);
  }

  /** With a static template, two files of a folder with the same extension that do not already
      carry the static name are planned onto one target. */
  lemma StaticFolderPlanCollides(env: Env, text: string, startValue: int, h: FolderHistory,
                                 files: set<Path>, folder: Path, a: string, b: string)
    requires a in ChildNamesIn(files, folder) && b in ChildNamesIn(files, folder) && a != b
    requires Extension(a) == Extension(b)
    requires a != NewFullName(text, a) && b != NewFullName(text, b)
    ensures var r := PlanFolder(env, StaticTemplate(text), startValue, h, folder, ChildNamesIn(files, folder));
      r.Ok? && !Injective(r.value.0)
  {
    StaticNamesPlanCollides(env, text, startValue, h, folder, ChildNamesIn(files, folder), a, b);
  }
}

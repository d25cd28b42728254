/** The first generation of the plugin (goobi-plugin-step-rename-files): each folder's files are
    renamed in listing order to the configured parts followed by the old extension, with a counter
    that starts anew in every folder and skips barcode images, which get counter 0. */
module LegacyRenameFiles {
  import opened Common
  import opened Text
  import opened Numerals
  import opened Paths
  import opened Storage
  import opened Template
  import opened BarcodeCounter
  import Planner

  /** A configured name part: its text and its type; preparation gives a counter part the
      DecimalFormat pattern it renders the counter with. */
  datatype NamePartConfiguration = NamePartConfiguration(namePartValue: string, namePartType: string, format: Option<string>)

  /** `initConfig`: the start value defaults to 1 and a part's type to "static"; no part has a
      format yet. */
  function InitConfig(startValue: Option<int>, parts: seq<(string, Option<string>)>): (r: (int, seq<NamePartConfiguration>))
    ensures r.0 == if startValue.Some? then startValue.value else 1
    ensures |r.1| == |parts|
    ensures forall k :: 0 <= k < |parts| ==>
      r.1[k].namePartValue == parts[k].0 && r.1[k].format.None? &&
      r.1[k].namePartType == if parts[k].1.Some? then parts[k].1.value else "static"
  {
    var configured := seq(|parts|, k requires 0 <= k < |parts| =>
      NamePartConfiguration(parts[k].0, if parts[k].1.Some? then parts[k].1.value else "static", None));
    (if startValue.Some? then startValue.value else 1, configured)
  }

  /** One part after the preparation in `run`: a "variable" part (any letter case) holds its
      substituted text, a "counter" part gets its text as DecimalFormat pattern, others stay; a
      counter text DecimalFormat refuses is an IllegalArgumentException. */
  function Prepared(env: Env, npc: NamePartConfiguration): (r: Result<NamePartConfiguration>)
    ensures r.Err? ==> r.error == IllegalArgument
  {
    if EqualsIgnoreCase(npc.namePartType, "variable") then Ok(npc.(namePartValue := env.substitute(npc.namePartValue)))
    else if EqualsIgnoreCase(npc.namePartType, "counter") then
      if ValidPattern(env, npc.namePartValue) then Ok(npc.(format := Some(npc.namePartValue))) else Err(IllegalArgument)
    else Ok(npc)
  }

  /** Preparing a freshly configured part fails exactly for a counter part whose text is no valid
      pattern. Otherwise exactly the counter parts render a number, with their configured text as
      pattern; variable parts hold the substituted text, and every other part keeps its text. */
  lemma PreparedParts(env: Env, parts: seq<NamePartConfiguration>, k: nat)
    requires k < |parts| && parts[k].format.None?
    ensures var r := Prepared(env, parts[k]);
      (r.Err? <==> EqualsIgnoreCase(parts[k].namePartType, "counter") && !EqualsIgnoreCase(parts[k].namePartType, "variable") &&
                   !ValidPattern(env, parts[k].namePartValue)) &&
      (r.Err? ==> r.error == IllegalArgument)
    ensures var r := Prepared(env, parts[k]); r.Ok? ==> var p := r.value;
      (p.format.Some? <==> EqualsIgnoreCase(parts[k].namePartType, "counter") && !EqualsIgnoreCase(parts[k].namePartType, "variable")) &&
      (p.format.Some? ==> p.format.value == parts[k].namePartValue) &&
      (EqualsIgnoreCase(parts[k].namePartType, "variable") ==> p.namePartValue == env.substitute(parts[k].namePartValue)) &&
      (!EqualsIgnoreCase(parts[k].namePartType, "variable") ==> p.namePartValue == parts[k].namePartValue) &&
      p.namePartType == parts[k].namePartType
  {
  }

  /** What one part contributes to a file name: the formatted counter for a part with a format,
      its text otherwise. */
  function RenderPart(env: Env, npc: NamePartConfiguration, counter: int): (r: string)
  {
    if npc.format.Some? then Format(env, npc.format.value, counter) else npc.namePartValue
  }

  /** The parts rendered in order. */
  function Rendered(env: Env, parts: seq<NamePartConfiguration>, counter: int): (r: string)
  {
    if parts == [] then ""
    else Rendered(env, parts[..|parts| - 1], counter) + RenderPart(env, parts[|parts| - 1], counter)
  }

  /** `getFilename` as a value: the rendered parts, then '.' and the extension unless it is blank. */
  function FileNameFor(env: Env, parts: seq<NamePartConfiguration>, counter: int, extension: string): (r: string)
  {
    Rendered(env, parts, counter) + (if IsBlank(extension) then "" else "." + extension)
  }

  /** The extension the loop reads off a file name: the text after its last '.', the whole name
      when there is none. A renamed file keeps that extension: read off the new name, it is the
      same. */
  lemma ExtensionKept(env: Env, parts: seq<NamePartConfiguration>, counter: int, oldName: string)
    requires !IsBlank(AfterLast(oldName, '.'))
    ensures AfterLast(FileNameFor(env, parts, counter, AfterLast(oldName, '.')), '.') == AfterLast(oldName, '.')
  {
    var ext := AfterLast(oldName, '.');
    var rendered := Rendered(env, parts, counter);
    assert FileNameFor(env, parts, counter, ext) == rendered + [ '.' ] + ext;
    LastIndexOfAfterSeparator(rendered, ext, '.');
  }

  /** Every part with a format uses a pattern of zeros wide enough for the counter. */
  predicate WideEnough(parts: seq<NamePartConfiguration>, counter: int)
  {
    forall k :: 0 <= k < |parts| && parts[k].format.Some? ==>
      IsZeroPattern(parts[k].format.value) && 0 <= counter < Pow10(|parts[k].format.value|)
  }

  predicate HasCounterPart(parts: seq<NamePartConfiguration>)
  {
    exists k :: 0 <= k < |parts| && parts[k].format.Some?
  }

  lemma WideEnoughInit(parts: seq<NamePartConfiguration>, counter: int)
    requires parts != [] && WideEnough(parts, counter)
    ensures WideEnough(parts[..|parts| - 1], counter)
  {
    var init := parts[..|parts| - 1];
    forall k | 0 <= k < |init| && init[k].format.Some?
      ensures IsZeroPattern(init[k].format.value) && 0 <= counter < Pow10(|init[k].format.value|)
    {
      assert init[k] == parts[k];
    }
  }

  /** Under wide enough zero patterns the rendered length does not depend on the counter. */
  lemma {:induction false} RenderedLength(env: Env, parts: seq<NamePartConfiguration>, a: int, b: int)
    requires WideEnough(parts, a) && WideEnough(parts, b)
    ensures |Rendered(env, parts, a)| == |Rendered(env, parts, b)|
    decreases |parts|
  {
    if parts != [] {
      var last := parts[|parts| - 1];
      WideEnoughInit(parts, a);
      WideEnoughInit(parts, b);
      RenderedLength(env, parts[..|parts| - 1], a, b);
      if last.format.Some? {
        ZeroPaddedLength(a, |last.format.value|);
        ZeroPaddedLength(b, |last.format.value|);
      }
    }
  }

  /** With at least one counter part and wide enough zero patterns, distinct counters render
      distinct texts. */
  lemma {:induction false} RenderedInjective(env: Env, parts: seq<NamePartConfiguration>, a: int, b: int)
    requires HasCounterPart(parts) && WideEnough(parts, a) && WideEnough(parts, b)
    requires Rendered(env, parts, a) == Rendered(env, parts, b)
    ensures a == b
    decreases |parts|
  {
    var init := parts[..|parts| - 1];
    var last := parts[|parts| - 1];
    WideEnoughInit(parts, a);
    WideEnoughInit(parts, b);
    RenderedLength(env, init, a, b);
    var ra, rb := Rendered(env, init, a), Rendered(env, init, b);
    var pa, pb := RenderPart(env, last, a), RenderPart(env, last, b);
    assert ra + pa == rb + pb;
    ConcatCancel(ra, pa, rb, pb);
    if last.format.Some? {
      ZeroPaddedInjective(a, b, |last.format.value|);
    } else {
      var k :| 0 <= k < |parts| && parts[k].format.Some?;
      assert k < |init| && init[k] == parts[k];
      RenderedInjective(env, init, a, b);
    }
  }

  /** Distinct counters give distinct file names, whatever the extensions. */
  lemma FileNamesDistinct(env: Env, parts: seq<NamePartConfiguration>, a: int, b: int, extA: string, extB: string)
    requires HasCounterPart(parts) && WideEnough(parts, a) && WideEnough(parts, b) && a != b
    ensures FileNameFor(env, parts, a, extA) != FileNameFor(env, parts, b, extB)
  {
    RenderedLength(env, parts, a, b);
    var ra, rb := Rendered(env, parts, a), Rendered(env, parts, b);
    if FileNameFor(env, parts, a, extA) == FileNameFor(env, parts, b, extB) {
      assert ra == FileNameFor(env, parts, a, extA)[..|ra|];
      assert rb == FileNameFor(env, parts, b, extB)[..|rb|];
      RenderedInjective(env, parts, a, b);
    }
  }

  /** The name the folder loop gives the file at index i of the folder's listing. */
  function NewNameAt(env: Env, parts: seq<NamePartConfiguration>, startValue: int, names: seq<string>, i: nat): (r: string)
    requires i < |names|
  {
    FileNameFor(env, parts, CounterOf(names, startValue, i), AfterLast(names[i], '.'))
  }

  /** Two files of one folder that are not barcode images never get the same new name, provided
      the zero patterns are wide enough for every counter the folder uses. */
  lemma RegularNamesDistinct(env: Env, parts: seq<NamePartConfiguration>, startValue: int, names: seq<string>, i: nat, j: nat)
    requires i < j < |names| && !IsBarcodeImage(names[i]) && !IsBarcodeImage(names[j])
    requires HasCounterPart(parts)
    requires forall c :: startValue <= c < startValue + RegularCount(names) ==> WideEnough(parts, c)
    ensures NewNameAt(env, parts, startValue, names, i) != NewNameAt(env, parts, startValue, names, j)
  {
    RegularCountersIncrease(names, startValue, i, j);
    RegularCounterInRange(names, startValue, i);
    RegularCounterInRange(names, startValue, j);
    FileNamesDistinct(env, parts, CounterOf(names, startValue, i), CounterOf(names, startValue, j),
      AfterLast(names[i], '.'), AfterLast(names[j], '.'));
  }

  /** The new name of every file of a folder's listing, in listing order. */
  function NewNames(env: Env, parts: seq<NamePartConfiguration>, startValue: int, names: seq<string>): (r: seq<string>)
    ensures |r| == |names|
    ensures forall i :: 0 <= i < |names| ==> r[i] == NewNameAt(env, parts, startValue, names, i)
  {
    seq(|names|, i requires 0 <= i < |names| => NewNameAt(env, parts, startValue, names, i))
  }

  /** The files after a sequence of moves, and whether one of them failed (which ends the loop). */
  datatype Outcome = Outcome(files: set<Path>, failed: bool)

  /** One folder's loop over the first k files of its listing: each file whose new name differs is
      moved to that name in the same folder; a move onto an existing path, or of a file no longer
      there, fails with an IOException and ends the loop. */
  function FolderOutcome(replace: bool, resolve: Planner.Resolver, dirs: set<Path>, files: set<Path>, folder: Path,
                         names: seq<Segment>, newNames: seq<string>, k: nat): (r: Outcome)
    requires k <= |names| == |newNames|
  {
    if k == 0 then Outcome(files, false)
    else
      var prev := FolderOutcome(replace, resolve, dirs, files, folder, names, newNames, k - 1);
      if prev.failed || names[k - 1] == newNames[k - 1] then prev
      else
        var from := Planner.Child(folder, names[k - 1]);
        var to := resolve(folder, newNames[k - 1]);
        if CanMove(replace, prev.files, dirs, from, to) then Outcome(prev.files - {from} + {to}, false)
        else Outcome(prev.files, true)
  }

  /** A failed loop stays failed. */
  lemma {:induction false} FailurePersists(replace: bool, resolve: Planner.Resolver, dirs: set<Path>, files: set<Path>, folder: Path,
                                           names: seq<Segment>, newNames: seq<string>, k: nat, n: nat)
    requires k <= n <= |names| == |newNames|
    requires FolderOutcome(replace, resolve, dirs, files, folder, names, newNames, k).failed
    ensures FolderOutcome(replace, resolve, dirs, files, folder, names, newNames, n)
         == FolderOutcome(replace, resolve, dirs, files, folder, names, newNames, k)
    decreases n - k
  {
    if k < n {
      FailurePersists(replace, resolve, dirs, files, folder, names, newNames, k, n - 1);
    }
  }

  lemma ChildInjective(folder: Path, a: Segment, b: Segment)
    requires Planner.Child(folder, a) == Planner.Child(folder, b)
    ensures a == b
  {
    assert FileName(Planner.Child(folder, a)) == a;
  }

  /** A file of the listing the loop has not reached yet is still there: only the sources of
      earlier moves leave, and a listing names each file once. */
  lemma {:induction false} PendingStaysPresent(replace: bool, resolve: Planner.Resolver, dirs: set<Path>, files: set<Path>, folder: Path,
                                               names: seq<Segment>, newNames: seq<string>, k: nat, j: nat)
    requires k <= j < |names| == |newNames|
    requires forall a, b :: 0 <= a < b < |names| ==> names[a] != names[b]
    requires Planner.Child(folder, names[j]) in files
    ensures Planner.Child(folder, names[j]) in FolderOutcome(replace, resolve, dirs, files, folder, names, newNames, k).files
    decreases k
  {
    if k > 0 {
      PendingStaysPresent(replace, resolve, dirs, files, folder, names, newNames, k - 1, j);
      if Planner.Child(folder, names[k - 1]) == Planner.Child(folder, names[j]) {
        ChildInjective(folder, names[k - 1], names[j]);
      }
    }
  }

  /** When a file's new name is the name of a file later in the listing, the loop moves it onto a
      file it has yet to rename. A storage that refuses existing targets fails that move, which ends
      the folder; a storage that replaces them overwrites the pending file, and the folder has one
      file fewer after that move. The later generation of the plugin orders its moves to avoid
      exactly this. */
  lemma MoveOntoPendingFile(replace: bool, resolve: Planner.Resolver, dirs: set<Path>, files: set<Path>, folder: Path,
                            names: seq<Segment>, newNames: seq<string>, i: nat, j: nat)
    requires Planner.ResolvesPlain(resolve)
    requires i < j < |names| == |newNames|
    requires forall a, b :: 0 <= a < b < |names| ==> names[a] != names[b]
    requires Planner.Child(folder, names[i]) in files && Planner.Child(folder, names[j]) in files
    requires newNames[i] == names[j]
    ensures !replace ==> FolderOutcome(replace, resolve, dirs, files, folder, names, newNames, |names|).failed
    ensures replace && !FolderOutcome(replace, resolve, dirs, files, folder, names, newNames, i + 1).failed ==>
      |FolderOutcome(replace, resolve, dirs, files, folder, names, newNames, i + 1).files|
        == |FolderOutcome(replace, resolve, dirs, files, folder, names, newNames, i).files| - 1
  {
    PendingStaysPresent(replace, resolve, dirs, files, folder, names, newNames, i, j);
    assert resolve(folder, names[j]) == Planner.Child(folder, names[j]);
    if !replace {
      FailurePersists(replace, resolve, dirs, files, folder, names, newNames, i + 1, |names|);
    } else if !FolderOutcome(replace, resolve, dirs, files, folder, names, newNames, i + 1).failed {
      var before := FolderOutcome(replace, resolve, dirs, files, folder, names, newNames, i);
      var from := Planner.Child(folder, names[i]);
      var to := Planner.Child(folder, names[j]);
      PendingStaysPresent(replace, resolve, dirs, files, folder, names, newNames, i, i);
      assert from != to by {
        if from == to {
          ChildInjective(folder, names[i], names[j]);
        }
      }
      MoveCount(replace, before.files, dirs, from, to);
    }
  }

  /** The listed files among the first k whose names change, which the loop moves. */
  ghost function MovedFrom(folder: Path, names: seq<Segment>, newNames: seq<Segment>, k: nat): (r: set<Path>)
    requires k <= |names| == |newNames|
  {
    if k == 0 then {}
    else MovedFrom(folder, names, newNames, k - 1)
         + (if names[k - 1] != newNames[k - 1] then {Planner.Child(folder, names[k - 1])} else {})
  }

  /** Where the loop moves them. */
  ghost function MovedTo(folder: Path, names: seq<Segment>, newNames: seq<Segment>, k: nat): (r: set<Path>)
    requires k <= |names| == |newNames|
  {
    if k == 0 then {}
    else MovedTo(folder, names, newNames, k - 1)
         + (if names[k - 1] != newNames[k - 1] then {Planner.Child(folder, newNames[k - 1])} else {})
  }

  /** The files of the folder once the first k listed files have been moved to their new names. */
  ghost function MovedFiles(files: set<Path>, folder: Path, names: seq<Segment>, newNames: seq<Segment>, k: nat): (r: set<Path>)
    requires k <= |names| == |newNames|
  {
    files - MovedFrom(folder, names, newNames, k) + MovedTo(folder, names, newNames, k)
  }

  lemma {:induction false} NotMovedFrom(folder: Path, names: seq<Segment>, newNames: seq<Segment>, i: nat, x: Segment)
    requires i <= |names| == |newNames|
    requires forall a :: 0 <= a < i ==> names[a] != x
    ensures Planner.Child(folder, x) !in MovedFrom(folder, names, newNames, i)
    decreases i
  {
    if i > 0 {
      NotMovedFrom(folder, names, newNames, i - 1, x);
      if Planner.Child(folder, names[i - 1]) == Planner.Child(folder, x) {
        ChildInjective(folder, names[i - 1], x);
      }
    }
  }

  lemma {:induction false} NotMovedTo(folder: Path, names: seq<Segment>, newNames: seq<Segment>, i: nat, x: Segment)
    requires i <= |names| == |newNames|
    requires forall a :: 0 <= a < i ==> newNames[a] != x
    ensures Planner.Child(folder, x) !in MovedTo(folder, names, newNames, i)
    decreases i
  {
    if i > 0 {
      NotMovedTo(folder, names, newNames, i - 1, x);
      if Planner.Child(folder, newNames[i - 1]) == Planner.Child(folder, x) {
        ChildInjective(folder, newNames[i - 1], x);
      }
    }
  }

  lemma MoveStep(files: set<Path>, movedFrom: set<Path>, movedTo: set<Path>, from: Path, to: Path)
    requires from !in movedTo
    ensures (files - movedFrom + movedTo) - {from} + {to} == files - (movedFrom + {from}) + (movedTo + {to})
  {
  }

  /** The new names are placed as plain names, are distinct, name no other listed file, and no
      existing file or directory of the folder unless unchanged; every listed file exists. */
  ghost predicate NoConflict(resolve: Planner.Resolver, dirs: set<Path>, files: set<Path>, folder: Path,
                             names: seq<Segment>, newNames: seq<Segment>)
    requires |names| == |newNames|
  {
    Planner.ResolvesPlain(resolve) &&
    (forall a, b :: 0 <= a < b < |names| ==> names[a] != names[b] && newNames[a] != newNames[b]) &&
    (forall a, b :: 0 <= a < |names| && 0 <= b < |names| && a != b ==> newNames[a] != names[b]) &&
    (forall a :: 0 <= a < |names| ==> Planner.Child(folder, names[a]) in files) &&
    (forall a :: 0 <= a < |names| && names[a] != newNames[a] ==>
      Planner.Child(folder, newNames[a]) !in files && Planner.Child(folder, newNames[a]) !in dirs)
  }

  /** When there is no conflict, the loop completes: every listed file whose name changes is moved
      to its new name and nothing else changes. */
  lemma {:induction false} RenamesAllWithoutConflict(replace: bool, resolve: Planner.Resolver, dirs: set<Path>, files: set<Path>, folder: Path,
                                                     names: seq<Segment>, newNames: seq<Segment>, k: nat)
    requires k <= |names| == |newNames|
    requires NoConflict(resolve, dirs, files, folder, names, newNames)
    ensures FolderOutcome(replace, resolve, dirs, files, folder, names, newNames, k)
         == Outcome(MovedFiles(files, folder, names, newNames, k), false)
    decreases k
  {
    if k > 0 {
      RenamesAllWithoutConflict(replace, resolve, dirs, files, folder, names, newNames, k - 1);
      if names[k - 1] != newNames[k - 1] {
        RenameMoveStep(replace, resolve, dirs, files, folder, names, newNames, k);
      } else {
        RenameKeepStep(replace, resolve, dirs, files, folder, names, newNames, k);
      }
    }
  }

  /** A file whose name does not change is left where it is. */
  lemma RenameKeepStep(replace: bool, resolve: Planner.Resolver, dirs: set<Path>, files: set<Path>, folder: Path,
                       names: seq<Segment>, newNames: seq<Segment>, k: nat)
    requires 0 < k <= |names| == |newNames| && names[k - 1] == newNames[k - 1]
    requires FolderOutcome(replace, resolve, dirs, files, folder, names, newNames, k - 1)
          == Outcome(MovedFiles(files, folder, names, newNames, k - 1), false)
    ensures FolderOutcome(replace, resolve, dirs, files, folder, names, newNames, k)
         == Outcome(MovedFiles(files, folder, names, newNames, k), false)
  {
    assert MovedFrom(folder, names, newNames, k) == MovedFrom(folder, names, newNames, k - 1);
    assert MovedTo(folder, names, newNames, k) == MovedTo(folder, names, newNames, k - 1);
  }

  /** Without conflict, the loop moves the i-th file to its new name when that differs. */
  lemma RenameMoveStep(replace: bool, resolve: Planner.Resolver, dirs: set<Path>, files: set<Path>, folder: Path,
                       names: seq<Segment>, newNames: seq<Segment>, k: nat)
    requires 0 < k <= |names| == |newNames| && names[k - 1] != newNames[k - 1]
    requires NoConflict(resolve, dirs, files, folder, names, newNames)
    requires FolderOutcome(replace, resolve, dirs, files, folder, names, newNames, k - 1)
          == Outcome(MovedFiles(files, folder, names, newNames, k - 1), false)
    ensures FolderOutcome(replace, resolve, dirs, files, folder, names, newNames, k)
         == Outcome(MovedFiles(files, folder, names, newNames, k), false)
  {
    var i := k - 1;
    var from, to := Planner.Child(folder, names[i]), Planner.Child(folder, newNames[i]);
    var movedFrom, movedTo := MovedFrom(folder, names, newNames, k - 1), MovedTo(folder, names, newNames, k - 1);
    assert resolve(folder, newNames[i]) == to;
    NotMovedFrom(folder, names, newNames, i, names[i]);
    NotMovedTo(folder, names, newNames, i, names[i]);
    NotMovedTo(folder, names, newNames, i, newNames[i]);
    OutcomeMoveStep(replace, resolve, dirs, files, folder, names, newNames, i, files - movedFrom + movedTo);
    MoveStep(files, movedFrom, movedTo, from, to);
  }

  /** One successful move of the loop. */
  lemma OutcomeMoveStep(replace: bool, resolve: Planner.Resolver, dirs: set<Path>, files: set<Path>, folder: Path,
                        names: seq<Segment>, newNames: seq<string>, i: nat, current: set<Path>)
    requires i < |names| == |newNames|
    requires FolderOutcome(replace, resolve, dirs, files, folder, names, newNames, i) == Outcome(current, false)
    requires names[i] != newNames[i]
    requires Planner.Child(folder, names[i]) in current
    requires resolve(folder, newNames[i]) !in current && resolve(folder, newNames[i]) !in dirs
    ensures FolderOutcome(replace, resolve, dirs, files, folder, names, newNames, i + 1)
         == Outcome(current - {Planner.Child(folder, names[i])} + {resolve(folder, newNames[i])}, false)
  {
  }

  /** The folder loop of `run` over the first n folders, given the listing each produced: every
      folder but the last one processed completed; None when the listings are not the ones the
      storage could have given. */
  ghost function RunOutcome(replace: bool, env: Env, parts: seq<NamePartConfiguration>, startValue: int, dirs: set<Path>,
                            files: set<Path>, folders: seq<Path>, listings: seq<seq<string>>): (r: Option<Outcome>)
    requires |listings| <= |folders|
    decreases |listings|
  {
    if listings == [] then Some(Outcome(files, false))
    else
      var n := |listings|;
      var prev := RunOutcome(replace, env, parts, startValue, dirs, files, folders, listings[..n - 1]);
      if prev.None? || prev.value.failed || !Fits(prev.value.files, folders[n - 1], listings[n - 1]) then None
      else
        ListedNames(prev.value.files, folders[n - 1], listings[n - 1]);
        var names := Segments(listings[n - 1]);
        Some(FolderOutcome(replace, Planner.PathsGet, dirs, prev.value.files, folders[n - 1], names,
                           NewNames(env, parts, startValue, names), |names|))
  }

  /** One more folder processed after a run that has so far completed. */
  lemma RunStep(replace: bool, env: Env, parts: seq<NamePartConfiguration>, startValue: int, dirs: set<Path>, files: set<Path>,
                folders: seq<Path>, listings: seq<seq<string>>, names: seq<string>, current: set<Path>, result: Outcome)
    requires |listings| < |folders|
    requires RunOutcome(replace, env, parts, startValue, dirs, files, folders, listings) == Some(Outcome(current, false))
    requires Fits(current, folders[|listings|], names)
    requires forall k :: 0 <= k < |names| ==> names[k] != "" && '/' !in names[k]
    requires FolderOutcome(replace, Planner.PathsGet, dirs, current, folders[|listings|], Segments(names),
                           NewNames(env, parts, startValue, names), |names|) == result
    ensures RunOutcome(replace, env, parts, startValue, dirs, files, folders, listings + [names]) == Some(result)
  {
    assert (listings + [names])[..|listings|] == listings;
  }

  /** The folders `run` renames: master, derivate, thumbnail, ALTO, PDF, text and XML folder, in
      that order, each when it exists; the derivate folder only when its name differs from the
      master folder's and the thumbnail folder only when its name differs from the derivate
      folder's. Reading the name of a path that has none is a NullPointerException. */
  function FolderList(existing: set<Path>, master: Path, derivate: Path, thumb: Path,
                      alto: Path, pdf: Path, txt: Path, xml: Path): (r: Result<seq<Path>>)
    ensures r.Err? <==>
      (derivate in existing && (!HasFileName(master) || !HasFileName(derivate))) ||
      (thumb in existing && (!HasFileName(thumb) || !HasFileName(derivate)))
    ensures r.Err? ==> r.error == NullPointer
    ensures r.Ok? ==> forall x :: x in r.value <==> (x in existing &&
      (x == master || x == alto || x == pdf || x == txt || x == xml ||
       (x == derivate && HasFileName(master) && HasFileName(derivate) && FileName(master) != FileName(derivate)) ||
       (x == thumb && HasFileName(thumb) && HasFileName(derivate) && FileName(thumb) != FileName(derivate))))
    ensures r.Ok? && master in existing ==> r.value[0] == master
  {
    if derivate in existing && (!HasFileName(master) || !HasFileName(derivate)) then Err(NullPointer)
    else if thumb in existing && (!HasFileName(thumb) || !HasFileName(derivate)) then Err(NullPointer)
    else
      Ok((if master in existing then [master] else [])
         + (if derivate in existing && FileName(master) != FileName(derivate) then [derivate] else [])
         + (if thumb in existing && FileName(thumb) != FileName(derivate) then [thumb] else [])
         + Existing(existing, [alto, pdf, txt, xml]))
  }

  /** The candidates that exist, in their order. */
  function Existing(existing: set<Path>, candidates: seq<Path>): (r: seq<Path>)
    ensures forall x :: x in r <==> x in existing && x in candidates
  {
    if candidates == [] then []
    else (if candidates[0] in existing then [candidates[0]] else []) + Existing(existing, candidates[1..])
  }

  class RenameFilesPlugin {
    const env: Env
    const storage: Storage
    const startValue: int
    var namePartList: seq<NamePartConfiguration>

    constructor (env: Env, storage: Storage, startValue: int, namePartList: seq<NamePartConfiguration>)
      ensures this.env == env && this.storage == storage && this.startValue == startValue
      ensures this.namePartList == namePartList
    {
      this.env := env;
      this.storage := storage;
      this.startValue := startValue;
      this.namePartList := namePartList;
    }

    /** The preparation at the start of `run`: every part set up in place, in list order; the
        first part that fails ends it with that exception, the parts before it prepared and the
        rest as they were. */
    method PrepareNameParts() returns (r: Result<()>, ghost failedAt: nat)
      modifies this
      ensures |namePartList| == |old(namePartList)|
      ensures r.Ok? <==> forall k :: 0 <= k < |namePartList| ==> Prepared(env, old(namePartList)[k]).Ok?
      ensures r.Ok? ==> forall k :: 0 <= k < |namePartList| ==> namePartList[k] == Prepared(env, old(namePartList)[k]).value
      ensures r.Err? ==> r.error == IllegalArgument && failedAt < |namePartList| && Prepared(env, old(namePartList)[failedAt]).Err?
      ensures r.Err? ==> forall k :: 0 <= k < failedAt ==>
        Prepared(env, old(namePartList)[k]).Ok? && namePartList[k] == Prepared(env, old(namePartList)[k]).value
      ensures r.Err? ==> forall k :: failedAt <= k < |namePartList| ==> namePartList[k] == old(namePartList)[k]
    {
      failedAt := 0;
      for i := 0 to |namePartList|
        invariant |namePartList| == |old(namePartList)|
        invariant forall k :: 0 <= k < i ==> Prepared(env, old(namePartList)[k]).Ok? && namePartList[k] == Prepared(env, old(namePartList)[k]).value
        invariant forall k :: i <= k < |namePartList| ==> namePartList[k] == old(namePartList)[k]
      {
        var prepared := Prepared(env, namePartList[i]);
        if prepared.Err? {
          return Err(prepared.error), i;
        }
        namePartList := namePartList[i := prepared.value];
      }
      r := Ok(());
    }

    /** `getFilename`: the parts appended in order, then '.' and the extension unless blank. */
    method GetFilename(counter: int, extension: string) returns (r: string)
      ensures r == FileNameFor(env, namePartList, counter, extension)
    {
      var sb := "";
      for i := 0 to |namePartList|
        invariant sb == Rendered(env, namePartList[..i], counter)
      {
        assert namePartList[..i + 1][..i] == namePartList[..i];
        sb := sb + RenderPart(env, namePartList[i], counter);
      }
      assert namePartList[..|namePartList|] == namePartList;
      if !IsBlank(extension) {
        sb := sb + "." + extension;
      }
      r := sb;
    }

    /** One folder of `run`: the counter starts at the start value; each listed file is named with
        counter 0 when it is a barcode image and with the next counter otherwise, and moved when
        the name differs. Returns whether a move failed. */
    method RenameFolder(folder: Path) returns (failed: bool, names: seq<string>)
      modifies storage
      ensures Fits(old(storage.files), folder, names)
      ensures storage.directories == old(storage.directories)
      ensures forall k :: 0 <= k < |names| ==> names[k] != "" && '/' !in names[k]
      ensures FolderOutcome(storage.replaceExisting, Planner.PathsGet, storage.directories, old(storage.files), folder, Segments(names),
                            NewNames(env, namePartList, startValue, names), |names|) == Outcome(storage.files, failed)
    {
      names := storage.ListFiles(folder);
      ListedNames(storage.files, folder, names);
      var filesInFolder := Segments(names);
      ghost var files0 := storage.files;
      ghost var newNames := NewNames(env, namePartList, startValue, filesInFolder);
      var counter := startValue;
      for i := 0 to |filesInFolder|
        invariant storage.directories == old(storage.directories)
        invariant counter == CounterBefore(filesInFolder, startValue, i)
        invariant FolderOutcome(storage.replaceExisting, Planner.PathsGet, storage.directories, files0, folder, filesInFolder, newNames, i)
               == Outcome(storage.files, false)
      {
        var oldFileName := filesInFolder[i];
        var extension := AfterLast(oldFileName, '.');
        var fileName: string;
        CounterStep(filesInFolder, startValue, i);
        if IsBarcodeImage(oldFileName) {
          fileName := GetFilename(0, extension);
        } else {
          fileName := GetFilename(counter, extension);
          counter := counter + 1;
        }
        assert fileName == newNames[i];
        if oldFileName != fileName {
          var moved := storage.Move(Planner.Child(folder, oldFileName), Planner.PathsGet(folder, fileName));
          if moved.Err? {
            FailurePersists(storage.replaceExisting, Planner.PathsGet, storage.directories, files0, folder, filesInFolder, newNames, i + 1, |filesInFolder|);
            return true, names;
          }
        }
      }
      failed := false;
    }

    /** `run` over the folders of FolderList: the parts are prepared once, then each folder is
        renamed in turn; the first failed move ends the run with ERROR, leaving the earlier moves
        done. */
    method Run(folders: seq<Path>) returns (r: Result<PluginReturnValue>, ghost listings: seq<seq<string>>)
      modifies this, storage
      ensures |namePartList| == |old(namePartList)|
      ensures r.Ok? <==> forall k :: 0 <= k < |namePartList| ==> Prepared(env, old(namePartList)[k]).Ok?
      ensures r.Ok? ==> forall k :: 0 <= k < |namePartList| ==> namePartList[k] == Prepared(env, old(namePartList)[k]).value
      ensures r.Err? ==> r.error == IllegalArgument && storage.files == old(storage.files) && listings == []
      ensures storage.directories == old(storage.directories)
      ensures |listings| <= |folders|
      ensures r == Ok(Finish) ==> |listings| == |folders|
      ensures r.Ok? ==>
        RunOutcome(storage.replaceExisting, env, namePartList, startValue, storage.directories, old(storage.files), folders, listings)
          == Some(Outcome(storage.files, r.value == Error))
    {
      listings := [];
      var ready, _ := PrepareNameParts();
      if ready.Err? {
        return Err(ready.error), listings;
      }
      ghost var prepared := namePartList;
      listings := [];
      for i := 0 to |folders|
        invariant namePartList == prepared
        invariant |listings| == i
        invariant storage.directories == old(storage.directories)
        invariant RunOutcome(storage.replaceExisting, env, namePartList, startValue, storage.directories, old(storage.files), folders, listings)
               == Some(Outcome(storage.files, false))
      {
        ghost var before := storage.files;
        var failed, names := RenameFolder(folders[i]);
        RunStep(storage.replaceExisting, env, namePartList, startValue, storage.directories, old(storage.files), folders, listings, names, before, Outcome(storage.files, failed));
        listings := listings + [names];
        if failed {
          return Ok(Error), listings;
        }
      }
      r := Ok(Finish);
    }
  }
}

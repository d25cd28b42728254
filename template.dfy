/** The name template of the module-base plugin: name parts gated by conditions, rewritten by
    replacements and concatenated by the RenamingFormatter. */
module Template {
  import opened Common
  import opened Text
  import opened Numerals
  import opened Paths
  import opened History

  /** A structural element of the METS document (a DocStruct), by identity. */
  type StructId = nat

  /** The variable a name part or condition may use to stand for the file's original name. */
  const OriginalFileNameVariable: string := "{originalfilename}"

  /** `value.replaceAll(regex, replacement)` on a part's output. */
  datatype Replacement = Replacement(regex: string, replacement: string)

  /** Holds when `value`, after variable substitution, fully matches the regular expression. */
  datatype Condition = Condition(value: string, matches: string)

  datatype Kind =
    | Static(text: string)
    | Counter(pattern: string, level: Option<string>)
    | Variable(raw: string, format: Option<string>)
    | MetadataValue(metadataName: string, level: Option<string>, format: Option<string>)

  datatype NamePart = NamePart(kind: Kind, replacements: seq<Replacement>, conditions: seq<Condition>)

  /** What name generation takes from collaborators outside this model: the process-variable
      replacer, Java regular expressions, DecimalFormat's pattern syntax and its formatting for
      patterns other than all zeros, String.format, and the METS document's structural elements and
      metadata. */
  datatype Env = Env(
    substitute: string -> string,
    fullyMatches: (string, string) -> bool,
    replaceAll: (string, string, string) -> string,
    acceptsPattern: string -> bool,
    formatNumber: (string, int) -> string,
    formatString: (string, string) -> Option<string>,
    docStructsOf: (Path, Option<string>) -> seq<StructId>,
    metadataOf: (StructId, string) -> seq<string>)

  /** What generating a name reads and advances: one counter per name part (only counter parts use
      theirs), the per-structural-element counters and the original-file-name history. */
  datatype State = State(counters: seq<int>, perStructure: map<StructId, int>, history: FolderHistory)

  /** Whether `new DecimalFormat(pattern)` accepts the pattern rather than throwing
      IllegalArgumentException: every pattern of zeros does, DecimalFormat's syntax decides the rest. */
  predicate ValidPattern(env: Env, pattern: string)
  {
    IsZeroPattern(pattern) || env.acceptsPattern(pattern)
  }

  /** `parseNamePartConfiguration`: the part for a configured type; a missing type dereferences
      null, an unknown type is an IllegalArgumentException, and so is a counter whose text
      DecimalFormat refuses as a pattern. */
  function ParseNamePart(env: Env, partType: Option<string>, value: string, level: Option<string>, format: Option<string>,
                         replacements: seq<Replacement>, conditions: seq<Condition>): (r: Result<NamePart>)
    ensures partType.None? ==> r == Err(NullPointer)
    ensures r.Ok? <==>
      partType.Some? && partType.value in {"static", "counter", "variable", "metadata", "originalfilename"} &&
      (partType.value == "counter" ==> ValidPattern(env, value))
    ensures partType.Some? && r.Err? ==> r.error == IllegalArgument
    ensures r.Ok? ==> r.value.replacements == replacements && r.value.conditions == conditions
    ensures r.Ok? ==> (r.value.kind.Static? <==> partType.value == "static")
    ensures r.Ok? ==> (r.value.kind.Counter? <==> partType.value == "counter")
    ensures r.Ok? ==> (r.value.kind.MetadataValue? <==> partType.value == "metadata")
    ensures partType == Some("originalfilename") ==>
      r == Ok(NamePart(Variable(OriginalFileNameVariable, format), replacements, conditions))
  {
    if partType.None? then Err(NullPointer)
    else match partType.value
      case "static" => Ok(NamePart(Static(value), replacements, conditions))
      case "counter" =>
        if ValidPattern(env, value) then Ok(NamePart(Counter(value, level), replacements, conditions))
        else Err(IllegalArgument)
      case "variable" => Ok(NamePart(Variable(value, format), replacements, conditions))
      case "metadata" => Ok(NamePart(MetadataValue(value, level, format), replacements, conditions))
      case "originalfilename" => Ok(NamePart(Variable(OriginalFileNameVariable, format), replacements, conditions))
      case _ => Err(IllegalArgument)
  }

  /** `new DecimalFormat(pattern).format(n)`: evaluated here for patterns of zeros only. */
  function Format(env: Env, pattern: string, n: int): (r: string)
  {
    if IsZeroPattern(pattern) then ZeroPadded(n, |pattern|) else env.formatNumber(pattern, n)
  }

  /** Two histories that give every folder the same record, created-empty records aside. */
  ghost predicate SameRecords(a: FolderHistory, b: FolderHistory)
  {
    forall id :: FolderRecord(a, id) == FolderRecord(b, id)
  }

  /** `OverlayVariableReplacer.replace`: the original-file-name variable becomes the file's original
      name without its extension, anything else goes through the process-variable replacer
      unchanged, and the result goes through it as well. */
  function ReplaceValue(env: Env, h: FolderHistory, file: Path, raw: string): (r: Result<string>)
    ensures raw != OriginalFileNameVariable ==> r == Ok(env.substitute(raw))
    ensures raw == OriginalFileNameVariable ==> (r.Ok? <==> LookUp(h, file).Ok?)
  {
    if raw == OriginalFileNameVariable then
      var name :- LookUp(h, file);
      Ok(env.substitute(BeforeLast(name, '.')))
    else Ok(env.substitute(raw))
  }

  /** The history after a replacement: looking up an original name creates the folder's record. */
  function ReplaceEffect(h: FolderHistory, file: Path, raw: string): (r: FolderHistory)
    ensures SameRecords(r, h)
  {
    if raw == OriginalFileNameVariable && FileFolderIdentifier(file).Ok? then
      Touch(h, FileFolderIdentifier(file).value)
    else h
  }

  /** A file without a recorded original contributes its own name, without extension, to the
      original-file-name variable. */
  lemma OriginalFileNameOfUnrenamedFile(env: Env, h: FolderHistory, file: Path)
    requires FileFolderIdentifier(file).Ok?
    requires FileName(file) !in FolderRecord(h, FileFolderIdentifier(file).value)
    ensures ReplaceValue(env, h, file, OriginalFileNameVariable) == Ok(env.substitute(BeforeLast(FileName(file), '.')))
  {
  }

  /** The original-file-name variable yields the recorded original of a renamed file, without
      extension. */
  lemma OriginalFileNameOfRenamedFile(env: Env, h: FolderHistory, file: Path)
    requires FileFolderIdentifier(file).Ok?
    requires FileName(file) in FolderRecord(h, FileFolderIdentifier(file).value)
    ensures ReplaceValue(env, h, file, OriginalFileNameVariable)
         == Ok(env.substitute(BeforeLast(FolderRecord(h, FileFolderIdentifier(file).value)[FileName(file)], '.')))
  {
  }

  lemma SameRecordsReplace(env: Env, a: FolderHistory, b: FolderHistory, file: Path, raw: string)
    requires SameRecords(a, b)
    ensures ReplaceValue(env, a, file, raw) == ReplaceValue(env, b, file, raw)
  {
    var id := FileFolderIdentifier(file);
    if id.Ok? {
      assert FolderRecord(a, id.value) == FolderRecord(b, id.value);
    }
  }

  /** `NamePartCondition.matches`. */
  ghost predicate Holds(env: Env, h: FolderHistory, file: Path, c: Condition)
  {
    var v := ReplaceValue(env, h, file, c.value);
    v.Ok? && env.fullyMatches(v.value, c.matches)
  }

  /** `allConditionsMatch`: the conditions evaluated in order until the first that fails. */
  function AllConditionsMatch(env: Env, h: FolderHistory, file: Path, conds: seq<Condition>): (r: Result<(bool, FolderHistory)>)
    ensures r.Ok? ==> SameRecords(r.value.1, h)
    ensures r.Ok? ==> (r.value.0 <==> forall i :: 0 <= i < |conds| ==> Holds(env, h, file, conds[i]))
    decreases |conds|
  {
    if conds == [] then Ok((true, h))
    else
      var v :- ReplaceValue(env, h, file, conds[0].value);
      var h1 := ReplaceEffect(h, file, conds[0].value);
      if !env.fullyMatches(v, conds[0].matches) then Ok((false, h1))
      else
        var rest := AllConditionsMatch(env, h1, file, conds[1..]);
        AllConditionsRest(env, h, h1, file, conds);
        rest
  }

  lemma AllConditionsRest(env: Env, h: FolderHistory, h1: FolderHistory, file: Path, conds: seq<Condition>)
    requires conds != [] && SameRecords(h1, h) && Holds(env, h, file, conds[0])
    ensures (forall i :: 0 <= i < |conds| ==> Holds(env, h, file, conds[i]))
        <==> (forall i :: 0 <= i < |conds| - 1 ==> Holds(env, h1, file, conds[1..][i]))
  {
    forall c | c in conds
      ensures Holds(env, h, file, c) == Holds(env, h1, file, c)
    {
      SameRecordsReplace(env, h, h1, file, c.value);
    }
    if forall i :: 0 <= i < |conds| - 1 ==> Holds(env, h1, file, conds[1..][i]) {
      forall i | 0 <= i < |conds|
        ensures Holds(env, h, file, conds[i])
      {
        if i > 0 {
          assert conds[i] == conds[1..][i - 1];
          assert conds[i] in conds;
        }
      }
    }
    if forall i :: 0 <= i < |conds| ==> Holds(env, h, file, conds[i]) {
      forall i | 0 <= i < |conds| - 1
        ensures Holds(env, h1, file, conds[1..][i])
      {
        assert conds[1..][i] == conds[i + 1];
        assert conds[i + 1] in conds;
      }
    }
  }

  /** The replacements applied in order, each to the previous one's result. */
  function ApplyReplacements(env: Env, s: string, reps: seq<Replacement>): (r: string)
  {
    if reps == [] then s
    else
      var last := reps[|reps| - 1];
      env.replaceAll(ApplyReplacements(env, s, reps[..|reps| - 1]), last.regex, last.replacement)
  }

  /** The first value, over the structural elements in order, of the metadata with that name. */
  function FirstMetadata(env: Env, structs: seq<StructId>, name: string): (r: Option<string>)
    ensures r.None? <==> forall k :: 0 <= k < |structs| ==> env.metadataOf(structs[k], name) == []
  {
    if structs == [] then None
    else
      var values := env.metadataOf(structs[0], name);
      if values != [] then Some(values[0])
      else
        var rest := FirstMetadata(env, structs[1..], name);
        assert forall k :: 0 < k < |structs| ==> structs[k] == structs[1..][k - 1];
        rest
  }

  /** `formatString` where a format is configured: String.format of the text, or failing that of
      its integer value; a PluginException when neither accepts the format. Without a format the
      text is kept. */
  function Formatted(env: Env, format: Option<string>, v: string): (r: Result<string>)
    ensures format.None? ==> r == Ok(v)
    ensures format.Some? ==> (r.Ok? <==> env.formatString(format.value, v).Some?)
    ensures format.Some? && r.Ok? ==> r.value == env.formatString(format.value, v).value
    ensures r.Err? ==> r.error == PluginException
  {
    if format.None? then Ok(v)
    else
      var formatted := env.formatString(format.value, v);
      if formatted.None? then Err(PluginException) else Ok(formatted.value)
  }

  /** `generate` of the part at position idx, before replacements. */
  function Generate(env: Env, startValue: int, st: State, idx: nat, kind: Kind, file: Path): (r: Result<(string, State)>)
    requires idx < |st.counters|
    ensures r.Ok? ==> |r.value.1.counters| == |st.counters|
    ensures r.Ok? ==> forall j :: 0 <= j < |st.counters| && j != idx ==> r.value.1.counters[j] == st.counters[j]
    ensures r.Ok? ==> SameRecords(r.value.1.history, st.history)
    ensures r.Err? ==> kind.Variable? || kind.MetadataValue?
  {
    match kind
    case Static(text) => Ok((text, st))
    case Counter(pattern, level) =>
      var structs := if level.Some? then env.docStructsOf(file, level) else [];
      if structs != [] then
        var ds := structs[0];
        var last := if ds in st.perStructure then st.perStructure[ds] else startValue - 1;
        Ok((Format(env, pattern, last + 1), st.(perStructure := st.perStructure[ds := last + 1])))
      else
        Ok((Format(env, pattern, st.counters[idx]), st.(counters := st.counters[idx := st.counters[idx] + 1])))
    case Variable(raw, format) =>
      var v :- ReplaceValue(env, st.history, file, raw);
      var formatted :- Formatted(env, format, v);
      Ok((formatted, st.(history := ReplaceEffect(st.history, file, raw))))
    case MetadataValue(name, level, format) =>
      var value := FirstMetadata(env, env.docStructsOf(file, level), name);
      if value.None? then Err(PluginException)
      else
        var formatted :- Formatted(env, format, value.value);
        Ok((formatted, st))
  }

  /** A static part yields its text and changes nothing. */
  lemma GenerateStatic(env: Env, startValue: int, st: State, idx: nat, text: string, file: Path)
    requires idx < |st.counters|
    ensures Generate(env, startValue, st, idx, Static(text), file) == Ok((text, st))
  {
  }

  /** A variable part yields the substituted value, through the format when one is set; it fails
      exactly when the substitution or the format fails, and records the substitution's effect on
      the history. */
  lemma GenerateVariable(env: Env, startValue: int, st: State, idx: nat, raw: string, format: Option<string>, file: Path)
    requires idx < |st.counters|
    ensures var r := Generate(env, startValue, st, idx, Variable(raw, format), file);
      var v := ReplaceValue(env, st.history, file, raw);
      (r.Ok? <==> v.Ok? && Formatted(env, format, v.value).Ok?) &&
      (r.Ok? ==> r.value == (Formatted(env, format, v.value).value, st.(history := ReplaceEffect(st.history, file, raw))))
  {
  }

  /** A metadata part yields the first value of that metadata on the file's structural elements of
      the level, through the format when one is set, and changes nothing; it fails with a
      PluginException exactly when no element carries the metadata or the format does not fit. */
  lemma GenerateMetadata(env: Env, startValue: int, st: State, idx: nat, name: string, level: Option<string>,
                         format: Option<string>, file: Path)
    requires idx < |st.counters|
    ensures var r := Generate(env, startValue, st, idx, MetadataValue(name, level, format), file);
      var value := FirstMetadata(env, env.docStructsOf(file, level), name);
      (r.Ok? <==> value.Some? && Formatted(env, format, value.value).Ok?) &&
      (r.Err? ==> r.error == PluginException) &&
      (r.Ok? ==> r.value == (Formatted(env, format, value.value).value, st))
  {
  }

  /** `generateNamePart`: "" when a condition fails, otherwise the generated text with the
      replacements applied in order. */
  function GeneratePart(env: Env, startValue: int, st: State, idx: nat, part: NamePart, file: Path): (r: Result<(string, State)>)
    requires idx < |st.counters|
    ensures r.Ok? ==> |r.value.1.counters| == |st.counters|
    ensures r.Ok? ==> forall j :: 0 <= j < |st.counters| && j != idx ==> r.value.1.counters[j] == st.counters[j]
    ensures r.Ok? ==> SameRecords(r.value.1.history, st.history)
    ensures r.Ok? && !(forall i :: 0 <= i < |part.conditions| ==> Holds(env, st.history, file, part.conditions[i])) ==>
      r.value.0 == "" && r.value.1.counters == st.counters && r.value.1.perStructure == st.perStructure
  {
    var (matches, h1) :- AllConditionsMatch(env, st.history, file, part.conditions);
    var st1 := st.(history := h1);
    if !matches then Ok(("", st1))
    else
      var (raw, st2) :- Generate(env, startValue, st1, idx, part.kind, file);
      Ok((ApplyReplacements(env, raw, part.replacements), st2))
  }

  /** A part whose conditions all hold (`AllConditionsMatch` answers true exactly then)
      contributes the generated text with its replacements applied in order; the generator's
      errors are the part's errors. */
  lemma GeneratePartMatching(env: Env, startValue: int, st: State, idx: nat, part: NamePart, file: Path)
    requires idx < |st.counters|
    requires forall i :: 0 <= i < |part.conditions| ==> Holds(env, st.history, file, part.conditions[i])
    ensures var c := AllConditionsMatch(env, st.history, file, part.conditions);
      c.Ok? ==>
        var g := Generate(env, startValue, st.(history := c.value.1), idx, part.kind, file);
        GeneratePart(env, startValue, st, idx, part, file)
        == if g.Err? then Err(g.error) else Ok((ApplyReplacements(env, g.value.0, part.replacements), g.value.1))
  {
  }

  /** The name generated by the first k parts, concatenated in order. */
  function GenerateUpTo(env: Env, parts: seq<NamePart>, startValue: int, st: State, file: Path, k: nat): (r: Result<(string, State)>)
    requires k <= |parts| == |st.counters|
    ensures r.Ok? ==> |r.value.1.counters| == |parts|
    ensures r.Ok? ==> forall j :: k <= j < |parts| ==> r.value.1.counters[j] == st.counters[j]
    ensures r.Ok? ==> SameRecords(r.value.1.history, st.history)
  {
    if k == 0 then Ok(("", st))
    else
      var (prefix, st1) :- GenerateUpTo(env, parts, startValue, st, file, k - 1);
      var (text, st2) :- GeneratePart(env, startValue, st1, k - 1, parts[k - 1], file);
      Ok((prefix + text, st2))
  }

  /** One more part: its contribution is appended, or its failure is the name's failure. */
  lemma GenerateStep(env: Env, parts: seq<NamePart>, startValue: int, st: State, file: Path, k: nat,
                     prefix: string, st1: State)
    requires k < |parts| == |st.counters|
    requires GenerateUpTo(env, parts, startValue, st, file, k) == Ok((prefix, st1))
    ensures |st1.counters| == |parts|
    ensures var part := GeneratePart(env, startValue, st1, k, parts[k], file);
      GenerateUpTo(env, parts, startValue, st, file, k + 1)
      == if part.Err? then Err(part.error) else Ok((prefix + part.value.0, part.value.1))
    ensures var part := GeneratePart(env, startValue, st1, k, parts[k], file);
      part.Err? ==> GenerateName(env, parts, startValue, st, file) == Err(part.error)
  {
    if GeneratePart(env, startValue, st1, k, parts[k], file).Err? {
      GenerateErrorPersists(env, parts, startValue, st, file, k + 1);
    }
  }

  /** `generateNewName`: the concatenation of every part's contribution. */
  function GenerateName(env: Env, parts: seq<NamePart>, startValue: int, st: State, file: Path): (r: Result<(string, State)>)
    requires |parts| == |st.counters|
  {
    GenerateUpTo(env, parts, startValue, st, file, |parts|)
  }

  /** The counters after `reset`: every part's counter at the start value. */
  function ResetCounters(n: nat, startValue: int): (r: seq<int>)
    ensures |r| == n && forall j :: 0 <= j < n ==> r[j] == startValue
  {
    seq(n, _ => startValue)
  }

  /** A counter part without conditions, replacements or structural scope renders its counter and
      advances it by one. */
  lemma PlainCounterPart(env: Env, startValue: int, st: State, idx: nat, pattern: string, file: Path)
    requires idx < |st.counters|
    ensures GeneratePart(env, startValue, st, idx, NamePart(Counter(pattern, None), [], []), file)
         == Ok((Format(env, pattern, st.counters[idx]), st.(counters := st.counters[idx := st.counters[idx] + 1])))
  {
  }

  /** A scoped counter numbers the files of one structural element start value, start value + 1, ...
      : the first file of an element gets the start value, each later one the element's last
      value plus one. */
  lemma ScopedCounterPart(env: Env, startValue: int, st: State, idx: nat, pattern: string, level: string, file: Path)
    requires idx < |st.counters|
    requires env.docStructsOf(file, Some(level)) != []
    ensures var ds := env.docStructsOf(file, Some(level))[0];
      var next := if ds in st.perStructure then st.perStructure[ds] + 1 else startValue;
      GeneratePart(env, startValue, st, idx, NamePart(Counter(pattern, Some(level)), [], []), file)
      == Ok((Format(env, pattern, next), st.(perStructure := st.perStructure[ds := next])))
  {
  }

  /** A template made of one plain counter part names a file by its counter alone. */
  lemma CounterOnlyName(env: Env, startValue: int, st: State, pattern: string, file: Path)
    requires |st.counters| == 1
    ensures GenerateName(env, [NamePart(Counter(pattern, None), [], [])], startValue, st, file)
         == Ok((Format(env, pattern, st.counters[0]), st.(counters := [st.counters[0] + 1])))
  {
    var parts := [NamePart(Counter(pattern, None), [], [])];
    PlainCounterPart(env, startValue, st, 0, pattern, file);
    assert GenerateUpTo(env, parts, startValue, st, file, 0) == Ok(("", st));
    assert st.counters[0 := st.counters[0] + 1] == [st.counters[0] + 1];
    assert "" + Format(env, pattern, st.counters[0]) == Format(env, pattern, st.counters[0]);
    assert GenerateName(env, parts, startValue, st, file) == GenerateUpTo(env, parts, startValue, st, file, 1);
  }

  /** The name template and its counters (`RenamingFormatter`). */
  class RenamingFormatter {
    const env: Env
    const parts: seq<NamePart>
    const startValue: int
    var counters: seq<int>

    /** The formatter starts reset. */
    constructor (env: Env, parts: seq<NamePart>, startValue: int)
      ensures this.env == env && this.parts == parts && this.startValue == startValue
      ensures counters == ResetCounters(|parts|, startValue)
    {
      this.env := env;
      this.parts := parts;
      this.startValue := startValue;
      counters := ResetCounters(|parts|, startValue);
    }

    /** `reset`: every counter part starts again at the start value. */
    method Reset()
      modifies this
      ensures counters == ResetCounters(|parts|, startValue)
    {
      counters := ResetCounters(|parts|, startValue);
    }

    /** `generateNewName`: asks every part in order for its contribution, advancing the counters,
        the per-element counters and the history as the parts do. */
    method GenerateNewName(file: Path, perStructure: map<StructId, int>, history: OriginalFileNameHistory)
      returns (r: Result<string>, perStructureAfter: map<StructId, int>)
      requires |counters| == |parts|
      modifies this, history
      ensures |counters| == |parts|
      ensures var expected := GenerateName(env, parts, startValue, State(old(counters), perStructure, old(history.mapping)), file);
        (r.Ok? <==> expected.Ok?) &&
        (r.Ok? ==>
          r.value == expected.value.0 &&
          State(counters, perStructureAfter, history.mapping) == expected.value.1) &&
        (r.Err? ==> r.error == expected.error)
    {
      ghost var st0 := State(counters, perStructure, history.mapping);
      var name := "";
      perStructureAfter := perStructure;
      for i := 0 to |parts|
        invariant |counters| == |parts|
        invariant GenerateUpTo(env, parts, startValue, st0, file, i) == Ok((name, State(counters, perStructureAfter, history.mapping)))
      {
        GenerateStep(env, parts, startValue, st0, file, i, name, State(counters, perStructureAfter, history.mapping));
        var part := GeneratePart(env, startValue, State(counters, perStructureAfter, history.mapping), i, parts[i], file);
        if part.Err? {
          return Err(part.error), perStructureAfter;
        }
        name := name + part.value.0;
        counters := part.value.1.counters;
        perStructureAfter := part.value.1.perStructure;
        history.mapping := part.value.1.history;
      }
      r := Ok(name);
    }
  }

  /** Once a part fails, the whole name fails. */
  lemma {:induction false} GenerateErrorPersists(env: Env, parts: seq<NamePart>, startValue: int, st: State, file: Path, k: nat)
    requires k <= |parts| == |st.counters|
    requires GenerateUpTo(env, parts, startValue, st, file, k).Err?
    ensures GenerateName(env, parts, startValue, st, file) == GenerateUpTo(env, parts, startValue, st, file, k)
    decreases |parts| - k
  {
    if k < |parts| {
      GenerateErrorPersists(env, parts, startValue, st, file, k + 1);
    }
  }
}

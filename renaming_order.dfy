/** The module-base plugin's renaming of all planned files: a move order in which no file is moved
    onto a name still waiting to be moved away, the check that runs before any move, and the moves
    themselves with their history records. */
module RenamingOrder {
  import opened Common
  import opened Paths
  import opened History
  import opened Storage

  /** Planned renames: old path to new path. */
  type Renaming = map<Path, Path>

  predicate Distinct(s: seq<Path>)
  {
    forall i, j :: 0 <= i < j < |s| ==> s[i] != s[j]
  }

  /** Every planned source exactly once, and no source moved onto a source that is still pending
      (itself included). */
  ghost predicate ConflictFreeOrder(m: Renaming, order: seq<Path>)
  {
    Distinct(order) && Arrangement(m, order) && forall i :: 0 <= i < |order| ==> Emittable(m, order, i)
  }

  /** The sequence lists exactly the planned sources. */
  ghost predicate Arrangement(m: Renaming, order: seq<Path>)
  {
    forall k :: k in order <==> k in m
  }

  /** The i-th source is planned and its target is none of the sources from position i on. */
  predicate Emittable(m: Renaming, order: seq<Path>, i: int)
    requires 0 <= i < |order|
  {
    order[i] in m && m[order[i]] !in order[i..]
  }

  /** The first position of s that holds an element of r. */
  function FirstIn(s: seq<Path>, r: set<Path>): (i: nat)
    requires exists k :: 0 <= k < |s| && s[k] in r
    ensures i < |s| && s[i] in r
    ensures forall j :: 0 <= j < i ==> s[j] !in r
  {
    if s[0] in r then 0
    else
      assert exists k :: 0 <= k < |s[1..]| && s[1..][k] in r by {
        var k :| 0 <= k < |s| && s[k] in r;
        assert s[1..][k - 1] == s[k];
      }
      FirstIn(s[1..], r) + 1
  }

  /** When every pending source is blocked by another pending source, every arrangement of the
      sources moves some file onto a source still pending: no conflict-free order exists. */
  lemma BlockedHasNoOrder(m: Renaming, pending: set<Path>, order: seq<Path>)
    requires pending != {} && pending <= m.Keys
    requires forall k :: k in pending ==> m[k] in pending
    requires Arrangement(m, order)
    ensures exists i :: 0 <= i < |order| && !Emittable(m, order, i)
  {
    var x :| x in pending;
    assert x in order;
    var i := FirstIn(order, pending);
    var target := m[order[i]];
    assert target in order;
    var j :| 0 <= j < |order| && order[j] == target;
    assert j >= i;
    assert order[i..][j - i] == target;
    assert !Emittable(m, order, i);
  }

  /** Two files that are to swap names cannot be renamed one after the other. */
  lemma SwapHasNoOrder(a: Path, b: Path, order: seq<Path>)
    requires a != b
    ensures !ConflictFreeOrder(map[a := b, b := a], order)
  {
    var m := map[a := b, b := a];
    if Arrangement(m, order) {
      BlockedHasNoOrder(m, {a, b}, order);
    }
  }

  /** `findConflictFreeRenamingSource`: some pending source whose target is no pending source, if
      there is one (which one depends on the hash map's iteration order). */
  ghost function FindConflictFreeRenamingSource(m: Renaming, pending: set<Path>): (r: Option<Path>)
    ensures r.Some? ==> r.value in pending && r.value in m && m[r.value] !in pending
    ensures r.None? <==> forall k :: k in pending && k in m ==> m[k] in pending
  {
    if exists k :: k in pending && k in m && m[k] !in pending then
      var k :| k in pending && k in m && m[k] !in pending;
      Some(k)
    else None
  }

  /** One pass of the loop of `findConflictFreeRenamingOrder` as written: the source found is
      appended and removed from the pending ones; when none is found, nothing changes. */
  ghost function JavaOrderPass(m: Renaming, pending: set<Path>, order: seq<Path>): (set<Path>, seq<Path>)
  {
    var found := FindConflictFreeRenamingSource(m, pending);
    if found.Some? then (pending - {found.value}, order + [found.value]) else (pending, order)
  }

  /** As written, the loop never ends on two files that swap names: its first pass finds no free
      source, leaves everything as it was, and the loop condition still holds. */
  lemma JavaOrderLoopSpinsOnSwap(a: Path, b: Path)
    requires a != b
    ensures var m := map[a := b, b := a];
      m.Keys != {} && JavaOrderPass(m, m.Keys, []) == (m.Keys, [])
  {
    var m := map[a := b, b := a];
    assert m.Keys == {a, b};
    assert a in m.Keys;
    assert FindConflictFreeRenamingSource(m, m.Keys) == None;
  }

  /** What the sources emitted so far and the pending ones satisfy while the order is built: the
      emitted ones are distinct, together with the pending ones they are all the sources, and no
      emitted source's target is a source emitted at or after it, or still pending. */
  ghost predicate OrderedSoFar(m: Renaming, order: seq<Path>, pending: set<Path>)
  {
    pending <= m.Keys && Distinct(order) &&
    (forall k :: k in order <==> k in m && k !in pending) &&
    forall i :: 0 <= i < |order| ==> Emittable(m, order, i) && m[order[i]] !in pending
  }

  lemma Emit(m: Renaming, order: seq<Path>, pending: set<Path>, k: Path)
    requires OrderedSoFar(m, order, pending)
    requires k in pending && m[k] !in pending
    ensures OrderedSoFar(m, order + [k], pending - {k})
  {
    var order' := order + [k];
    forall i | 0 <= i < |order'|
      ensures Emittable(m, order', i) && m[order'[i]] !in pending - {k}
    {
      assert order'[i..] == if i < |order| then order[i..] + [k] else [k];
    }
  }

  /** When no pending source is free, there is no conflict-free order at all. */
  lemma NoConflictFreeOrder(m: Renaming, order: seq<Path>, pending: set<Path>)
    requires OrderedSoFar(m, order, pending) && pending != {}
    requires forall k :: k in pending ==> m[k] in pending
    ensures forall o :: !ConflictFreeOrder(m, o)
  {
    forall o | Arrangement(m, o)
      ensures exists i :: 0 <= i < |o| && !Emittable(m, o, i)
    {
      BlockedHasNoOrder(m, pending, o);
    }
  }

  /** `findConflictFreeRenamingOrder`: repeatedly takes a pending source whose target is no
      pending source. Where the Java loop spins forever because every pending source is blocked,
      this one reports the cycle. */
  method FindConflictFreeRenamingOrder(m: Renaming) returns (r: Result<seq<Path>>)
    ensures r.Ok? ==> ConflictFreeOrder(m, r.value)
    ensures r.Err? ==> r.error == UnresolvableCycle && forall order :: !ConflictFreeOrder(m, order)
  {
    var pending := m.Keys;
    var order: seq<Path> := [];
    while pending != {}
      invariant OrderedSoFar(m, order, pending)
      decreases pending
    {
      if k :| k in pending && m[k] !in pending {
        Emit(m, order, pending, k);
        order := order + [k];
        pending := pending - {k};
      } else {
        NoConflictFreeOrder(m, order, pending);
        return Err(UnresolvableCycle);
      }
    }
    return Ok(order);
  }

  /** No two sources are renamed to the same target. */
  predicate Injective(m: Renaming)
  {
    forall a, b :: a in m && b in m && a != b ==> m[a] != m[b]
  }

  /** `canRenamingWithoutConflicts`: as many distinct sources, as many distinct targets and as many
      ordered sources as planned renames. */
  predicate CanRenameWithoutConflicts(m: Renaming, order: seq<Path>)
  {
    |m.Keys| == |m| && |m.Values| == |m| && |order| == |m|
  }

  /** Counting the distinct targets detects exactly the renamings that send two files to one name. */
  lemma {:induction false} DistinctTargetsIffInjective(m: Renaming)
    ensures |m.Values| <= |m.Keys|
    ensures |m.Values| == |m.Keys| <==> Injective(m)
    decreases |m|
  {
    if m != map[] {
      var k :| k in m;
      var rest := m - {k};
      DistinctTargetsIffInjective(rest);
      assert m.Keys == rest.Keys + {k};
      assert m.Values == rest.Values + {m[k]} by {
        forall v | v in m.Values
          ensures v in rest.Values + {m[k]}
        {
          var a :| a in m && m[a] == v;
          if a != k {
            assert rest[a] == v;
          }
        }
        forall v | v in rest.Values
          ensures v in m.Values
        {
          var a :| a in rest && rest[a] == v;
          assert m[a] == v;
        }
      }
      if m[k] in rest.Values {
        var a :| a in rest && rest[a] == m[k];
        assert a in m && a != k && m[a] == m[k];
      } else if Injective(rest) {
        assert Injective(m) by {
          forall a, b | a in m && b in m && a != b
            ensures m[a] != m[b]
          {
            if a != k && b != k {
              assert rest[a] == m[a] && rest[b] == m[b];
            } else if a == k {
              assert rest[b] == m[b] && m[b] in rest.Values;
            } else {
              assert rest[a] == m[a] && m[a] in rest.Values;
            }
          }
        }
      } else {
        var a, b :| a in rest && b in rest && a != b && rest[a] == rest[b];
        assert m[a] == m[b];
      }
    }
  }

  /** An order found by FindConflictFreeRenamingOrder passes the check exactly when no two files
      share a target. */
  lemma CheckedOrderIffInjective(m: Renaming, order: seq<Path>)
    requires ConflictFreeOrder(m, order)
    ensures CanRenameWithoutConflicts(m, order) <==> Injective(m)
  {
    DistinctTargetsIffInjective(m);
    DistinctLength(order, m.Keys);
  }

  lemma {:induction false} DistinctLength(s: seq<Path>, keys: set<Path>)
    requires Distinct(s) && forall k :: k in s <==> k in keys
    ensures |s| == |keys|
    decreases |s|
  {
    if s != [] {
      var rest := s[1..];
      assert forall k :: k in rest <==> k in keys - {s[0]} by {
        forall k | k in rest
          ensures k != s[0]
        {
          var j :| 0 <= j < |rest| && rest[j] == k;
          assert s[j + 1] == k;
        }
        assert forall k :: k in s && k != s[0] ==> k in rest;
      }
      DistinctLength(rest, keys - {s[0]});
    } else {
      assert keys == {};
    }
  }

  /** The history step recording the move of `from` to `to`. */
  function StepOf(from: Path, to: Path): (r: Step)
    requires FileFolderIdentifier(from).Ok? && HasFileName(to)
  {
    Step(FileFolderIdentifier(from).value, FileName(from), FileName(to))
  }

  /** Every rename stays within one history folder. */
  predicate WithinFolders(m: Renaming)
  {
    forall k :: k in m ==>
      FileFolderIdentifier(k).Ok? && FileFolderIdentifier(m[k]).Ok? &&
      FileFolderIdentifier(k).value == FileFolderIdentifier(m[k]).value
  }

  /** `performRenaming` as a value: for each source in order, the move and then its history record;
      the first failure ends the renaming. */
  function Perform(replace: bool, files: set<Path>, dirs: set<Path>, h: FolderHistory, m: Renaming, order: seq<Path>): (r: Result<(set<Path>, FolderHistory)>)
    requires forall k :: k in order ==> k in m
  {
    if order == [] then Ok((files, h))
    else
      var (files1, h1) :- Perform(replace, files, dirs, h, m, order[..|order| - 1]);
      var from := order[|order| - 1];
      var to := m[from];
      if !CanMove(replace, files1, dirs, from, to) then Err(IoException)
      else
        var h2 :- Renamed(h1, from, to);
        Ok((files1 - {from} + {to}, h2))
  }

  /** Where the history keeps a path's original name: its folder identifier and file name. */
  function HistoryKey(p: Path): (string, string)
    requires FileFolderIdentifier(p).Ok?
  {
    (FileFolderIdentifier(p).value, FileName(p))
  }

  /** Sources and targets the history can tell apart. */
  predicate DistinctHistoryKeys(m: Renaming)
    requires WithinFolders(m)
  {
    forall p, q :: p in m.Keys + m.Values && q in m.Keys + m.Values && p != q ==> HistoryKey(p) != HistoryKey(q)
  }

  function Sources(done: seq<Path>): (r: set<Path>)
  {
    set k | k in done
  }

  function Targets(m: Renaming, done: seq<Path>): (r: set<Path>)
    requires forall k :: k in done ==> k in m
  {
    set k | k in done :: m[k]
  }

  /** The history steps of the moves in order. */
  function StepsOf(m: Renaming, order: seq<Path>): (r: seq<Step>)
    requires forall k :: k in order ==> k in m
    requires WithinFolders(m)
    ensures |r| == |order|
  {
    if order == [] then []
    else
      var init := order[..|order| - 1];
      assert forall k :: k in init ==> k in order;
      StepsOf(m, init) + [StepOf(order[|order| - 1], m[order[|order| - 1]])]
  }

  lemma {:induction false} StepsOfAt(m: Renaming, order: seq<Path>, i: nat)
    requires forall k :: k in order ==> k in m
    requires WithinFolders(m)
    requires i < |order|
    ensures StepsOf(m, order)[i] == StepOf(order[i], m[order[i]])
    decreases |order|
  {
    var init := order[..|order| - 1];
    assert forall k :: k in init ==> k in order;
    var last := StepOf(order[|order| - 1], m[order[|order| - 1]]);
    assert StepsOf(m, order) == StepsOf(m, init) + [last];
    if i < |order| - 1 {
      StepsOfAt(m, init, i);
      assert init[i] == order[i];
    }
  }

  /** The conditions under which all moves can be made: a conflict-free order of an injective
      renaming of existing files to names no other file has, each rename within a history folder
      and told apart by the history. */
  ghost predicate Feasible(files: set<Path>, dirs: set<Path>, m: Renaming, order: seq<Path>)
  {
    ConflictFreeOrder(m, order) && Injective(m) && WithinFolders(m) && DistinctHistoryKeys(m) &&
    m.Keys <= files && (forall k :: k in m ==> m[k] !in files - m.Keys) &&
    forall k :: k in m ==> m[k] !in dirs
  }

  /** Before the n-th move its source is still there and its target is free. */
  lemma MoveIsFree(files: set<Path>, dirs: set<Path>, m: Renaming, order: seq<Path>, n: nat)
    requires Feasible(files, dirs, m, order) && n < |order|
    ensures var done := order[..n];
      order[n] in files - Sources(done) + Targets(m, done) &&
      m[order[n]] !in files - Sources(done) + Targets(m, done) &&
      m[order[n]] !in dirs
  {
    var done := order[..n];
    var from := order[n];
    var to := m[from];
    assert from !in done;
    assert Emittable(m, order, n);
    assert to !in Targets(m, done) by {
      forall k | k in done
        ensures m[k] != to
      {
        var j :| 0 <= j < |done| && done[j] == k;
        assert order[j] == k;
      }
    }
    assert forall j :: n <= j < |order| ==> order[j] == order[n..][j - n];
    if to in files {
      assert to in m;
      var j :| 0 <= j < |order| && order[j] == to;
      assert j < n;
      assert done[j] == to;
    }
  }

  /** The first n moves succeed, remove their sources, add their targets and replay their history
      steps. */
  lemma {:induction false} PerformPrefix(replace: bool, files: set<Path>, dirs: set<Path>, h: FolderHistory, m: Renaming, order: seq<Path>, n: nat)
    requires Feasible(files, dirs, m, order) && n <= |order|
    ensures forall k :: k in order[..n] ==> k in m
    ensures Perform(replace, files, dirs, h, m, order[..n])
         == Ok((files - Sources(order[..n]) + Targets(m, order[..n]), Replay(h, StepsOf(m, order[..n]))))
    decreases n
  {
    assert forall k :: k in order[..n] ==> k in order;
    if n > 0 {
      PerformPrefix(replace, files, dirs, h, m, order, n - 1);
      MoveIsFree(files, dirs, m, order, n - 1);
      NotYetTarget(m, order, n - 1);
      PrefixSnoc(order, n);
      PerformPrefixStep(replace, files, dirs, h, m, order[..n - 1], order[n - 1]);
    } else {
      assert order[..n] == [];
      assert Sources([]) == {} && Targets(m, []) == {};
      assert files - {} + {} == files;
      assert StepsOf(m, []) == [] && Replay(h, []) == h;
      assert Perform(replace, files, dirs, h, m, []) == Ok((files, h));
    }
  }

  /** One more move, given the moves before it, when its source is present and its target free. */
  lemma PerformPrefixStep(replace: bool, files: set<Path>, dirs: set<Path>, h: FolderHistory, m: Renaming, done: seq<Path>, from: Path)
    requires forall k :: k in done ==> k in m
    requires from in m && WithinFolders(m)
    requires Perform(replace, files, dirs, h, m, done)
         == Ok((files - Sources(done) + Targets(m, done), Replay(h, StepsOf(m, done))))
    requires from in files - Sources(done) + Targets(m, done)
    requires m[from] !in files - Sources(done) + Targets(m, done) && m[from] !in dirs
    requires from !in Targets(m, done)
    ensures forall k :: k in done + [from] ==> k in m
    ensures Perform(replace, files, dirs, h, m, done + [from])
         == Ok((files - Sources(done + [from]) + Targets(m, done + [from]), Replay(h, StepsOf(m, done + [from]))))
  {
    var files1 := files - Sources(done) + Targets(m, done);
    var h1 := Replay(h, StepsOf(m, done));
    PerformSnoc(replace, files, dirs, h, m, done, from, files1, h1);
    StepsSnoc(m, done, from);
    ReplaySnoc(h, StepsOf(m, done), StepOf(from, m[from]));
    MovedFiles(files, m, done, from);
  }

  lemma PrefixSnoc(s: seq<Path>, n: nat)
    requires 0 < n <= |s|
    ensures s[..n] == s[..n - 1] + [s[n - 1]]
  {
  }

  /** In a conflict-free order no earlier rename targets a later source. */
  lemma NotYetTarget(m: Renaming, order: seq<Path>, n: nat)
    requires ConflictFreeOrder(m, order) && n < |order|
    ensures forall k :: k in order[..n] ==> k in m
    ensures order[n] !in Targets(m, order[..n])
  {
    assert Arrangement(m, order);
    var done := order[..n];
    forall k | k in done
      ensures m[k] != order[n]
    {
      var j :| 0 <= j < |done| && done[j] == k;
      assert Emittable(m, order, j);
      assert order[j..][n - j] == order[n];
    }
  }

  lemma PerformSnoc(replace: bool, files: set<Path>, dirs: set<Path>, h: FolderHistory, m: Renaming, done: seq<Path>, from: Path,
                    files1: set<Path>, h1: FolderHistory)
    requires forall k :: k in done ==> k in m
    requires from in m && WithinFolders(m)
    requires Perform(replace, files, dirs, h, m, done) == Ok((files1, h1))
    requires from in files1 && m[from] !in files1 && m[from] !in dirs
    ensures forall k :: k in done + [from] ==> k in m
    ensures Perform(replace, files, dirs, h, m, done + [from]) == Ok((files1 - {from} + {m[from]}, ApplyStep(h1, StepOf(from, m[from]))))
  {
    var prefix := done + [from];
    assert prefix[..|prefix| - 1] == done && prefix[|prefix| - 1] == from;
  }

  lemma StepsSnoc(m: Renaming, done: seq<Path>, from: Path)
    requires forall k :: k in done ==> k in m
    requires from in m && WithinFolders(m)
    ensures forall k :: k in done + [from] ==> k in m
    ensures StepsOf(m, done + [from]) == StepsOf(m, done) + [StepOf(from, m[from])]
  {
    var prefix := done + [from];
    assert prefix[..|prefix| - 1] == done && prefix[|prefix| - 1] == from;
  }

  lemma ReplaySnoc(h: FolderHistory, steps: seq<Step>, step: Step)
    ensures Replay(h, steps + [step]) == ApplyStep(Replay(h, steps), step)
  {
    var all := steps + [step];
    assert all[..|all| - 1] == steps;
  }

  lemma MovedFiles(files: set<Path>, m: Renaming, done: seq<Path>, from: Path)
    requires forall k :: k in done ==> k in m
    requires from in m && from !in Targets(m, done)
    ensures forall k :: k in done + [from] ==> k in m
    ensures files - Sources(done) + Targets(m, done) - {from} + {m[from]}
         == files - Sources(done + [from]) + Targets(m, done + [from])
  {
    var prefix := done + [from];
    assert Sources(prefix) == Sources(done) + {from};
    assert Targets(m, prefix) == Targets(m, done) + {m[from]};
  }

  /** Two different renames of a renaming the history can tell apart have different sources and
      targets in the history, and the first one's target is not the second one's source. */
  lemma StepPairIndependent(m: Renaming, a: Path, b: Path)
    requires WithinFolders(m) && DistinctHistoryKeys(m)
    requires a in m && b in m && a != b && m[a] != b && m[a] != m[b]
    ensures var s, t := StepOf(a, m[a]), StepOf(b, m[b]);
      (s.folder, s.to) != (t.folder, t.from) &&
      (s.folder, s.from) != (t.folder, t.from) &&
      (s.folder, s.to) != (t.folder, t.to)
  {
    assert m[a] in m.Values && m[b] in m.Values;
    assert HistoryKey(m[a]) != HistoryKey(b);
    assert HistoryKey(a) != HistoryKey(b);
    assert HistoryKey(m[a]) != HistoryKey(m[b]);
  }

  /** The steps of a feasible order never rename into a name a later step renames away, and their
      sources and targets are pairwise distinct. */
  lemma FeasibleStepsIndependent(files: set<Path>, dirs: set<Path>, m: Renaming, order: seq<Path>)
    requires Feasible(files, dirs, m, order)
    ensures Independent(StepsOf(m, order))
  {
    var steps := StepsOf(m, order);
    forall i, j | 0 <= i < j < |steps|
      ensures (steps[i].folder, steps[i].to) != (steps[j].folder, steps[j].from)
      ensures (steps[i].folder, steps[i].from) != (steps[j].folder, steps[j].from)
      ensures (steps[i].folder, steps[i].to) != (steps[j].folder, steps[j].to)
    {
      var a, b := order[i], order[j];
      assert Emittable(m, order, i);
      assert order[i..][j - i] == b;
      StepsOfAt(m, order, i);
      StepsOfAt(m, order, j);
      StepPairIndependent(m, a, b);
    }
  }

  /** A conflict-free order lists exactly the planned sources, and their targets are all the
      planned targets. */
  lemma OrderCoversRenaming(m: Renaming, order: seq<Path>)
    requires ConflictFreeOrder(m, order)
    ensures forall k :: k in order ==> k in m
    ensures Sources(order) == m.Keys
    ensures Targets(m, order) == m.Values
  {
    assert Arrangement(m, order);
    forall v | v in m.Values
      ensures v in Targets(m, order)
    {
      var k :| k in m && m[k] == v;
      assert k in order;
    }
  }

  /** After the independent steps of a feasible order, the target of each planned rename has the
      original name its source had before. */
  lemma TargetCarriesOriginal(h: FolderHistory, m: Renaming, order: seq<Path>, k: Path)
    requires ConflictFreeOrder(m, order) && WithinFolders(m)
    requires forall x :: x in order ==> x in m
    requires Independent(StepsOf(m, order))
    requires k in m
    ensures LookUp(Replay(h, StepsOf(m, order)), m[k]) == LookUp(h, k)
  {
    assert Arrangement(m, order);
    var i :| 0 <= i < |order| && order[i] == k;
    var steps := StepsOf(m, order);
    StepsOfAt(m, order, i);
    CarriedForward(h, steps, i);
  }

  /** A feasible renaming completes: each source is replaced by its target, and every target's
      history carries its source's original name forward. */
  lemma PerformComplete(replace: bool, files: set<Path>, dirs: set<Path>, h: FolderHistory, m: Renaming, order: seq<Path>)
    requires Feasible(files, dirs, m, order)
    ensures forall k :: k in order ==> k in m
    ensures Perform(replace, files, dirs, h, m, order) == Ok((files - m.Keys + m.Values, Replay(h, StepsOf(m, order))))
    ensures forall k :: k in m ==> LookUp(Replay(h, StepsOf(m, order)), m[k]) == LookUp(h, k)
  {
    OrderCoversRenaming(m, order);
    PerformPrefix(replace, files, dirs, h, m, order, |order|);
    assert order[..|order|] == order;
    FeasibleStepsIndependent(files, dirs, m, order);
    forall k | k in m
      ensures LookUp(Replay(h, StepsOf(m, order)), m[k]) == LookUp(h, k)
    {
      TargetCarriesOriginal(h, m, order, k);
    }
  }
}

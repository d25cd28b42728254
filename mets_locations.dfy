/** The module-base MetsFileUpdater: every file reference of the METS document whose last two
    path pieces identify exactly one renamed file is pointed at that file's new name. */
module MetsLocations {
  import opened Common
  import opened Text
  import opened Paths

  /** `path.toString().split("/")`: an empty piece, then the path's names; nothing for "/". */
  function PathPieces(p: Path): (r: seq<string>)
    ensures HasFileName(p) ==> |r| >= 2 && r[|r| - 1] == FileName(p)
  {
    if HasFileName(p) then [""] + p.names else []
  }

  /** PathPieces is what splitting the path's string gives. */
  lemma PathPiecesSplit(p: Path)
    ensures JavaSplit(ToString(p), '/') == PathPieces(p)
  {
    if HasFileName(p) {
      ToStringPieces(p);
    } else {
      assert ToString(p) == "/";
      RootPieces();
    }
  }

  /** "/".split("/") has no pieces at all. */
  lemma RootPieces()
    ensures JavaSplit("/", '/') == []
  {
    SplitOfSeparator('/');
    DropAllEmpty();
  }

  lemma SplitOfSeparator(c: char)
    ensures Split([c], c) == ["", ""]
  {
    LastIndexOfUnique([c], c, 0);
    assert [c][..0] == [];
    assert Split([], c) == [""];
    assert [c][1..] == "";
  }

  lemma DropAllEmpty()
    ensures DropTrailingEmpty(["", ""]) == []
  {
    var pieces: seq<string> := ["", ""];
    assert pieces[..1] == [""];
    assert [""][..0] == [];
  }

  /** How many trailing pieces the match compares: at most two, and no more than either side has. */
  function Compared(a: seq<string>, b: seq<string>): (r: nat)
  {
    if |a| < 2 || |b| < 2 then (if |a| < |b| then |a| else |b|) else 2
  }

  /** The compared trailing pieces of both sides are equal. */
  predicate TailsAgree(a: seq<string>, b: seq<string>)
  {
    var n := Compared(a, b);
    (n >= 1 ==> a[|a| - 1] == b[|b| - 1]) && (n >= 2 ==> a[|a| - 2] == b[|b| - 2])
  }

  /** `renamingDoesMatchToOldLocation` on the split paths (PathPiecesSplit): walks both piece lists
      backwards, comparing at most two pieces. */
  method RenamingDoesMatch(fromPieces: seq<string>, oldPieces: seq<string>) returns (r: bool)
    ensures r == TailsAgree(fromPieces, oldPieces)
  {
    var fromIndex := |fromPieces| - 1;
    var oldIndex := |oldPieces| - 1;
    var comparisons := 0;
    while fromIndex >= 0 && oldIndex >= 0 && comparisons < 2
      invariant 0 <= comparisons <= Compared(fromPieces, oldPieces)
      invariant fromIndex == |fromPieces| - 1 - comparisons && oldIndex == |oldPieces| - 1 - comparisons
      invariant comparisons >= 1 ==> fromPieces[|fromPieces| - 1] == oldPieces[|oldPieces| - 1]
      invariant comparisons >= 2 ==> fromPieces[|fromPieces| - 2] == oldPieces[|oldPieces| - 2]
      decreases 2 - comparisons
    {
      if fromPieces[fromIndex] != oldPieces[oldIndex] {
        return false;
      }
      fromIndex := fromIndex - 1;
      oldIndex := oldIndex - 1;
      comparisons := comparisons + 1;
    }
    return true;
  }

  /** `applyRenamingToOldLocation` on the split old location: its last piece replaced by the
      target's file name; an empty piece list on either side is an
      ArrayIndexOutOfBoundsException. */
  function ApplyRenaming(to: Path, oldPieces: seq<string>): (r: Result<string>)
    ensures r.Err? <==> oldPieces == [] || !HasFileName(to)
  {
    var toPieces := PathPieces(to);
    if toPieces == [] || oldPieces == [] then Err(IndexOutOfBounds)
    else Ok(Join(oldPieces[..|oldPieces| - 1] + [toPieces[|toPieces| - 1]], '/'))
  }

  /** The renamed files whose paths agree with the split location. */
  function Matching(m: map<Path, Path>, oldPieces: seq<string>): (r: set<Path>)
  {
    set k | k in m && TailsAgree(PathPieces(k), oldPieces)
  }

  /** `lookUpNewLocation` on the split location: the new location from the one matching renaming;
      an ArrayIndexOutOfBoundsException while applying any match; an IllegalArgumentException
      when no renaming or more than one matches. */
  ghost function LookUpPieces(m: map<Path, Path>, oldPieces: seq<string>): (r: Result<string>)
  {
    var matching := Matching(m, oldPieces);
    if exists k :: k in matching && ApplyRenaming(m[k], oldPieces).Err? then Err(IndexOutOfBounds)
    else if |matching| != 1 then Err(IllegalArgument)
    else
      var k :| k in matching;
      ApplyRenaming(m[k], oldPieces)
  }

  /** `lookUpNewLocation`. */
  ghost function LookUpNewLocation(m: map<Path, Path>, oldLocation: string): (r: Result<string>)
  {
    LookUpPieces(m, JavaSplit(oldLocation, '/'))
  }

  /** The references after looking each one up in turn: a reference without a unique match
      (IllegalArgumentException) keeps its location, and any other failure ends the update. */
  ghost function UpdatedWith(lookUp: string -> Result<string>, locations: seq<string>): (r: Result<seq<string>>)
    ensures r.Ok? ==> |r.value| == |locations|
  {
    if locations == [] then Ok([])
    else
      var init :- UpdatedWith(lookUp, locations[..|locations| - 1]);
      var loc := locations[|locations| - 1];
      var found := lookUp(loc);
      if found == Err(IllegalArgument) then Ok(init + [loc])
      else if found.Err? then Err(found.error)
      else Ok(init + [found.value])
  }

  /** `lookUpNewLocation` for one renaming, as a function of the location. */
  ghost function LookUpIn(m: map<Path, Path>): (r: string -> Result<string>)
  {
    loc => LookUpNewLocation(m, loc)
  }

  /** `updateMetsFile` as a value: the METS references after the update. */
  ghost function UpdatedLocations(m: map<Path, Path>, locations: seq<string>): (r: Result<seq<string>>)
  {
    UpdatedWith(LookUpIn(m), locations)
  }

  /** A location joined from pieces free of '/', the last one non-empty, splits back into them. */
  lemma LocationPieces(pieces: seq<string>)
    requires |pieces| >= 1 && pieces[|pieces| - 1] != ""
    requires forall t :: t in pieces ==> '/' !in t
    ensures JavaSplit(Join(pieces, '/'), '/') == pieces
  {
    var loc := Join(pieces, '/');
    SplitJoin(pieces, '/');
    if loc == "" {
      SplitSingle(loc, '/');
    }
  }

  /** The path's last two names are dir and name. */
  predicate EndsIn(q: Path, dir: string, name: string)
  {
    |q.names| >= 2 && q.names[|q.names| - 2] == dir && q.names[|q.names| - 1] == name
  }

  /** A renamed file matches a location exactly when its last two names are the location's last
      two pieces. */
  lemma MatchesByLastTwoNames(q: Path, pieces: seq<string>)
    requires HasFileName(q)
    requires |pieces| >= 2 && pieces[|pieces| - 2] != ""
    ensures TailsAgree(PathPieces(q), pieces) <==> EndsIn(q, pieces[|pieces| - 2], pieces[|pieces| - 1])
  {
    var qp := PathPieces(q);
    assert qp[|qp| - 1] == q.names[|q.names| - 1];
    assert qp[|qp| - 2] == if |q.names| >= 2 then q.names[|q.names| - 2] else "";
  }

  /** A reference ".../dir/name" to the renamed file ".../dir/name", when no other renamed file
      also ends in "dir/name", now names the target's file in the same directory. */
  lemma RenamedReference(m: map<Path, Path>, k: Path, location: string)
    requires var pieces := JavaSplit(location, '/');
      |pieces| >= 2 && k in m && HasFileName(m[k]) && EndsIn(k, pieces[|pieces| - 2], pieces[|pieces| - 1])
    requires forall q :: q in m ==> HasFileName(q)
    requires var pieces := JavaSplit(location, '/');
      forall q :: q in m && q != k ==> !EndsIn(q, pieces[|pieces| - 2], pieces[|pieces| - 1])
    ensures var pieces := JavaSplit(location, '/');
      LookUpNewLocation(m, location) == Ok(Join(pieces[..|pieces| - 1] + [FileName(m[k])], '/'))
  {
    var pieces := JavaSplit(location, '/');
    UniqueMatch(m, k, pieces);
    LookUpUnique(m, pieces, k);
    ApplyToFile(m[k], pieces);
  }

  lemma ApplyToFile(to: Path, pieces: seq<string>)
    requires HasFileName(to) && pieces != []
    ensures ApplyRenaming(to, pieces) == Ok(Join(pieces[..|pieces| - 1] + [FileName(to)], '/'))
  {
  }

  lemma UniqueMatch(m: map<Path, Path>, k: Path, pieces: seq<string>)
    requires |pieces| >= 2 && pieces[|pieces| - 2] != ""
    requires k in m && EndsIn(k, pieces[|pieces| - 2], pieces[|pieces| - 1])
    requires forall q :: q in m ==> HasFileName(q)
    requires forall q :: q in m && q != k ==> !EndsIn(q, pieces[|pieces| - 2], pieces[|pieces| - 1])
    ensures Matching(m, pieces) == {k}
  {
    forall q | q in m
      ensures q in Matching(m, pieces) <==> q == k
    {
      MatchesByLastTwoNames(q, pieces);
    }
  }

  /** A reference no renamed file matches, or more than one does, keeps its location. */
  lemma UnmatchedReferenceKept(m: map<Path, Path>, locations: seq<string>, i: nat)
    requires i < |locations|
    requires |Matching(m, JavaSplit(locations[i], '/'))| != 1
    requires UpdatedLocations(m, locations).Ok?
    ensures UpdatedLocations(m, locations).value[i] == locations[i]
  {
    UpdatedAt(LookUpIn(m), locations, i);
  }

  /** Every entry of the update is the lookup of the old entry, or the old entry where the lookup
      found no unique match. */
  lemma {:induction false} UpdatedAt(lookUp: string -> Result<string>, locations: seq<string>, i: nat)
    requires i < |locations|
    requires UpdatedWith(lookUp, locations).Ok?
    ensures var found := lookUp(locations[i]);
      (found == Err(IllegalArgument) ==> UpdatedWith(lookUp, locations).value[i] == locations[i]) &&
      (found.Ok? ==> UpdatedWith(lookUp, locations).value[i] == found.value) &&
      (found.Ok? || found == Err(IllegalArgument))
    decreases |locations|
  {
    var init := locations[..|locations| - 1];
    if i < |locations| - 1 {
      UpdatedAt(lookUp, init, i);
      assert init[i] == locations[i];
    }
  }

  /** The METS document's file references, written back once after all are updated. */
  class MetsDocument {
    var locations: seq<string>

    constructor (locations: seq<string>)
      ensures this.locations == locations
    {
      this.locations := locations;
    }

    /** `lookUpNewLocation`: the one new location the matching renamings give. */
    static method LookUp(m: map<Path, Path>, oldLocation: string) returns (r: Result<string>)
      ensures r == LookUpNewLocation(m, oldLocation)
    {
      var oldPieces := JavaSplit(oldLocation, '/');
      var failed, found, first := CollectNewLocations(m, oldPieces);
      if failed {
        LookUpApplyFails(m, oldPieces, first);
        return Err(IndexOutOfBounds);
      }
      if |found| != 1 {
        LookUpUnmatched(m, oldPieces);
        return Err(IllegalArgument);
      }
      LookUpUnique(m, oldPieces, first);
      return Ok(found[0]);
    }

    /** The stream of `lookUpNewLocation`: the new location of every matching renaming, or a
        failure as soon as applying a match fails. */
    static method CollectNewLocations(m: map<Path, Path>, oldPieces: seq<string>)
      returns (failed: bool, found: seq<string>, ghost first: Path)
      ensures failed ==> first in Matching(m, oldPieces) && ApplyRenaming(m[first], oldPieces).Err?
      ensures !failed ==>
        (forall k :: k in Matching(m, oldPieces) ==> ApplyRenaming(m[k], oldPieces).Ok?) &&
        |found| == |Matching(m, oldPieces)| &&
        (|found| >= 1 ==> first in Matching(m, oldPieces) && found[0] == ApplyRenaming(m[first], oldPieces).value)
    {
      var pending := m.Keys;
      first := Path([]);
      found := [];
      assert Matching(m, oldPieces) - pending == {};
      while pending != {}
        invariant Collected(m, oldPieces, pending, found, first)
        decreases pending
      {
        var k :| k in pending;
        var matches := RenamingDoesMatch(PathPieces(k), oldPieces);
        if matches {
          var applied := ApplyRenaming(m[k], oldPieces);
          if applied.Err? {
            return true, found, k;
          }
          CollectStep(m, oldPieces, pending, found, first, k);
          if found == [] {
            first := k;
          }
          found := found + [applied.value];
        } else {
          CollectStep(m, oldPieces, pending, found, first, k);
        }
        pending := pending - {k};
      }
      CollectedAll(m, oldPieces, found, first);
      return false, found, first;
    }

    /** `updateMetsFile`: every reference looked up in turn; the document is written only when no
        lookup failed other than by a missing or ambiguous match. */
    method UpdateMetsFile(m: map<Path, Path>) returns (r: Result<()>)
      modifies this
      ensures r.Ok? ==> UpdatedLocations(m, old(locations)) == Ok(locations)
      ensures r.Err? ==> UpdatedLocations(m, old(locations)) == Err(r.error) && locations == old(locations)
    {
      var references := locations;
      var updated: seq<string> := [];
      for i := 0 to |references|
        invariant locations == references
        invariant UpdatedWith(LookUpIn(m), references[..i]) == Ok(updated)
      {
        var found := LookUp(m, references[i]);
        UpdatedStep(LookUpIn(m), references, i, updated);
        if found.Err? && found.error != IllegalArgument {
          UpdateErrorPersists(LookUpIn(m), references, i + 1);
          return Err(found.error);
        }
        updated := updated + [if found.Ok? then found.value else references[i]];
      }
      assert references[..|references|] == references;
      locations := updated;
      r := Ok(());
    }
  }

  lemma LookUpApplyFails(m: map<Path, Path>, oldPieces: seq<string>, k: Path)
    requires k in Matching(m, oldPieces) && ApplyRenaming(m[k], oldPieces).Err?
    ensures LookUpPieces(m, oldPieces) == Err(IndexOutOfBounds)
  {
  }

  lemma LookUpUnmatched(m: map<Path, Path>, oldPieces: seq<string>)
    requires forall k :: k in Matching(m, oldPieces) ==> ApplyRenaming(m[k], oldPieces).Ok?
    requires |Matching(m, oldPieces)| != 1
    ensures LookUpPieces(m, oldPieces) == Err(IllegalArgument)
  {
  }

  lemma LookUpUnique(m: map<Path, Path>, oldPieces: seq<string>, k: Path)
    requires forall k :: k in Matching(m, oldPieces) ==> ApplyRenaming(m[k], oldPieces).Ok?
    requires |Matching(m, oldPieces)| == 1 && k in Matching(m, oldPieces)
    ensures LookUpPieces(m, oldPieces) == ApplyRenaming(m[k], oldPieces)
  {
    OnlyElement(Matching(m, oldPieces), k);
  }

  /** What of a set is no longer pending once one more element is taken from the pending ones. */
  /** What the collection has gathered once only `pending` is left to look at: every match seen so
      far applies, one location was found per match, and the first location found is that of the
      match recorded as first. */
  ghost predicate Collected(m: map<Path, Path>, oldPieces: seq<string>, pending: set<Path>, found: seq<string>, first: Path)
  {
    var matched := Matching(m, oldPieces) - pending;
    pending <= m.Keys &&
    (forall k :: k in matched ==> ApplyRenaming(m[k], oldPieces).Ok?) &&
    |found| == |matched| &&
    (|found| >= 1 ==> first in matched && found[0] == ApplyRenaming(m[first], oldPieces).value)
  }

  /** Looking at one more pending file keeps what has been gathered. */
  lemma CollectStep(m: map<Path, Path>, oldPieces: seq<string>, pending: set<Path>, found: seq<string>, first: Path, k: Path)
    requires Collected(m, oldPieces, pending, found, first) && k in pending
    requires TailsAgree(PathPieces(k), oldPieces) ==> ApplyRenaming(m[k], oldPieces).Ok?
    ensures TailsAgree(PathPieces(k), oldPieces) ==>
      Collected(m, oldPieces, pending - {k}, found + [ApplyRenaming(m[k], oldPieces).value], if found == [] then k else first)
    ensures !TailsAgree(PathPieces(k), oldPieces) ==> Collected(m, oldPieces, pending - {k}, found, first)
  {
    MatchStep(m, oldPieces, pending, Matching(m, oldPieces) - pending, k);
  }

  /** With nothing pending, every match has been gathered. */
  lemma CollectedAll(m: map<Path, Path>, oldPieces: seq<string>, found: seq<string>, first: Path)
    requires Collected(m, oldPieces, {}, found, first)
    ensures forall k :: k in Matching(m, oldPieces) ==> ApplyRenaming(m[k], oldPieces).Ok?
    ensures |found| == |Matching(m, oldPieces)|
    ensures |found| >= 1 ==> first in Matching(m, oldPieces) && found[0] == ApplyRenaming(m[first], oldPieces).value
  {
    assert Matching(m, oldPieces) - {} == Matching(m, oldPieces);
  }

  /** One renamed file taken off the pending ones: a match joins the matches seen so far, which
      grow by one; anything else leaves them as they are. */
  lemma MatchStep(m: map<Path, Path>, oldPieces: seq<string>, pending: set<Path>, matched: set<Path>, k: Path)
    requires k in pending && pending <= m.Keys && matched == Matching(m, oldPieces) - pending
    ensures TailsAgree(PathPieces(k), oldPieces) ==>
      k in Matching(m, oldPieces) && matched + {k} == Matching(m, oldPieces) - (pending - {k}) &&
      |matched + {k}| == |matched| + 1
    ensures !TailsAgree(PathPieces(k), oldPieces) ==> matched == Matching(m, oldPieces) - (pending - {k})
  {
    var all := Matching(m, oldPieces);
    if TailsAgree(PathPieces(k), oldPieces) {
      assert k in all && k !in matched;
      assert all - (pending - {k}) == matched + {k};
    } else {
      assert k !in all;
      assert all - (pending - {k}) == matched;
    }
  }

  /** A set of one element holds nothing else. */
  lemma OnlyElement(s: set<Path>, x: Path)
    requires |s| == 1 && x in s
    ensures s == {x}
  {
    assert |s - {x}| == 0;
  }

  /** The update of one more reference. */
  lemma UpdatedStep(lookUp: string -> Result<string>, locations: seq<string>, i: nat, updated: seq<string>)
    requires i < |locations| && UpdatedWith(lookUp, locations[..i]) == Ok(updated)
    ensures var found := lookUp(locations[i]);
      UpdatedWith(lookUp, locations[..i + 1])
      == if found == Err(IllegalArgument) then Ok(updated + [locations[i]])
         else if found.Err? then Err(found.error)
         else Ok(updated + [found.value])
  {
    assert locations[..i + 1][..i] == locations[..i];
    assert locations[..i + 1][i] == locations[i];
  }

  /** Once a prefix of the references fails, the whole update fails the same way. */
  lemma {:induction false} UpdateErrorPersists(lookUp: string -> Result<string>, locations: seq<string>, n: nat)
    requires n <= |locations|
    requires UpdatedWith(lookUp, locations[..n]).Err?
    ensures UpdatedWith(lookUp, locations) == UpdatedWith(lookUp, locations[..n])
    decreases |locations| - n
  {
    if n < |locations| {
      assert locations[..n + 1][..n] == locations[..n];
      UpdateErrorPersists(lookUp, locations, n + 1);
    } else {
      assert locations[..n] == locations;
    }
  }
}

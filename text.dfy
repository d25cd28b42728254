/** The java.lang.String and commons-lang operations the plugins use, stated on seq<char>. */
module Text {

  /** `s.lastIndexOf(c)`: the position of the last c in s, or -1 when s has none. */
  function LastIndexOf(s: string, c: char): (r: int)
    ensures -1 <= r < |s|
    ensures r >= 0 ==> s[r] == c
    ensures forall j :: r < j < |s| ==> s[j] != c
  {
    if |s| == 0 then -1
    else if s[|s| - 1] == c then |s| - 1
    else LastIndexOf(s[..|s| - 1], c)
  }

  lemma LastIndexOfAbsent(s: string, c: char)
    ensures LastIndexOf(s, c) < 0 <==> c !in s
  {
    if c in s {
      var j :| 0 <= j < |s| && s[j] == c;
      assert j <= LastIndexOf(s, c);
    }
  }

  /** `s.substring(s.lastIndexOf(c) + 1)`: the longest suffix of s free of c. */
  function AfterLast(s: string, c: char): (r: string)
    ensures |r| <= |s| && r == s[|s| - |r|..]
    ensures c !in r
    ensures |r| < |s| ==> s[|s| - |r| - 1] == c
  {
    s[LastIndexOf(s, c) + 1..]
  }

  /** `s.substring(0, s.lastIndexOf(c))` when s contains c, and s itself otherwise
      (getFileNameWithoutExtension for c == '.'). */
  function BeforeLast(s: string, c: char): (r: string)
    ensures c in s ==> s == r + [c] + AfterLast(s, c)
    ensures c !in s ==> r == s
  {
    LastIndexOfAbsent(s, c);
    var i := LastIndexOf(s, c);
    if i < 0 then s else s[..i]
  }

  /** `s.contains(sub)`: sub occurs somewhere in s. */
  predicate Contains(s: string, sub: string)
    decreases |s|
  {
    sub <= s || (|s| > 0 && Contains(s[1..], sub))
  }

  predicate OccursAt(s: string, sub: string, i: int)
  {
    0 <= i && i + |sub| <= |s| && s[i..i + |sub|] == sub
  }

  lemma {:induction false} ContainsOccurs(s: string, sub: string)
    requires Contains(s, sub)
    ensures exists i :: OccursAt(s, sub, i)
    decreases |s|
  {
    if sub <= s {
      assert OccursAt(s, sub, 0);
    } else {
      ContainsOccurs(s[1..], sub);
      var i :| OccursAt(s[1..], sub, i);
      assert s[1..][i..i + |sub|] == s[i + 1..i + 1 + |sub|];
      assert OccursAt(s, sub, i + 1);
    }
  }

  lemma {:induction false} OccursContains(s: string, sub: string, i: int)
    requires OccursAt(s, sub, i)
    ensures Contains(s, sub)
    decreases i
  {
    if i == 0 {
      assert sub <= s;
    } else {
      assert s[1..][i - 1..i - 1 + |sub|] == s[i..i + |sub|];
      OccursContains(s[1..], sub, i - 1);
    }
  }

  /** `String.join(c, parts)`. */
  function Join(parts: seq<string>, c: char): (r: string)
  {
    if |parts| == 0 then ""
    else if |parts| == 1 then parts[0]
    else Join(parts[..|parts| - 1], c) + [c] + parts[|parts| - 1]
  }

  /** Every piece of s between separators c, empty pieces included (one piece when s has no c). */
  function Split(s: string, c: char): (r: seq<string>)
    ensures |r| >= 1
    ensures forall t :: t in r ==> c !in t
    decreases |s|
  {
    var i := LastIndexOf(s, c);
    if i < 0 then [s]
    else
      var init := Split(s[..i], c);
      var r := init + [s[i + 1..]];
      assert r[..|r| - 1] == init;
      r
  }

  /** The three properties in the contract of LastIndexOf determine its result. */
  lemma LastIndexOfUnique(s: string, c: char, r: int)
    requires -1 <= r < |s|
    requires r >= 0 ==> s[r] == c
    requires forall j :: r < j < |s| ==> s[j] != c
    ensures LastIndexOf(s, c) == r
  {
  }

  /** Two concatenations with equally long heads agree on heads and on tails. */
  lemma ConcatCancel<T>(a: seq<T>, b: seq<T>, c: seq<T>, d: seq<T>)
    requires |a| == |c| && a + b == c + d
    ensures a == c && b == d
  {
    assert a == (a + b)[..|a|] && c == (c + d)[..|c|];
    assert b == (a + b)[|a|..] && d == (c + d)[|c|..];
  }

  lemma {:induction false} LastIndexOfAfterSeparator(a: string, b: string, c: char)
    requires c !in b
    ensures LastIndexOf(a + [c] + b, c) == |a|
    decreases |b|
  {
    var s := a + [c] + b;
    if b != [] {
      var init := b[..|b| - 1];
      assert s[|s| - 1] == b[|b| - 1];
      assert s[..|s| - 1] == a + [c] + init;
      LastIndexOfAfterSeparator(a, init, c);
    }
  }

  /** A text made of a head, the separator and a tail without it splits back at its last separator. */
  lemma SplitAtLast(a: string, b: string, c: char)
    requires c !in b
    ensures AfterLast(a + [c] + b, c) == b && BeforeLast(a + [c] + b, c) == a
  {
    var s := a + [c] + b;
    LastIndexOfAfterSeparator(a, b, c);
    assert s[..|a|] == a;
    assert s[|a| + 1..] == b;
  }

  /** A text that holds the separator is its part before the last one, the separator and the
      part after it. */
  lemma JoinAtLast(s: string, c: char)
    requires c in s
    ensures BeforeLast(s, c) + ([c] + AfterLast(s, c)) == s
  {
    assert BeforeLast(s, c) + ([c] + AfterLast(s, c)) == BeforeLast(s, c) + [c] + AfterLast(s, c);
  }

  lemma SplitSingle(s: string, c: char)
    requires c !in s
    ensures Split(s, c) == [s]
  {
    LastIndexOfAbsent(s, c);
  }

  lemma SplitAppend(j: string, last: string, c: char)
    requires c !in last
    ensures Split(j + [c] + last, c) == Split(j, c) + [last]
  {
    var s := j + [c] + last;
    LastIndexOfAfterSeparator(j, last, c);
    assert s[..|j|] == j;
    assert s[|j| + 1..] == last;
  }

  /** Splitting undoes joining when no part holds the separator. */
  lemma {:induction false} SplitJoin(parts: seq<string>, c: char)
    requires |parts| >= 1
    requires forall t :: t in parts ==> c !in t
    ensures Split(Join(parts, c), c) == parts
  {
    var last := parts[|parts| - 1];
    assert last in parts;
    if |parts| == 1 {
      SplitSingle(last, c);
    } else {
      var init := parts[..|parts| - 1];
      assert forall t :: t in init ==> t in parts;
      SplitJoin(init, c);
      SplitAppend(Join(init, c), last, c);
      assert parts == init + [last];
    }
  }

  /** Drops the empty pieces at the end, as String.split does. */
  function DropTrailingEmpty(r: seq<string>): (q: seq<string>)
    ensures q <= r
    ensures |q| > 0 ==> q[|q| - 1] != ""
    ensures forall j :: |q| <= j < |r| ==> r[j] == ""
  {
    if |r| > 0 && r[|r| - 1] == "" then DropTrailingEmpty(r[..|r| - 1]) else r
  }

  /** `s.split(c)` for a one-character literal separator: the pieces of s with the trailing empty
      pieces removed; the empty string gives the one piece "". */
  function JavaSplit(s: string, c: char): (r: seq<string>)
  {
    if s == "" then [""] else DropTrailingEmpty(Split(s, c))
  }

  lemma JavaSplitPlain(s: string, c: char)
    requires s != "" && s[|s| - 1] != c
    ensures JavaSplit(s, c) == Split(s, c)
  {
    assert AfterLast(s, c) != "";
  }

  /** Character.isWhitespace: the Java whitespace characters. */
  predicate IsJavaWhitespace(ch: char)
  {
    var n := ch as int;
    || n == 0x20 || 0x09 <= n <= 0x0D || 0x1C <= n <= 0x1F
    || n == 0x1680 || 0x2000 <= n <= 0x2006 || 0x2008 <= n <= 0x200A
    || n == 0x2028 || n == 0x2029 || n == 0x205F || n == 0x3000
  }

  /** StringUtils.isBlank: empty or whitespace only. */
  predicate IsBlank(s: string)
  {
    forall i :: 0 <= i < |s| ==> IsJavaWhitespace(s[i])
  }

  function ToLowerAscii(ch: char): (r: char)
  {
    if 'A' <= ch <= 'Z' then (ch as int + 32) as char else ch
  }

  /** String.equalsIgnoreCase, with case folding limited to ASCII letters. */
  predicate EqualsIgnoreCase(a: string, b: string)
  {
    |a| == |b| && forall i :: 0 <= i < |a| ==> ToLowerAscii(a[i]) == ToLowerAscii(b[i])
  }
}

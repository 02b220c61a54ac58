/**
 * The parts of Go's `strings` package that the modelled code relies on:
 * `strings.Index`, `strings.Split` (with a non-empty separator) and
 * `strings.HasPrefix`, over strings seen as sequences of characters.
 */
module GoStrings {
  import opened Wrappers

  /** `sep` occurs in `s` starting at index `i`. */
  predicate IsAt(s: string, sep: string, i: nat) {
    i + |sep| <= |s| && s[i..i + |sep|] == sep
  }

  /** `strings.Contains(s, sep)`. */
  ghost predicate Contains(s: string, sep: string) {
    exists i: nat :: IsAt(s, sep, i)
  }

  /** `strings.HasPrefix(s, prefix)`. */
  predicate HasPrefix(s: string, prefix: string) {
    |prefix| <= |s| && s[..|prefix|] == prefix
  }

  /** The first occurrence of `sep` in `s` at or after `k` (`strings.Index` when `k` is 0). */
  function IndexFrom(s: string, sep: string, k: nat): (r: Option<nat>)
    requires |sep| > 0
    ensures r.Some? ==> k <= r.value && r.value + |sep| <= |s|
    decreases |s| - k
  {
    if k + |sep| > |s| then None
    else if IsAt(s, sep, k) then Some(k)
    else IndexFrom(s, sep, k + 1)
  }

  /**
   * `IndexFrom` finds the first occurrence at or after `k`: none when it
   * answers `None`, and none before the index it answers otherwise.
   */
  lemma {:induction false} IndexFromSpec(s: string, sep: string, k: nat)
    requires |sep| > 0
    ensures IndexFrom(s, sep, k).None? ==> forall j: nat :: k <= j ==> !IsAt(s, sep, j)
    ensures IndexFrom(s, sep, k).Some? ==>
              k <= IndexFrom(s, sep, k).value && IsAt(s, sep, IndexFrom(s, sep, k).value)
    ensures IndexFrom(s, sep, k).Some? ==>
              forall j: nat :: k <= j < IndexFrom(s, sep, k).value ==> !IsAt(s, sep, j)
    decreases |s| - k
  {
    if k + |sep| <= |s| && !IsAt(s, sep, k) {
      IndexFromSpec(s, sep, k + 1);
    }
  }

  /** `strings.Split(s, sep)`: the pieces between non-overlapping occurrences of `sep`, left to right. */
  function Split(s: string, sep: string): (parts: seq<string>)
    requires |sep| > 0
    ensures |parts| >= 1
    decreases |s|
  {
    match IndexFrom(s, sep, 0)
    case None => [s]
    case Some(i) => [s[..i]] + Split(s[i + |sep|..], sep)
  }

  /** `strings.Join(parts, sep)`, the inverse of `Split`. */
  function Join(parts: seq<string>, sep: string): string {
    if |parts| == 0 then ""
    else if |parts| == 1 then parts[0]
    else parts[0] + sep + Join(parts[1..], sep)
  }

  /** Joining a leading piece onto at least one more piece puts the separator between them. */
  lemma JoinCons(head: string, rest: seq<string>, sep: string)
    requires |rest| >= 1
    ensures Join([head] + rest, sep) == head + sep + Join(rest, sep)
  {
    assert ([head] + rest)[1..] == rest;
  }

  /** Joining the pieces of a split with the same separator gives back the original string. */
  lemma {:induction false} SplitJoin(s: string, sep: string)
    requires |sep| > 0
    ensures Join(Split(s, sep), sep) == s
    decreases |s|
  {
    IndexFromSpec(s, sep, 0);
    var r := IndexFrom(s, sep, 0);
    if r.Some? {
      var i := r.value;
      var head, rest := s[..i], s[i + |sep|..];
      assert Split(s, sep) == [head] + Split(rest, sep);
      SplitJoin(rest, sep);
      JoinCons(head, Split(rest, sep), sep);
      assert s[i..i + |sep|] == sep;
      assert s == head + s[i..i + |sep|] + rest;
    }
  }

  /** No piece of a split contains the separator. */
  lemma {:induction false} SplitPiecesFree(s: string, sep: string)
    requires |sep| > 0
    ensures forall k :: 0 <= k < |Split(s, sep)| ==> !Contains(Split(s, sep)[k], sep)
    decreases |s|
  {
    IndexFromSpec(s, sep, 0);
    match IndexFrom(s, sep, 0)
    case None =>
      assert Split(s, sep) == [s];
    case Some(i) =>
      var rest := s[i + |sep|..];
      SplitPiecesFree(rest, sep);
      var head := s[..i];
      forall j: nat | IsAt(head, sep, j)
        ensures false
      {
        assert head[j..j + |sep|] == s[j..j + |sep|];
        assert IsAt(s, sep, j);
      }
      assert Split(s, sep) == [head] + Split(rest, sep);
  }

  /** A string that does not contain the separator splits into itself alone. */
  lemma SplitWithoutSep(s: string, sep: string)
    requires |sep| > 0 && !Contains(s, sep)
    ensures Split(s, sep) == [s]
  {
    IndexFromSpec(s, sep, 0);
    assert IndexFrom(s, sep, 0).None?;
  }

  /**
   * Splitting `a + sep + b`, when no occurrence of `sep` starts inside `a`
   * (not even one reaching into the separator that follows), yields `a` followed
   * by the pieces of `b`.
   */
  lemma SplitConcat(a: string, sep: string, b: string)
    requires |sep| > 0 && !Contains(a + sep[..|sep| - 1], sep)
    ensures Split(a + sep + b, sep) == [a] + Split(b, sep)
  {
    var s := a + sep + b;
    var prefix := a + sep[..|sep| - 1];
    assert IsAt(s, sep, |a|) by {
      assert s[|a|..|a| + |sep|] == sep;
    }
    forall j: nat | j < |a| && IsAt(s, sep, j)
      ensures false
    {
      assert s[j..j + |sep|] == prefix[j..j + |sep|];
      assert IsAt(prefix, sep, j);
    }
    var r := IndexFrom(s, sep, 0);
    IndexFromSpec(s, sep, 0);
    assert r == Some(|a|);
    assert s[..|a|] == a;
    assert s[|a| + |sep|..] == b;
  }

  /** For a one-character separator, an occurrence is just that character. */
  lemma IsAtChar(s: string, c: char, i: nat)
    ensures IsAt(s, [c], i) <==> i < |s| && s[i] == c
  {
    if i < |s| && s[i] == c {
      assert s[i..i + 1] == [c];
    }
  }

  /** For a one-character separator, containment is membership. */
  lemma ContainsChar(s: string, c: char)
    ensures Contains(s, [c]) <==> c in s
  {
    if c in s {
      var i :| 0 <= i < |s| && s[i] == c;
      IsAtChar(s, c, i);
    }
    if Contains(s, [c]) {
      var i: nat :| IsAt(s, [c], i);
      IsAtChar(s, c, i);
    }
  }

  /** Splitting on one character yields one more piece than there are occurrences of it. */
  lemma {:induction false} SplitCharCount(s: string, c: char)
    ensures |Split(s, [c])| == multiset(s)[c] + 1
    decreases |s|
  {
    IndexFromSpec(s, [c], 0);
    match IndexFrom(s, [c], 0)
    case None =>
      if c in s {
        var i :| 0 <= i < |s| && s[i] == c;
        IsAtChar(s, c, i);
      }
    case Some(i) =>
      IsAtChar(s, c, i);
      var head, rest := s[..i], s[i + 1..];
      if c in head {
        var j :| 0 <= j < |head| && head[j] == c;
        IsAtChar(s, c, j);
      }
      assert s == head + [c] + rest;
      assert multiset(s) == multiset(head) + multiset{c} + multiset(rest);
      SplitCharCount(rest, c);
  }

  /** A string with one marked character splits uniquely around its first occurrence. */
  lemma UniqueSplitAt(a1: string, b1: string, a2: string, b2: string, c: char)
    requires c !in a1 && c !in a2
    requires a1 + [c] + b1 == a2 + [c] + b2
    ensures a1 == a2 && b1 == b2
  {
    var s := a1 + [c] + b1;
    assert forall i :: 0 <= i < |a1| ==> s[i] == a1[i] != c;
    assert forall i :: 0 <= i < |a2| ==> s[i] == a2[i] != c;
    assert s[|a1|] == c && s[|a2|] == c;
    assert a1 == s[..|a1|] && a2 == s[..|a2|];
    assert b1 == s[|a1| + 1..] && b2 == s[|a2| + 1..];
  }
  /**
   * The first piece of a split is the text before the first occurrence of the
   * separator: all of `s` when there is none.
   */
  lemma SplitFirst(s: string, sep: string)
    requires |sep| > 0
    ensures |Split(s, sep)[0]| <= |s| && s[..|Split(s, sep)[0]|] == Split(s, sep)[0]
    ensures IndexFrom(s, sep, 0).None? ==> Split(s, sep)[0] == s
    ensures IndexFrom(s, sep, 0).Some? ==> |Split(s, sep)[0]| == IndexFrom(s, sep, 0).value
    ensures IndexFrom(s, sep, 0).Some? ==> IsAt(s, sep, |Split(s, sep)[0]|)
  {
    if IndexFrom(s, sep, 0).Some? {
      IndexFromAt(s, sep, 0);
    }
  }

  /** A split has more than one piece exactly when the separator occurs. */
  lemma SplitManyIffContains(s: string, sep: string)
    requires |sep| > 0
    ensures |Split(s, sep)| >= 2 <==> Contains(s, sep)
  {
    IndexFromSpec(s, sep, 0);
    match IndexFrom(s, sep, 0)
    case None =>
      assert Split(s, sep) == [s];
    case Some(i) =>
      assert IsAt(s, sep, i);
      assert Split(s, sep) == [s[..i]] + Split(s[i + |sep|..], sep);
  }

  /** An index that `IndexFrom` reports is an occurrence of the separator. */
  lemma {:induction false} IndexFromAt(s: string, sep: string, k: nat)
    requires |sep| > 0 && IndexFrom(s, sep, k).Some?
    ensures IsAt(s, sep, IndexFrom(s, sep, k).value)
    decreases |s| - k
  {
    if !IsAt(s, sep, k) {
      IndexFromAt(s, sep, k + 1);
    }
  }

  /**
   * In a join of at least two pieces, the separator follows the first piece,
   * the second piece follows that separator, and after the second piece comes
   * either the end or another separator.
   */
  lemma JoinSecond(parts: seq<string>, sep: string)
    requires |parts| >= 2
    ensures var j, a := Join(parts, sep), |parts[0]| + |sep|;
            && IsAt(j, sep, |parts[0]|) && IsAt(j, parts[1], a)
            && (a + |parts[1]| == |j| || IsAt(j, sep, a + |parts[1]|))
  {
    var j, a := Join(parts, sep), |parts[0]| + |sep|;
    var t := Join(parts[1..], sep);
    assert j == parts[0] + sep + t;
    assert j[|parts[0]|..a] == sep;
    if |parts| == 2 {
      assert t == parts[1];
      assert j[a..a + |parts[1]|] == parts[1];
    } else {
      assert t == parts[1] + sep + Join(parts[2..], sep) by {
        assert parts[1..][1..] == parts[2..];
      }
      assert j[a..a + |parts[1]|] == parts[1];
      assert j[a + |parts[1]|..a + |parts[1]| + |sep|] == sep;
    }
  }

  /**
   * A join ends with its last piece, and when there are at least two pieces
   * the separator comes directly before it.
   */
  lemma {:induction false} JoinLast(parts: seq<string>, sep: string)
    requires |parts| >= 1
    ensures var j, r := Join(parts, sep), parts[|parts| - 1];
            && |r| <= |j| && j[|j| - |r|..] == r
            && (|parts| >= 2 ==> |r| + |sep| <= |j| && IsAt(j, sep, |j| - |r| - |sep|))
  {
    if |parts| >= 2 {
      var j, r := Join(parts, sep), parts[|parts| - 1];
      var t := Join(parts[1..], sep);
      JoinLast(parts[1..], sep);
      assert j == parts[0] + sep + t;
      var off := |parts[0]| + |sep|;
      assert j[off..] == t;
      assert j[|j| - |r|..] == t[|t| - |r|..];
      if |parts| == 2 {
        assert j[|parts[0]|..|parts[0]| + |sep|] == sep;
      } else {
        var i := |t| - |r| - |sep|;
        assert j[off + i..off + i + |sep|] == t[i..i + |sep|];
      }
    }
  }

  /**
   * The second piece of a split follows the first occurrence of the separator
   * and runs up to the next occurrence or to the end of the string.
   */
  lemma SplitSecond(s: string, sep: string)
    requires |sep| > 0 && |Split(s, sep)| >= 2
    ensures IndexFrom(s, sep, 0).Some?
    ensures var k, p1 := IndexFrom(s, sep, 0).value, Split(s, sep)[1];
            && IsAt(s, sep, k) && IsAt(s, p1, k + |sep|)
            && (k + |sep| + |p1| == |s| || IsAt(s, sep, k + |sep| + |p1|))
  {
    SplitFirst(s, sep);
    SplitJoin(s, sep);
    JoinSecond(Split(s, sep), sep);
  }

  /**
   * The last piece of a split is a suffix of the string without the separator
   * in it; when the separator occurs, it directly precedes that suffix, and
   * otherwise the last piece is the whole string.
   */
  lemma SplitLast(s: string, sep: string)
    requires |sep| > 0
    ensures var p := Split(s, sep); var r := p[|p| - 1];
            && |r| <= |s| && s[|s| - |r|..] == r
            && !Contains(r, sep)
            && (|p| == 1 ==> r == s)
            && (|p| >= 2 ==> |r| + |sep| <= |s| && IsAt(s, sep, |s| - |r| - |sep|))
  {
    var p := Split(s, sep);
    SplitPiecesFree(s, sep);
    assert !Contains(p[|p| - 1], sep);
    SplitJoin(s, sep);
    JoinLast(p, sep);
  }
}

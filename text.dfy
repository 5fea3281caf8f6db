/** Option type used for Python's `None` results. */
module Wrappers {
  datatype Option<+T> = None | Some(value: T)
}

/**
 * String operations the chat client borrows from Python's `str` and `re`:
 * whitespace stripping, `str.find`, `str.join`, and the two reasoning tags.
 * Whitespace is the ASCII set (space, tab, line feed, carriage return,
 * vertical tab, form feed).
 */
module Text {
  /** The literal tags that delimit a reasoning block. */
  const OpenTag: string := "<think>"
  const CloseTag: string := "</think>"

  predicate IsSpace(c: char)
  {
    c == ' ' || c == '\t' || c == '\n' || c == '\r' || c == '\U{B}' || c == '\U{C}'
  }

  predicate AllSpace(s: string)
  {
    forall k :: 0 <= k < |s| ==> IsSpace(s[k])
  }

  /** Neither the first nor the last character is whitespace. */
  predicate NoOuterSpace(s: string)
  {
    s == [] || (!IsSpace(s[0]) && !IsSpace(s[|s| - 1]))
  }

  /** `s.lstrip()`: the suffix of `s` left after dropping leading whitespace. */
  function TrimLeft(s: string): (r: string)
    ensures |r| <= |s| && r == s[|s| - |r|..]
    ensures AllSpace(s[..|s| - |r|])
    ensures r == [] || !IsSpace(r[0])
  {
    if |s| != 0 && IsSpace(s[0]) then TrimLeft(s[1..]) else s
  }

  /** `s.rstrip()`: the prefix of `s` left after dropping trailing whitespace. */
  function TrimRight(s: string): (r: string)
    ensures |r| <= |s| && r == s[..|r|]
    ensures AllSpace(s[|r|..])
    ensures r == [] || !IsSpace(r[|r| - 1])
  {
    if |s| != 0 && IsSpace(s[|s| - 1]) then
      var r := TrimRight(s[..|s| - 1]);
      assert s[|r|..] == s[..|s| - 1][|r|..] + [s[|s| - 1]];
      r
    else s
  }

  /** `s.strip()`. */
  function Strip(s: string): (r: string)
    ensures NoOuterSpace(r)
    ensures |r| <= |s|
    ensures r == [] <==> AllSpace(s)
  {
    var l := TrimLeft(s);
    var r := TrimRight(l);
    assert r == [] ==> AllSpace(s) by {
      if r == [] {
        assert s == s[..|s| - |l|] + l;
        assert AllSpace(l[|r|..]);
      }
    }
    assert l != [] ==> !AllSpace(s) by {
      if l != [] {
        assert l == s[|s| - |l|..];
        assert !IsSpace(s[|s| - |l|]);
      }
    }
    r
  }

  /** A string with no outer whitespace is its own strip; so strip is idempotent. */
  lemma StripFixed(s: string)
    requires NoOuterSpace(s)
    ensures Strip(s) == s
  {
  }

  lemma StripIdempotent(s: string)
    ensures Strip(Strip(s)) == Strip(s)
  {
    StripFixed(Strip(s));
  }

  /** `sub` occurs in `s` starting at index `j`. */
  predicate OccursAt(s: string, sub: string, j: int)
  {
    0 <= j && j + |sub| <= |s| && s[j..j + |sub|] == sub
  }

  /**
   * Python's `s.find(sub, start)`: the least index `j >= start` at which
   * `sub` occurs, or -1. `FindSpec` states what the result means.
   */
  function Find(s: string, sub: string, start: nat): (r: int)
    requires start <= |s|
    ensures r == -1 || (start <= r && r + |sub| <= |s|)
    decreases |s| - start
  {
    if start + |sub| > |s| then -1
    else if MatchesFrom(s, sub, start, 0) then start
    else Find(s, sub, start + 1)
  }

  /** `sub[k..]` occurs in `s` at index `j + k`; compared one character at a time. */
  predicate MatchesFrom(s: string, sub: string, j: nat, k: nat)
    requires j + |sub| <= |s| && k <= |sub|
    decreases |sub| - k
  {
    k == |sub| || (s[j + k] == sub[k] && MatchesFrom(s, sub, j, k + 1))
  }

  lemma {:induction false} MatchesFromSpec(s: string, sub: string, j: nat, k: nat)
    requires j + |sub| <= |s| && k <= |sub|
    ensures MatchesFrom(s, sub, j, k) <==> s[j + k..j + |sub|] == sub[k..]
    decreases |sub| - k
  {
    if k < |sub| {
      MatchesFromSpec(s, sub, j, k + 1);
      assert s[j + k..j + |sub|] == [s[j + k]] + s[j + k + 1..j + |sub|];
      assert sub[k..] == [sub[k]] + sub[k + 1..];
    }
  }

  /** `Find` returns the first occurrence at or after `start`, and -1 exactly when there is none. */
  lemma {:induction false} FindSpec(s: string, sub: string, start: nat)
    requires start <= |s|
    ensures Find(s, sub, start) != -1 ==> OccursAt(s, sub, Find(s, sub, start))
    ensures Find(s, sub, start) == -1 ==> forall j :: start <= j ==> !OccursAt(s, sub, j)
    ensures Find(s, sub, start) != -1 ==> forall j :: start <= j < Find(s, sub, start) ==> !OccursAt(s, sub, j)
    decreases |s| - start
  {
    if start + |sub| <= |s| {
      MatchesFromSpec(s, sub, start, 0);
      assert s[start..start + |sub|] == s[start + 0..start + |sub|];
      assert sub[0..] == sub;
      if s[start..start + |sub|] != sub {
        FindSpec(s, sub, start + 1);
      }
    }
  }

  /** The characterisation in `FindSpec` determines the result. */
  lemma FindIs(s: string, sub: string, start: nat, r: int)
    requires start <= |s|
    requires r == -1 || (start <= r && OccursAt(s, sub, r))
    requires r == -1 ==> forall j :: start <= j ==> !OccursAt(s, sub, j)
    requires r != -1 ==> forall j :: start <= j < r ==> !OccursAt(s, sub, j)
    ensures Find(s, sub, start) == r
  {
    FindSpec(s, sub, start);
    var f := Find(s, sub, start);
    if f != -1 && r != -1 {
      assert OccursAt(s, sub, f) && OccursAt(s, sub, r);
    }
  }

  /** A text splits around an occurrence. */
  lemma SplitAtOccurrence(s: string, sub: string, j: int)
    requires OccursAt(s, sub, j)
    ensures s == s[..j] + sub + s[j + |sub|..]
  {
    assert s == s[..j] + s[j..j + |sub|] + s[j + |sub|..];
  }

  /** An occurrence inside `a` is an occurrence inside `a + b`, and conversely. */
  lemma OccursInPrefix(a: string, b: string, sub: string, j: int)
    requires 0 <= j && j + |sub| <= |a|
    ensures OccursAt(a + b, sub, j) <==> OccursAt(a, sub, j)
  {
    assert (a + b)[j..j + |sub|] == a[j..j + |sub|];
  }

  lemma OccursInSuffix(a: string, b: string, sub: string, j: int)
    requires 0 <= j
    ensures OccursAt(a + b, sub, |a| + j) <==> OccursAt(b, sub, j)
  {
    if j + |sub| <= |b| {
      assert (a + b)[|a| + j..|a| + j + |sub|] == b[j..j + |sub|];
    }
  }

  /** Searching `a + b` finds what searching `a` finds, when `a` has an occurrence. */
  lemma FindInPrefix(a: string, b: string, sub: string, start: nat)
    requires start <= |a|
    requires Find(a, sub, start) != -1
    ensures Find(a + b, sub, start) == Find(a, sub, start)
  {
    FindSpec(a, sub, start);
    var r := Find(a, sub, start);
    OccursInPrefix(a, b, sub, r);
    forall j | start <= j < r
      ensures !OccursAt(a + b, sub, j)
    {
      OccursInPrefix(a, b, sub, j);
    }
    FindIs(a + b, sub, start, r);
  }

  /** Searching `a + b` from inside `b` is searching `b`, shifted by `|a|`. */
  lemma FindInSuffix(a: string, b: string, sub: string, k: nat)
    requires k <= |b|
    ensures Find(a + b, sub, |a| + k) == (if Find(b, sub, k) == -1 then -1 else |a| + Find(b, sub, k))
  {
    FindSpec(b, sub, k);
    var f := Find(b, sub, k);
    var r := if f == -1 then -1 else |a| + f;
    if f != -1 {
      OccursInSuffix(a, b, sub, f);
    }
    forall j | |a| + k <= j && (f == -1 || j < r)
      ensures !OccursAt(a + b, sub, j)
    {
      OccursInSuffix(a, b, sub, j - |a|);
    }
    FindIs(a + b, sub, |a| + k, r);
  }

  /** Searching `s` from `i` is searching the suffix `s[i..]` from its start, shifted by `i`. */
  lemma FindDrop(s: string, sub: string, i: nat)
    requires i <= |s|
    ensures Find(s, sub, i) == (if Find(s[i..], sub, 0) == -1 then -1 else i + Find(s[i..], sub, 0))
  {
    assert s[..i] + s[i..] == s;
    FindInSuffix(s[..i], s[i..], sub, 0);
  }

  /** Total length of a list of strings. */
  function TotalLength(parts: seq<string>): nat
  {
    if |parts| == 0 then 0 else |parts[0]| + TotalLength(parts[1..])
  }

  /**
   * Python's `sep.join(parts)`: the parts in order with `sep` between each
   * two neighbours, so one separator fewer than there are parts.
   */
  function Join(parts: seq<string>, sep: string): (r: string)
    ensures |parts| == 0 ==> r == ""
    ensures |parts| == 1 ==> r == parts[0]
    ensures |parts| >= 2 ==> r == parts[0] + sep + Join(parts[1..], sep)
  {
    if |parts| == 0 then ""
    else if |parts| == 1 then parts[0]
    else parts[0] + sep + Join(parts[1..], sep)
  }

  lemma MulStep(a: nat, n: nat)
    ensures a * (n + 1) == a + a * n
  {
  }

  /** The joined text holds every part and one separator fewer than there are parts. */
  lemma {:induction false} JoinLength(parts: seq<string>, sep: string)
    requires |parts| >= 1
    ensures |Join(parts, sep)| == TotalLength(parts) + |sep| * (|parts| - 1)
  {
    if |parts| >= 2 {
      var rest := parts[1..];
      JoinLength(rest, sep);
      var n := |rest| - 1;
      MulStep(|sep|, n);
      assert |Join(parts, sep)| == |parts[0]| + |sep| + |Join(rest, sep)|;
      assert TotalLength(parts) == |parts[0]| + TotalLength(rest);
    }
  }

  /** Concatenation with no separator (`"".join(parts)`). */
  function Concat(parts: seq<string>): (r: string)
  {
    if |parts| == 0 then "" else parts[0] + Concat(parts[1..])
  }
}

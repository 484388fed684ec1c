/** The JavaScript string operations the system's decision rules are built
    from: `trim`, `split` on one character, `join`, `startsWith`, `includes`,
    `toLowerCase` (ASCII letters only) and number-to-decimal conversion.
    Strings are sequences of Unicode scalar values. */
module Strings {
  import opened Seqs

  /** The code points `String.prototype.trim` removes: ECMAScript's
      WhiteSpace and LineTerminator productions. */
  const SpaceChars: set<char> := {
    '\t', '\n', '\U{B}', '\U{C}', '\r', ' ', '\U{A0}', '\U{1680}',
    '\U{2000}', '\U{2001}', '\U{2002}', '\U{2003}', '\U{2004}', '\U{2005}',
    '\U{2006}', '\U{2007}', '\U{2008}', '\U{2009}', '\U{200A}',
    '\U{2028}', '\U{2029}', '\U{202F}', '\U{205F}', '\U{3000}', '\U{FEFF}'
  }

  predicate IsSpace(c: char) {
    c in SpaceChars
  }

  /** Every character of `a` occurs in `b`. */
  predicate Within(a: string, b: string) {
    forall c {:trigger c in b} :: c in a ==> c in b
  }

  lemma WithinTrans(a: string, b: string, c: string)
    requires Within(a, b) && Within(b, c)
    ensures Within(a, c)
  {
  }

  /** Neither end of `s` is white space: `s` is a fixed point of `Trim`. */
  predicate Trimmed(s: string) {
    |s| == 0 || (!IsSpace(s[0]) && !IsSpace(s[|s| - 1]))
  }

  function TrimStart(s: string): (r: string)
    ensures |r| <= |s| && r == s[|s| - |r|..]
    ensures |r| == 0 || !IsSpace(r[0])
    ensures Within(r, s)
  {
    if |s| > 0 && IsSpace(s[0]) then
      var r := TrimStart(s[1..]);
      assert s[1..][|s| - 1 - |r|..] == s[|s| - |r|..];
      assert forall c {:trigger c in s[1..]} :: c in s[1..] ==> c in s;
      r
    else s
  }

  function TrimEnd(s: string): (r: string)
    ensures |r| <= |s| && r == s[..|r|]
    ensures |r| == 0 || !IsSpace(r[|r| - 1])
    ensures Within(r, s)
  {
    if |s| > 0 && IsSpace(s[|s| - 1]) then
      var r := TrimEnd(s[..|s| - 1]);
      assert s[..|s| - 1][..|r|] == s[..|r|];
      assert forall c {:trigger c in s[..|s| - 1]} :: c in s[..|s| - 1] ==> c in s;
      r
    else s
  }

  /** `s.trim()`: the longest infix of `s` with no white space at either end. */
  function Trim(s: string): (r: string)
    ensures Trimmed(r)
    ensures Trimmed(s) ==> r == s
    ensures |r| <= |s|
    ensures Within(r, s)
  {
    TrimEnd(TrimStart(s))
  }

  /** Every character of `s` is white space. */
  predicate AllSpace(s: string) {
    forall k :: 0 <= k < |s| ==> IsSpace(s[k])
  }

  /** What `TrimStart` drops is white space. */
  lemma {:induction false} TrimStartDropsSpace(s: string)
    ensures AllSpace(s[..|s| - |TrimStart(s)|])
  {
    if |s| > 0 && IsSpace(s[0]) {
      TrimStartDropsSpace(s[1..]);
      var n := |s| - |TrimStart(s)|;
      assert s[..n] == [s[0]] + s[1..][..n - 1];
    }
  }

  /** What `TrimEnd` drops is white space. */
  lemma {:induction false} TrimEndDropsSpace(s: string)
    ensures AllSpace(s[|TrimEnd(s)|..])
  {
    if |s| > 0 && IsSpace(s[|s| - 1]) {
      var p := s[..|s| - 1];
      TrimEndDropsSpace(p);
      var n := |TrimEnd(s)|;
      assert s[n..] == p[n..] + [s[|s| - 1]];
    }
  }

  /** `s.trim()` is the infix of `s` left once white space is dropped from
      both ends: it is `s[i..j]` with nothing but white space before `i`
      and from `j` on. */
  lemma TrimSpan(s: string) returns (i: nat, j: nat)
    ensures i <= j <= |s| && Trim(s) == s[i..j]
    ensures AllSpace(s[..i]) && AllSpace(s[j..])
  {
    var t := TrimStart(s);
    i := |s| - |t|;
    TrimStartDropsSpace(s);
    TrimEndDropsSpace(t);
    j := i + |Trim(s)|;
    assert s[j..] == t[|Trim(s)|..];
    assert s[i..j] == t[..|Trim(s)|];
  }

  /** Leading white space can be skipped before trimming the start. */
  lemma {:induction false} TrimStartSkip(s: string, i: nat)
    requires i <= |s| && AllSpace(s[..i])
    ensures TrimStart(s) == TrimStart(s[i..])
  {
    if i > 0 {
      assert s[0] == s[..i][0];
      assert s[1..][..i - 1] == s[..i][1..];
      assert s[1..][i - 1..] == s[i..];
      TrimStartSkip(s[1..], i - 1);
    }
  }

  /** Trailing white space can be skipped before trimming the end. */
  lemma {:induction false} TrimEndSkip(s: string, j: nat)
    requires j <= |s| && AllSpace(s[j..])
    ensures TrimEnd(s) == TrimEnd(s[..j])
  {
    if j < |s| {
      var p := s[..|s| - 1];
      assert s[|s| - 1] == s[j..][|s| - 1 - j];
      assert p[j..] == s[j..][..|s| - 1 - j];
      assert p[..j] == s[..j];
      TrimEndSkip(p, j);
    } else {
      assert s[..j] == s;
    }
  }

  lemma {:induction false} TrimStartAllSpace(s: string)
    requires AllSpace(s)
    ensures TrimStart(s) == []
  {
    assert s[..|s|] == s;
    TrimStartSkip(s, |s|);
  }

  /** A prefix ending in a non-space character and followed only by white
      space is what `TrimEnd` keeps. */
  lemma TrimEndAtLastWord(t: string, n: nat)
    requires 0 < n <= |t| && AllSpace(t[n..]) && !IsSpace(t[n - 1])
    ensures TrimEnd(t) == t[..n]
  {
    TrimEndSkip(t, n);
    assert t[..n][n - 1] == t[n - 1];
  }

  /** The trimmed infix is unique: any split of `s` into white space, a
      trimmed middle and white space has `s.trim()` as its middle. */
  lemma TrimUnique(s: string, i: nat, j: nat)
    requires i <= j <= |s| && AllSpace(s[..i]) && AllSpace(s[j..]) && Trimmed(s[i..j])
    ensures Trim(s) == s[i..j]
  {
    TrimStartSkip(s, i);
    var t := s[i..];
    if i < j {
      assert t[0] == s[i..j][0];
      assert TrimStart(t) == t;
      PrefixOfSuffix(s, i, j);
      assert t[j - i - 1] == s[i..j][j - i - 1];
      TrimEndAtLastWord(t, j - i);
    } else {
      assert t == s[j..];
      TrimStartAllSpace(t);
    }
  }

  /** Trimming the end first gives the same result. */
  lemma TrimEndFirst(s: string)
    ensures Trim(s) == TrimStart(TrimEnd(s))
  {
    var e := TrimEnd(s);
    var t := TrimStart(e);
    var n, m := |e|, |t|;
    TrimEndDropsSpace(s);
    TrimStartDropsSpace(e);
    PrefixOfSuffix(s, n - m, n);
    assert s[..n - m] == e[..n - m];
    assert s[n - m..n] == t;
    if m > 0 {
      assert t[m - 1] == e[n - 1];
    }
    TrimUnique(s, n - m, n);
  }

  /** White space at the end of `s` does not change `s.trim()`. */
  lemma TrimDropsTrailingSpace(s: string)
    requires |s| > 0 && IsSpace(s[|s| - 1])
    ensures Trim(s[..|s| - 1]) == Trim(s)
  {
    var p := s[..|s| - 1];
    assert s[|s| - 1..] == [s[|s| - 1]];
    TrimEndSkip(s, |s| - 1);
    TrimEndFirst(s);
    TrimEndFirst(p);
  }

  lemma TrimKeepsFirst(s: string)
    requires |s| > 0 && !IsSpace(s[0]) && |Trim(s)| > 0
    ensures Trim(s)[0] == s[0]
  {
  }

  /** `s.split(d)` for a one-character separator: the pieces between
      occurrences of `d`, always at least one. */
  function Split(s: string, d: char): (parts: seq<string>)
    ensures |parts| >= 1
    ensures forall k :: 0 <= k < |parts| ==> d !in parts[k]
    ensures forall k :: 0 <= k < |parts| ==> Within(parts[k], s)
    ensures |parts[0]| <= |s| && parts[0] == s[..|parts[0]|]
  {
    if |s| == 0 then [""]
    else
      var rest := Split(s[1..], d);
      assert Within(s[1..], s);
      if s[0] == d then [""] + rest
      else
        assert [s[0]] + rest[0] == s[..|rest[0]| + 1];
        var parts := [[s[0]] + rest[0]] + rest[1..];
        assert forall k :: 1 <= k < |parts| ==> parts[k] == rest[k];
        parts
  }

  lemma {:induction false} SplitWithoutSeparator(s: string, d: char)
    requires d !in s
    ensures Split(s, d) == [s]
  {
    if |s| > 0 {
      SplitWithoutSeparator(s[1..], d);
      assert [s[0]] + s[1..] == s;
    }
  }

  /** `parts.join(d)`; the empty array joins to the empty string. */
  function Join(parts: seq<string>, d: char): string {
    if |parts| == 0 then ""
    else if |parts| == 1 then parts[0]
    else parts[0] + [d] + Join(parts[1..], d)
  }

  /** A character other than the separator that occurs in no piece does not
      occur in their join. */
  lemma {:induction false} JoinAvoids(parts: seq<string>, d: char, c: char)
    requires c != d
    requires forall k :: 0 <= k < |parts| ==> c !in parts[k]
    ensures c !in Join(parts, d)
  {
    if |parts| > 1 {
      JoinAvoids(parts[1..], d, c);
    }
  }

  /** The separator `d` splits `x + [d] + y` right after a `d`-free `x`. */
  lemma {:induction false} SplitAtFirst(x: string, y: string, d: char)
    requires d !in x
    ensures Split(x + [d] + y, d) == [x] + Split(y, d)
  {
    if |x| == 0 {
      assert x + [d] + y == [d] + y;
      assert ([d] + y)[1..] == y;
    } else {
      var s := x + [d] + y;
      assert s[1..] == x[1..] + [d] + y;
      SplitAtFirst(x[1..], y, d);
      assert [s[0]] + x[1..] == x;
    }
  }

  /** Splitting at a separator splits each side on its own. */
  lemma {:induction false} SplitAppend(x: string, y: string, d: char)
    ensures Split(x + [d] + y, d) == Split(x, d) + Split(y, d)
  {
    var s := x + [d] + y;
    if |x| == 0 {
      assert s == [d] + y;
      assert s[1..] == y;
    } else {
      assert s[0] == x[0];
      assert s[1..] == x[1..] + [d] + y;
      SplitAppend(x[1..], y, d);
      var a, b := Split(x[1..], d), Split(y, d);
      if x[0] == d {
        AppendAssoc([""], a, b);
      } else {
        AppendTail(a, b);
        AppendAssoc([[x[0]] + a[0]], a[1..], b);
      }
    }
  }

  /** Splitting undoes joining pieces that do not contain the separator. */
  lemma {:induction false} SplitJoin(parts: seq<string>, d: char)
    requires |parts| >= 1
    requires forall k :: 0 <= k < |parts| ==> d !in parts[k]
    ensures Split(Join(parts, d), d) == parts
  {
    if |parts| == 1 {
      SplitWithoutSeparator(parts[0], d);
    } else {
      SplitJoin(parts[1..], d);
      SplitAtFirst(parts[0], Join(parts[1..], d), d);
      assert [parts[0]] + parts[1..] == parts;
    }
  }

  /** Joining undoes splitting: no character of the input is lost. */
  lemma {:induction false} JoinSplit(s: string, d: char)
    ensures Join(Split(s, d), d) == s
  {
    if |s| > 0 {
      JoinSplit(s[1..], d);
      var rest := Split(s[1..], d);
      if s[0] == d {
        assert ([""] + rest)[1..] == rest;
        assert [s[0]] + s[1..] == s;
      } else {
        var parts := [[s[0]] + rest[0]] + rest[1..];
        assert parts[1..] == rest[1..];
        if |rest| > 1 {
          assert Join(rest, d) == rest[0] + [d] + Join(rest[1..], d);
        }
        assert [s[0]] + s[1..] == s;
      }
    }
  }

  /** A join of pieces whose last piece is non-empty ends with that piece's
      last character, and one whose first piece is non-empty starts with that
      piece's first character. */
  lemma {:induction false} JoinEnds(parts: seq<string>, d: char)
    requires |parts| >= 1
    ensures |parts[|parts| - 1]| > 0 ==>
      |Join(parts, d)| > 0 && Join(parts, d)[|Join(parts, d)| - 1] == parts[|parts| - 1][|parts[|parts| - 1]| - 1]
    ensures |parts[0]| > 0 ==> |Join(parts, d)| > 0 && Join(parts, d)[0] == parts[0][0]
  {
    if |parts| > 1 {
      JoinEnds(parts[1..], d);
    }
  }

  function StartsWith(s: string, prefix: string): bool {
    |prefix| <= |s| && s[..|prefix|] == prefix
  }

  /** `sub` occurs in `s` starting at index `i`. */
  predicate OccursAt(s: string, sub: string, i: int) {
    0 <= i <= |s| - |sub| && s[i..i + |sub|] == sub
  }

  /** `s.includes(sub)`: `sub` occurs in `s` at some position. */
  predicate Contains(s: string, sub: string) {
    exists i :: 0 <= i <= |s| - |sub| && OccursAt(s, sub, i)
  }

  /** A string that lacks the first character of `sub` does not contain
      `sub`. */
  lemma MissingFirstChar(s: string, sub: string)
    requires |sub| > 0 && sub[0] !in s
    ensures !Contains(s, sub)
  {
    forall i | 0 <= i <= |s| - |sub|
      ensures !OccursAt(s, sub, i)
    {
      assert s[i..i + |sub|][0] == s[i];
      assert s[i] in s;
    }
  }

  lemma ContainsMiddle(a: string, b: string, c: string)
    ensures Contains(a + b + c, b)
  {
    assert (a + b + c)[|a|..|a| + |b|] == b;
    assert OccursAt(a + b + c, b, |a|);
  }

  /** Text found in a string is still found once more text follows it. */
  lemma ContainsBefore(a: string, b: string, sub: string)
    requires Contains(a, sub)
    ensures Contains(a + b, sub)
  {
    var i :| 0 <= i <= |a| - |sub| && OccursAt(a, sub, i);
    assert (a + b)[i..i + |sub|] == a[i..i + |sub|];
    assert OccursAt(a + b, sub, i);
  }

  /** Text found in a string is still found once more text precedes it. */
  lemma ContainsAfter(a: string, b: string, sub: string)
    requires Contains(b, sub)
    ensures Contains(a + b, sub)
  {
    var i :| 0 <= i <= |b| - |sub| && OccursAt(b, sub, i);
    assert (a + b)[|a| + i..|a| + i + |sub|] == b[i..i + |sub|];
    assert OccursAt(a + b, sub, |a| + i);
  }

  /** A file name that `path.join` keeps as it is: non-empty, free of both
      separators, and neither `.` nor `..`. */
  predicate PlainSegment(name: string) {
    |name| > 0 && '/' !in name && '\\' !in name && name != "." && name != ".."
  }

  /** `path.join(dir, name)` for a normalised directory and a plain name. */
  function JoinPath(dir: string, name: string): string {
    dir + "/" + name
  }

  /** `p` names an entry directly inside directory `dir`. */
  predicate InsideDir(p: string, dir: string) {
    |p| > |dir| + 1 && p[..|dir| + 1] == dir + "/" && '/' !in p[|dir| + 1..]
  }

  function LowerChar(c: char): char {
    if 'A' <= c <= 'Z' then (c as int + 32) as char else c
  }

  /** `s.toLowerCase()` restricted to the ASCII letters. */
  function Lower(s: string): (r: string)
    ensures |r| == |s|
    ensures forall i :: 0 <= i < |s| ==> r[i] == LowerChar(s[i])
  {
    if |s| == 0 then "" else [LowerChar(s[0])] + Lower(s[1..])
  }

  function DigitChar(n: nat): char
    requires n < 10
  {
    ('0' as int + n) as char
  }

  /** The decimal numeral JavaScript prints for a non-negative integer. */
  function NatToString(n: nat): (r: string)
    ensures |r| >= 1
    ensures forall i :: 0 <= i < |r| ==> '0' <= r[i] <= '9'
    decreases n
  {
    if n < 10 then [DigitChar(n)] else NatToString(n / 10) + [DigitChar(n % 10)]
  }

  /** Value of a string of decimal digits. */
  function DecimalValue(s: string): int
    requires forall i :: 0 <= i < |s| ==> '0' <= s[i] <= '9'
  {
    if |s| == 0 then 0 else 10 * DecimalValue(s[..|s| - 1]) + (s[|s| - 1] as int - '0' as int)
  }

  /** The numeral reads back as the number it was printed from. */
  lemma {:induction false} NatToStringValue(n: nat)
    ensures DecimalValue(NatToString(n)) == n
  {
    if n >= 10 {
      NatToStringValue(n / 10);
      var r := NatToString(n);
      assert r[..|r| - 1] == NatToString(n / 10);
    }
  }
}

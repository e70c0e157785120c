/**
  The few JavaScript string operations the core relies on, as functions on
  `seq<char>`: `includes`, `indexOf`, `replace` with a string pattern,
  `split` on a one-character separator (and taking its last element), and
  the ASCII case folding that a case-insensitive regular expression applies
  to literal ASCII alternatives.
 */
module JsString {

  /** `t` occurs somewhere in `s` (at any index, possibly at the very end when `t` is empty). */
  ghost predicate Contains(s: string, t: string) {
    exists i :: 0 <= i <= |s| && t <= s[i..]
  }

  lemma DropOneShifts(s: string, i: nat)
    requires 0 < |s| && i <= |s| - 1
    ensures s[1..][i..] == s[i + 1..]
  {
  }

  /** When `t` does not start `s`, it occurs in `s` exactly when it occurs in the rest of `s`. */
  lemma ContainsInTail(s: string, t: string)
    requires |s| > 0 && !(t <= s)
    ensures Contains(s, t) <==> Contains(s[1..], t)
  {
    if Contains(s, t) {
      var i :| 0 <= i <= |s| && t <= s[i..];
      assert i != 0;
      DropOneShifts(s, i - 1);
    }
    if Contains(s[1..], t) {
      var i :| 0 <= i <= |s[1..]| && t <= s[1..][i..];
      DropOneShifts(s, i);
    }
  }

  /** `s.includes(t)`: decides `Contains` by trying every start position in turn. */
  function Includes(s: string, t: string): (b: bool)
    ensures b <==> Contains(s, t)
    decreases |s|
  {
    if t <= s then
      assert t <= s[0..];
      true
    else if s == [] then
      false
    else
      ContainsInTail(s, t);
      Includes(s[1..], t)
  }

  /** An occurrence inside a string that itself occurs in `s` occurs in `s`. */
  lemma ContainsTransitive(s: string, u: string, t: string)
    requires Contains(s, u) && Contains(u, t)
    ensures Contains(s, t)
  {
    var i :| 0 <= i <= |s| && u <= s[i..];
    var j :| 0 <= j <= |u| && t <= u[j..];
    assert t <= s[i + j..] by {
      forall k | 0 <= k < |t| ensures t[k] == s[i + j + k] {
        assert u[j + k] == s[i + j + k];
      }
    }
  }

  /** Every string occurs in any string it is a prefix of. */
  lemma PrefixContained(s: string, t: string)
    requires t <= s
    ensures Contains(s, t)
  {
    assert s[0..] == s;
  }

  /** The first occurrence in the rest of `s` is one position further on in `s`. */
  lemma FirstInTail(s: string, t: string, r: nat)
    requires |s| > 0 && !(t <= s) && r <= |s| - 1
    requires t <= s[1..][r..] && forall j :: 0 <= j < r ==> !(t <= s[1..][j..])
    ensures t <= s[r + 1..] && forall j :: 0 <= j < r + 1 ==> !(t <= s[j..])
  {
    DropOneShifts(s, r);
    forall j | 0 < j < r + 1 ensures !(t <= s[j..]) {
      DropOneShifts(s, j - 1);
    }
  }

  /**
    `s.indexOf(t)`: the first index at which `t` occurs, or -1 when it
    occurs nowhere.
   */
  function IndexOf(s: string, t: string): (r: int)
    ensures -1 <= r <= |s|
    ensures r == -1 <==> !Contains(s, t)
    ensures r >= 0 ==> t <= s[r..]
    ensures r >= 0 ==> forall j :: 0 <= j < r ==> !(t <= s[j..])
    decreases |s|
  {
    if t <= s then
      assert t <= s[0..];
      0
    else if s == [] then
      -1
    else
      var r := IndexOf(s[1..], t);
      ContainsInTail(s, t);
      if r == -1 then
        -1
      else
        FirstInTail(s, t, r);
        r + 1
  }

  /**
    `s.replace(pattern, replacement)` with a string pattern: only the first
    occurrence is replaced. The replacement is taken literally (the source
    only ever passes the empty string, which holds no `$` substitution).
   */
  function Replace(s: string, pattern: string, replacement: string): (r: string)
    ensures !Contains(s, pattern) ==> r == s
    ensures Contains(s, pattern) ==> |r| == |s| - |pattern| + |replacement|
    ensures Contains(s, pattern) ==>
      exists i :: 0 <= i <= |s| - |pattern| && pattern <= s[i..]
        && (forall j :: 0 <= j < i ==> !(pattern <= s[j..]))
        && r == s[..i] + replacement + s[i + |pattern|..]
  {
    var i := IndexOf(s, pattern);
    if i < 0 then s else
      assert |pattern| <= |s[i..]|;
      s[..i] + replacement + s[i + |pattern|..]
  }

  /** A one-character string starts `s[j..]` exactly when `s[j]` is that character. */
  lemma CharStartsAt(s: string, c: char, j: nat)
    requires j <= |s|
    ensures [c] <= s[j..] <==> j < |s| && s[j] == c
  {
    if j < |s| {
      assert s[j..][0] == s[j];
    }
  }

  /** A one-character string occurs in `s` exactly when the character does. */
  lemma ContainsChar(s: string, c: char)
    ensures Contains(s, [c]) <==> c in s
  {
    if c in s {
      var k :| 0 <= k < |s| && s[k] == c;
      CharStartsAt(s, c, k);
    }
    if Contains(s, [c]) {
      var k :| 0 <= k <= |s| && [c] <= s[k..];
      CharStartsAt(s, c, k);
    }
  }

  /**
    Replacing the one-character pattern `[c]` by nothing removes exactly the
    first `c` and keeps everything around it.
   */
  lemma RemoveFirstChar(s: string, c: char)
    ensures c !in s ==> Replace(s, [c], "") == s
    ensures c in s ==>
      exists i :: 0 <= i < |s| && s[i] == c && c !in s[..i] && Replace(s, [c], "") == s[..i] + s[i + 1..]
  {
    ContainsChar(s, c);
    var i := IndexOf(s, [c]);
    if c in s {
      CharStartsAt(s, c, i);
      assert c !in s[..i] by {
        forall j | 0 <= j < i ensures s[j] != c {
          CharStartsAt(s, c, j);
        }
      }
      assert Replace(s, [c], "") == s[..i] + s[i + 1..];
    }
  }

  /** A leading `c` is the one `Replace(s, [c], "")` takes away. */
  lemma RemoveLeadingChar(s: string, c: char)
    requires |s| > 0 && s[0] == c
    ensures Replace(s, [c], "") == s[1..]
  {
    assert [c] <= s;
    assert IndexOf(s, [c]) == 0;
  }

  /** `parts.join([sep])`: the parts with one `sep` between neighbours. */
  function Join(parts: seq<string>, sep: char): (s: string)
    requires |parts| >= 1
  {
    if |parts| == 1 then parts[0] else parts[0] + [sep] + Join(parts[1..], sep)
  }

  /** Joining splits off its last part at the last separator. */
  lemma {:induction false} JoinLast(parts: seq<string>, sep: char)
    requires |parts| >= 2
    ensures Join(parts, sep) == Join(parts[..|parts| - 1], sep) + [sep] + parts[|parts| - 1]
    decreases |parts|
  {
    if |parts| > 2 {
      JoinLast(parts[1..], sep);
      assert parts[1..][..|parts| - 2] == parts[..|parts| - 1][1..];
    }
  }

  /**
    `s.split(sep)` for a one-character separator: the maximal runs of
    characters between separators, in order; never an empty list.
   */
  function Split(s: string, sep: char): (parts: seq<string>)
    ensures |parts| >= 1
    ensures forall k :: 0 <= k < |parts| ==> sep !in parts[k]
    decreases |s|
  {
    if s == [] then
      [""]
    else
      var rest := Split(s[1..], sep);
      if s[0] == sep then
        [""] + rest
      else
        [[s[0]] + rest[0]] + rest[1..]
  }

  /** Splitting loses nothing: joining the parts back gives `s` again. */
  lemma {:induction false} SplitJoin(s: string, sep: char)
    ensures Join(Split(s, sep), sep) == s
    decreases |s|
  {
    if s != [] {
      var rest := Split(s[1..], sep);
      SplitJoin(s[1..], sep);
      var parts := Split(s, sep);
      if s[0] == sep {
        assert parts[1..] == rest;
      } else {
        assert parts[1..] == rest[1..];
        if |rest| > 1 {
          assert Join(rest, sep) == rest[0] + [sep] + Join(rest[1..], sep);
        }
        assert Join(parts, sep) == [s[0]] + Join(rest, sep);
      }
      assert s == [s[0]] + s[1..];
    }
  }

  /** There is one more part than there are separators in `s`. */
  lemma {:induction false} SplitCount(s: string, sep: char)
    ensures |Split(s, sep)| == multiset(s)[sep] + 1
    decreases |s|
  {
    if s != [] {
      SplitCount(s[1..], sep);
      assert s == [s[0]] + s[1..];
      assert multiset(s) == multiset{s[0]} + multiset(s[1..]);
    }
  }

  /**
    The last element of `s.split(sep)`: the text after the last `sep`, or
    the whole of `s` when it holds no `sep`.
   */
  function LastSegment(s: string, sep: char): (last: string)
    ensures sep !in last
    ensures |last| <= |s| && last == s[|s| - |last|..]
    ensures |last| == |s| <==> sep !in s
    ensures |last| < |s| ==> s[|s| - |last| - 1] == sep
  {
    var parts := Split(s, sep);
    var last := parts[|parts| - 1];
    SplitJoin(s, sep);
    SplitCount(s, sep);
    if |parts| == 1 then
      assert multiset(s)[sep] == 0;
      last
    else
      JoinLast(parts, sep);
      assert sep in s by {
        var prefix := Join(parts[..|parts| - 1], sep);
        assert s[|prefix|] == sep;
      }
      last
  }

  /** When `s[i]` is the last `sep` of `s`, the last segment is exactly what follows it. */
  lemma LastSegmentAfter(s: string, sep: char, i: nat)
    requires i < |s| && s[i] == sep && sep !in s[i + 1..]
    ensures LastSegment(s, sep) == s[i + 1..]
  {
    var last := LastSegment(s, sep);
    var p := |s| - |last| - 1;
    assert sep in s;
    assert p == i;
  }

  /** ASCII case folding of one character; every other character is kept. */
  function LowerChar(c: char): (d: char)
    ensures !('A' <= d <= 'Z')
    ensures d == c || ('A' <= c <= 'Z' && d as int == c as int + 32)
  {
    if 'A' <= c <= 'Z' then (c as int + 32) as char else c
  }

  /** Folds every ASCII capital of `s` to lower case. */
  function AsciiLower(s: string): (r: string)
    ensures |r| == |s|
    ensures forall i :: 0 <= i < |s| ==> r[i] == LowerChar(s[i])
    decreases |s|
  {
    if s == [] then [] else [LowerChar(s[0])] + AsciiLower(s[1..])
  }
}

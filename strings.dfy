/** The few string operations of Rust's standard library that the core relies on. */
module Strings {

  /** `parts.join(sep)`. */
  function Join(parts: seq<string>, sep: string): string
  {
    if |parts| == 0 then ""
    else if |parts| == 1 then parts[0]
    else parts[0] + sep + Join(parts[1..], sep)
  }

  /** Joining with no separator gives the empty text exactly when every part is empty. */
  lemma {:induction false} ConcatEmpty(parts: seq<string>)
    ensures Join(parts, "") == "" <==> forall i :: 0 <= i < |parts| ==> parts[i] == ""
  {
    if |parts| > 1 {
      ConcatEmpty(parts[1..]);
      assert forall i :: 1 <= i < |parts| ==> parts[i] == parts[1..][i - 1];
    }
  }

  /** A join whose first part is non-empty is non-empty. */
  lemma JoinStartsWithFirst(parts: seq<string>, sep: string)
    requires |parts| > 0
    ensures |Join(parts, sep)| >= |parts[0]| && Join(parts, sep)[..|parts[0]|] == parts[0]
  {
    if |parts| > 1 {
      assert Join(parts, sep) == parts[0] + (sep + Join(parts[1..], sep));
    }
  }

  /** Non-empty parts join to the empty text only when there are none. */
  lemma JoinOfNonEmpty(parts: seq<string>, sep: string)
    requires forall i :: 0 <= i < |parts| ==> parts[i] != ""
    ensures Join(parts, sep) == "" <==> parts == []
  {
    if parts != [] {
      JoinStartsWithFirst(parts, sep);
    }
  }

  /** `s.split(sep)`: n separators give n + 1 pieces, empty pieces included. */
  function Split(s: string, sep: char): (r: seq<string>)
    ensures |r| >= 1
  {
    if |s| == 0 then [""]
    else
      var rest := Split(s[1..], sep);
      if s[0] == sep then [""] + rest
      else [[s[0]] + rest[0]] + rest[1..]
  }

  lemma {:induction false} SplitPiecesFree(s: string, sep: char)
    ensures forall i :: 0 <= i < |Split(s, sep)| ==> sep !in Split(s, sep)[i]
  {
    if |s| > 0 {
      SplitPiecesFree(s[1..], sep);
    }
  }

  lemma {:induction false} JoinSplit(s: string, sep: char)
    ensures Join(Split(s, sep), [sep]) == s
  {
    if |s| > 0 {
      var rest := Split(s[1..], sep);
      JoinSplit(s[1..], sep);
      if s[0] == sep {
        assert Split(s, sep) == [""] + rest;
        assert ([""] + rest)[1..] == rest;
      } else {
        var r := Split(s, sep);
        assert r == [[s[0]] + rest[0]] + rest[1..];
        if |rest| == 1 {
          assert r == [[s[0]] + rest[0]];
        } else {
          assert r[1..] == rest[1..];
          assert Join(rest, [sep]) == rest[0] + [sep] + Join(rest[1..], [sep]);
        }
      }
    }
  }

  /** A string without the separator is one piece. */
  lemma {:induction false} SplitWithoutSeparator(s: string, sep: char)
    requires sep !in s
    ensures Split(s, sep) == [s]
  {
    if |s| > 0 {
      assert sep !in s[1..];
      SplitWithoutSeparator(s[1..], sep);
      assert s == [s[0]] + s[1..];
    }
  }

  /** Splitting at the first separator: the leading piece, then the pieces of the rest. */
  lemma {:induction false} SplitAtSeparator(a: string, b: string, sep: char)
    requires sep !in a
    ensures Split(a + [sep] + b, sep) == [a] + Split(b, sep)
  {
    if |a| > 0 {
      assert (a + [sep] + b)[1..] == a[1..] + [sep] + b;
      SplitAtSeparator(a[1..], b, sep);
      assert [a[0]] + a[1..] == a;
    } else {
      assert a + [sep] + b == [sep] + b;
      assert ([sep] + b)[1..] == b;
    }
  }

  function Last<T>(s: seq<T>): T
    requires |s| > 0
  {
    s[|s| - 1]
  }

  /** `s.split(':').last().unwrap()`: the reference name without its namespace prefix. */
  function LastSegment(s: string): (r: string)
    ensures ':' !in r
  {
    SplitPiecesFree(s, ':');
    Last(Split(s, ':'))
  }

  lemma LastSegmentOfUnqualified(s: string)
    requires ':' !in s
    ensures LastSegment(s) == s
  {
    SplitWithoutSeparator(s, ':');
  }

  /** The non-empty pieces of `s.split(' ')`, as `split(' ').filter(|s| !s.is_empty())` yields them. */
  function Tokens(s: string): (r: seq<string>)
    ensures forall i :: 0 <= i < |r| ==> r[i] != "" && ' ' !in r[i]
  {
    SplitPiecesFree(s, ' ');
    NonEmpty(Split(s, ' '), ' ')
  }

  function NonEmpty(pieces: seq<string>, sep: char): (r: seq<string>)
    requires forall i :: 0 <= i < |pieces| ==> sep !in pieces[i]
    ensures forall i :: 0 <= i < |r| ==> r[i] != "" && sep !in r[i]
    ensures |r| <= |pieces|
  {
    if |pieces| == 0 then []
    else if pieces[0] == "" then NonEmpty(pieces[1..], sep)
    else [pieces[0]] + NonEmpty(pieces[1..], sep)
  }

  predicate EndsWith(s: string, suffix: string)
  {
    |suffix| <= |s| && s[|s| - |suffix|..] == suffix
  }

  /** `text.replace(pat, rep)`: one left-to-right pass over non-overlapping occurrences. */
  function Replace(s: string, pat: string, rep: string): string
    requires |pat| > 0
  {
    if |s| < |pat| then s
    else if s[..|pat|] == pat then rep + Replace(s[|pat|..], pat, rep)
    else [s[0]] + Replace(s[1..], pat, rep)
  }

  /** The decimal digit character for `d`. */
  function Digit(d: nat): (c: char)
    requires d < 10
    ensures '0' <= c <= '9'
  {
    ('0' as int + d) as char
  }

  /** The decimal rendering `format!("{}", n)` of a `usize`. */
  function NatToString(n: nat): (r: string)
    ensures |r| >= 1
    ensures forall i :: 0 <= i < |r| ==> '0' <= r[i] <= '9'
  {
    if n < 10 then [Digit(n)] else NatToString(n / 10) + [Digit(n % 10)]
  }

  lemma {:induction false} NatToStringInjective(m: nat, n: nat)
    requires NatToString(m) == NatToString(n)
    ensures m == n
  {
    if m >= 10 && n >= 10 {
      NatToStringLastDigit(m);
      NatToStringLastDigit(n);
      NatToStringInjective(m / 10, n / 10);
    } else if m >= 10 {
      NatToStringLastDigit(m);
    } else if n >= 10 {
      NatToStringLastDigit(n);
    }
  }

  /** A number of two or more digits renders as its leading digits followed by its last digit. */
  lemma NatToStringLastDigit(n: nat)
    requires n >= 10
    ensures var r := NatToString(n);
      && |r| >= 2
      && r[..|r| - 1] == NatToString(n / 10)
      && r[|r| - 1] == Digit(n % 10)
  {
    var r := NatToString(n);
    assert r == NatToString(n / 10) + [Digit(n % 10)];
  }

  /** Whether `sep` occurs in `s` as a contiguous piece. */
  predicate HasInfix(s: string, sep: string)
  {
    exists k :: 0 <= k <= |s| && InfixAt(s, sep, k)
  }

  predicate InfixAt(s: string, sep: string, k: int)
  {
    0 <= k && k + |sep| <= |s| && s[k..k + |sep|] == sep
  }

  /** `s.split(sep)` for a multi-character separator: non-overlapping matches, left to right. */
  function SplitOn(s: string, sep: string): (r: seq<string>)
    requires |sep| > 0
    ensures |r| >= 1
    decreases |s|
  {
    if |s| < |sep| then [s]
    else if s[..|sep|] == sep then [""] + SplitOn(s[|sep|..], sep)
    else
      var rest := SplitOn(s[1..], sep);
      [[s[0]] + rest[0]] + rest[1..]
  }

  lemma {:induction false} SplitOnHeadIsPrefix(s: string, sep: string)
    requires |sep| > 0
    ensures |SplitOn(s, sep)[0]| <= |s| && SplitOn(s, sep)[0] == s[..|SplitOn(s, sep)[0]|]
    decreases |s|
  {
    if |s| >= |sep| && s[..|sep|] != sep {
      SplitOnHeadIsPrefix(s[1..], sep);
    }
  }

  /** No piece of a split contains the separator. */
  lemma {:induction false} SplitOnPiecesFree(s: string, sep: string)
    requires |sep| > 0
    ensures forall i :: 0 <= i < |SplitOn(s, sep)| ==> !HasInfix(SplitOn(s, sep)[i], sep)
    decreases |s|
  {
    var r := SplitOn(s, sep);
    if |s| < |sep| {
      assert r == [s];
      assert forall k :: 0 <= k <= |s| ==> !InfixAt(s, sep, k);
    } else if s[..|sep|] == sep {
      var rest := SplitOn(s[|sep|..], sep);
      SplitOnPiecesFree(s[|sep|..], sep);
      assert r == [""] + rest;
      forall i | 0 <= i < |r|
        ensures !HasInfix(r[i], sep)
      {
        if i > 0 {
          assert r[i] == rest[i - 1];
        } else {
          assert forall k :: 0 <= k <= |r[0]| ==> !InfixAt(r[0], sep, k);
        }
      }
    } else {
      var rest := SplitOn(s[1..], sep);
      SplitOnPiecesFree(s[1..], sep);
      SplitOnHeadIsPrefix(s[1..], sep);
      assert r == [[s[0]] + rest[0]] + rest[1..];
      assert !InfixAt(s, sep, 0);
      HeadPieceFree(s, rest[0], sep);
      forall i | 0 <= i < |r|
        ensures !HasInfix(r[i], sep)
      {
        if i > 0 {
          assert r[i] == rest[i];
        }
      }
    }
  }

  /** Putting the first character of `s` before a separator-free prefix of `s[1..]` adds no separator, when `s` does not start with one. */
  lemma HeadPieceFree(s: string, t: string, sep: string)
    requires |sep| > 0 && |s| > 0 && !HasInfix(t, sep) && !InfixAt(s, sep, 0)
    requires |t| < |s| && t == s[1..][..|t|]
    ensures !HasInfix([s[0]] + t, sep)
  {
    var head := [s[0]] + t;
    assert head == s[..|t| + 1];
    forall k | 0 <= k <= |head|
      ensures !InfixAt(head, sep, k)
    {
      if 0 < k && k + |sep| <= |head| {
        assert head[k..k + |sep|] == t[k - 1..k - 1 + |sep|];
        assert !InfixAt(t, sep, k - 1);
      }
    }
  }

  /** A text with no occurrence of the pattern is left as it is. */
  lemma {:induction false} ReplaceAbsent(s: string, pat: string, rep: string)
    requires |pat| > 0 && !HasInfix(s, pat)
    ensures Replace(s, pat, rep) == s
    decreases |s|
  {
    if |s| >= |pat| {
      assert !InfixAt(s, pat, 0);
      forall k | 0 <= k <= |s[1..]|
        ensures !InfixAt(s[1..], pat, k)
      {
        if k + |pat| <= |s[1..]| {
          assert s[1..][k..k + |pat|] == s[k + 1..k + 1 + |pat|];
          assert !InfixAt(s, pat, k + 1);
        }
      }
      ReplaceAbsent(s[1..], pat, rep);
      assert s == [s[0]] + s[1..];
    }
  }
}

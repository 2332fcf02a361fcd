/** The few string operations of the Go standard library that the modelled code relies on.
    A string is a sequence of characters; comparison is the byte order of the source, which on
    UTF-8 text is the order of the code points. */
module Strings {

  function Lower(c: char): char {
    if 'A' <= c <= 'Z' then (c as int + 32) as char else c
  }

  function ToLower(s: string): (r: string)
    ensures |r| == |s|
    ensures forall i :: 0 <= i < |s| ==>
              if 'A' <= s[i] <= 'Z' then 'a' <= r[i] <= 'z' && r[i] - 'a' == s[i] - 'A' else r[i] == s[i]
  {
    seq(|s|, i requires 0 <= i < |s| => Lower(s[i]))
  }

  predicate HasPrefix(s: string, prefix: string) {
    prefix <= s
  }

  predicate Contains(s: string, part: string) {
    part <= s || (s != [] && Contains(s[1..], part))
  }

  predicate IsSpace(c: char) {
    c in {' ', '\t', '\n', '\r', '\U{0B}', '\U{0C}', '\U{85}', '\U{A0}'}
  }

  function TrimLeft(s: string): string {
    if s != [] && IsSpace(s[0]) then TrimLeft(s[1..]) else s
  }

  function TrimRight(s: string): string {
    if s != [] && IsSpace(s[|s| - 1]) then TrimRight(s[..|s| - 1]) else s
  }

  function TrimSpace(s: string): string {
    TrimRight(TrimLeft(s))
  }

  /** The character does not occur in the string. */
  predicate Free(s: string, c: char) {
    forall i | 0 <= i < |s| :: s[i] != c
  }

  predicate AllFree(parts: seq<string>, c: char) {
    forall k | 0 <= k < |parts| :: Free(parts[k], c)
  }

  // ----- splitting and joining ------------------------------------------------------

  function Split(s: string, c: char): (parts: seq<string>)
    ensures |parts| >= 1
  {
    if s == [] then [[]]
    else
      var rest := Split(s[1..], c);
      if s[0] == c then [[]] + rest else [[s[0]] + rest[0]] + rest[1..]
  }

  function Join(parts: seq<string>, c: char): string {
    if parts == [] then []
    else if |parts| == 1 then parts[0]
    else parts[0] + [c] + Join(parts[1..], c)
  }

  lemma {:induction false} SplitFree(s: string, c: char)
    ensures AllFree(Split(s, c), c)
  {
    if s != [] { SplitFree(s[1..], c); }
  }

  lemma {:induction false} SplitWhole(s: string, c: char)
    requires Free(s, c)
    ensures Split(s, c) == [s]
  {
    if s != [] {
      SplitWhole(s[1..], c);
      assert [s[0]] + s[1..] == s;
    }
  }

  lemma {:induction false} SplitConcat(a: string, b: string, c: char)
    ensures Split(a + [c] + b, c) == Split(a, c) + Split(b, c)
  {
    var s := a + [c] + b;
    if a == [] {
      assert s[1..] == b;
    } else {
      assert s[1..] == a[1..] + [c] + b;
      SplitConcat(a[1..], b, c);
    }
  }

  /** Appending a separator-free text changes only the last part. */
  lemma {:induction false} SplitAppend(s: string, suffix: string, c: char)
    requires Free(suffix, c)
    ensures var parts := Split(s, c);
            Split(s + suffix, c) == parts[..|parts| - 1] + [parts[|parts| - 1] + suffix]
  {
    if s == [] {
      assert s + suffix == suffix;
      SplitWhole(suffix, c);
    } else {
      var rest := Split(s[1..], c);
      assert (s + suffix)[1..] == s[1..] + suffix && (s + suffix)[0] == s[0];
      SplitAppend(s[1..], suffix, c);
      AppendStep(rest, s[0], suffix);
    }
  }

  lemma AppendStep(rest: seq<string>, x: char, suffix: string)
    requires rest != []
    ensures var longer := rest[..|rest| - 1] + [rest[|rest| - 1] + suffix];
            && (var parts := [[]] + rest;
                [[]] + longer == parts[..|parts| - 1] + [parts[|parts| - 1] + suffix])
            && (var parts := [[x] + rest[0]] + rest[1..];
                [[x] + longer[0]] + longer[1..] == parts[..|parts| - 1] + [parts[|parts| - 1] + suffix])
  {
    if |rest| == 1 {
      assert [x] + (rest[0] + suffix) == [x] + rest[0] + suffix;
    }
  }

  lemma {:induction false} SplitJoin(parts: seq<string>, c: char)
    requires parts != [] && AllFree(parts, c)
    ensures Split(Join(parts, c), c) == parts
  {
    SplitWhole(parts[0], c);
    if |parts| > 1 {
      SplitJoin(parts[1..], c);
      SplitConcat(parts[0], Join(parts[1..], c), c);
      assert [parts[0]] + parts[1..] == parts;
    }
  }

  lemma {:induction false} JoinSplit(s: string, c: char)
    ensures Join(Split(s, c), c) == s
  {
    if s != [] {
      var rest := Split(s[1..], c);
      JoinSplit(s[1..], c);
      if s[0] == c {
        assert ([[]] + rest)[1..] == rest;
        assert s == [] + [c] + s[1..];
      } else {
        assert ([[s[0]] + rest[0]] + rest[1..])[1..] == rest[1..];
        assert s == [s[0]] + s[1..];
        if |rest| > 1 {
          assert [s[0]] + (rest[0] + [c] + Join(rest[1..], c)) == ([s[0]] + rest[0]) + [c] + Join(rest[1..], c);
        }
      }
    }
  }

  /** A character that does not occur in a text occurs in none of its parts. */
  lemma {:induction false} SplitWithout(s: string, c: char, x: char)
    requires Free(s, x)
    ensures AllFree(Split(s, c), x)
  {
    if s != [] { SplitWithout(s[1..], c, x); }
  }

  lemma {:induction false} JoinWithout(parts: seq<string>, c: char, x: char)
    requires AllFree(parts, x) && x != c
    ensures Free(Join(parts, c), x)
  {
    if parts != [] {
      assert Free(parts[0], x);
      if |parts| > 1 {
        forall k | 0 <= k < |parts| - 1 ensures Free(parts[1..][k], x) { assert parts[1..][k] == parts[k + 1]; }
        JoinWithout(parts[1..], c, x);
      }
    }
  }

  lemma {:induction false} SplitFirst(s: string, c: char)
    ensures Split(s, c)[0] <= s
  {
    if s != [] { SplitFirst(s[1..], c); }
  }

  /** A separator-free head is determined by the whole text. */
  lemma HeadUnique(a: string, x: string, b: string, y: string, c: char)
    requires Free(a, c) && Free(b, c) && a + [c] + x == b + [c] + y
    ensures a == b && x == y
  {
    hide Split;
    SplitConcat(a, x, c);
    SplitConcat(b, y, c);
    SplitWhole(a, c);
    SplitWhole(b, c);
    assert Split(a + [c] + x, c)[0] == a && Split(b + [c] + y, c)[0] == b;
    assert (a + [c] + x)[|a| + 1..] == x && (b + [c] + y)[|b| + 1..] == y;
  }

  function LastIndex(s: string, c: char): (r: int)
    ensures -1 <= r < |s|
    ensures r >= 0 ==> s[r] == c
    ensures forall i :: r < i < |s| ==> s[i] != c
  {
    LastIndexBelow(s, c, |s|)
  }

  function LastIndexBelow(s: string, c: char, n: nat): (r: int)
    requires n <= |s|
    ensures -1 <= r < n
    ensures r >= 0 ==> s[r] == c
    ensures forall i :: r < i < n ==> s[i] != c
  {
    if n == 0 then -1 else if s[n - 1] == c then n - 1 else LastIndexBelow(s, c, n - 1)
  }

  /** The last part of a split is what follows the last separator. */
  lemma SplitLast(s: string, c: char)
    ensures var parts := Split(s, c); parts[|parts| - 1] == s[LastIndex(s, c) + 1..]
    ensures |Split(s, c)| > 1 <==> !Free(s, c)
  {
    hide Split, LastIndex;
    var r := LastIndex(s, c);
    if r >= 0 {
      var head, tail := s[..r], s[r + 1..];
      assert s[r] == c && Free(tail, c);
      assert s == head + [c] + tail;
      hide Free;
      SplitTail(head, tail, c);
    } else {
      SplitWhole(s, c);
    }
  }

  lemma SplitTail(head: string, tail: string, c: char)
    requires Free(tail, c)
    ensures Split(head + [c] + tail, c) == Split(head, c) + [tail]
  {
    hide Split;
    SplitConcat(head, tail, c);
    SplitWhole(tail, c);
  }

  lemma {:induction false} TrimEnds(s: string)
    ensures var t := TrimSpace(s); t != [] ==> !IsSpace(t[0]) && !IsSpace(t[|t| - 1])
  {
    TrimLeftEnds(s);
    TrimRightEnds(TrimLeft(s));
  }

  lemma {:induction false} TrimLeftEnds(s: string)
    ensures var t := TrimLeft(s); t != [] ==> !IsSpace(t[0])
  {
    if s != [] && IsSpace(s[0]) { TrimLeftEnds(s[1..]); }
  }

  lemma {:induction false} TrimRightEnds(s: string)
    ensures var t := TrimRight(s); t <= s && (t != [] ==> !IsSpace(t[|t| - 1]))
  {
    if s != [] && IsSpace(s[|s| - 1]) { TrimRightEnds(s[..|s| - 1]); }
  }

  lemma {:induction false} TrimLeftKeeps(s: string, c: char)
    requires !IsSpace(c)
    ensures Free(TrimLeft(s), c) <==> Free(s, c)
  {
    if s != [] && IsSpace(s[0]) {
      TrimLeftKeeps(s[1..], c);
      assert s == [s[0]] + s[1..];
    }
  }

  lemma {:induction false} TrimRightKeeps(s: string, c: char)
    requires !IsSpace(c)
    ensures Free(TrimRight(s), c) <==> Free(s, c)
  {
    if s != [] && IsSpace(s[|s| - 1]) {
      TrimRightKeeps(s[..|s| - 1], c);
      assert s == s[..|s| - 1] + [s[|s| - 1]];
    }
  }

  lemma TrimNothing(s: string)
    requires s != [] ==> !IsSpace(s[0]) && !IsSpace(s[|s| - 1])
    ensures TrimSpace(s) == s
  {
  }

  /** What is trimmed are the white space characters at both ends, and no others. */
  lemma TrimSpaceMeans(s: string) returns (i: nat, j: nat)
    ensures i <= j <= |s| && TrimSpace(s) == s[i..j]
    ensures forall k :: 0 <= k < i || j <= k < |s| ==>
              s[k] in {' ', '\t', '\n', '\r', '\U{0B}', '\U{0C}', '\U{85}', '\U{A0}'}
    ensures i < j ==>
              s[i] !in {' ', '\t', '\n', '\r', '\U{0B}', '\U{0C}', '\U{85}', '\U{A0}'}
                && s[j - 1] !in {' ', '\t', '\n', '\r', '\U{0B}', '\U{0C}', '\U{85}', '\U{A0}'}
  {
    i := LeftSpaces(s);
    var n := RightSpaces(s[i..]);
    j := i + n;
    assert s[i..][..n] == s[i..j];
    assert forall k :: j <= k < |s| ==> s[k] == s[i..][k - i];
    TrimEnds(s);
  }

  lemma {:induction false} LeftSpaces(s: string) returns (i: nat)
    ensures i <= |s| && TrimLeft(s) == s[i..] && forall k :: 0 <= k < i ==> IsSpace(s[k])
  {
    i := 0;
    if s != [] && IsSpace(s[0]) {
      var rest := LeftSpaces(s[1..]);
      i := rest + 1;
      assert s[1..][rest..] == s[i..] && forall k :: 0 < k < i ==> s[k] == s[1..][k - 1];
    }
  }

  lemma {:induction false} RightSpaces(s: string) returns (j: nat)
    ensures j <= |s| && TrimRight(s) == s[..j] && forall k :: j <= k < |s| ==> IsSpace(s[k])
  {
    j := |s|;
    if s != [] && IsSpace(s[|s| - 1]) {
      j := RightSpaces(s[..|s| - 1]);
      assert s[..|s| - 1][..j] == s[..j];
    }
  }

  lemma {:induction false} ContainsMeans(s: string, part: string)
    ensures Contains(s, part) <==> exists head: string, tail: string :: s == head + part + tail
  {
    if part <= s {
      assert s == "" + part + s[|part|..];
    } else {
      if s != [] {
        ContainsMeans(s[1..], part);
        if head, tail :| s[1..] == head + part + tail {
          assert s == ([s[0]] + head) + part + tail;
        }
      }
      if head, tail :| s == head + part + tail {
        assert head != "";
        assert s[1..] == head[1..] + part + tail;
      }
    }
  }

  // ----- byte order -----------------------------------------------------------------

  predicate StrLeq(a: string, b: string) {
    if a == [] then true
    else if b == [] then false
    else if a[0] != b[0] then a[0] < b[0]
    else StrLeq(a[1..], b[1..])
  }

  predicate StrLess(a: string, b: string) {
    StrLeq(a, b) && a != b
  }

  lemma {:induction false} StrLeqTotal(a: string, b: string)
    ensures StrLeq(a, b) || StrLeq(b, a)
    ensures StrLeq(a, b) && StrLeq(b, a) ==> a == b
  {
    if a != [] && b != [] && a[0] == b[0] {
      StrLeqTotal(a[1..], b[1..]);
      assert a == [a[0]] + a[1..] && b == [b[0]] + b[1..];
    }
  }

  lemma {:induction false} StrLeqTransitive(a: string, b: string, c: string)
    requires StrLeq(a, b) && StrLeq(b, c)
    ensures StrLeq(a, c)
  {
    if a != [] && a[0] == b[0] && b[0] == c[0] {
      StrLeqTransitive(a[1..], b[1..], c[1..]);
    }
  }

  /** A text comes before every longer text that begins with it. */
  lemma {:induction false} StrLessPrefix(a: string, b: string)
    requires a <= b && a != b
    ensures StrLess(a, b) && !StrLess(b, a)
  {
    if a != [] {
      assert a[1..] <= b[1..] && a[0] == b[0];
      assert a == [a[0]] + a[1..] && b == [b[0]] + b[1..];
      StrLessPrefix(a[1..], b[1..]);
    }
  }

  /** The first position where two strings differ decides their order. */
  lemma {:induction false} StrLessAt(a: string, b: string, k: nat)
    requires k < |a| && k < |b| && a[..k] == b[..k] && a[k] != b[k]
    ensures StrLess(a, b) <==> a[k] < b[k]
    ensures StrLess(b, a) <==> b[k] < a[k]
  {
    if k > 0 {
      assert a[0] == a[..k][0] == b[..k][0] == b[0];
      assert a[1..][..k - 1] == a[..k][1..] && b[1..][..k - 1] == b[..k][1..];
      StrLessAt(a[1..], b[1..], k - 1);
      assert a == [a[0]] + a[1..] && b == [b[0]] + b[1..];
    }
  }
}

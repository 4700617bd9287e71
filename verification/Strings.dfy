/** The string operations of the standard and Boost libraries that the parsers rely on. */
module Strings {
  import opened Wrappers

  predicate IsSpace(c: char) {
    c == ' ' || '\t' <= c <= '\r'
  }

  function TrimLeft(s: string): string {
    if s != [] && IsSpace(s[0]) then TrimLeft(s[1..]) else s
  }

  function TrimRight(s: string): string {
    if s != [] && IsSpace(s[|s| - 1]) then TrimRight(s[..|s| - 1]) else s
  }

  function Trim(s: string): string {
    TrimRight(TrimLeft(s))
  }

  predicate Trimmed(s: string) {
    s != [] ==> !IsSpace(s[0]) && !IsSpace(s[|s| - 1])
  }

  lemma {:induction false} TrimLeftIsSuffix(s: string)
    ensures var t := TrimLeft(s);
            |t| <= |s| && t == s[|s| - |t|..] && (t != [] ==> !IsSpace(t[0]))
  {
    if s != [] && IsSpace(s[0]) {
      TrimLeftIsSuffix(s[1..]);
    }
  }

  lemma {:induction false} TrimRightIsPrefix(s: string)
    ensures var t := TrimRight(s);
            t <= s && (t != [] ==> !IsSpace(t[|t| - 1]))
  {
    if s != [] && IsSpace(s[|s| - 1]) {
      TrimRightIsPrefix(s[..|s| - 1]);
    }
  }

  /** Space, tab, line feed, vertical tab, form feed and carriage return. */
  const BLANKS := " \t\n\U{0B}\U{0C}\r"

  ghost predicate IsBlank(c: char) {
    c in BLANKS
  }

  lemma IsSpaceIff(c: char)
    ensures IsSpace(c) <==> IsBlank(c)
  {
    assert BLANKS == [' ', '\t', '\n', 11 as char, 12 as char, '\r'];
  }

  ghost predicate AllBlank(s: string) {
    forall c <- s :: IsBlank(c)
  }

  /** `t` is `s` without the blanks at both ends. */
  ghost predicate IsTrimOf(t: string, s: string) {
    && (t != "" ==> !IsBlank(t[0]) && !IsBlank(t[|t| - 1]))
    && exists left, right :: Surrounded(s, left, t, right)
  }

  ghost predicate Surrounded(s: string, left: string, t: string, right: string) {
    s == left + t + right && AllBlank(left) && AllBlank(right)
  }

  lemma {:induction false} LeftBlanks(s: string) returns (left: string)
    ensures s == left + TrimLeft(s) && AllBlank(left)
  {
    left := "";
    if s != [] && IsSpace(s[0]) {
      IsSpaceIff(s[0]);
      var rest := LeftBlanks(s[1..]);
      left := [s[0]] + rest;
    }
  }

  lemma {:induction false} RightBlanks(s: string) returns (right: string)
    ensures s == TrimRight(s) + right && AllBlank(right)
  {
    right := "";
    if s != [] && IsSpace(s[|s| - 1]) {
      IsSpaceIff(s[|s| - 1]);
      var rest := RightBlanks(s[..|s| - 1]);
      right := rest + [s[|s| - 1]];
      assert s == s[..|s| - 1] + [s[|s| - 1]];
    }
  }

  lemma Joined(s: string, left: string, t: string, u: string, right: string)
    requires s == left + t && t == u + right
    ensures s == left + u + right
  {
  }

  lemma TrimEnds(s: string)
    ensures var u := Trim(s); u != "" ==> !IsBlank(u[0]) && !IsBlank(u[|u| - 1])
  {
    var t, u := TrimLeft(s), Trim(s);
    TrimLeftIsSuffix(s);
    TrimRightIsPrefix(t);
    if u != "" {
      IsSpaceIff(u[0]);
      IsSpaceIff(u[|u| - 1]);
    }
    hide TrimLeft, TrimRight, IsBlank, IsSpace;
  }

  lemma TrimSurrounded(s: string) returns (left: string, right: string)
    ensures Surrounded(s, left, Trim(s), right)
  {
    left := LeftBlanks(s);
    right := RightBlanks(TrimLeft(s));
    Joined(s, left, TrimLeft(s), Trim(s), right);
    hide TrimLeft, TrimRight, AllBlank;
  }

  /** Exactly the blanks at both ends are dropped. */
  lemma TrimDropsBlanks(s: string)
    ensures IsTrimOf(Trim(s), s)
  {
    TrimEnds(s);
    var left, right := TrimSurrounded(s);
    hide Trim, Surrounded, IsBlank;
  }

  /** Trimming gives a trimmed string, made of characters of the original, and changes exactly
      the strings that are not trimmed. */
  lemma TrimSpec(s: string)
    ensures Trimmed(Trim(s))
    ensures |Trim(s)| <= |s| && forall c <- Trim(s) :: c in s
    ensures Trim(s) == s <==> Trimmed(s)
  {
    TrimLeftIsSuffix(s);
    TrimRightIsPrefix(TrimLeft(s));
  }

  /** Trimming the end of a string whose start is not blank gives a prefix. */
  lemma TrimIsPrefix(s: string)
    requires s != [] ==> !IsSpace(s[0])
    ensures Trim(s) <= s
  {
    TrimRightIsPrefix(s);
  }

  /** All parts between delimiters, empty ones included. */
  function Split(s: string, d: char): (parts: seq<string>)
    ensures parts != []
  {
    if s == [] then [[]]
    else
      var rest := Split(s[1..], d);
      if s[0] == d then [[]] + rest else [[s[0]] + rest[0]] + rest[1..]
  }

  function Join(parts: seq<string>, d: char): string
    requires parts != []
  {
    if |parts| == 1 then parts[0] else parts[0] + [d] + Join(parts[1..], d)
  }

  lemma {:induction false} JoinSplit(s: string, d: char)
    ensures Join(Split(s, d), d) == s
  {
    if s != [] {
      JoinSplit(s[1..], d);
      var parts, rest := Split(s, d), Split(s[1..], d);
      if s[0] == d {
        assert parts[1..] == rest;
      } else if |rest| > 1 {
        assert parts[1..] == rest[1..];
      }
    }
  }

  lemma {:induction false} PartsLackDelimiter(s: string, d: char)
    ensures forall p <- Split(s, d) :: d !in p && forall c <- p :: c in s
  {
    if s != [] {
      PartsLackDelimiter(s[1..], d);
      var parts, rest := Split(s, d), Split(s[1..], d);
      forall p <- parts ensures d !in p && forall c <- p :: c in s {
        if p !in rest && s[0] != d {
          assert rest[0] in rest;
          assert p == [s[0]] + rest[0];
        }
      }
    }
  }

  lemma {:induction false} SplitNone(s: string, d: char)
    requires d !in s
    ensures Split(s, d) == [s]
  {
    if s != [] {
      var c := s[0];
      assert c in s;
      SplitNone(s[1..], d);
      assert [c] + s[1..] == s;
    }
  }

  lemma {:induction false} SplitFirst(a: string, b: string, d: char)
    requires d !in a
    ensures Split(a + [d] + b, d) == [a] + Split(b, d)
  {
    var s := a + [d] + b;
    if a == [] {
      assert s[0] == d && s[1..] == b;
    } else {
      SplitFirst(a[1..], b, d);
      var c := a[0];
      assert c in a && s[0] == c && s[1..] == a[1..] + [d] + b;
      assert [c] + a[1..] == a;
    }
  }

  lemma {:induction false} SplitJoin(parts: seq<string>, d: char)
    requires parts != [] && forall p <- parts :: d !in p
    ensures Split(Join(parts, d), d) == parts
  {
    var first := parts[0];
    assert first in parts;
    if |parts| == 1 {
      SplitNone(first, d);
    } else {
      SplitFirst(first, Join(parts[1..], d), d);
      SplitJoin(parts[1..], d);
    }
  }

  lemma {:induction false} JoinSnoc(parts: seq<string>, last: string, d: char)
    requires parts != []
    ensures Join(parts + [last], d) == Join(parts, d) + [d] + last
  {
    var all := parts + [last];
    if |parts| == 1 {
      assert all[1..] == [last];
    } else {
      JoinSnoc(parts[1..], last, d);
      assert all[1..] == parts[1..] + [last];
    }
  }

  lemma {:induction false} JoinChars(parts: seq<string>, d: char)
    requires parts != []
    ensures forall c <- Join(parts, d) :: c == d || exists p <- parts :: c in p
  {
    if |parts| > 1 {
      JoinChars(parts[1..], d);
    }
  }

  /** What follows the n-th delimiter. */
  function Rest(s: string, d: char, n: nat): Option<string>
    decreases |s|
  {
    if n == 0 then Some(s)
    else if s == [] then None
    else Rest(s[1..], d, if s[0] == d then n - 1 else n)
  }

  lemma {:induction false} RestIsJoin(s: string, d: char, n: nat)
    ensures Rest(s, d, n) == if n < |Split(s, d)| then Some(Join(Split(s, d)[n..], d)) else None
    decreases |s|
  {
    JoinSplit(s, d);
    if n > 0 && s != [] {
      var rest := Split(s[1..], d);
      if s[0] == d {
        RestIsJoin(s[1..], d, n - 1);
        if n - 1 < |rest| { assert Split(s, d)[n..] == rest[n - 1..]; }
      } else {
        RestIsJoin(s[1..], d, n);
        if n < |rest| { assert Split(s, d)[n..] == rest[n..]; }
      }
    }
  }

  lemma {:induction false} RestOfPrefix(p: string, s: string, d: char, n: nat)
    requires p < s && Rest(p, d, n).Some?
    ensures Rest(s, d, n).Some? && |Rest(p, d, n).value| < |Rest(s, d, n).value|
    decreases |s|
  {
    if n > 0 {
      RestOfPrefix(p[1..], s[1..], d, if s[0] == d then n - 1 else n);
    }
  }

  /** The position of the last occurrence. */
  function RFind(s: string, c: char): (r: Option<nat>)
    ensures r.None? ==> c !in s
    ensures r.Some? ==> r.value < |s| && s[r.value] == c && c !in s[r.value + 1..]
  {
    if s == [] then None
    else if s[|s| - 1] == c then Some(|s| - 1)
    else RFind(s[..|s| - 1], c)
  }

  lemma {:induction false} RFindAt(a: string, c: char, b: string)
    requires c !in b
    ensures RFind(a + [c] + b, c) == Some(|a|)
  {
    var s := a + [c] + b;
    if b != [] {
      var last := b[|b| - 1];
      assert last in b;
      RFindAt(a, c, b[..|b| - 1]);
      assert s[..|s| - 1] == a + [c] + b[..|b| - 1];
    }
  }

  // ------------------------------------------------------------ order of strings

  /** Character by character, a prefix first. */
  predicate Less(a: string, b: string) {
    b != [] && (a == [] || a[0] < b[0] || (a[0] == b[0] && Less(a[1..], b[1..])))
  }

  /** At the first place where they differ the smaller string has the smaller character, or has
      ended. */
  lemma LessIff(a: string, b: string)
    ensures Less(a, b) <==> exists k: nat :: SmallerAt(a, b, k)
  {
    if Less(a, b) {
      var k := FirstSmaller(a, b);
    }
    forall k: nat | SmallerAt(a, b, k) ensures Less(a, b) {
      SmallerIsLess(a, b, k);
    }
  }

  lemma {:induction false} FirstSmaller(a: string, b: string) returns (k: nat)
    requires Less(a, b)
    ensures SmallerAt(a, b, k)
  {
    k := 0;
    if a != [] && a[0] == b[0] {
      var c, x, y := a[0], a[1..], b[1..];
      var j := FirstSmaller(x, y);
      k := j + 1;
      assert a[..k] == [c] + x[..j] && b[..k] == [c] + y[..j];
    } else {
      assert a[..0] == b[..0];
    }
  }

  lemma {:induction false} SmallerIsLess(a: string, b: string, k: nat)
    requires SmallerAt(a, b, k)
    ensures Less(a, b)
  {
    if k > 0 {
      assert a[0] == a[..k][0] && b[0] == b[..k][0];
      var x, y := a[1..], b[1..];
      assert x[..k - 1] == a[..k][1..] && y[..k - 1] == b[..k][1..];
      SmallerIsLess(x, y, k - 1);
    }
  }

  ghost predicate SmallerAt(a: string, b: string, k: nat) {
    k <= |a| && k < |b| && a[..k] == b[..k] && (k == |a| || a[k] < b[k])
  }

  lemma {:induction false} LessIsTotal(a: string, b: string)
    ensures a == b || Less(a, b) || Less(b, a)
  {
    if a != [] && b != [] && a[0] == b[0] {
      LessIsTotal(a[1..], b[1..]);
      assert a == [a[0]] + a[1..] && b == [b[0]] + b[1..];
    }
  }

  lemma {:induction false} LessIsTransitive(a: string, b: string, c: string)
    requires Less(a, b) && Less(b, c)
    ensures Less(a, c)
  {
    if a != [] && a[0] == b[0] && b[0] == c[0] {
      LessIsTransitive(a[1..], b[1..], c[1..]);
    }
  }

  lemma {:induction false} LessIsStrict(a: string)
    ensures !Less(a, a)
  {
    if a != [] {
      LessIsStrict(a[1..]);
    }
  }

  predicate IsLeast(k: string, s: set<string>) {
    k in s && forall other <- s :: other == k || Less(k, other)
  }

  lemma {:induction false} LeastExists(s: set<string>)
    requires s != {}
    ensures exists k :: k in s && IsLeast(k, s)
    decreases s
  {
    var x :| x in s;
    if s == {x} {
      assert IsLeast(x, s);
    } else {
      LeastExists(s - {x});
      var rest := s - {x};
      var k :| k in rest && IsLeast(k, rest);
      assert forall other <- s :: other == x || other in rest;
      LessIsTotal(k, x);
      if Less(x, k) {
        forall other <- s ensures other == x || Less(x, other) {
          if other != x && other != k { LessIsTransitive(x, k, other); }
        }
        assert IsLeast(x, s);
      } else {
        assert IsLeast(k, s);
      }
    }
  }
}

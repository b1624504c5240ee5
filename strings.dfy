/**
 * The JavaScript string operations the application relies on: `trim`, `split` on a
 * one-character separator, `join`, `includes`, and an ASCII `toLowerCase`.
 * Strings are sequences of Unicode scalar values.
 */
module Strings {

  /** The code points ECMAScript's `String.prototype.trim` strips: WhiteSpace and LineTerminator. */
  predicate IsWhitespace(c: char) {
    || c == ' ' || c == '\t' || c == '\n' || c == '\U{000B}' || c == '\U{000C}' || c == '\r'
    || c == '\U{00A0}' || c == '\U{1680}' || ('\U{2000}' <= c <= '\U{200A}')
    || c == '\U{2028}' || c == '\U{2029}' || c == '\U{202F}' || c == '\U{205F}'
    || c == '\U{3000}' || c == '\U{FEFF}'
  }

  /** No leading or trailing whitespace. */
  predicate Untrimmed(s: string) {
    s == [] || (!IsWhitespace(s[0]) && !IsWhitespace(s[|s| - 1]))
  }

  function TrimStart(s: string): (r: string)
    ensures |r| <= |s| && r == s[|s| - |r|..]
    ensures r == [] || !IsWhitespace(r[0])
    ensures forall i :: 0 <= i < |s| - |r| ==> IsWhitespace(s[i])
  {
    if s != [] && IsWhitespace(s[0]) then TrimStart(s[1..]) else s
  }

  function TrimEnd(s: string): (r: string)
    ensures |r| <= |s| && r == s[..|r|]
    ensures r == [] || !IsWhitespace(r[|r| - 1])
    ensures forall i :: |r| <= i < |s| ==> IsWhitespace(s[i])
  {
    if s != [] && IsWhitespace(s[|s| - 1]) then TrimEnd(s[..|s| - 1]) else s
  }

  /** JavaScript `trim`: the longest infix of `s` with no whitespace at either end. */
  function Trim(s: string): (r: string)
    ensures Untrimmed(r)
    ensures |r| <= |s| && Contains(s, r)
  {
    TrimParts(s);
    TrimEnd(TrimStart(s))
  }

  lemma TrimParts(s: string)
    ensures Untrimmed(TrimEnd(TrimStart(s)))
    ensures |TrimEnd(TrimStart(s))| <= |s| && Contains(s, TrimEnd(TrimStart(s)))
  {
    TrimEndKeepsStart(TrimStart(s));
    TrimmedInfix(s);
  }

  /** Trimming the end of a string that starts with no whitespace leaves no edge whitespace. */
  lemma TrimEndKeepsStart(t: string)
    requires t == [] || !IsWhitespace(t[0])
    ensures Untrimmed(TrimEnd(t))
  {
    var r := TrimEnd(t);
    if r != [] {
      assert r[0] == t[0];
    }
  }

  /** Both trims together cut an infix out of the string. */
  lemma TrimmedInfix(s: string)
    ensures |TrimEnd(TrimStart(s))| <= |s| && Contains(s, TrimEnd(TrimStart(s)))
  {
    var t := TrimStart(s);
    var r := TrimEnd(t);
    var k := |s| - |t|;
    assert t == s[k..];
    assert r == t[..|r|];
    assert t[..|r|] == s[k..k + |r|];
    ContainsInfix(s, k, r);
  }

  /** The string trims to nothing. */
  predicate IsBlank(s: string) {
    Trim(s) == []
  }

  lemma {:induction false} TrimStartBlank(s: string)
    ensures TrimStart(s) == [] <==> forall i :: 0 <= i < |s| ==> IsWhitespace(s[i])
  {
    if s != [] && IsWhitespace(s[0]) {
      TrimStartBlank(s[1..]);
      assert forall i :: 1 <= i < |s| ==> s[i] == s[1..][i - 1];
    }
  }

  /** A string is blank exactly when every character is whitespace. */
  lemma BlankIffAllWhitespace(s: string)
    ensures IsBlank(s) <==> forall i :: 0 <= i < |s| ==> IsWhitespace(s[i])
  {
    TrimStartBlank(s);
  }

  /** Trimming a string that has no edge whitespace leaves it unchanged. */
  lemma TrimUntrimmed(s: string)
    requires Untrimmed(s)
    ensures Trim(s) == s
  {
  }

  /** A non-empty string with no edge whitespace is not blank. */
  lemma UntrimmedNotBlank(s: string)
    requires s != [] && Untrimmed(s)
    ensures !IsBlank(s)
  {
    TrimUntrimmed(s);
  }

  /** Number of occurrences of `c` in `s`. */
  function Count(s: string, c: char): nat {
    if s == [] then 0 else (if s[0] == c then 1 else 0) + Count(s[1..], c)
  }

  /** JavaScript `split` on a one-character separator: the maximal separator-free pieces, in order. */
  function Split(s: string, sep: char): (parts: seq<string>)
    ensures |parts| == Count(s, sep) + 1
    ensures forall i :: 0 <= i < |parts| ==> sep !in parts[i]
  {
    if s == [] then [[]]
    else
      var rest := Split(s[1..], sep);
      if s[0] == sep then [[]] + rest
      else [[s[0]] + rest[0]] + rest[1..]
  }

  /** JavaScript `join`: the pieces with the separator between neighbours. */
  function Join(xs: seq<string>, sep: string): string {
    if xs == [] then []
    else if |xs| == 1 then xs[0]
    else xs[0] + sep + Join(xs[1..], sep)
  }

  /** A join holds nothing but the pieces' characters and the separator's. */
  lemma {:induction false} JoinChars(xs: seq<string>, sep: string)
    ensures forall c :: c in Join(xs, sep) ==> c in sep || exists k :: 0 <= k < |xs| && c in xs[k]
  {
    if |xs| > 1 {
      JoinChars(xs[1..], sep);
      forall c | c in Join(xs, sep) && c !in sep
        ensures exists k :: 0 <= k < |xs| && c in xs[k]
      {
        if c !in xs[0] {
          assert c in Join(xs[1..], sep);
          var k :| 0 <= k < |xs[1..]| && c in xs[1..][k];
          assert c in xs[k + 1];
        }
      }
    }
  }

  /** Joining the pieces of a split with the same separator gives back the original string. */
  lemma {:induction false} JoinSplit(s: string, sep: char)
    ensures Join(Split(s, sep), [sep]) == s
  {
    if s != [] {
      var rest := Split(s[1..], sep);
      JoinSplit(s[1..], sep);
      if s[0] == sep {
        assert Split(s, sep)[1..] == rest;
      } else if |rest| > 1 {
        assert Split(s, sep)[1..] == rest[1..];
        calc {
          Join(Split(s, sep), [sep]);
          ([s[0]] + rest[0]) + [sep] + Join(rest[1..], [sep]);
          [s[0]] + (rest[0] + [sep] + Join(rest[1..], [sep]));
          [s[0]] + Join(rest, [sep]);
          [s[0]] + s[1..];
        }
      }
      assert [s[0]] + s[1..] == s;
    }
  }

  lemma {:induction false} SplitNoSeparator(a: string, sep: char)
    requires sep !in a
    ensures Split(a, sep) == [a]
  {
    if a != [] {
      SplitNoSeparator(a[1..], sep);
      assert [a[0]] + a[1..] == a;
    }
  }

  lemma {:induction false} SplitAtSeparator(a: string, b: string, sep: char)
    requires sep !in a
    ensures Split(a + [sep] + b, sep) == [a] + Split(b, sep)
  {
    var s := a + [sep] + b;
    if a == [] {
      assert s[0] == sep && s[1..] == b;
    } else {
      assert s[0] == a[0] && s[1..] == a[1..] + [sep] + b;
      SplitAtSeparator(a[1..], b, sep);
      assert [a[0]] + a[1..] == a;
    }
  }

  /** Splitting a join of separator-free, non-empty list recovers the list. */
  lemma {:induction false} SplitJoin(xs: seq<string>, sep: char)
    requires xs != []
    requires forall i :: 0 <= i < |xs| ==> sep !in xs[i]
    ensures Split(Join(xs, [sep]), sep) == xs
  {
    if |xs| == 1 {
      SplitNoSeparator(xs[0], sep);
    } else {
      SplitJoin(xs[1..], sep);
      SplitAtSeparator(xs[0], Join(xs[1..], [sep]), sep);
      assert [xs[0]] + xs[1..] == xs;
    }
  }

  /** The piece count of a split is one more than the number of separators. */
  lemma SplitLength(s: string, sep: char)
    ensures |Split(s, sep)| == Count(s, sep) + 1
  {
  }

  /** `sub` is a prefix of `s`. */
  predicate IsPrefix(sub: string, s: string) {
    |sub| <= |s| && s[..|sub|] == sub
  }

  /** JavaScript `includes`: `sub` occurs somewhere in `s`. */
  predicate Contains(s: string, sub: string)
    decreases |s|
  {
    IsPrefix(sub, s) || (s != [] && Contains(s[1..], sub))
  }

  /** Every string contains every one of its infixes. */
  lemma {:induction false} ContainsInfix(s: string, k: nat, sub: string)
    requires k + |sub| <= |s| && s[k..k + |sub|] == sub
    ensures Contains(s, sub)
  {
    if k > 0 {
      assert s[1..][k - 1..k - 1 + |sub|] == sub;
      ContainsInfix(s[1..], k - 1, sub);
    }
  }

  /** Every string contains the empty string, so an empty search term matches everything. */
  lemma ContainsEmpty(s: string)
    ensures Contains(s, [])
  {
    ContainsInfix(s, 0, []);
  }

  /** An occurrence of `sub` in `s` starts at some index. */
  lemma {:induction false} ContainsAt(s: string, sub: string) returns (k: nat)
    requires Contains(s, sub)
    ensures k + |sub| <= |s| && s[k..k + |sub|] == sub
    decreases |s|
  {
    if IsPrefix(sub, s) {
      k := 0;
    } else {
      var j := ContainsAt(s[1..], sub);
      assert s[1..][j..j + |sub|] == s[j + 1..j + 1 + |sub|];
      k := j + 1;
    }
  }

  /** What occurs in a part of `s` occurs in `s`, so a longer search term matches less. */
  lemma ContainsTransitive(s: string, mid: string, sub: string)
    requires Contains(s, mid) && Contains(mid, sub)
    ensures Contains(s, sub)
  {
    var k := ContainsAt(s, mid);
    var j := ContainsAt(mid, sub);
    assert s[k..k + |mid|] == mid;
    forall i | 0 <= i < |sub|
      ensures s[k + j..k + j + |sub|][i] == sub[i]
    {
      assert mid[j + i] == sub[i];
      assert s[k + j + i] == s[k..k + |mid|][j + i];
    }
    ContainsInfix(s, k + j, sub);
  }

  /** Every character of a contained string is a character of the containing one. */
  lemma {:induction false} ContainsMembers(s: string, sub: string)
    requires Contains(s, sub)
    ensures forall c :: c in sub ==> c in s
    decreases |s|
  {
    if IsPrefix(sub, s) {
      assert sub == s[..|sub|];
    } else {
      ContainsMembers(s[1..], sub);
      assert forall c :: c in s[1..] ==> c in s;
    }
  }

  /** Every character of a piece of a split is a character of the split string. */
  lemma {:induction false} SplitPieceMembers(s: string, sep: char, i: int)
    requires 0 <= i < |Split(s, sep)|
    ensures forall c :: c in Split(s, sep)[i] ==> c in s
  {
    if s != [] {
      var rest := Split(s[1..], sep);
      assert forall c :: c in s[1..] ==> c in s;
      if s[0] == sep {
        if i > 0 {
          SplitPieceMembers(s[1..], sep, i - 1);
        }
      } else if i == 0 {
        SplitPieceMembers(s[1..], sep, 0);
      } else {
        SplitPieceMembers(s[1..], sep, i);
      }
    }
  }

  /** One step of `Split`: a first character that is the separator starts a new piece. */
  lemma SplitCons(c: char, t: string, sep: char)
    ensures Split([c] + t, sep)
         == if c == sep then [[]] + Split(t, sep) else [[c] + Split(t, sep)[0]] + Split(t, sep)[1..]
  {
    assert ([c] + t)[0] == c && ([c] + t)[1..] == t;
  }

  /**
   * Splitting `a`, a separator and a separator-free `b` gives at least two pieces, the last of
   * them `b`, whatever `a` holds.
   */
  lemma {:induction false} SplitEndsWith(a: string, b: string, sep: char)
    requires sep !in b
    ensures |Split(a + [sep] + b, sep)| >= 2
    ensures Split(a + [sep] + b, sep)[|Split(a + [sep] + b, sep)| - 1] == b
  {
    if a == [] {
      assert a + [sep] + b == [sep] + b;
      SplitCons(sep, b, sep);
      SplitNoSeparator(b, sep);
    } else {
      var t := a[1..] + [sep] + b;
      assert a + [sep] + b == [a[0]] + t;
      SplitEndsWith(a[1..], b, sep);
      SplitCons(a[0], t, sep);
    }
  }

  /** The last piece of a split: what follows the last separator, or all of `s` when there is none. */
  function LastPiece(s: string, sep: char): (r: string)
    ensures sep !in r
  {
    var parts := Split(s, sep);
    parts[|parts| - 1]
  }

  /** The last piece of `a`, a separator and a separator-free `b` is `b`, whatever `a` holds. */
  lemma LastPieceAfterSeparator(a: string, b: string, sep: char)
    requires sep !in b
    ensures LastPiece(a + [sep] + b, sep) == b
  {
    SplitEndsWith(a, b, sep);
  }

  /** ASCII part of `toLowerCase`. */
  function LowerChar(c: char): (r: char)
    ensures 'A' <= c <= 'Z' ==> r != c && 'a' <= r <= 'z'
    ensures !('A' <= c <= 'Z') ==> r == c
  {
    if 'A' <= c <= 'Z' then (c as int + 32) as char else c
  }

  function Lower(s: string): (r: string)
    ensures |r| == |s|
    ensures forall i :: 0 <= i < |s| ==> r[i] == LowerChar(s[i])
  {
    seq(|s|, i requires 0 <= i < |s| => LowerChar(s[i]))
  }

  /** Lowering is idempotent, so a stored lowercase search term lowers to itself. */
  lemma LowerIdempotent(s: string)
    ensures Lower(Lower(s)) == Lower(s)
  {
  }

  /** Lowering both sides keeps an occurrence, so a lowercase search finds text typed in any case. */
  lemma {:induction false} ContainsLower(s: string, sub: string)
    requires Contains(s, sub)
    ensures Contains(Lower(s), Lower(sub))
    decreases |s|
  {
    if IsPrefix(sub, s) {
      assert Lower(s)[..|sub|] == Lower(sub);
    } else {
      ContainsLower(s[1..], sub);
      assert Lower(s)[1..] == Lower(s[1..]);
    }
  }
}

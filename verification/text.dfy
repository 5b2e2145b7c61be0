/**
 * String operations of the JavaScript runtime that the metrics core relies on:
 * `String.prototype.split` and `Array.prototype.join` with a one-character
 * separator, ASCII `toLowerCase`, and the decimal rendering of a whole number.
 * Strings are sequences of characters.
 */
module Text {

  /** `s.split(c)`: the pieces of `s` between occurrences of `c`, in order; never empty. */
  function Split(s: string, c: char): (parts: seq<string>)
    ensures |parts| >= 1
    decreases |s|
  {
    if s == [] then [[]]
    else
      var rest := Split(s[1..], c);
      if s[0] == c then [[]] + rest
      else [[s[0]] + rest[0]] + rest[1..]
  }

  /** `parts.join(c)`: the pieces with one `c` between neighbours; the empty list joins to "". */
  function Join(parts: seq<string>, c: char): string
    decreases |parts|
  {
    if |parts| == 0 then []
    else if |parts| == 1 then parts[0]
    else parts[0] + [c] + Join(parts[1..], c)
  }

  /** The last element of a non-empty list (`pop()` on a list that is then discarded). */
  function Last<T>(xs: seq<T>): T
    requires |xs| > 0
  {
    xs[|xs| - 1]
  }

  /** Number of occurrences of `c` in `s`. */
  function CountChar(s: string, c: char): nat
    decreases |s|
  {
    if s == [] then 0 else (if s[0] == c then 1 else 0) + CountChar(s[1..], c)
  }

  /** Total number of occurrences of `c` over all pieces. */
  function CountInAll(parts: seq<string>, c: char): nat
    decreases |parts|
  {
    if parts == [] then 0 else CountChar(parts[0], c) + CountInAll(parts[1..], c)
  }

  /** True when no piece contains `c`. */
  predicate AllFree(parts: seq<string>, c: char)
  {
    forall i :: 0 <= i < |parts| ==> c !in parts[i]
  }

  lemma {:induction false} CountCharZero(s: string, c: char)
    ensures CountChar(s, c) == 0 <==> c !in s
    decreases |s|
  {
    if s != [] {
      CountCharZero(s[1..], c);
      assert s == [s[0]] + s[1..];
    }
  }

  lemma {:induction false} CountCharAppend(a: string, b: string, c: char)
    ensures CountChar(a + b, c) == CountChar(a, c) + CountChar(b, c)
    decreases |a|
  {
    if a != [] {
      assert (a + b)[1..] == a[1..] + b;
      CountCharAppend(a[1..], b, c);
    } else {
      assert a + b == b;
    }
  }

  lemma {:induction false} CountInAllZero(parts: seq<string>, c: char)
    ensures CountInAll(parts, c) == 0 <==> AllFree(parts, c)
    decreases |parts|
  {
    if parts != [] {
      CountCharZero(parts[0], c);
      CountInAllZero(parts[1..], c);
      if AllFree(parts[1..], c) && c !in parts[0] {
        forall i | 0 <= i < |parts| ensures c !in parts[i] {
          if i > 0 { assert parts[i] == parts[1..][i - 1]; }
        }
      }
      if AllFree(parts, c) {
        forall i | 0 <= i < |parts[1..]| ensures c !in parts[1..][i] {
          assert parts[1..][i] == parts[i + 1];
        }
      }
    }
  }

  /** No piece produced by `Split(s, c)` contains the separator. */
  lemma {:induction false} SplitPiecesFree(s: string, c: char)
    ensures AllFree(Split(s, c), c)
    decreases |s|
  {
    if s != [] {
      SplitPiecesFree(s[1..], c);
      var rest := Split(s[1..], c);
      var parts := Split(s, c);
      if s[0] != c {
        assert c !in [s[0]] + rest[0];
        forall i | 0 <= i < |parts| ensures c !in parts[i] {
          if i > 0 { assert parts[i] == rest[i]; }
        }
      } else {
        forall i | 0 <= i < |parts| ensures c !in parts[i] {
          if i > 0 { assert parts[i] == rest[i - 1]; }
        }
      }
    }
  }

  /** A string without the separator splits into itself alone. */
  lemma {:induction false} SplitNoSeparator(a: string, c: char)
    requires c !in a
    ensures Split(a, c) == [a]
    decreases |a|
  {
    if a != [] {
      assert c !in a[1..];
      SplitNoSeparator(a[1..], c);
      assert [a[0]] + a[1..] == a;
    }
  }

  /** A separator-free prefix followed by the separator becomes the first piece. */
  lemma {:induction false} SplitAfterPiece(a: string, b: string, c: char)
    requires c !in a
    ensures Split(a + [c] + b, c) == [a] + Split(b, c)
    decreases |a|
  {
    var s := a + [c] + b;
    if a == [] {
      assert s[0] == c && s[1..] == b;
    } else {
      assert s[0] == a[0] && s[1..] == a[1..] + [c] + b;
      assert c !in a[1..];
      SplitAfterPiece(a[1..], b, c);
      assert [a[0]] + a[1..] == a;
    }
  }

  /** Splitting undoes joining exactly when no piece contains the separator. */
  lemma {:induction false} SplitJoin(parts: seq<string>, c: char)
    ensures Split(Join(parts, c), c) == parts <==> |parts| >= 1 && AllFree(parts, c)
    decreases |parts|
  {
    if |parts| >= 1 && AllFree(parts, c) {
      if |parts| == 1 {
        SplitNoSeparator(parts[0], c);
      } else {
        assert c !in parts[0];
        assert AllFree(parts[1..], c) by {
          forall i | 0 <= i < |parts[1..]| ensures c !in parts[1..][i] {
            assert parts[1..][i] == parts[i + 1];
          }
        }
        SplitJoin(parts[1..], c);
        SplitAfterPiece(parts[0], Join(parts[1..], c), c);
        assert [parts[0]] + parts[1..] == parts;
      }
    }
    if Split(Join(parts, c), c) == parts {
      SplitPiecesFree(Join(parts, c), c);
    }
  }

  /** Joining the pieces of a split gives back the original string. */
  lemma {:induction false} JoinSplit(s: string, c: char)
    ensures Join(Split(s, c), c) == s
    decreases |s|
  {
    if s != [] {
      var rest := Split(s[1..], c);
      JoinSplit(s[1..], c);
      assert [s[0]] + s[1..] == s;
      if s[0] == c {
        assert Split(s, c) == [[]] + rest;
        assert ([[]] + rest)[1..] == rest;
      } else {
        assert Split(s, c) == [[s[0]] + rest[0]] + rest[1..];
        JoinExtendFirst([s[0]], rest, c);
      }
    }
  }

  /** Prefixing the first piece prefixes the join. */
  lemma JoinExtendFirst(p: string, rest: seq<string>, c: char)
    requires |rest| >= 1
    ensures Join([p + rest[0]] + rest[1..], c) == p + Join(rest, c)
  {
    var parts := [p + rest[0]] + rest[1..];
    if |rest| > 1 {
      assert parts[1..] == rest[1..];
    }
  }

  /** Joining pieces free of `c` with a different separator leaves the result free of `c`. */
  lemma {:induction false} JoinFree(parts: seq<string>, sep: char, c: char)
    requires c != sep && AllFree(parts, c)
    ensures c !in Join(parts, sep)
    decreases |parts|
  {
    if |parts| > 1 {
      assert AllFree(parts[1..], c) by {
        forall i | 0 <= i < |parts[1..]| ensures c !in parts[1..][i] {
          assert parts[1..][i] == parts[i + 1];
        }
      }
      JoinFree(parts[1..], sep, c);
      assert c !in parts[0];
    }
  }

  /** A split has one more piece than the string has separators. */
  lemma {:induction false} SplitCount(s: string, c: char)
    ensures |Split(s, c)| == CountChar(s, c) + 1
    decreases |s|
  {
    if s != [] {
      SplitCount(s[1..], c);
    }
  }

  /** The separators of a join are those inside the pieces plus one between each pair. */
  lemma {:induction false} CountJoin(parts: seq<string>, c: char)
    requires |parts| >= 1
    ensures CountChar(Join(parts, c), c) == CountInAll(parts, c) + |parts| - 1
    decreases |parts|
  {
    if |parts| == 1 {
      assert parts[1..] == [];
    } else {
      CountJoin(parts[1..], c);
      CountCharAppend(parts[0] + [c], Join(parts[1..], c), c);
      CountCharAppend(parts[0], [c], c);
      assert [c][1..] == [];
    }
  }

  /**
   * Splitting a join of `n >= 1` pieces yields exactly `n` pieces if and only if
   * no piece contains the separator; otherwise it yields more.
   */
  lemma SplitJoinLength(parts: seq<string>, c: char)
    requires |parts| >= 1
    ensures |Split(Join(parts, c), c)| >= |parts|
    ensures |Split(Join(parts, c), c)| == |parts| <==> AllFree(parts, c)
  {
    SplitCount(Join(parts, c), c);
    CountJoin(parts, c);
    CountInAllZero(parts, c);
  }

  /** Whatever precedes the last separator does not affect the last piece. */
  lemma {:induction false} LastPieceAfterSeparator(a: string, b: string, c: char)
    ensures Last(Split(a + [c] + b, c)) == Last(Split(b, c))
    decreases |a|
  {
    var s := a + [c] + b;
    if a == [] {
      assert s[0] == c && s[1..] == b;
    } else {
      assert s[0] == a[0] && s[1..] == a[1..] + [c] + b;
      LastPieceAfterSeparator(a[1..], b, c);
      SeparatorMeansSeveralPieces(s[1..], c);
      assert c in s[1..] by { assert s[1..][|a| - 1] == c; }
    }
  }

  /** A string that contains the separator splits into at least two pieces. */
  lemma SeparatorMeansSeveralPieces(s: string, c: char)
    ensures |Split(s, c)| > 1 <==> c in s
  {
    SplitCount(s, c);
    CountCharZero(s, c);
  }

  /**
   * The last piece of a split is the longest separator-free suffix: it ends the
   * string, contains no separator, and is either the whole string or preceded by one.
   */
  lemma {:induction false} LastPieceIsSuffix(s: string, c: char)
    ensures var e := Last(Split(s, c));
      && |e| <= |s|
      && s[|s| - |e|..] == e
      && c !in e
      && (|e| == |s| <==> c !in s)
      && (|e| < |s| ==> s[|s| - |e| - 1] == c)
    decreases |s|
  {
    SplitPiecesFree(s, c);
    if s != [] {
      var t := s[1..];
      var rest := Split(t, c);
      var l := Last(rest);
      LastPieceIsSuffix(t, c);
      SeparatorMeansSeveralPieces(t, c);
      assert c in s <==> s[0] == c || c in t by { assert s == [s[0]] + t; }
      if s[0] == c || |rest| > 1 {
        assert Last(Split(s, c)) == l;
        assert s[|s| - |l|..] == t[|t| - |l|..];
        if |l| < |t| {
          assert s[|s| - |l| - 1] == t[|t| - |l| - 1];
        }
      } else {
        assert Last(Split(s, c)) == [s[0]] + rest[0];
        assert l == t;
        assert [s[0]] + t == s;
      }
    }
  }

  /** ASCII `toLowerCase` of one character: 'A'..'Z' become 'a'..'z', all else is kept. */
  function LowerChar(ch: char): (r: char)
    ensures !('A' <= r <= 'Z')
    ensures !('A' <= ch <= 'Z') ==> r == ch
    ensures 'a' <= r <= 'z' ==> ('a' <= ch <= 'z' || 'A' <= ch <= 'Z')
  {
    if 'A' <= ch <= 'Z' then (ch as int + 32) as char else ch
  }

  /** `s.toLowerCase()` restricted to ASCII letters. */
  function Lower(s: string): (r: string)
    ensures |r| == |s|
    ensures forall i :: 0 <= i < |s| ==> r[i] == LowerChar(s[i])
  {
    seq(|s|, i requires 0 <= i < |s| => LowerChar(s[i]))
  }

  /** Lower-casing changes only letters, so it keeps every non-letter and is idempotent. */
  lemma LowerKeepsNonLetters(s: string, ch: char)
    requires !('A' <= ch <= 'Z') && !('a' <= ch <= 'z')
    ensures ch in Lower(s) <==> ch in s
    ensures Lower(Lower(s)) == Lower(s)
  {
    var r := Lower(s);
    if ch in r {
      var i :| 0 <= i < |r| && r[i] == ch;
      assert s[i] == ch;
    }
    if ch in s {
      var i :| 0 <= i < |s| && s[i] == ch;
      assert r[i] == ch;
    }
  }

  predicate IsDigit(ch: char)
  {
    '0' <= ch <= '9'
  }

  function DigitChar(d: nat): (ch: char)
    requires d < 10
    ensures IsDigit(ch)
  {
    ('0' as int + d) as char
  }

  /** `String(n)` for a whole number: its decimal digits, most significant first, no leading zero. */
  function NatToString(n: nat): (s: string)
    ensures |s| >= 1
    ensures forall i :: 0 <= i < |s| ==> IsDigit(s[i])
    ensures |s| > 1 ==> s[0] != '0'
    decreases n
  {
    if n < 10 then [DigitChar(n)] else NatToString(n / 10) + [DigitChar(n % 10)]
  }

  /** The number a string of decimal digits denotes. */
  function DigitsValue(s: string): nat
    requires forall i :: 0 <= i < |s| ==> IsDigit(s[i])
    decreases |s|
  {
    if s == [] then 0
    else
      assert IsDigit(s[|s| - 1]);
      DigitsValue(s[..|s| - 1]) * 10 + (s[|s| - 1] as int - '0' as int)
  }

  /** Reading the rendered digits back gives the number. */
  lemma {:induction false} NatToStringRoundTrip(n: nat)
    ensures DigitsValue(NatToString(n)) == n
    decreases n
  {
    var s := NatToString(n);
    if n >= 10 {
      NatToStringRoundTrip(n / 10);
      assert s[..|s| - 1] == NatToString(n / 10);
    }
  }
}

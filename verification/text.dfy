/** Python string operations used by the slicing engine, on `seq<char>`. */
module Text {

  /** `s.startswith(prefix)` */
  predicate StartsWith(s: string, prefix: string)
  {
    |prefix| <= |s| && s[..|prefix|] == prefix
  }

  /** `needle in s` for two strings */
  predicate IsSubstring(needle: string, s: string)
    decreases |s|
  {
    StartsWith(s, needle) || (s != [] && IsSubstring(needle, s[1..]))
  }

  /** `s.split(sep)` for a one-character separator: always at least one part. */
  function Split(s: string, sep: char): (parts: seq<string>)
    ensures |parts| >= 1
  {
    if s == [] then [""]
    else
      var rest := Split(s[1..], sep);
      if s[0] == sep then [""] + rest else [[s[0]] + rest[0]] + rest[1..]
  }

  /** `sep.join(parts)` */
  function Join(parts: seq<string>, sep: string): string
  {
    if parts == [] then ""
    else if |parts| == 1 then parts[0]
    else parts[0] + sep + Join(parts[1..], sep)
  }

  /** A string free of the separator splits into itself alone. */
  lemma {:induction false} SplitWithoutSep(a: string, sep: char)
    requires sep !in a
    ensures Split(a, sep) == [a]
  {
    if a != [] {
      assert sep !in a[1..];
      SplitWithoutSep(a[1..], sep);
      assert [a[0]] + a[1..] == a;
    }
  }

  /** Splitting at the first separator peels off the first part. */
  lemma {:induction false} SplitAtFirst(a: string, b: string, sep: char)
    requires sep !in a
    ensures Split(a + [sep] + b, sep) == [a] + Split(b, sep)
  {
    if a == [] {
      assert a + [sep] + b == [sep] + b;
      assert ([sep] + b)[1..] == b;
    } else {
      assert (a + [sep] + b)[1..] == a[1..] + [sep] + b;
      assert sep !in a[1..];
      SplitAtFirst(a[1..], b, sep);
      assert [a[0]] + a[1..] == a;
    }
  }

  /** Joining the parts of a split with the same separator gives the string back. */
  lemma {:induction false} JoinSplit(s: string, sep: char)
    ensures Join(Split(s, sep), [sep]) == s
  {
    if s != [] {
      var rest := Split(s[1..], sep);
      JoinSplit(s[1..], sep);
      if s[0] == sep {
        JoinCons("", rest, [sep]);
      } else {
        JoinMerge(s[0], rest, [sep]);
      }
      assert s == [s[0]] + s[1..];
    }
  }

  lemma JoinCons(a: string, rest: seq<string>, sep: string)
    requires rest != []
    ensures Join([a] + rest, sep) == a + sep + Join(rest, sep)
  {
    assert ([a] + rest)[1..] == rest;
  }

  lemma JoinMerge(c: char, rest: seq<string>, sep: string)
    requires rest != []
    ensures Join([[c] + rest[0]] + rest[1..], sep) == [c] + Join(rest, sep)
  {
    var parts := [[c] + rest[0]] + rest[1..];
    if |rest| > 1 {
      assert parts[1..] == rest[1..];
    }
  }

  /**
    The first part of a split is the longest prefix free of the separator; there is a
    second part exactly when the separator follows it.
  */
  lemma {:induction false} SplitHead(s: string, sep: char)
    ensures var p := Split(s, sep)[0];
      sep !in p && StartsWith(s, p)
      && (|Split(s, sep)| >= 2 <==> |s| > |p|)
      && (|s| > |p| ==> s[|p|] == sep)
  {
    if s != [] && s[0] != sep {
      SplitHead(s[1..], sep);
      var rest := Split(s[1..], sep);
      assert Split(s, sep)[0] == [s[0]] + rest[0];
      assert s == [s[0]] + s[1..];
    }
  }

  /**
    `s.split(sep)` has at least two parts and begins with `a`, `b` exactly when `s` is
    `a`, `sep`, `b`, possibly followed by `sep` and anything.
  */
  lemma {:induction false} SplitFirstTwo(s: string, a: string, b: string, sep: char)
    requires sep !in a && sep !in b
    ensures (|Split(s, sep)| >= 2 && Split(s, sep)[0] == a && Split(s, sep)[1] == b)
      <==> (s == a + [sep] + b || StartsWith(s, a + [sep] + b + [sep]))
  {
    if |Split(s, sep)| >= 2 && Split(s, sep)[0] == a && Split(s, sep)[1] == b {
      SplitHead(s, sep);
      var t := s[|a| + 1..];
      assert s == a + [sep] + t;
      SplitAtFirst(a, t, sep);
      SplitHead(t, sep);
      assert Split(t, sep)[0] == b;
      if |t| == |b| {
        assert t == b;
      } else {
        assert t[..|b| + 1] == b + [sep];
        assert s[..|a + [sep] + b + [sep]|] == a + [sep] + t[..|b| + 1];
      }
    }
    if s == a + [sep] + b {
      SplitAtFirst(a, b, sep);
      SplitWithoutSep(b, sep);
    } else if StartsWith(s, a + [sep] + b + [sep]) {
      var c := s[|a + [sep] + b + [sep]|..];
      assert s == a + [sep] + (b + [sep] + c);
      SplitAtFirst(a, b + [sep] + c, sep);
      SplitAtFirst(b, c, sep);
    }
  }

  /** The last part of `s.split(sep)` (Python's `parts[-1]`). */
  function LastPart(s: string, sep: char): string
  {
    var parts := Split(s, sep);
    parts[|parts| - 1]
  }

  /** ASCII case mapping of `str.lower()` for one character. */
  function LowerChar(c: char): char
  {
    if 'A' <= c <= 'Z' then (c as int + 32) as char else c
  }

  /** `s.lower()` restricted to ASCII letters. */
  function Lower(s: string): (r: string)
    ensures |r| == |s|
    ensures forall i :: 0 <= i < |s| ==> r[i] == LowerChar(s[i])
  {
    seq(|s|, i requires 0 <= i < |s| => LowerChar(s[i]))
  }

  /** `s.upper()` restricted to ASCII letters. */
  function Upper(s: string): (r: string)
    ensures |r| == |s|
  {
    seq(|s|, i requires 0 <= i < |s| => if 'a' <= s[i] <= 'z' then (s[i] as int - 32) as char else s[i])
  }

  predicate IsAsciiUpper(c: char)
  {
    'A' <= c <= 'Z'
  }

  /** `s.replace(target, repl)`: every non-overlapping occurrence, scanning from the left. */
  function ReplaceAll(s: string, target: string, repl: string): string
    requires target != []
    decreases |s|
  {
    if |s| < |target| then s
    else if s[..|target|] == target then repl + ReplaceAll(s[|target|..], target, repl)
    else [s[0]] + ReplaceAll(s[1..], target, repl)
  }

  /** `s.replace(a, b)` for single characters. */
  function ReplaceChar(s: string, a: char, b: char): (r: string)
    ensures |r| == |s|
    ensures forall i :: 0 <= i < |s| ==> r[i] == (if s[i] == a then b else s[i])
  {
    seq(|s|, i requires 0 <= i < |s| => if s[i] == a then b else s[i])
  }

  /** `s.strip(c)`: drop every leading and trailing `c`. */
  function Strip(s: string, c: char): string
  {
    TrimRight(TrimLeft(s, c), c)
  }

  /** `s.lstrip(c)`: a suffix of `s` that does not start with `c`. */
  function TrimLeft(s: string, c: char): (r: string)
    ensures |r| <= |s| && r == s[|s| - |r|..]
    ensures r != [] ==> r[0] != c
  {
    if s != [] && s[0] == c then TrimLeft(s[1..], c) else s
  }

  /** `s.rstrip(c)`: a prefix of `s` that does not end with `c`. */
  function TrimRight(s: string, c: char): (r: string)
    ensures |r| <= |s| && r == s[..|r|]
    ensures r != [] ==> r[|r| - 1] != c
  {
    if s != [] && s[|s| - 1] == c then TrimRight(s[..|s| - 1], c) else s
  }

  /** `s.find(c)`, reading "not found" as `|s|`. */
  function FirstIndex(s: string, c: char): (r: nat)
    ensures r <= |s| && c !in s[..r]
    ensures r < |s| ==> s[r] == c
  {
    if s == [] || s[0] == c then 0 else 1 + FirstIndex(s[1..], c)
  }

  /** `str(n)` for an integer: decimal digits, with a leading '-' when negative. */
  function DecimalString(n: int): string
  {
    if n < 0 then "-" + NatDigits(-n)
    else NatDigits(n)
  }

  function NatDigits(n: nat): string
    decreases n
  {
    if n < 10 then [DigitChar(n)]
    else NatDigits(n / 10) + [DigitChar(n % 10)]
  }

  function DigitChar(d: nat): char
    requires d < 10
  {
    ('0' as int + d) as char
  }

  /** Value of a string of decimal digits: the reading `int(s)` makes of it. */
  function DigitsValue(s: string): int
  {
    if s == [] then 0
    else DigitsValue(s[..|s| - 1]) * 10 + (s[|s| - 1] as int - '0' as int)
  }

  predicate AllDigits(s: string)
  {
    forall i :: 0 <= i < |s| ==> '0' <= s[i] <= '9'
  }

  /** `str(n)` of a natural number is a non-empty digit string that reads back as `n`. */
  lemma {:induction false} NatDigitsRoundTrip(n: nat)
    ensures NatDigits(n) != [] && AllDigits(NatDigits(n))
    ensures DigitsValue(NatDigits(n)) == n
  {
    if n >= 10 {
      NatDigitsRoundTrip(n / 10);
      var s := NatDigits(n);
      assert s[..|s| - 1] == NatDigits(n / 10);
    }
  }
}

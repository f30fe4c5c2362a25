/**
 * The few JavaScript string operations the router relies on:
 * `String.prototype.split` and `Array.prototype.join` with a one-character
 * separator, `join('')`, the global replacement of `//` by `/`, and
 * `String(n)` for an integer.
 */
module Strings {

  /** True when `c` occurs nowhere in `s`. */
  predicate Free(s: string, c: char)
  {
    forall k :: 0 <= k < |s| ==> s[k] != c
  }

  /** `s.split(sep)`: the pieces between occurrences of `sep`, empty pieces included. */
  function Split(s: string, sep: char): (parts: seq<string>)
    ensures |parts| >= 1
    ensures forall k :: 0 <= k < |parts| ==> Free(parts[k], sep)
    decreases |s|
  {
    if s == [] then [""]
    else if s[0] == sep then [""] + Split(s[1..], sep)
    else
      var rest := Split(s[1..], sep);
      [[s[0]] + rest[0]] + rest[1..]
  }

  /** `parts.join(sep)`: the parts with `sep` between neighbours; `[]` joins to "". */
  function Join(parts: seq<string>, sep: char): string
    decreases |parts|
  {
    if parts == [] then ""
    else if |parts| == 1 then parts[0]
    else parts[0] + [sep] + Join(parts[1..], sep)
  }

  /** Joining one more part adds the separator and that part at the end. */
  lemma {:induction false} JoinAppend(parts: seq<string>, x: string, sep: char)
    requires parts != []
    ensures Join(parts + [x], sep) == Join(parts, sep) + [sep] + x
    decreases |parts|
  {
    if |parts| > 1 {
      JoinAppend(parts[1..], x, sep);
      assert (parts + [x])[1..] == parts[1..] + [x];
    } else {
      assert (parts + [x])[1..] == [x];
    }
  }

  /** `parts.join('')`. */
  function Concat(parts: seq<string>): string
    decreases |parts|
  {
    if parts == [] then "" else parts[0] + Concat(parts[1..])
  }

  lemma {:induction false} ConcatAppend(a: seq<string>, b: seq<string>)
    ensures Concat(a + b) == Concat(a) + Concat(b)
    decreases |a|
  {
    if a == [] {
      assert a + b == b;
    } else {
      assert (a + b)[1..] == a[1..] + b;
      ConcatAppend(a[1..], b);
    }
  }

  /** Joining the pieces of a split gives back the original string. */
  lemma {:induction false} JoinSplit(s: string, sep: char)
    ensures Join(Split(s, sep), sep) == s
    decreases |s|
  {
    if s == [] {
    } else if s[0] == sep {
      JoinSplit(s[1..], sep);
      var rest := Split(s[1..], sep);
      assert Split(s, sep) == [""] + rest;
      assert ([""] + rest)[1..] == rest;
    } else {
      JoinSplit(s[1..], sep);
      var rest := Split(s[1..], sep);
      var parts := [[s[0]] + rest[0]] + rest[1..];
      assert Split(s, sep) == parts;
      if |rest| == 1 {
        assert Join(parts, sep) == [s[0]] + rest[0];
      } else {
        assert parts[1..] == rest[1..];
        assert Join(rest, sep) == rest[0] + [sep] + Join(rest[1..], sep);
      }
    }
  }

  /** Splitting a join of separator-free parts gives back the parts. */
  lemma {:induction false} SplitJoin(parts: seq<string>, sep: char)
    requires |parts| >= 1
    requires forall k :: 0 <= k < |parts| ==> Free(parts[k], sep)
    ensures Split(Join(parts, sep), sep) == parts
    decreases |parts|, |parts[0]|
  {
    var p := parts[0];
    if p == [] {
      if |parts| == 1 {
      } else {
        SplitJoin(parts[1..], sep);
        assert Join(parts, sep) == [sep] + Join(parts[1..], sep);
        assert ([sep] + Join(parts[1..], sep))[1..] == Join(parts[1..], sep);
      }
    } else {
      var parts' := [p[1..]] + parts[1..];
      assert parts'[1..] == parts[1..];
      assert Free(p[1..], sep) by {
        forall k | 0 <= k < |p[1..]| ensures p[1..][k] != sep {
          assert p[1..][k] == p[k + 1];
        }
      }
      SplitJoin(parts', sep);
      var joined := Join(parts, sep);
      assert joined == [p[0]] + Join(parts', sep) by {
        if |parts| == 1 {
          assert p == [p[0]] + p[1..];
        } else {
          assert p + [sep] + Join(parts[1..], sep) == [p[0]] + (p[1..] + [sep] + Join(parts[1..], sep));
        }
      }
      assert joined[0] == p[0] && joined[1..] == Join(parts', sep);
      assert p[0] != sep;
      assert [p[0]] + p[1..] == p;
    }
  }

  /** `s.replace(/\/\//g, '/')`: one left-to-right pass replacing each non-overlapping `//` by `/`. */
  function CollapseSlashes(s: string): string
    decreases |s|
  {
    if |s| >= 2 && s[0] == '/' && s[1] == '/' then "/" + CollapseSlashes(s[2..])
    else if s == [] then ""
    else [s[0]] + CollapseSlashes(s[1..])
  }

  /** `s` contains no `//`. */
  predicate NoDouble(s: string)
  {
    forall k :: 0 <= k < |s| - 1 ==> !(s[k] == '/' && s[k + 1] == '/')
  }

  /** `s` contains no `///`. */
  predicate NoTriple(s: string)
  {
    forall k :: 0 <= k < |s| - 2 ==> !(s[k] == '/' && s[k + 1] == '/' && s[k + 2] == '/')
  }

  /** The characters of `s` other than `/`, in order. */
  function NonSlashes(s: string): string
    decreases |s|
  {
    if s == [] then "" else (if s[0] == '/' then "" else [s[0]]) + NonSlashes(s[1..])
  }

  /** The pass only removes slashes: every other character survives, in order. */
  lemma {:induction false} CollapseKeepsText(s: string)
    ensures NonSlashes(CollapseSlashes(s)) == NonSlashes(s)
    ensures |CollapseSlashes(s)| <= |s|
    decreases |s|
  {
    if |s| >= 2 && s[0] == '/' && s[1] == '/' {
      CollapseKeepsText(s[2..]);
      var c := CollapseSlashes(s[2..]);
      assert ("/" + c)[1..] == c;
      assert s[1..][1..] == s[2..];
    } else if s == [] {
    } else {
      CollapseKeepsText(s[1..]);
      assert ([s[0]] + CollapseSlashes(s[1..]))[1..] == CollapseSlashes(s[1..]);
    }
  }

  lemma NoDoubleTail(s: string, d: nat)
    requires d <= |s| && NoDouble(s)
    ensures NoDouble(s[d..])
  {
    forall k | 0 <= k < |s[d..]| - 1
      ensures !(s[d..][k] == '/' && s[d..][k + 1] == '/')
    {
      assert s[d..][k] == s[k + d] && s[d..][k + 1] == s[k + d + 1];
    }
  }

  lemma NoTripleTail(s: string, d: nat)
    requires d <= |s| && NoTriple(s)
    ensures NoTriple(s[d..])
  {
    forall k | 0 <= k < |s[d..]| - 2
      ensures !(s[d..][k] == '/' && s[d..][k + 1] == '/' && s[d..][k + 2] == '/')
    {
      assert s[d..][k] == s[k + d] && s[d..][k + 1] == s[k + d + 1] && s[d..][k + 2] == s[k + d + 2];
    }
  }

  /** A string without `//` passes through unchanged. */
  lemma {:induction false} CollapseClean(s: string)
    requires NoDouble(s)
    ensures CollapseSlashes(s) == s
    decreases |s|
  {
    if s != [] {
      NoDoubleTail(s, 1);
      CollapseClean(s[1..]);
      if |s| >= 2 {
        assert !(s[0] == '/' && s[1] == '/');
      }
    }
  }

  /** Without a run of three slashes, no `//` is left behind. */
  lemma {:induction false} CollapseNoDouble(s: string)
    requires NoTriple(s)
    ensures NoDouble(CollapseSlashes(s))
    ensures s != [] && s[0] != '/' ==> CollapseSlashes(s) != [] && CollapseSlashes(s)[0] == s[0]
    decreases |s|
  {
    if s == [] {
    } else if |s| >= 2 && s[0] == '/' && s[1] == '/' {
      var t := s[2..];
      NoTripleTail(s, 2);
      CollapseNoDouble(t);
      var c := CollapseSlashes(t);
      if t != [] {
        assert t[0] == s[2];
        assert !(s[0] == '/' && s[1] == '/' && s[2] == '/');
      }
      NoDoubleCons('/', c, t);
    } else {
      NoTripleTail(s, 1);
      CollapseNoDouble(s[1..]);
      var c := CollapseSlashes(s[1..]);
      if s[0] == '/' && |s| >= 2 {
        assert s[1..][0] == s[1];
      }
      NoDoubleCons(s[0], c, s[1..]);
    }
  }

  /** Helper: prepending `c` to a `//`-free pass result keeps it `//`-free. */
  lemma NoDoubleCons(c: char, r: string, t: string)
    requires NoDouble(r)
    requires t != [] && t[0] != '/' ==> r != [] && r[0] == t[0]
    requires t == [] ==> r == []
    requires c == '/' ==> t == [] || t[0] != '/'
    ensures NoDouble([c] + r)
  {
    var s := [c] + r;
    forall k | 0 <= k < |s| - 1
      ensures !(s[k] == '/' && s[k + 1] == '/')
    {
      if k > 0 {
        assert s[k] == r[k - 1] && s[k + 1] == r[k];
      } else {
        assert s[1] == r[0];
      }
    }
  }

  /** A run of `n` slashes. */
  function Slashes(n: nat): (r: string)
    ensures |r| == n
    decreases n
  {
    if n == 0 then "" else "/" + Slashes(n - 1)
  }

  /**
   * The replacement is a single left-to-right pass without overlaps: a run
   * of `n` slashes keeps `(n + 1) / 2` of them (`///` becomes `//`), and
   * what follows the run is collapsed on its own.
   */
  lemma {:induction false} CollapseRun(n: nat, t: string)
    requires t == [] || t[0] != '/'
    ensures CollapseSlashes(Slashes(n) + t) == Slashes((n + 1) / 2) + CollapseSlashes(t)
    decreases n
  {
    if n == 0 {
      assert Slashes(0) + t == t;
    } else if n == 1 {
      LoneSlash(t);
    } else {
      CollapseRun(n - 2, t);
      SlashRun(n, t);
    }
  }

  /** A run of `n >= 2` slashes loses its first pair to one slash, and the scan resumes on the other `n - 2`. */
  lemma SlashRun(n: nat, t: string)
    requires n >= 2
    requires CollapseSlashes(Slashes(n - 2) + t) == Slashes((n - 1) / 2) + CollapseSlashes(t)
    ensures CollapseSlashes(Slashes(n) + t) == Slashes((n + 1) / 2) + CollapseSlashes(t)
  {
    var rest := Slashes(n - 2) + t;
    var h := (n + 1) / 2;
    assert (n - 1) / 2 == h - 1;
    calc {
      CollapseSlashes(Slashes(n) + t);
      { SlashesPair(n);
        Regroup("//", Slashes(n - 2), t); }
      CollapseSlashes("//" + rest);
      { SlashPair(rest); }
      "/" + CollapseSlashes(rest);
      "/" + (Slashes(h - 1) + CollapseSlashes(t));
      { assert Slashes(h) == "/" + Slashes(h - 1); }
      Slashes(h) + CollapseSlashes(t);
    }
  }

  /** A run of at least two slashes starts with a pair. */
  lemma SlashesPair(n: nat)
    requires n >= 2
    ensures Slashes(n) == "//" + Slashes(n - 2)
  {
    Regroup("/", "/", Slashes(n - 2));
  }

  /** Concatenation regroups. */
  lemma Regroup(a: string, b: string, c: string)
    ensures (a + b) + c == a + (b + c)
  {
  }

  /** A slash not followed by another is kept. */
  lemma LoneSlash(t: string)
    requires t == [] || t[0] != '/'
    ensures CollapseSlashes(Slashes(1) + t) == Slashes(1) + CollapseSlashes(t)
  {
    var s := "/" + t;
    assert Slashes(1) == "/" && s[1..] == t;
  }

  /** A leading `//` becomes `/`, and the scan resumes after it. */
  lemma SlashPair(rest: string)
    ensures CollapseSlashes("//" + rest) == "/" + CollapseSlashes(rest)
  {
    assert ("//" + rest)[2..] == rest;
  }

  /** `a + b` is a prefix of `s` exactly when `a` is and `b` is a prefix of what follows it. */
  lemma PrefixOfConcat(a: string, b: string, s: string)
    ensures (a + b <= s) <==> (a <= s && b <= s[|a|..])
  {
    if a + b <= s {
      assert s[..|a|] == (a + b)[..|a|] == a;
      assert s[|a|..][..|b|] == (a + b)[|a|..];
    }
    if a <= s && b <= s[|a|..] {
      assert s[..|a| + |b|] == a + b;
    }
  }

  /** `String(n)` for an integer: its decimal digits, with a leading `-` when negative. */
  function Decimal(n: int): (r: string)
    ensures r != []
    ensures r[0] == '-' <==> n < 0
    decreases if n < 0 then 1 - n else n
  {
    if n < 0 then "-" + Decimal(-n)
    else if n < 10 then [Digit(n)]
    else Decimal(n / 10) + [Digit(n % 10)]
  }

  /** The character of decimal digit `d`. */
  function Digit(d: int): (c: char)
    requires 0 <= d < 10
    ensures '0' <= c <= '9' && c as int - '0' as int == d
  {
    ('0' as int + d) as char
  }

  /** Every character is a decimal digit. */
  predicate AllDigits(s: string)
  {
    forall k :: 0 <= k < |s| ==> '0' <= s[k] <= '9'
  }

  /** The number a string of decimal digits denotes, read left to right. */
  function DigitsValue(s: string): nat
    requires AllDigits(s)
    decreases |s|
  {
    if s == [] then 0 else DigitsValue(s[..|s| - 1]) * 10 + (s[|s| - 1] as int - '0' as int)
  }

  /** `Number(s)` for an optional `-` followed by decimal digits. */
  function ReadDecimal(s: string): int
    requires s != [] && AllDigits(if s[0] == '-' then s[1..] else s)
  {
    if s[0] == '-' then -(DigitsValue(s[1..]) as int) else DigitsValue(s)
  }

  /** The digits of a non-negative number read back as that number. */
  lemma {:induction false} DigitsRoundTrip(n: nat)
    ensures AllDigits(Decimal(n)) && DigitsValue(Decimal(n)) == n
    decreases n
  {
    if n >= 10 {
      DigitsRoundTrip(n / 10);
      var r := Decimal(n);
      assert r[..|r| - 1] == Decimal(n / 10);
    }
  }

  /** What `Decimal` writes reads back as the number it was given, so different numbers render differently. */
  lemma DecimalRoundTrip(n: int)
    ensures var r := Decimal(n); AllDigits(if r[0] == '-' then r[1..] else r) && ReadDecimal(r) == n
  {
    if n < 0 {
      DigitsRoundTrip(-n);
      assert Decimal(n)[1..] == Decimal(-n);
    } else {
      DigitsRoundTrip(n);
    }
  }
}

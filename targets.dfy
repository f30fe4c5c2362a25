/**
 * One compiled route (lib/target.js): a method, a sequence of literal and
 * parameter segments, and the name under which the controller provides the
 * destination.
 *
 * The route's anchored RegExp is not built as text: `Exec` interprets the
 * segments directly, the way the engine runs their concatenation. A literal
 * (escaped by quotemeta) must occur verbatim at the head of the input. A
 * parameter offers its candidate matches at the head of the input in the
 * engine's priority order, and the first candidate after which the rest of
 * the route still matches wins (backtracking).
 */
module Targets {
  import opened Wrappers
  import opened Strings

  /** A JavaScript value as routing sees it: `null`, text, or an integer. */
  datatype Value = Null | Text(s: string) | Number(n: int)

  /** What a parameter's `validate` returns: `{value}` or `{error}` with a truthy error. */
  datatype Validation = Accept(value: Value) | Reject(error: string)

  /** One match of a parameter pattern at the head of an input: its length and what its groups capture. */
  datatype Alt = Alt(len: nat, groups: seq<string>)

  /** A match of a whole route at the head of an input: its length and all captures, whole-match entry dropped. */
  datatype Hit = Hit(len: nat, captures: seq<string>)

  /**
   * querystring.unescape as seen by `match`; None is the `undefined` read
   * past the end of the captures.
   */
  type Unescape = Option<string> -> string

  /**
   * A parameter descriptor. `regex` is the pattern source ("" when none was
   * given) and `candidates` is what the engine makes of it on a given input.
   * `groupCount` means something only once `Normalize` has filled it in.
   */
  datatype Param = Param(
    name: string,
    regex: string,
    groupCount: nat,
    validate: string -> Validation,
    candidates: string -> seq<Alt>)

  /** A route segment: a literal string or a parameter. */
  datatype Segment = Lit(text: string) | Slot(param: Param)

  /** The default parameter pattern, `([^\/]+)`: a non-empty run of characters other than `/`. */
  const DefaultPattern: string := "([^\\/]+)"

  // ---------------------------------------------------------------- coalesceStrings

  /** One step of coalesceStrings' reduce: a string after a string is appended to it, anything else is pushed. */
  function Push(acc: seq<Segment>, x: Segment): seq<Segment>
  {
    if x.Lit? && |acc| > 0 && acc[|acc| - 1].Lit? then
      acc[..|acc| - 1] + [Lit(acc[|acc| - 1].text + x.text)]
    else
      acc + [x]
  }

  /** The route after coalesceStrings: the reduce, from the left, of `Push` over `route`. */
  function Coalesce(route: seq<Segment>): seq<Segment>
    decreases |route|
  {
    if route == [] then [] else Push(Coalesce(route[..|route| - 1]), route[|route| - 1])
  }

  /** coalesceStrings, with the reduce written as the loop it is. */
  method CoalesceStrings(route: seq<Segment>) returns (acc: seq<Segment>)
    ensures acc == Coalesce(route)
  {
    acc := [];
    var i := 0;
    while i < |route|
      invariant 0 <= i <= |route|
      invariant acc == Coalesce(route[..i])
    {
      var xs := route[i];
      assert route[..i + 1][..i] == route[..i];
      if xs.Lit? && |acc| > 0 && acc[|acc| - 1].Lit? {
        acc := acc[..|acc| - 1] + [Lit(acc[|acc| - 1].text + xs.text)];
      } else {
        acc := acc + [xs];
      }
      i := i + 1;
    }
    assert route[..|route|] == route;
  }

  /** No two neighbouring segments are both literals. */
  predicate NoAdjacentLits(route: seq<Segment>)
  {
    forall k :: 0 <= k < |route| - 1 ==> !(route[k].Lit? && route[k + 1].Lit?)
  }

  /** The parameters of a route, in order. */
  function ParamsOf(route: seq<Segment>): seq<Param>
    decreases |route|
  {
    if route == [] then []
    else (if route[0].Slot? then [route[0].param] else []) + ParamsOf(route[1..])
  }

  /** Every segment is a literal. */
  predicate AllLits(route: seq<Segment>)
  {
    forall k :: 0 <= k < |route| ==> route[k].Lit?
  }

  /** The literal text of a route, parameters contributing nothing. */
  function LitText(route: seq<Segment>): string
    decreases |route|
  {
    if route == [] then ""
    else (if route[0].Lit? then route[0].text else "") + LitText(route[1..])
  }

  lemma {:induction false} ParamsOfAppend(a: seq<Segment>, b: seq<Segment>)
    ensures ParamsOf(a + b) == ParamsOf(a) + ParamsOf(b)
    decreases |a|
  {
    if a == [] {
      assert a + b == b;
    } else {
      assert (a + b)[0] == a[0];
      assert (a + b)[1..] == a[1..] + b;
      ParamsOfAppend(a[1..], b);
    }
  }

  lemma {:induction false} LitTextAppend(a: seq<Segment>, b: seq<Segment>)
    ensures LitText(a + b) == LitText(a) + LitText(b)
    decreases |a|
  {
    if a == [] {
      assert a + b == b;
    } else {
      assert (a + b)[0] == a[0];
      assert (a + b)[1..] == a[1..] + b;
      LitTextAppend(a[1..], b);
    }
  }

  /** The coalesced route never has two neighbouring literals. */
  lemma {:induction false} CoalesceNoAdjacent(route: seq<Segment>)
    ensures NoAdjacentLits(Coalesce(route))
    ensures route != [] ==> Coalesce(route) != [] && (Coalesce(route)[|Coalesce(route)| - 1].Lit? <==> route[|route| - 1].Lit?)
    decreases |route|
  {
    if route != [] {
      var init := route[..|route| - 1];
      var x := route[|route| - 1];
      CoalesceNoAdjacent(init);
      var acc := Coalesce(init);
      var r := Push(acc, x);
      assert r == Coalesce(route);
      forall k | 0 <= k < |r| - 1
        ensures !(r[k].Lit? && r[k + 1].Lit?)
      {
        if x.Lit? && |acc| > 0 && acc[|acc| - 1].Lit? {
          assert r[k] == acc[k];
          if k + 1 < |acc| - 1 { assert r[k + 1] == acc[k + 1]; }
        } else {
          assert r[k] == acc[k];
          if k + 1 < |acc| { assert r[k + 1] == acc[k + 1]; }
        }
      }
    }
  }

  /** Parameters survive coalescing unchanged and in order. */
  lemma {:induction false} CoalesceKeepsParams(route: seq<Segment>)
    ensures ParamsOf(Coalesce(route)) == ParamsOf(route)
    decreases |route|
  {
    if route != [] {
      var init := route[..|route| - 1];
      var x := route[|route| - 1];
      CoalesceKeepsParams(init);
      var acc := Coalesce(init);
      assert route == init + [x];
      ParamsOfAppend(init, [x]);
      if x.Lit? && |acc| > 0 && acc[|acc| - 1].Lit? {
        var last := acc[|acc| - 1];
        assert acc == acc[..|acc| - 1] + [last];
        ParamsOfAppend(acc[..|acc| - 1], [last]);
        ParamsOfAppend(acc[..|acc| - 1], [Lit(last.text + x.text)]);
      } else {
        ParamsOfAppend(acc, [x]);
      }
    }
  }

  /** Coalescing keeps the literal text: runs of strings are concatenated in order. */
  lemma {:induction false} CoalesceKeepsText(route: seq<Segment>)
    ensures LitText(Coalesce(route)) == LitText(route)
    decreases |route|
  {
    if route != [] {
      var init := route[..|route| - 1];
      var x := route[|route| - 1];
      CoalesceKeepsText(init);
      assert route == init + [x];
      LitTextAppend(init, [x]);
      PushKeepsText(Coalesce(init), x);
    }
  }

  /** Pushing a segment appends its literal text. */
  lemma PushKeepsText(acc: seq<Segment>, x: Segment)
    ensures LitText(Push(acc, x)) == LitText(acc) + LitText([x])
  {
    if x.Lit? && |acc| > 0 && acc[|acc| - 1].Lit? {
      var last := acc[|acc| - 1];
      assert acc == acc[..|acc| - 1] + [last];
      LitTextAppend(acc[..|acc| - 1], [last]);
      LitTextAppend(acc[..|acc| - 1], [Lit(last.text + x.text)]);
    } else {
      LitTextAppend(acc, [x]);
    }
  }


  /** A non-empty run of strings becomes one string, their concatenation. */
  lemma {:induction false} CoalesceRun(route: seq<Segment>)
    requires route != [] && AllLits(route)
    ensures Coalesce(route) == [Lit(LitText(route))]
    decreases |route|
  {
    var init := route[..|route| - 1];
    var x := route[|route| - 1];
    assert route == init + [x];
    assert x == Lit(x.text);
    assert LitText([x]) == x.text;
    LitTextAppend(init, [x]);
    if init != [] {
      assert AllLits(init) by {
        forall k | 0 <= k < |init| ensures init[k].Lit? {
          assert init[k] == route[k];
        }
      }
      CoalesceRun(init);
      assert Coalesce(route) == Push([Lit(LitText(init))], x);
    } else {
      assert Coalesce(route) == Push([], x);
    }
  }

  /** A parameter separates runs: what comes before and after it coalesces independently. */
  lemma {:induction false} CoalesceSplitsAtParam(a: seq<Segment>, p: Param, b: seq<Segment>)
    ensures Coalesce(a + [Slot(p)] + b) == Coalesce(a) + [Slot(p)] + Coalesce(b)
    decreases |b|
  {
    var pre := Coalesce(a) + [Slot(p)];
    if b == [] {
      var whole := a + [Slot(p)];
      assert a + [Slot(p)] + b == whole;
      assert whole[..|whole| - 1] == a;
      assert Coalesce(whole) == Push(Coalesce(a), Slot(p));
    } else {
      var b' := b[..|b| - 1];
      var y := b[|b| - 1];
      var whole := a + [Slot(p)] + b;
      assert whole[..|whole| - 1] == a + [Slot(p)] + b';
      assert whole[|whole| - 1] == y;
      assert Coalesce(whole) == Push(Coalesce(a + [Slot(p)] + b'), y);
      CoalesceSplitsAtParam(a, p, b');
      assert Coalesce(b) == Push(Coalesce(b'), y);
      PushAfterParam(pre, Coalesce(b'), y);
    }
  }

  /** Helper: pushing after a parameter only touches what follows it. */
  lemma PushAfterParam(pre: seq<Segment>, c: seq<Segment>, y: Segment)
    requires pre != [] && pre[|pre| - 1].Slot?
    ensures Push(pre + c, y) == pre + Push(c, y)
  {
    if c == [] {
      assert pre + c == pre;
    } else {
      assert (pre + c)[|pre + c| - 1] == c[|c| - 1];
      if y.Lit? && c[|c| - 1].Lit? {
        assert (pre + c)[..|pre + c| - 1] == pre + c[..|c| - 1];
      }
    }
  }

  // ---------------------------------------------------------------- countGroups

  /** A `(` at the head of `src` that opens `(?:`, `(?!` or `(?=`. */
  predicate NonCapturing(src: string)
  {
    |src| >= 3 && src[0] == '(' && src[1] == '?' && (src[2] == ':' || src[2] == '!' || src[2] == '=')
  }

  /**
   * The number of capturing groups countGroups reports: every `(` counts,
   * except the character after a backslash and a `(` opening `(?:`, `(?!` or `(?=`.
   */
  function GroupCount(src: string): nat
    decreases |src|
  {
    if src == [] then 0
    else if src[0] == '\\' then (if |src| < 2 then 0 else GroupCount(src[2..]))
    else if src[0] == '(' then (if NonCapturing(src) then 0 else 1) + GroupCount(src[1..])
    else GroupCount(src[1..])
  }

  /** countGroups: a counter loop whose index skips the character after a backslash. */
  method CountGroups(src: string) returns (count: nat)
    ensures count == GroupCount(src)
  {
    count := 0;
    var i := 0;
    while i < |src|
      invariant 0 <= i <= |src| + 1
      invariant i <= |src| ==> count + GroupCount(src[i..]) == GroupCount(src)
      invariant i == |src| + 1 ==> count == GroupCount(src)
      decreases |src| + 1 - i
    {
      assert src[i..][0] == src[i];
      if src[i] == '\\' {
        if i + 1 < |src| {
          assert src[i..][2..] == src[i + 2..];
        }
        i := i + 1;
      } else if src[i] == '(' {
        assert src[i..][1..] == src[i + 1..];
        if i + 1 < |src| && src[i + 1] == '?' && i + 2 < |src| && (src[i + 2] == ':' || src[i + 2] == '!' || src[i + 2] == '=') {
          assert NonCapturing(src[i..]);
        } else {
          assert !NonCapturing(src[i..]);
          count := count + 1;
        }
      } else {
        assert src[i..][1..] == src[i + 1..];
      }
      i := i + 1;
    }
  }

  /** The number of `(` characters in `src`. */
  function Opens(src: string): nat
    decreases |src|
  {
    if src == [] then 0 else (if src[0] == '(' then 1 else 0) + Opens(src[1..])
  }

  /** countGroups never reports more groups than there are `(` characters. */
  lemma {:induction false} GroupCountBound(src: string)
    ensures GroupCount(src) <= Opens(src)
    decreases |src|
  {
    if src == [] {
    } else if src[0] == '\\' {
      if |src| >= 2 {
        GroupCountBound(src[2..]);
        assert src[1..][1..] == src[2..];
      }
    } else {
      GroupCountBound(src[1..]);
    }
  }

  /** The default pattern has exactly one group. */
  lemma DefaultPatternGroups()
    ensures GroupCount(DefaultPattern) == 1
  {
    var s := DefaultPattern;
    assert s[0] == '(' && s[1] == '[' && !NonCapturing(s);
    assert s[1..][1..] == s[2..];
    assert s[2..][1..] == s[3..];
    assert s[3] == '\\';
    assert s[3..][2..] == s[5..];
    assert s[5..][1..] == s[6..];
    assert s[6..][1..] == s[7..];
    assert s[7..][1..] == s[8..];
    assert s[8..] == [];
  }

  // ---------------------------------------------------------------- normalizeParams

  /** The default pattern's matches at the head of `s`: the longest run of non-`/` characters first, then shorter ones. */
  function DefaultCandidates(s: string): seq<Alt>
  {
    Descending(s, NonSlashRun(s))
  }

  /** The number of leading characters of `s` other than `/`. */
  function NonSlashRun(s: string): (n: nat)
    ensures n <= |s|
    decreases |s|
  {
    if s == [] || s[0] == '/' then 0 else 1 + NonSlashRun(s[1..])
  }

  function Descending(s: string, k: nat): (alts: seq<Alt>)
    requires k <= |s|
    ensures |alts| == k
    decreases k
  {
    if k == 0 then [] else [Alt(k, [s[..k]])] + Descending(s, k - 1)
  }

  /** normalizeParams on one descriptor: the pattern defaults when missing, and its groups are counted. */
  function Normalize(p: Param): (r: Param)
    ensures r.name == p.name && r.validate == p.validate
    ensures r.regex == (if p.regex == "" then DefaultPattern else p.regex)
    ensures r.groupCount == GroupCount(r.regex)
  {
    if p.regex == "" then
      p.(regex := DefaultPattern, groupCount := GroupCount(DefaultPattern), candidates := DefaultCandidates)
    else
      p.(groupCount := GroupCount(p.regex))
  }

  /** The route with every parameter normalized; literals are left alone. */
  function NormalizeRoute(route: seq<Segment>): (r: seq<Segment>)
    ensures |r| == |route|
    ensures forall k :: 0 <= k < |route| ==> r[k] == if route[k].Slot? then Slot(Normalize(route[k].param)) else route[k]
    decreases |route|
  {
    if route == [] then []
    else (if route[0].Slot? then [Slot(Normalize(route[0].param))] else [route[0]]) + NormalizeRoute(route[1..])
  }

  /** A normalized descriptor has a pattern, its group count, and normalizing it again changes nothing. */
  lemma NormalizeIdempotent(p: Param)
    ensures Normalize(p).regex != ""
    ensures Normalize(p).groupCount == GroupCount(Normalize(p).regex)
    ensures Normalize(Normalize(p)) == Normalize(p)
    ensures p.regex == "" ==> Normalize(p).groupCount == 1
  {
    DefaultPatternGroups();
  }

  // ---------------------------------------------------------------- the anchored regex

  /** Runs the anchored route pattern against `s`: the first (highest priority) match at the head of `s`. */
  function Exec(route: seq<Segment>, s: string): (r: Option<Hit>)
    ensures r.Some? ==> r.value.len <= |s|
    decreases |route|, 1, 0
  {
    if route == [] then Some(Hit(0, []))
    else match route[0]
      case Lit(text) =>
        if text <= s then
          match Exec(route[1..], s[|text|..])
          case None => None
          case Some(h) => Some(Hit(|text| + h.len, h.captures))
        else None
      case Slot(p) => TryCandidates(p.candidates(s), route[1..], s)
  }

  /** Backtracking over a parameter's candidates: the first one after which `rest` matches. */
  function TryCandidates(cands: seq<Alt>, rest: seq<Segment>, s: string): (r: Option<Hit>)
    ensures r.Some? ==> r.value.len <= |s|
    decreases |rest| + 1, 0, |cands|
  {
    if cands == [] then None
    else
      var c := cands[0];
      // a candidate longer than the input cannot be a match of it
      if c.len <= |s| then
        match Exec(rest, s[c.len..])
        case Some(h) => Some(Hit(c.len + h.len, c.groups + h.captures))
        case None => TryCandidates(cands[1..], rest, s)
      else TryCandidates(cands[1..], rest, s)
  }

  /** The sum of the parameters' group counts. */
  function TotalGroups(params: seq<Param>): nat
    decreases |params|
  {
    if params == [] then 0 else params[0].groupCount + TotalGroups(params[1..])
  }

  /** Every candidate of the parameter's pattern captures as many groups as countGroups found. */
  ghost predicate Consistent(p: Param)
  {
    forall s: string, k :: 0 <= k < |p.candidates(s)| ==> |p.candidates(s)[k].groups| == p.groupCount
  }

  /** A normalized parameter without a pattern of its own is consistent. */
  lemma DefaultConsistent(p: Param)
    requires p.regex == ""
    ensures Consistent(Normalize(p))
  {
    DefaultPatternGroups();
    forall s: string, k | 0 <= k < |DefaultCandidates(s)|
      ensures |DefaultCandidates(s)[k].groups| == 1
    {
      DescendingGroups(s, NonSlashRun(s), k);
    }
  }

  lemma {:induction false} DescendingGroups(s: string, n: nat, k: nat)
    requires n <= |s| && k < |Descending(s, n)|
    ensures Descending(s, n)[k] == Alt(n - k, [s[..n - k]])
    decreases n
  {
    if k > 0 {
      DescendingGroups(s, n - 1, k - 1);
    }
  }

  /** When every parameter is consistent, a match captures exactly the expected number of groups. */
  lemma {:induction false} ExecCaptureCount(route: seq<Segment>, s: string)
    requires forall k :: 0 <= k < |route| && route[k].Slot? ==> Consistent(route[k].param)
    requires Exec(route, s).Some?
    ensures |Exec(route, s).value.captures| == TotalGroups(ParamsOf(route))
    decreases |route|, 1, 0
  {
    if route != [] {
      var rest := route[1..];
      assert forall k :: 0 <= k < |rest| && rest[k].Slot? ==> Consistent(rest[k].param) by {
        forall k | 0 <= k < |rest| && rest[k].Slot? ensures Consistent(rest[k].param) {
          assert rest[k] == route[k + 1];
        }
      }
      match route[0]
      case Lit(text) =>
        ExecCaptureCount(rest, s[|text|..]);
        assert ParamsOf(route) == ParamsOf(rest);
      case Slot(p) =>
        assert Consistent(p);
        TryCandidatesCount(p, p.candidates(s), rest, s);
        assert ParamsOf(route) == [p] + ParamsOf(rest);
        assert ([p] + ParamsOf(rest))[1..] == ParamsOf(rest);
    }
  }

  lemma {:induction false} TryCandidatesCount(p: Param, cands: seq<Alt>, rest: seq<Segment>, s: string)
    requires Consistent(p)
    requires forall k :: 0 <= k < |cands| ==> |cands[k].groups| == p.groupCount
    requires forall k :: 0 <= k < |rest| && rest[k].Slot? ==> Consistent(rest[k].param)
    requires TryCandidates(cands, rest, s).Some?
    ensures |TryCandidates(cands, rest, s).value.captures| == p.groupCount + TotalGroups(ParamsOf(rest))
    decreases |rest| + 1, 0, |cands|
  {
    var c := cands[0];
    if c.len <= |s| && Exec(rest, s[c.len..]).Some? {
      ExecCaptureCount(rest, s[c.len..]);
    } else {
      assert forall k :: 0 <= k < |cands[1..]| ==> |cands[1..][k].groups| == p.groupCount by {
        forall k | 0 <= k < |cands[1..]| ensures |cands[1..][k].groups| == p.groupCount {
          assert cands[1..][k] == cands[k + 1];
        }
      }
      TryCandidatesCount(p, cands[1..], rest, s);
    }
  }

  /** A route of literals matches exactly the inputs that start with its text, and consumes that text. */
  lemma {:induction false} ExecLiterals(route: seq<Segment>, s: string)
    requires AllLits(route)
    ensures Exec(route, s) == if LitText(route) <= s then Some(Hit(|LitText(route)|, [])) else None
    decreases |route|
  {
    if route != [] {
      var text := route[0].text;
      var rest := LitText(route[1..]);
      assert LitText(route) == text + rest;
      PrefixOfConcat(text, rest, s);
      if text <= s {
        ExecLiterals(route[1..], s[|text|..]);
      }
    }
  }

  /** A default parameter takes the longest run of non-`/` characters that lets the rest of the route match. */
  lemma DefaultSlotGreedy(p: Param, rest: seq<Segment>, s: string)
    requires p.regex == ""
    requires NonSlashRun(s) > 0
    requires Exec(rest, s[NonSlashRun(s)..]).Some?
    ensures Exec([Slot(Normalize(p))] + rest, s)
         == Some(Hit(NonSlashRun(s) + Exec(rest, s[NonSlashRun(s)..]).value.len,
                     [s[..NonSlashRun(s)]] + Exec(rest, s[NonSlashRun(s)..]).value.captures))
  {
    var q := Normalize(p);
    assert q.candidates == DefaultCandidates;
    DefaultHead(s);
    var cands := q.candidates(s);
    assert cands[0] == Alt(NonSlashRun(s), [s[..NonSlashRun(s)]]);
    ExecSlot(q, rest, s);
    TryHead(cands, rest, s);
  }

  /** A route that starts with a parameter tries that parameter's candidates. */
  lemma ExecSlot(q: Param, rest: seq<Segment>, s: string)
    ensures Exec([Slot(q)] + rest, s) == TryCandidates(q.candidates(s), rest, s)
  {
    assert ([Slot(q)] + rest)[0] == Slot(q) && ([Slot(q)] + rest)[1..] == rest;
  }

  /** A first candidate after which the rest matches is the one taken. */
  lemma TryHead(cands: seq<Alt>, rest: seq<Segment>, s: string)
    requires cands != [] && cands[0].len <= |s|
    requires Exec(rest, s[cands[0].len..]).Some?
    ensures TryCandidates(cands, rest, s)
         == Some(Hit(cands[0].len + Exec(rest, s[cands[0].len..]).value.len,
                     cands[0].groups + Exec(rest, s[cands[0].len..]).value.captures))
  {
  }

  /** The default pattern's first candidate is the longest run of non-`/` characters. */
  lemma DefaultHead(s: string)
    requires NonSlashRun(s) > 0
    ensures |DefaultCandidates(s)| > 0 && DefaultCandidates(s)[0] == Alt(NonSlashRun(s), [s[..NonSlashRun(s)]])
  {
  }

  /** A default parameter never matches an input that starts with `/` or is empty. */
  lemma DefaultSlotNeedsText(p: Param, rest: seq<Segment>, s: string)
    requires p.regex == ""
    requires NonSlashRun(s) == 0
    ensures Exec([Slot(Normalize(p))] + rest, s) == None
  {
  }

  // ---------------------------------------------------------------- validation and context

  /** `result[j]`: the capture at index `j`, or `undefined` past the end. */
  function CaptureAt(captures: seq<string>, j: nat): Option<string>
  {
    if j < |captures| then Some(captures[j]) else None
  }

  /** The capture index parameter `i` reads: the group counts of the parameters before it, summed. */
  function Offset(params: seq<Param>, i: nat): nat
    requires i <= |params|
    decreases i
  {
    if i == 0 then 0 else Offset(params, i - 1) + params[i - 1].groupCount
  }

  lemma {:induction false} OffsetIsTotal(params: seq<Param>)
    ensures Offset(params, |params|) == TotalGroups(params)
    decreases |params|
  {
    if params != [] {
      OffsetIsTotal(params[1..]);
      OffsetShift(params, |params|);
    }
  }

  lemma {:induction false} OffsetShift(params: seq<Param>, i: nat)
    requires 1 <= i <= |params|
    ensures Offset(params, i) == params[0].groupCount + Offset(params[1..], i - 1)
    decreases i
  {
    if i > 1 {
      OffsetShift(params, i - 1);
    }
  }

  /** `p.validate(querystring.unescape(raw))`. */
  function Check(p: Param, unescape: Unescape, raw: Option<string>): Validation
  {
    p.validate(unescape(raw))
  }

  /** What `validate` says of parameter `k`, given the unescaped capture at its offset. */
  function Verdict(params: seq<Param>, captures: seq<string>, unescape: Unescape, k: nat): Validation
    requires k < |params|
  {
    Check(params[k], unescape, CaptureAt(captures, Offset(params, k)))
  }

  /** Validates parameters `i..` in order, parameter `i` reading capture `j`; the first rejection aborts. */
  function ValidateFrom(params: seq<Param>, captures: seq<string>, unescape: Unescape, i: nat, j: nat): (r: Option<seq<Value>>)
    requires i <= |params|
    ensures r.Some? ==> |r.value| == |params| - i
    decreases |params| - i
  {
    if i == |params| then Some([])
    else match Check(params[i], unescape, CaptureAt(captures, j))
      case Reject(_) => None
      case Accept(v) =>
        match ValidateFrom(params, captures, unescape, i + 1, j + params[i].groupCount)
        case None => None
        case Some(rest) => Some([v] + rest)
  }

  /**
   * Validation succeeds exactly when every parameter's verdict accepts, each
   * parameter reading the capture at its offset, and yields those values in order.
   */
  lemma {:induction false} ValidateFromSpec(params: seq<Param>, captures: seq<string>, unescape: Unescape, i: nat)
    requires i <= |params|
    ensures ValidateFrom(params, captures, unescape, i, Offset(params, i)).Some?
        <==> forall k :: i <= k < |params| ==> Verdict(params, captures, unescape, k).Accept?
    ensures ValidateFrom(params, captures, unescape, i, Offset(params, i)).Some? ==>
        forall k :: i <= k < |params| ==>
          ValidateFrom(params, captures, unescape, i, Offset(params, i)).value[k - i]
            == Verdict(params, captures, unescape, k).value
    decreases |params| - i
  {
    if i < |params| {
      ValidateFromSpec(params, captures, unescape, i + 1);
      var v := Verdict(params, captures, unescape, i);
      assert Offset(params, i + 1) == Offset(params, i) + params[i].groupCount;
      var r := ValidateFrom(params, captures, unescape, i, Offset(params, i));
      var tail := ValidateFrom(params, captures, unescape, i + 1, Offset(params, i + 1));
      if v.Accept? {
        assert r == (if tail.None? then None else Some([v.value] + tail.value));
        if tail.Some? {
          forall k | i <= k < |params|
            ensures r.value[k - i] == Verdict(params, captures, unescape, k).value
          {
            if k > i { assert r.value[k - i] == tail.value[k - (i + 1)]; }
          }
        }
      } else {
        assert r.None?;
      }
    }
  }

  /** The context map: each parameter's name set to its value, in order (a later equal name overwrites). */
  function ContextOf(params: seq<Param>, values: seq<Value>): map<string, Value>
    requires |values| == |params|
  {
    ContextUpTo(params, values, |params|)
  }

  /** The context map after the first `n` parameters have been entered. */
  function ContextUpTo(params: seq<Param>, values: seq<Value>, n: nat): map<string, Value>
    requires n <= |params| == |values|
    decreases n
  {
    if n == 0 then map[] else ContextUpTo(params, values, n - 1)[params[n - 1].name := values[n - 1]]
  }

  /** The names of the first `n` parameters. */
  function NamesUpTo(params: seq<Param>, n: nat): set<string>
    requires n <= |params|
  {
    set k | 0 <= k < n :: params[k].name
  }

  /** The names of the parameters. */
  function Names(params: seq<Param>): set<string>
  {
    NamesUpTo(params, |params|)
  }

  /** No two parameters share a name. */
  predicate DistinctNames(params: seq<Param>)
  {
    forall a, b :: 0 <= a < b < |params| ==> params[a].name != params[b].name
  }

  lemma {:induction false} ContextUpToKeys(params: seq<Param>, values: seq<Value>, n: nat)
    requires n <= |params| == |values|
    ensures ContextUpTo(params, values, n).Keys == NamesUpTo(params, n)
    decreases n
  {
    if n > 0 {
      ContextUpToKeys(params, values, n - 1);
      assert NamesUpTo(params, n) == NamesUpTo(params, n - 1) + {params[n - 1].name};
    }
  }

  lemma {:induction false} ContextUpToValues(params: seq<Param>, values: seq<Value>, n: nat)
    requires n <= |params| == |values|
    requires DistinctNames(params)
    ensures forall k :: 0 <= k < n ==> params[k].name in ContextUpTo(params, values, n)
    ensures forall k :: 0 <= k < n ==> ContextUpTo(params, values, n)[params[k].name] == values[k]
    decreases n
  {
    if n > 0 {
      ContextUpToValues(params, values, n - 1);
    }
  }

  /** The context has exactly one key per parameter name; with distinct names, parameter `k`'s name maps to value `k`. */
  lemma ContextOfSpec(params: seq<Param>, values: seq<Value>)
    requires |values| == |params|
    ensures ContextOf(params, values).Keys == Names(params)
    ensures DistinctNames(params) ==>
      forall k :: 0 <= k < |params| ==> ContextOf(params, values)[params[k].name] == values[k]
  {
    ContextUpToKeys(params, values, |params|);
    if DistinctNames(params) {
      ContextUpToValues(params, values, |params|);
    }
  }

  /** The first parameter from `i` on whose verdict rejects, or `|params|` when none does. */
  function FirstReject(params: seq<Param>, captures: seq<string>, unescape: Unescape, i: nat): (n: nat)
    requires i <= |params|
    ensures i <= n <= |params|
    ensures forall k :: i <= k < n ==> Verdict(params, captures, unescape, k).Accept?
    ensures n < |params| ==> Verdict(params, captures, unescape, n).Reject?
    decreases |params| - i
  {
    if i == |params| || Verdict(params, captures, unescape, i).Reject? then i
    else FirstReject(params, captures, unescape, i + 1)
  }

  /** One rejection anywhere makes the whole validation fail. */
  lemma RejectionAborts(params: seq<Param>, captures: seq<string>, unescape: Unescape, i: nat)
    requires i < |params| && Verdict(params, captures, unescape, i).Reject?
    ensures ValidateFrom(params, captures, unescape, 0, 0).None?
  {
    ValidateFromSpec(params, captures, unescape, 0);
  }

  /** When every verdict accepts, validation yields exactly the accepted values. */
  lemma AllAccepted(params: seq<Param>, captures: seq<string>, unescape: Unescape, values: seq<Value>)
    requires |values| == |params|
    requires forall k :: 0 <= k < |params| ==> Verdict(params, captures, unescape, k) == Accept(values[k])
    ensures ValidateFrom(params, captures, unescape, 0, 0) == Some(values)
  {
    ValidateFromSpec(params, captures, unescape, 0);
    var r := ValidateFrom(params, captures, unescape, 0, 0);
    assert r.Some?;
    assert |r.value| == |values|;
    forall k | 0 <= k < |params| ensures r.value[k] == values[k] {
      assert r.value[k - 0] == Verdict(params, captures, unescape, k).value;
    }
    assert r.value == values;
  }

  // ---------------------------------------------------------------- Target

  /** One compiled route; everything but the scratch buffer `output` is fixed at construction. */
  class Target {
    /** The request method this route accepts, or `*` for any. */
    const httpMethod: string
    const route: seq<Segment>
    const params: seq<Param>
    const expectCount: nat
    /** The buffer `match` writes validated values into, one slot per parameter. */
    const output: array<Value>
    const name: string

    /** The fields agree with one another as the constructor leaves them. */
    ghost predicate Valid()
    {
      && params == ParamsOf(route)
      && expectCount == Offset(params, |params|)
      && output.Length == |params|
    }

    constructor (httpMethod: string, route: seq<Segment>, target: string)
      ensures this.httpMethod == httpMethod && name == target
      ensures this.route == NormalizeRoute(Coalesce(route))
      ensures Valid() && fresh(output)
      ensures forall k :: 0 <= k < output.Length ==> output[k] == Null
    {
      var coalesced := CoalesceStrings(route);
      var normalized := NormalizeRoute(coalesced);
      var ps := ParamsOf(normalized);
      this.httpMethod := httpMethod;
      this.route := normalized;
      params := ps;
      expectCount := Offset(ps, |ps|);
      output := new Value[|ps|](_ => Null);
      name := target;
    }

    /** `accepts`: the wildcard method accepts everything, any other method only itself. */
    predicate Accepts(m: string)
      ensures httpMethod == "*" ==> Accepts(m)
      ensures httpMethod != "*" ==> (Accepts(m) <==> m == httpMethod)
    {
      httpMethod == "*" || httpMethod == m
    }

    /** `chomp`: `path` with the prefix the route's pattern matches removed. */
    function Chomp(path: string): (rest: string)
      ensures |rest| <= |path| && rest == path[|path| - |rest|..]
      ensures Exec(route, path).None? ==> rest == path
      ensures Exec(route, path).Some? ==> path == path[..Exec(route, path).value.len] + rest
    {
      match Exec(route, path)
      case None => path
      case Some(hit) => path[hit.len..]
    }

    /** What `match` returns: the context map, or None when the pattern, the group count or a validation fails. */
    function Matched(path: string, unescape: Unescape): Option<map<string, Value>>
    {
      match Exec(route, path)
      case None => None
      case Some(hit) =>
        if |hit.captures| != expectCount then None
        else match ValidateFrom(params, hit.captures, unescape, 0, 0)
          case None => None
          case Some(values) => Some(ContextOf(params, values))
    }

    /**
     * `match`: runs the pattern, checks the group count, validates the
     * parameters left to right into `output`, and builds the context only once
     * every one of them has passed.
     */
    method Match(path: string, unescape: Unescape) returns (context: Option<map<string, Value>>)
      requires Valid()
      modifies output
      ensures context == Matched(path, unescape)
      ensures Exec(route, path).None? || |Exec(route, path).value.captures| != expectCount ==>
        output[..] == old(output[..])
      ensures Exec(route, path).Some? && |Exec(route, path).value.captures| == expectCount ==>
        var captures := Exec(route, path).value.captures;
        var n := FirstReject(params, captures, unescape, 0);
        && (forall k :: 0 <= k < n ==> output[k] == Verdict(params, captures, unescape, k).value)
        && (forall k :: n <= k < output.Length ==> output[k] == old(output[k]))
      ensures context.Some? ==>
        output[..] == ValidateFrom(params, Exec(route, path).value.captures, unescape, 0, 0).value
    {
      var result := Exec(route, path);
      if result.None? {
        return None;
      }
      var captures := result.value.captures;
      if |captures| != expectCount {
        return None;
      }
      var ok := ValidateInto(captures, unescape);
      if !ok {
        return None;
      }
      var ctx := ContextFromOutput();
      context := Some(ctx);
    }

    /**
     * The first loop of `match`: validates each parameter into `output`,
     * stopping at the first rejection. The slots before that one hold the
     * accepted values and the rest are left as they were.
     */
    method ValidateInto(captures: seq<string>, unescape: Unescape) returns (ok: bool)
      requires output.Length == |params|
      modifies output
      ensures ok <==> FirstReject(params, captures, unescape, 0) == |params|
      ensures ok <==> ValidateFrom(params, captures, unescape, 0, 0).Some?
      ensures ok ==> output[..] == ValidateFrom(params, captures, unescape, 0, 0).value
      ensures forall k :: 0 <= k < FirstReject(params, captures, unescape, 0) ==>
        output[k] == Verdict(params, captures, unescape, k).value
      ensures forall k :: FirstReject(params, captures, unescape, 0) <= k < output.Length ==> output[k] == old(output[k])
    {
      var i: nat, j: nat := 0, 0;
      while i < |params|
        invariant 0 <= i <= |params|
        invariant j == Offset(params, i)
        invariant FirstReject(params, captures, unescape, i) == FirstReject(params, captures, unescape, 0)
        invariant forall k :: 0 <= k < i ==> Verdict(params, captures, unescape, k) == Accept(output[k])
        invariant forall k :: i <= k < output.Length ==> output[k] == old(output[k])
      {
        var coerced := Check(params[i], unescape, CaptureAt(captures, j));
        assert coerced == Verdict(params, captures, unescape, i);
        if coerced.Reject? {
          RejectionAborts(params, captures, unescape, i);
          return false;
        }
        ghost var before := output[..];
        output[i] := coerced.value;
        assert forall k :: 0 <= k < output.Length && k != i ==> output[k] == before[k];
        j := j + params[i].groupCount;
        i := i + 1;
      }
      AllAccepted(params, captures, unescape, output[..]);
      ok := true;
    }

    /** The second loop of `match`: the context map built from `output`. */
    method ContextFromOutput() returns (ctx: map<string, Value>)
      requires output.Length == |params|
      ensures ctx == ContextOf(params, output[..])
    {
      ctx := map[];
      var k := 0;
      while k < |params|
        invariant 0 <= k <= |params|
        invariant ctx == ContextUpTo(params, output[..], k)
      {
        ctx := ctx[params[k].name := output[k]];
        k := k + 1;
      }
    }
  }

  /**
   * What `match` promises: a context exactly when the pattern matches, the
   * group count is as expected and every parameter's validation accepts;
   * the context then has one key per parameter name and, when the names
   * are distinct, each parameter's accepted value under its name.
   */
  lemma MatchedSpec(t: Target, path: string, unescape: Unescape)
    requires t.Valid()
    ensures t.Matched(path, unescape).Some? <==>
      && Exec(t.route, path).Some?
      && |Exec(t.route, path).value.captures| == t.expectCount
      && forall k :: 0 <= k < |t.params| ==> Verdict(t.params, Exec(t.route, path).value.captures, unescape, k).Accept?
    ensures t.Matched(path, unescape).Some? ==> t.Matched(path, unescape).value.Keys == Names(t.params)
    ensures t.Matched(path, unescape).Some? && DistinctNames(t.params) ==>
      forall k :: 0 <= k < |t.params| ==>
        t.Matched(path, unescape).value[t.params[k].name]
          == Verdict(t.params, Exec(t.route, path).value.captures, unescape, k).value
  {
    if Exec(t.route, path).Some? {
      var captures := Exec(t.route, path).value.captures;
      ValidateFromSpec(t.params, captures, unescape, 0);
      var r := ValidateFrom(t.params, captures, unescape, 0, 0);
      if |captures| == t.expectCount && r.Some? {
        assert t.Matched(path, unescape) == Some(ContextOf(t.params, r.value));
        ContextOfSpec(t.params, r.value);
      }
    }
  }

}

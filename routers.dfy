/**
 * The router (lib/router.js): an ordered list of targets and a controller
 * that maps each target's name to its destination. Forward matching walks
 * the targets in order, descends into nested routers on the chomped path and
 * backtracks when a nested router finds nothing; reversing follows a dotted
 * name down the routers and renders the chain of routes it went through.
 */
module Routers {
  import opened Wrappers
  import opened Strings
  import opened Targets

  /**
   * What a controller entry holds: a handler function, a nested router, or
   * some other truthy value, which `match` passes over and which `reverse`
   * iterates when it is `iterable` (a string, an array) and throws on otherwise.
   */
  datatype Dest = Handler(fn: string) | SubRouter(router: Router) | Plain(iterable: bool)

  /** A router: its targets in order and its controller. */
  datatype Router = Router(targets: seq<Target>, controller: map<string, Dest>)

  /**
   * One frame of a forward match: the controller, the target name, the
   * context its route produced, and the frame of the enclosing router.
   */
  datatype Match = Match(controller: map<string, Dest>, name: string, context: map<string, Value>, next: Option<Match>)
  {
    /** The `target` getter: what the controller provides under this frame's name (None for `undefined`). */
    function Destination(): (d: Option<Dest>)
      ensures d.Some? <==> name in controller
      ensures d.Some? ==> d.value == controller[name]
    {
      Entry(controller, name)
    }
  }

  /** `controller[name]`, None standing for `undefined`. */
  function Entry(controller: map<string, Dest>, name: string): (d: Option<Dest>)
    ensures d.Some? <==> name in controller
    ensures d.Some? ==> d.value == controller[name]
  {
    if name in controller then Some(controller[name]) else None
  }

  /**
   * The functions every plain object inherits from `Object.prototype`:
   * `controller[name]` finds them when the controller has no own `name`.
   */
  const Inherited: set<string> := {
    "constructor", "hasOwnProperty", "isPrototypeOf", "propertyIsEnumerable",
    "toLocaleString", "toString", "valueOf",
    "__defineGetter__", "__defineSetter__", "__lookupGetter__", "__lookupSetter__"
  }

  /**
   * A controller map is what `controller[name]` finds for each name. For a
   * plain object with own entries `own` that is the own entry first, then
   * the functions it inherits (handlers) and, under `__proto__`,
   * `Object.prototype` itself, an object that is neither a function, a
   * router nor iterable.
   */
  function PlainObject(own: map<string, Dest>): (c: map<string, Dest>)
    ensures forall n :: n in own ==> n in c && c[n] == own[n]
    ensures forall n :: n !in own ==> (n in c <==> n in Inherited || n == "__proto__")
    ensures forall n :: n !in own && n in Inherited ==> c[n] == Handler(n)
    ensures "__proto__" !in own ==> c["__proto__"] == Plain(false)
  {
    map n | n in own.Keys + Inherited + {"__proto__"} ::
      if n in own then own[n] else if n in Inherited then Handler(n) else Plain(false)
  }

  /** The error `match` throws when a matching target's name is missing from the controller. */
  datatype MatchError = MissingController(name: string)

  /** The outcome of trying one target: pass over it, or stop the loop with a result. */
  datatype Step<T> = Skip | Stop(result: T)

  // ---------------------------------------------------------------- forward matching

  /** The result of the `match` loop from the `i`-th target on. */
  function MatchFrom(r: Router, m: string, path: string, last: Option<Match>, u: Unescape, i: nat): Result<Option<Match>, MatchError>
    decreases r, |r.targets| - i, 1
  {
    if i >= |r.targets| then Ok(None)
    else match Attempt(r, m, path, last, u, i)
      case Skip => MatchFrom(r, m, path, last, u, i + 1)
      case Stop(result) => result
  }

  /** One iteration of the `match` loop, on the `i`-th target. */
  function Attempt(r: Router, m: string, path: string, last: Option<Match>, u: Unescape, i: nat): Step<Result<Option<Match>, MatchError>>
    requires i < |r.targets|
    decreases r, |r.targets| - i, 0
  {
    var t := r.targets[i];
    if !t.Accepts(m) then Skip
    else match t.Matched(path, u)
      case None => Skip
      case Some(context) =>
        match Entry(r.controller, t.name)
        case None => Stop(Err(MissingController(t.name)))
        case Some(value) =>
          var frame := Match(r.controller, t.name, context, last);
          match value
          case Handler(_) =>
            // a handler has to consume all of the rest of the path
            if t.Chomp(path) != "" then Skip else Stop(Ok(Some(frame)))
          case SubRouter(sub) =>
            var nested := MatchFrom(sub, m, t.Chomp(path), Some(frame), u, 0);
            if nested == Ok(None) then Skip else Stop(nested)
          case Plain(_) => Skip
  }

  /** `Router.prototype.match`: the search from the first target, with no enclosing frame. */
  function Resolve(r: Router, m: string, path: string, u: Unescape): Result<Option<Match>, MatchError>
  {
    MatchFrom(r, m, path, None, u, 0)
  }

  /** The frames of a match chain, innermost first, as `Match.prototype.values` yields them. */
  function Frames(o: Option<Match>): seq<Match>
    decreases o
  {
    match o
    case None => []
    case Some(x) => [x] + Frames(x.next)
  }

  /** Each frame is followed by the one its `next` points to, and the last has none. */
  lemma {:induction false} FramesLinked(o: Option<Match>)
    ensures o.None? <==> Frames(o) == []
    ensures o.Some? ==> Frames(o)[0] == o.value
    ensures forall k :: 0 <= k < |Frames(o)| - 1 ==> Frames(o)[k].next == Some(Frames(o)[k + 1])
    ensures Frames(o) != [] ==> Frames(o)[|Frames(o)| - 1].next == None
    decreases o
  {
    if o.Some? {
      FramesLinked(o.value.next);
    }
  }

  /** `Match.prototype.values`: walks the chain through `next`. */
  method Values(m: Match) returns (frames: seq<Match>)
    ensures frames == Frames(Some(m))
  {
    frames := [];
    var current := Some(m);
    while current.Some?
      invariant frames + Frames(current) == Frames(Some(m))
      decreases current
    {
      frames := frames + [current.value];
      current := current.value.next;
    }
  }

  /** Every name a target of `r`, or of a router nested in it, looks up is in its controller. */
  ghost predicate Complete(r: Router)
    decreases r
  {
    && (forall k :: 0 <= k < |r.targets| ==> Entry(r.controller, r.targets[k].name).Some?)
    && (forall n :: n in r.controller && r.controller[n].SubRouter? ==> Complete(r.controller[n].router))
  }

  /**
   * The search stops at the first target `j` from `i` on that is not passed
   * over and returns what that target returns, which is never "nothing
   * found"; it finds nothing exactly when every target is passed over.
   */
  lemma {:induction false} MatchFirstStop(r: Router, m: string, path: string, last: Option<Match>, u: Unescape, i: nat)
      returns (j: nat)
    requires i <= |r.targets|
    ensures i <= j <= |r.targets|
    ensures forall k :: i <= k < j ==> Attempt(r, m, path, last, u, k).Skip?
    ensures j == |r.targets| ==> MatchFrom(r, m, path, last, u, i) == Ok(None)
    ensures j < |r.targets| ==> Attempt(r, m, path, last, u, j) == Stop(MatchFrom(r, m, path, last, u, i))
    ensures j < |r.targets| ==> MatchFrom(r, m, path, last, u, i) != Ok(None)
    decreases |r.targets| - i
  {
    if i == |r.targets| {
      return i;
    }
    if Attempt(r, m, path, last, u, i).Skip? {
      j := MatchFirstStop(r, m, path, last, u, i + 1);
      forall k | i <= k < j
        ensures Attempt(r, m, path, last, u, k).Skip?
      {
        if k == i {
          assert Attempt(r, m, path, last, u, i).Skip?;
        }
      }
    } else {
      AttemptStopsWithResult(r, m, path, last, u, i);
      j := i;
    }
  }

  /** A target that stops the search never stops it with "nothing found". */
  lemma AttemptStopsWithResult(r: Router, m: string, path: string, last: Option<Match>, u: Unescape, i: nat)
    requires i < |r.targets|
    ensures Attempt(r, m, path, last, u, i) != Stop(Ok(None))
  {
  }

  /** A complete router never throws, however deep the search goes. */
  lemma {:induction false} CompleteNeverThrows(r: Router, m: string, path: string, last: Option<Match>, u: Unescape, i: nat)
    requires Complete(r)
    ensures MatchFrom(r, m, path, last, u, i).Ok?
    decreases r, |r.targets| - i
  {
    if i < |r.targets| {
      var t := r.targets[i];
      if t.Accepts(m) && t.Matched(path, u).Some? && Entry(r.controller, t.name).value.SubRouter? {
        var frame := Match(r.controller, t.name, t.Matched(path, u).value, last);
        CompleteNeverThrows(r.controller[t.name].router, m, t.Chomp(path), Some(frame), u, 0);
      }
      CompleteNeverThrows(r, m, path, last, u, i + 1);
    }
  }

  /**
   * One level of a match chain: target `t` is one of the targets of router
   * `rt` and accepts the method, `frame` belongs to `rt`'s controller, is
   * named after `t` and holds the context its route produced on `path`, and
   * `next` is what `t` chomped off `path`.
   */
  ghost predicate Level(rt: Router, t: Target, frame: Match, path: string, next: string, m: string, u: Unescape)
  {
    && t in rt.targets && frame.controller == rt.controller
    && t.Accepts(m) && t.name == frame.name && t.Matched(path, u) == Some(frame.context) && next == t.Chomp(path)
  }

  /**
   * A match chain through the router tree, outermost level first: the
   * routers `routers` it passed through, the targets `ts` it took in them and
   * the paths `paths` each target was matched against, with the new frames
   * `pre` innermost first. The first target and the outermost frame form a
   * `Level` of the first router from the first path to the second; then
   * either that router's entry for the target is a handler and nothing of
   * the path is left, or it is the next router and the rest is a chain.
   */
  ghost predicate Chain(routers: seq<Router>, pre: seq<Match>, ts: seq<Target>, paths: seq<string>, m: string, u: Unescape)
    decreases |ts|
  {
    && |routers| == |pre| == |ts| >= 1
    && |paths| == |ts| + 1
    && Level(routers[0], ts[0], pre[|pre| - 1], paths[0], paths[1], m, u)
    && if |ts| == 1 then
         && Entry(routers[0].controller, ts[0].name).Some?
         && Entry(routers[0].controller, ts[0].name).value.Handler?
         && paths[1] == ""
       else
         && Entry(routers[0].controller, ts[0].name) == Some(SubRouter(routers[1]))
         && Chain(routers[1..], pre[..|pre| - 1], ts[1..], paths[1..], m, u)
  }

  /** A handler target that chomps the whole path is a chain by itself. */
  lemma ChainOne(rt: Router, frame: Match, t: Target, m: string, path: string, u: Unescape)
    requires Entry(rt.controller, t.name).Some? && Entry(rt.controller, t.name).value.Handler?
    requires Level(rt, t, frame, path, "", m, u)
    ensures Chain([rt], [frame], [t], [path, ""], m, u)
  {
  }

  /** A nested router's chain, extended outwards by the level of the router that led to it. */
  lemma ChainExtend(routers: seq<Router>, pre: seq<Match>, ts: seq<Target>, paths: seq<string>,
                    rt: Router, frame: Match, t: Target, m: string, path: string, u: Unescape)
    requires Chain(routers, pre, ts, paths, m, u)
    requires Entry(rt.controller, t.name) == Some(SubRouter(routers[0]))
    requires Level(rt, t, frame, path, paths[0], m, u)
    ensures Chain([rt] + routers, pre + [frame], [t] + ts, [path] + paths, m, u)
  {
    assert ([rt] + routers)[1..] == routers;
    assert (pre + [frame])[..|pre|] == pre;
    assert ([t] + ts)[1..] == ts;
    assert ([path] + paths)[1..] == paths;
  }

  /**
   * The innermost level of a chain: the last target and the innermost frame
   * form a `Level` of the last router that leaves nothing of the path, and
   * that router's entry for the target is a handler.
   */
  lemma {:induction false} ChainLast(routers: seq<Router>, pre: seq<Match>, ts: seq<Target>, paths: seq<string>, m: string, u: Unescape)
    requires Chain(routers, pre, ts, paths, m, u)
    ensures var n := |ts| - 1;
      && Level(routers[n], ts[n], pre[0], paths[n], "", m, u)
      && Entry(routers[n].controller, ts[n].name).Some?
      && Entry(routers[n].controller, ts[n].name).value.Handler?
    decreases |ts|
  {
    if |ts| > 1 {
      ChainLast(routers[1..], pre[..|pre| - 1], ts[1..], paths[1..], m, u);
    }
  }

  /**
   * The shape of a successful match: the chain is the new frames `pre` on
   * top of `last`, and `pre` with the routers `routers`, starting at `r`,
   * the targets `ts` taken in them and the paths they matched, starting
   * from `path`, is a `Chain`.
   */
  lemma {:induction false} MatchChain(r: Router, m: string, path: string, last: Option<Match>, u: Unescape, i: nat, res: Match)
      returns (routers: seq<Router>, pre: seq<Match>, ts: seq<Target>, paths: seq<string>)
    requires MatchFrom(r, m, path, last, u, i) == Ok(Some(res))
    ensures Frames(Some(res)) == pre + Frames(last)
    ensures Chain(routers, pre, ts, paths, m, u) && routers[0] == r && paths[0] == path
    decreases r, |r.targets| - i, 1
  {
    if i >= |r.targets| {
      assert false;
    }
    if Attempt(r, m, path, last, u, i).Skip? {
      routers, pre, ts, paths := MatchChain(r, m, path, last, u, i + 1, res);
      return;
    }
    routers, pre, ts, paths := StopChain(r, m, path, last, u, i, res);
  }

  /** Concatenation regroups. */
  lemma AppendAssoc<T>(a: seq<T>, b: seq<T>, c: seq<T>)
    ensures a + (b + c) == (a + b) + c
  {
  }

  /** `MatchChain` for a target that stops the search with the match. */
  lemma {:induction false} StopChain(r: Router, m: string, path: string, last: Option<Match>, u: Unescape, i: nat, res: Match)
      returns (routers: seq<Router>, pre: seq<Match>, ts: seq<Target>, paths: seq<string>)
    requires i < |r.targets|
    requires Attempt(r, m, path, last, u, i) == Stop(Ok(Some(res)))
    ensures Frames(Some(res)) == pre + Frames(last)
    ensures Chain(routers, pre, ts, paths, m, u)
    ensures routers[0] == r && paths[0] == path
    decreases r, |r.targets| - i, 0
  {
    var t := r.targets[i];
    var frame := AttemptFound(r, m, path, last, u, i, res);
    assert Frames(Some(frame)) == [frame] + Frames(last);
    var value := Entry(r.controller, t.name).value;
    if value.Handler? {
      ChainOne(r, frame, t, m, path, u);
      return [r], [frame], [t], [path, ""];
    } else {
      assert value.SubRouter?;
      var routers', pre', ts', paths' := MatchChain(value.router, m, t.Chomp(path), Some(frame), u, 0, res);
      assert Entry(r.controller, t.name) == Some(SubRouter(routers'[0]));
      assert Level(r, t, frame, path, paths'[0], m, u);
      ChainExtend(routers', pre', ts', paths', r, frame, t, m, path, u);
      AppendAssoc(pre', [frame], Frames(last));
      return [r] + routers', pre' + [frame], [t] + ts', [path] + paths';
    }
  }

  /**
   * A match found from the top: `values` yields exactly the chain's frames,
   * innermost first; they with the routers from `r` down, the targets taken
   * in them and the paths they matched form a `Chain` over the whole path,
   * and the innermost frame's `target` is a handler.
   */
  lemma ResolveShape(r: Router, m: string, path: string, u: Unescape, res: Match)
      returns (routers: seq<Router>, ts: seq<Target>, paths: seq<string>)
    requires Resolve(r, m, path, u) == Ok(Some(res))
    ensures Chain(routers, Frames(Some(res)), ts, paths, m, u) && routers[0] == r && paths[0] == path
    ensures res.Destination().Some? && res.Destination().value.Handler?
  {
    var pre;
    routers, pre, ts, paths := MatchChain(r, m, path, None, u, 0, res);
    assert Frames(None) == [];
    assert pre + [] == pre;
    assert Frames(Some(res))[0] == res;
    ChainLast(routers, pre, ts, paths, m, u);
  }

  /** What a target that stops the search with a match has established. */
  lemma AttemptFound(r: Router, m: string, path: string, last: Option<Match>, u: Unescape, i: nat, res: Match)
      returns (frame: Match)
    requires i < |r.targets|
    requires Attempt(r, m, path, last, u, i) == Stop(Ok(Some(res)))
    ensures var t := r.targets[i];
      && frame.next == last
      && Level(r, t, frame, path, t.Chomp(path), m, u)
      && Entry(r.controller, t.name).Some?
      && (Entry(r.controller, t.name).value.Handler? ==> t.Chomp(path) == "" && res == frame)
      && (Entry(r.controller, t.name).value.SubRouter? ==>
            MatchFrom(Entry(r.controller, t.name).value.router, m, t.Chomp(path), Some(frame), u, 0) == Ok(Some(res)))
      && !Entry(r.controller, t.name).value.Plain?
  {
    var t := r.targets[i];
    frame := Match(r.controller, t.name, t.Matched(path, u).value, last);
  }

  /** Every target of `r` and of the routers nested in it is as its constructor left it. */
  ghost predicate AllValid(r: Router)
    decreases r
  {
    && (forall k :: 0 <= k < |r.targets| ==> r.targets[k].Valid())
    && (forall n :: n in r.controller && r.controller[n].SubRouter? ==> AllValid(r.controller[n].router))
  }

  /** The output buffers of every target of `r` and of the routers nested in it. */
  ghost function Buffers(r: Router): set<object>
    decreases r
  {
    (set k | 0 <= k < |r.targets| :: r.targets[k].output as object)
    + (set n, o | n in r.controller && r.controller[n].SubRouter? && o in Buffers(r.controller[n].router) :: o)
  }

  /**
   * The `match` loop. Each target's own `match` writes into that target's
   * output buffer, so the search may change every buffer reachable from `r`.
   */
  method RouterMatch(r: Router, m: string, path: string, last: Option<Match>, u: Unescape) returns (result: Result<Option<Match>, MatchError>)
    requires AllValid(r)
    modifies Buffers(r)
    ensures result == MatchFrom(r, m, path, last, u, 0)
    decreases r, 1
  {
    var i := 0;
    while i < |r.targets|
      invariant 0 <= i <= |r.targets|
      invariant MatchFrom(r, m, path, last, u, i) == MatchFrom(r, m, path, last, u, 0)
    {
      var step := TryTarget(r, m, path, last, u, i);
      if step.Stop? {
        return step.result;
      }
      i := i + 1;
    }
    result := Ok(None);
  }

  /** The body of the `match` loop for the `i`-th target: `continue` is Skip, `return` is Stop. */
  method TryTarget(r: Router, m: string, path: string, last: Option<Match>, u: Unescape, i: nat) returns (step: Step<Result<Option<Match>, MatchError>>)
    requires AllValid(r) && i < |r.targets|
    modifies Buffers(r)
    ensures step == Attempt(r, m, path, last, u, i)
    decreases r, 0
  {
    var t := r.targets[i];
    if !t.Accepts(m) {
      return Skip;
    }
    assert t.output in Buffers(r);
    var context := t.Match(path, u);
    if context.None? {
      return Skip;
    }
    var entry := Entry(r.controller, t.name);
    if entry.None? {
      return Stop(Err(MissingController(t.name)));
    }
    var frame := Match(r.controller, t.name, context.value, last);
    var value := entry.value;
    if value.Handler? {
      if t.Chomp(path) != "" {
        return Skip;
      }
      return Stop(Ok(Some(frame)));
    }
    if value.SubRouter? {
      assert Buffers(value.router) <= Buffers(r);
      var nested := RouterMatch(value.router, m, t.Chomp(path), Some(frame), u);
      if nested != Ok(None) {
        return Stop(nested);
      }
    }
    step := Skip;
  }

  /** `Router.prototype.match`. */
  method Route(r: Router, m: string, path: string, u: Unescape) returns (result: Result<Option<Match>, MatchError>)
    requires AllValid(r)
    modifies Buffers(r)
    ensures result == Resolve(r, m, path, u)
  {
    result := RouterMatch(r, m, path, None, u);
  }

  // ---------------------------------------------------------------- reversing

  /** A reverse step: the target taken at one level and the steps above it. */
  datatype ReverseMatch = ReverseMatch(route: Target, prev: Option<ReverseMatch>, length: nat)

  /** `new ReverseMatch(route, prev)`: one level deeper than `prev`. */
  function Link(t: Target, prev: Option<ReverseMatch>): ReverseMatch
  {
    ReverseMatch(t, prev, if prev.Some? then prev.value.length + 1 else 1)
  }

  /** Every step's length is one more than its predecessor's, as `Link` builds them. */
  ghost predicate WellLinked(o: Option<ReverseMatch>)
    decreases o
  {
    match o
    case None => true
    case Some(rm) => rm.length == (if rm.prev.Some? then rm.prev.value.length + 1 else 1) && WellLinked(rm.prev)
  }

  /** The targets of a chain of steps, shallowest first. */
  function Path(o: Option<ReverseMatch>): seq<Target>
    decreases o
  {
    match o
    case None => []
    case Some(rm) => Path(rm.prev) + [rm.route]
  }

  /** Linking keeps a chain well linked and puts the new target at the end of its path. */
  lemma LinkExtends(t: Target, prev: Option<ReverseMatch>)
    requires WellLinked(prev)
    ensures WellLinked(Some(Link(t, prev)))
    ensures Path(Some(Link(t, prev))) == Path(prev) + [t]
  {
  }

  /** A well-linked step's `length` counts the targets on its path. */
  lemma {:induction false} PathLength(o: Option<ReverseMatch>)
    requires WellLinked(o)
    ensures |Path(o)| == if o.Some? then o.value.length else 0
    decreases o
  {
    if o.Some? {
      PathLength(o.value.prev);
    }
  }

  /** Stepping to `prev` drops the last target of the path. */
  lemma PathStep(o: Option<ReverseMatch>)
    requires o.Some? && WellLinked(o)
    ensures WellLinked(o.value.prev)
    ensures |Path(o)| == o.value.length && |Path(o.value.prev)| == o.value.length - 1
    ensures Path(o.value.prev) == Path(o)[..o.value.length - 1]
    ensures Path(o)[o.value.length - 1] == o.value.route
  {
    PathLength(o);
    PathLength(o.value.prev);
  }

  /** `ReverseMatch.prototype.toList`: fills an array from the back while walking `prev`. */
  method ToList(rm: ReverseMatch) returns (list: seq<Target>)
    requires WellLinked(Some(rm))
    ensures list == Path(Some(rm))
    ensures |list| == rm.length
  {
    ghost var whole := Path(Some(rm));
    PathLength(Some(rm));
    var out := new Target[rm.length](_ => rm.route);
    var idx := rm.length;
    var current := Some(rm);
    while current.Some?
      invariant WellLinked(current)
      invariant idx == |Path(current)| <= out.Length
      invariant Path(current) == whole[..idx]
      invariant forall k :: idx <= k < out.Length ==> out[k] == whole[k]
      decreases idx
    {
      PathStep(current);
      out[idx - 1] := current.value.route;
      current := current.value.prev;
      idx := idx - 1;
    }
    assert out[..] == whole;
    list := out[..];
  }

  /** What reversing throws: a parameter with neither key in the arguments, or a destination that is not a router. */
  datatype ReverseError =
    | MissingArgument(fullName: string, name: string, route: string)
    | NotARouter(name: string)

  /** `String(value)`: text as it is, `null` as the word, a number in decimal with its sign. */
  function Stringify(v: Value): (r: string)
    ensures v.Text? ==> r == v.s
    ensures v.Null? ==> r == "null"
    ensures v.Number? ==> r != [] && (r[0] == '-' <==> v.n < 0)
  {
    match v
    case Null => "null"
    case Text(s) => s
    case Number(n) => Decimal(n)
  }

  /** The key prefix of level `k`: the first `k` name bits joined by `.` (`slice` stops at the end). */
  function Prefix(bits: seq<string>, k: nat): (r: string)
    ensures k == 0 ==> r == ""
    ensures k >= |bits| ==> r == Join(bits, '.')
  {
    assert bits[..|bits|] == bits;
    Join(bits[..if k <= |bits| then k else |bits|], '.')
  }

  /** Each level's prefix is the one above it, a `.`, and its own name bit. */
  lemma PrefixExtends(bits: seq<string>, k: nat)
    requires 1 <= k < |bits|
    ensures Prefix(bits, k + 1) == Prefix(bits, k) + "." + bits[k]
  {
    assert bits[..k + 1] == bits[..k] + [bits[k]];
    JoinAppend(bits[..k], bits[k], '.');
  }

  /** When no name bit holds a `.`, splitting a prefix gives back the bits it was made of. */
  lemma PrefixSplits(bits: seq<string>, k: nat)
    requires 1 <= k <= |bits|
    requires forall n :: 0 <= n < |bits| ==> Free(bits[n], '.')
    ensures Split(Prefix(bits, k), '.') == bits[..k]
  {
    SplitJoin(bits[..k], '.');
  }

  /** The value of a parameter: the prefixed key first, then the bare name, else an error naming both. */
  function Lookup(pfx: string, name: string, args: map<string, Value>, bits: seq<string>): (r: Result<string, ReverseError>)
    ensures r.Ok? <==> pfx + "." + name in args || name in args
    ensures pfx + "." + name in args ==> r == Ok(Stringify(args[pfx + "." + name]))
    ensures pfx + "." + name !in args && name in args ==> r == Ok(Stringify(args[name]))
    ensures r.Err? ==> r.error == MissingArgument(pfx + "." + name, name, Join(bits, '.'))
  {
    var fullName := pfx + "." + name;
    if fullName in args then Ok(Stringify(args[fullName]))
    else if name in args then Ok(Stringify(args[name]))
    else Err(MissingArgument(fullName, name, Join(bits, '.')))
  }

  /** A segment's text: a literal as is, a parameter looked up. */
  function Piece(seg: Segment, pfx: string, args: map<string, Value>, bits: seq<string>): Result<string, ReverseError>
  {
    match seg
    case Lit(text) => Ok(text)
    case Slot(p) => Lookup(pfx, p.name, args, bits)
  }

  /** The pieces of one route in order; the first parameter that cannot be filled throws. */
  function RenderRoute(route: seq<Segment>, pfx: string, args: map<string, Value>, bits: seq<string>): (r: Result<seq<string>, ReverseError>)
    ensures r.Ok? ==> |r.value| == |route|
    decreases |route|
  {
    if route == [] then Ok([])
    else match Piece(route[0], pfx, args, bits)
      case Err(e) => Err(e)
      case Ok(x) =>
        match RenderRoute(route[1..], pfx, args, bits)
        case Err(e) => Err(e)
        case Ok(xs) => Ok([x] + xs)
  }

  /** The pieces of the routes of levels `k` onwards, level `k` keyed under `Prefix(bits, k)`. */
  function RenderLevels(ts: seq<Target>, args: map<string, Value>, bits: seq<string>, k: nat): Result<seq<string>, ReverseError>
    decreases |ts| - k
  {
    if k >= |ts| then Ok([])
    else match RenderRoute(ts[k].route, Prefix(bits, k), args, bits)
      case Err(e) => Err(e)
      case Ok(xs) =>
        match RenderLevels(ts, args, bits, k + 1)
        case Err(e) => Err(e)
        case Ok(ys) => Ok(xs + ys)
  }

  /**
   * `render`: every level's pieces joined, then each `//` replaced by `/`.
   * It fails exactly when some parameter has neither of its keys, and then
   * with a missing-argument error naming the whole dotted name.
   */
  function Render(ts: seq<Target>, args: map<string, Value>, bits: seq<string>): (r: Result<string, ReverseError>)
    ensures r.Ok? <==> Resolvable(ts, args, bits, 0)
    ensures r.Err? ==> r.error.MissingArgument? && r.error.route == Join(bits, '.')
  {
    RenderOk(ts, args, bits, 0);
    RenderErrorNames(ts, args, bits);
    match RenderLevels(ts, args, bits, 0)
    case Err(e) => Err(e)
    case Ok(pieces) => Ok(CollapseSlashes(Concat(pieces)))
  }

  /** Segment `seg` of level `k` can be filled: a literal, or a parameter with one of its two keys present. */
  predicate Fillable(seg: Segment, k: nat, args: map<string, Value>, bits: seq<string>)
  {
    seg.Slot? ==> Prefix(bits, k) + "." + seg.param.name in args || seg.param.name in args
  }

  /** Every segment of every level from `k` on can be filled. */
  predicate Resolvable(ts: seq<Target>, args: map<string, Value>, bits: seq<string>, k: nat)
  {
    forall n, j :: k <= n < |ts| && 0 <= j < |ts[n].route| ==> Fillable(ts[n].route[j], n, args, bits)
  }

  /** One route renders exactly when all its segments can be filled, and the error is always a missing key. */
  lemma {:induction false} RenderRouteOk(route: seq<Segment>, k: nat, args: map<string, Value>, bits: seq<string>)
    ensures RenderRoute(route, Prefix(bits, k), args, bits).Ok?
        <==> forall j :: 0 <= j < |route| ==> Fillable(route[j], k, args, bits)
    decreases |route|
  {
    if route != [] {
      RenderRouteOk(route[1..], k, args, bits);
      assert forall j :: 1 <= j < |route| ==> route[j] == route[1..][j - 1];
    }
  }

  /** Rendering succeeds exactly when every parameter on every level has one of its two keys. */
  lemma {:induction false} RenderOk(ts: seq<Target>, args: map<string, Value>, bits: seq<string>, k: nat)
    ensures RenderLevels(ts, args, bits, k).Ok? <==> Resolvable(ts, args, bits, k)
    decreases |ts| - k
  {
    if k < |ts| {
      RenderRouteOk(ts[k].route, k, args, bits);
      RenderOk(ts, args, bits, k + 1);
    }
  }

  /**
   * A route that fails to render fails at its first segment `j` that cannot
   * be filled, with an error naming both keys that were tried and the whole
   * dotted name.
   */
  lemma {:induction false} RenderRouteError(route: seq<Segment>, k: nat, args: map<string, Value>, bits: seq<string>)
      returns (j: nat)
    requires RenderRoute(route, Prefix(bits, k), args, bits).Err?
    ensures j < |route| && route[j].Slot? && !Fillable(route[j], k, args, bits)
    ensures forall j' :: 0 <= j' < j ==> Fillable(route[j'], k, args, bits)
    ensures RenderRoute(route, Prefix(bits, k), args, bits).error
         == MissingArgument(Prefix(bits, k) + "." + route[j].param.name, route[j].param.name, Join(bits, '.'))
    decreases |route|
  {
    if Piece(route[0], Prefix(bits, k), args, bits).Err? {
      j := 0;
    } else {
      var j1 := RenderRouteError(route[1..], k, args, bits);
      j := j1 + 1;
      assert route[j] == route[1..][j1];
      forall j' | 0 <= j' < j
        ensures Fillable(route[j'], k, args, bits)
      {
        if j' > 0 {
          assert route[j'] == route[1..][j' - 1];
        }
      }
    }
  }

  /**
   * Rendering fails at the first level `n` and segment `j`, in rendering
   * order, that cannot be filled; the error names both keys tried there and
   * the whole dotted name.
   */
  lemma {:induction false} RenderError(ts: seq<Target>, args: map<string, Value>, bits: seq<string>, k: nat)
      returns (n: nat, j: nat)
    requires RenderLevels(ts, args, bits, k).Err?
    ensures k <= n < |ts| && j < |ts[n].route| && ts[n].route[j].Slot?
    ensures !Fillable(ts[n].route[j], n, args, bits)
    ensures forall n', j' :: k <= n' < n && 0 <= j' < |ts[n'].route| ==> Fillable(ts[n'].route[j'], n', args, bits)
    ensures forall j' :: 0 <= j' < j ==> Fillable(ts[n].route[j'], n, args, bits)
    ensures RenderLevels(ts, args, bits, k).error
         == MissingArgument(Prefix(bits, n) + "." + ts[n].route[j].param.name, ts[n].route[j].param.name, Join(bits, '.'))
    decreases |ts| - k
  {
    if RenderRoute(ts[k].route, Prefix(bits, k), args, bits).Err? {
      n := k;
      j := RenderRouteError(ts[k].route, k, args, bits);
    } else {
      RenderRouteOk(ts[k].route, k, args, bits);
      n, j := RenderError(ts, args, bits, k + 1);
    }
  }

  /** A failed rendering reports a missing argument together with the whole dotted name. */
  lemma RenderErrorNames(ts: seq<Target>, args: map<string, Value>, bits: seq<string>)
    ensures RenderLevels(ts, args, bits, 0).Err? ==>
      RenderLevels(ts, args, bits, 0).error.MissingArgument? && RenderLevels(ts, args, bits, 0).error.route == Join(bits, '.')
  {
    if RenderLevels(ts, args, bits, 0).Err? {
      var n, j := RenderError(ts, args, bits, 0);
    }
  }

  /** `piece` is what segment `seg` renders to under key prefix `pfx`: a literal's text, or the parameter's value. */
  predicate Fills(seg: Segment, pfx: string, args: map<string, Value>, bits: seq<string>, piece: string)
  {
    match seg
    case Lit(text) => piece == text
    case Slot(p) => Lookup(pfx, p.name, args, bits) == Ok(piece)
  }

  /** A rendered route has one piece per segment, and each is what its segment renders to. */
  lemma {:induction false} RenderRoutePieces(route: seq<Segment>, pfx: string, args: map<string, Value>, bits: seq<string>)
    requires RenderRoute(route, pfx, args, bits).Ok?
    ensures forall j :: 0 <= j < |route| ==> Fills(route[j], pfx, args, bits, RenderRoute(route, pfx, args, bits).value[j])
    decreases |route|
  {
    if route != [] {
      RenderRoutePieces(route[1..], pfx, args, bits);
      var value := RenderRoute(route, pfx, args, bits).value;
      var rest := RenderRoute(route[1..], pfx, args, bits).value;
      assert value == [value[0]] + rest;
      forall j | 0 <= j < |route|
        ensures Fills(route[j], pfx, args, bits, value[j])
      {
        if j > 0 {
          assert route[j] == route[1..][j - 1] && value[j] == rest[j - 1];
        }
      }
    }
  }

  /** The segments of levels `k` onwards in rendering order, each with the key prefix of its level. */
  function Keyed(ts: seq<Target>, bits: seq<string>, k: nat): seq<(Segment, string)>
    decreases |ts| - k
  {
    if k >= |ts| then []
    else seq(|ts[k].route|, j requires 0 <= j < |ts[k].route| => (ts[k].route[j], Prefix(bits, k))) + Keyed(ts, bits, k + 1)
  }

  /**
   * Rendered levels have one piece per segment, in rendering order, and each
   * is what its segment renders to under its level's key prefix.
   */
  lemma {:induction false} RenderLevelsPieces(ts: seq<Target>, args: map<string, Value>, bits: seq<string>, k: nat)
    requires RenderLevels(ts, args, bits, k).Ok?
    ensures |RenderLevels(ts, args, bits, k).value| == |Keyed(ts, bits, k)|
    ensures forall j :: 0 <= j < |Keyed(ts, bits, k)| ==>
      Fills(Keyed(ts, bits, k)[j].0, Keyed(ts, bits, k)[j].1, args, bits, RenderLevels(ts, args, bits, k).value[j])
    decreases |ts| - k
  {
    if k < |ts| {
      RenderLevelsPieces(ts, args, bits, k + 1);
      RenderRoutePieces(ts[k].route, Prefix(bits, k), args, bits);
      var xs := RenderRoute(ts[k].route, Prefix(bits, k), args, bits).value;
      var ys := RenderLevels(ts, args, bits, k + 1).value;
      var here := seq(|ts[k].route|, j requires 0 <= j < |ts[k].route| => (ts[k].route[j], Prefix(bits, k)));
      var keyed := Keyed(ts, bits, k);
      var rest := Keyed(ts, bits, k + 1);
      assert keyed == here + rest;
      assert RenderLevels(ts, args, bits, k).value == xs + ys;
      forall j | 0 <= j < |keyed|
        ensures Fills(keyed[j].0, keyed[j].1, args, bits, (xs + ys)[j])
      {
        if j < |xs| {
          assert keyed[j] == (ts[k].route[j], Prefix(bits, k));
        } else {
          assert keyed[j] == rest[j - |xs|] && (xs + ys)[j] == ys[j - |xs|];
        }
      }
    }
  }

  /** The literal text of each route in turn. */
  function LiteralText(ts: seq<Target>): string
    decreases |ts|
  {
    if ts == [] then "" else LitText(ts[0].route) + LiteralText(ts[1..])
  }

  /** A route of literals renders to its text whatever the arguments. */
  lemma {:induction false} RenderRouteLiterals(route: seq<Segment>, pfx: string, args: map<string, Value>, bits: seq<string>)
    requires AllLits(route)
    ensures RenderRoute(route, pfx, args, bits).Ok?
    ensures Concat(RenderRoute(route, pfx, args, bits).value) == LitText(route)
    decreases |route|
  {
    if route != [] {
      assert AllLits(route[1..]) by {
        forall k | 0 <= k < |route[1..]| ensures route[1..][k].Lit? {
          assert route[1..][k] == route[k + 1];
        }
      }
      RenderRouteLiterals(route[1..], pfx, args, bits);
    }
  }

  /** Routes with no parameters render to pieces that join to their literal text, whatever the arguments. */
  lemma {:induction false} RenderLiterals(ts: seq<Target>, args: map<string, Value>, bits: seq<string>, k: nat)
    requires k <= |ts|
    requires forall n :: k <= n < |ts| ==> AllLits(ts[n].route)
    ensures RenderLevels(ts, args, bits, k).Ok?
    ensures Concat(RenderLevels(ts, args, bits, k).value) == LiteralText(ts[k..])
    decreases |ts| - k
  {
    if k == |ts| {
      assert ts[k..] == [];
    } else {
      RenderRouteLiterals(ts[k].route, Prefix(bits, k), args, bits);
      RenderLiterals(ts, args, bits, k + 1);
      var xs := RenderRoute(ts[k].route, Prefix(bits, k), args, bits).value;
      var ys := RenderLevels(ts, args, bits, k + 1).value;
      ConcatAppend(xs, ys);
      assert ts[k..][1..] == ts[k + 1..];
    }
  }

  /** A chain of routes with no parameters renders to their literal text with each `//` collapsed. */
  lemma RenderLiteralPath(ts: seq<Target>, args: map<string, Value>, bits: seq<string>)
    requires forall n :: 0 <= n < |ts| ==> AllLits(ts[n].route)
    ensures Render(ts, args, bits) == Ok(CollapseSlashes(LiteralText(ts)))
  {
    RenderLiterals(ts, args, bits, 0);
    assert ts[0..] == ts;
  }

  /** A rendering as the reverse search returns it. */
  function Rendered(r: Result<string, ReverseError>): Result<Option<string>, ReverseError>
  {
    match r
    case Ok(text) => Ok(Some(text))
    case Err(e) => Err(e)
  }

  /** The result of the `reverseMatch` loop from the `i`-th target on, at name bit `idx`. */
  function ReverseFrom(r: Router, bits: seq<string>, args: map<string, Value>, idx: nat, prev: Option<ReverseMatch>, i: nat)
      : Result<Option<string>, ReverseError>
    decreases r, |r.targets| - i, 1
  {
    if i >= |r.targets| then Ok(None)
    else match ReverseAttempt(r, bits, args, idx, prev, i)
      case Skip => ReverseFrom(r, bits, args, idx, prev, i + 1)
      case Stop(result) => result
  }

  /**
   * One iteration of the `reverseMatch` loop, on the `i`-th target. A target
   * with another name is passed over (past the last bit every name differs
   * from `undefined`); a handler is taken only on the last bit; anything
   * else is descended into: a router is searched, an iterable that is not a
   * router yields no target and so nothing, and the rest throw.
   */
  function ReverseAttempt(r: Router, bits: seq<string>, args: map<string, Value>, idx: nat, prev: Option<ReverseMatch>, i: nat)
      : Step<Result<Option<string>, ReverseError>>
    requires i < |r.targets|
    decreases r, |r.targets| - i, 0
  {
    var t := r.targets[i];
    if idx >= |bits| || t.name != bits[idx] then Skip
    else if t.name in r.controller && r.controller[t.name].Handler? then
      if idx == |bits| - 1 then Stop(Rendered(Render(Path(Some(Link(t, prev))), args, bits))) else Skip
    else if t.name in r.controller && r.controller[t.name].SubRouter? then
      Stop(ReverseFrom(r.controller[t.name].router, bits, args, idx + 1, Some(Link(t, prev)), 0))
    else if t.name in r.controller && r.controller[t.name] == Plain(true) then Stop(Ok(None))
    else Stop(Err(NotARouter(t.name)))
  }

  /** A route name: a dotted string, or an array of bits used as it is. */
  datatype Name = Dotted(text: string) | Bits(parts: seq<string>)

  /** The name bits: a dotted string split on `.`, an array as it is. */
  function NameBits(name: Name): seq<string>
  {
    match name
    case Dotted(text) => Split(text, '.')
    case Bits(parts) => parts
  }

  /** `Router.prototype.reverse`: missing arguments count as none. */
  function Reversed(r: Router, name: Name, args: Option<map<string, Value>>): Result<Option<string>, ReverseError>
  {
    ReverseFrom(r, NameBits(name), if args.Some? then args.value else map[], 0, None, 0)
  }

  /** The `reverseMatch` loop. */
  method ReverseSearch(r: Router, bits: seq<string>, args: map<string, Value>, idx: nat, prev: Option<ReverseMatch>)
      returns (result: Result<Option<string>, ReverseError>)
    requires WellLinked(prev)
    ensures result == ReverseFrom(r, bits, args, idx, prev, 0)
    decreases r, 1
  {
    var i := 0;
    while i < |r.targets|
      invariant 0 <= i <= |r.targets|
      invariant ReverseFrom(r, bits, args, idx, prev, i) == ReverseFrom(r, bits, args, idx, prev, 0)
    {
      var step := TryReverse(r, bits, args, idx, prev, i);
      if step.Stop? {
        return step.result;
      }
      i := i + 1;
    }
    result := Ok(None);
  }

  /** The body of the `reverseMatch` loop for the `i`-th target. */
  method TryReverse(r: Router, bits: seq<string>, args: map<string, Value>, idx: nat, prev: Option<ReverseMatch>, i: nat)
      returns (step: Step<Result<Option<string>, ReverseError>>)
    requires WellLinked(prev) && i < |r.targets|
    ensures step == ReverseAttempt(r, bits, args, idx, prev, i)
    decreases r, 0
  {
    var t := r.targets[i];
    if idx >= |bits| || t.name != bits[idx] {
      return Skip;
    }
    LinkExtends(t, prev);
    var destination := if t.name in r.controller then Some(r.controller[t.name]) else None;
    if destination.Some? && destination.value.Handler? {
      if idx == |bits| - 1 {
        var list := ToList(Link(t, prev));
        return Stop(Rendered(Render(list, args, bits)));
      }
      return Skip;
    }
    if destination.Some? && destination.value.SubRouter? {
      var nested := ReverseSearch(destination.value.router, bits, args, idx + 1, Some(Link(t, prev)));
      return Stop(nested);
    }
    if destination == Some(Plain(true)) {
      return Stop(Ok(None));
    }
    step := Stop(Err(NotARouter(t.name)));
  }

  /** `Router.prototype.reverse`. */
  method Reverse(r: Router, name: Name, args: Option<map<string, Value>>) returns (result: Result<Option<string>, ReverseError>)
    ensures result == Reversed(r, name, args)
  {
    var bits := match name case Dotted(text) => Split(text, '.') case Bits(parts) => parts;
    var given := if args.Some? then args.value else map[];
    result := ReverseSearch(r, bits, given, 0, None);
  }

  /**
   * The reverse search stops at the first target `j` from `i` on that is
   * not passed over: one named after bit `idx` that is not a handler above
   * the last bit. It returns what that target returns, and nothing when
   * there is none.
   */
  lemma {:induction false} ReverseFirstStop(r: Router, bits: seq<string>, args: map<string, Value>, idx: nat, prev: Option<ReverseMatch>, i: nat)
      returns (j: nat)
    requires i <= |r.targets|
    ensures i <= j <= |r.targets|
    ensures forall k :: i <= k < j ==>
      || idx >= |bits| || r.targets[k].name != bits[idx]
      || (r.targets[k].name in r.controller && r.controller[r.targets[k].name].Handler? && idx != |bits| - 1)
    ensures j == |r.targets| ==> ReverseFrom(r, bits, args, idx, prev, i) == Ok(None)
    ensures j < |r.targets| ==> idx < |bits| && r.targets[j].name == bits[idx]
    ensures j < |r.targets| ==> ReverseAttempt(r, bits, args, idx, prev, j) == Stop(ReverseFrom(r, bits, args, idx, prev, i))
    decreases |r.targets| - i
  {
    if i == |r.targets| {
      return i;
    }
    if ReverseAttempt(r, bits, args, idx, prev, i).Skip? {
      j := ReverseFirstStop(r, bits, args, idx, prev, i + 1);
    } else {
      j := i;
    }
  }

  /**
   * A walk down the router tree: each of `levels` is a target of the router
   * beside it in `routers`, each router's entry for its target is the next
   * router, and the last one's is a handler.
   */
  ghost predicate Descent(routers: seq<Router>, levels: seq<Target>)
    decreases |levels|
  {
    && |routers| == |levels| >= 1
    && levels[0] in routers[0].targets
    && if |levels| == 1 then
         && Entry(routers[0].controller, levels[0].name).Some?
         && Entry(routers[0].controller, levels[0].name).value.Handler?
       else
         && Entry(routers[0].controller, levels[0].name) == Some(SubRouter(routers[1]))
         && Descent(routers[1..], levels[1..])
  }

  /**
   * A rendered result comes from a walk down the router tree from `r`, one
   * level per remaining bit, each named after its bit and ending at a
   * handler, rendered below the levels already taken.
   */
  lemma {:induction false} ReverseSound(r: Router, bits: seq<string>, args: map<string, Value>, idx: nat, prev: Option<ReverseMatch>, i: nat, text: string)
      returns (levels: seq<Target>, routers: seq<Router>)
    requires ReverseFrom(r, bits, args, idx, prev, i) == Ok(Some(text))
    ensures idx + |levels| == |bits| && |levels| >= 1
    ensures forall k :: 0 <= k < |levels| ==> levels[k].name == bits[idx + k]
    ensures Descent(routers, levels) && routers[0] == r
    ensures Render(Path(prev) + levels, args, bits) == Ok(text)
    decreases r, |r.targets| - i, 1
  {
    if i >= |r.targets| {
      assert false;
    }
    if ReverseAttempt(r, bits, args, idx, prev, i).Skip? {
      levels, routers := ReverseSound(r, bits, args, idx, prev, i + 1, text);
    } else {
      levels, routers := ReverseStopSound(r, bits, args, idx, prev, i, text);
    }
  }

  /** `ReverseSound` for the target that stops the search with the rendering. */
  lemma {:induction false} ReverseStopSound(r: Router, bits: seq<string>, args: map<string, Value>, idx: nat, prev: Option<ReverseMatch>, i: nat, text: string)
      returns (levels: seq<Target>, routers: seq<Router>)
    requires i < |r.targets|
    requires ReverseAttempt(r, bits, args, idx, prev, i) == Stop(Ok(Some(text)))
    ensures idx + |levels| == |bits| && |levels| >= 1
    ensures forall k :: 0 <= k < |levels| ==> levels[k].name == bits[idx + k]
    ensures Descent(routers, levels) && routers[0] == r
    ensures Render(Path(prev) + levels, args, bits) == Ok(text)
    decreases r, |r.targets| - i, 0
  {
    var t := r.targets[i];
    assert Path(Some(Link(t, prev))) == Path(prev) + [t];
    if t.name in r.controller && r.controller[t.name].Handler? {
      levels, routers := [t], [r];
    } else {
      var sub := r.controller[t.name].router;
      var rest, below := ReverseSound(sub, bits, args, idx + 1, Some(Link(t, prev)), 0, text);
      levels, routers := [t] + rest, [r] + below;
      AppendAssoc(Path(prev), [t], rest);
      assert levels[1..] == rest && routers[1..] == below;
      forall k | 0 <= k < |levels|
        ensures levels[k].name == bits[idx + k]
      {
        if k > 0 {
          assert levels[k] == rest[k - 1];
        }
      }
    }
  }

  /** A missing-argument error always names the whole dotted name and two keys neither of which was given. */
  lemma {:induction false} ReverseMissing(r: Router, bits: seq<string>, args: map<string, Value>, idx: nat, prev: Option<ReverseMatch>, i: nat)
    requires ReverseFrom(r, bits, args, idx, prev, i).Err?
    requires ReverseFrom(r, bits, args, idx, prev, i).error.MissingArgument?
    ensures ReverseFrom(r, bits, args, idx, prev, i).error.route == Join(bits, '.')
    ensures ReverseFrom(r, bits, args, idx, prev, i).error.fullName !in args
    ensures ReverseFrom(r, bits, args, idx, prev, i).error.name !in args
    decreases r, |r.targets| - i
  {
    if i >= |r.targets| {
      assert false;
    }
    var t := r.targets[i];
    if ReverseAttempt(r, bits, args, idx, prev, i).Skip? {
      ReverseMissing(r, bits, args, idx, prev, i + 1);
    } else if t.name in r.controller && r.controller[t.name].Handler? {
      var n, j := RenderError(Path(Some(Link(t, prev))), args, bits, 0);
    } else {
      ReverseMissing(r.controller[t.name].router, bits, args, idx + 1, Some(Link(t, prev)), 0);
    }
  }

  /** Reversing a dotted name that lacks an argument reports the name exactly as it was given. */
  lemma DottedMissing(r: Router, text: string, args: Option<map<string, Value>>)
    requires Reversed(r, Dotted(text), args).Err?
    requires Reversed(r, Dotted(text), args).error.MissingArgument?
    ensures Reversed(r, Dotted(text), args).error.route == text
  {
    ReverseMissing(r, Split(text, '.'), if args.Some? then args.value else map[], 0, None, 0);
    JoinSplit(text, '.');
  }
}

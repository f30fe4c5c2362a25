# reverse — routing targets and routers, modelled in Dafny

This project models the core of `reverse`, a small HTTP router for Node.js.
It covers routing a request to a handler through nested routers, and reversing
a dotted route name back into a URL.

- **Target** (`lib/target.js`) is one compiled route. It holds:
  - a request method (`*` for any) and a name;
  - a sequence of literal strings and parameters;
  - a buffer of validated values.

  The constructor does three things:
  - merges adjacent literals (`coalesceStrings`);
  - gives every parameter a pattern, defaulting to `([^\/]+)`, and counts that pattern's capturing groups (`normalizeParams`, `countGroups`);
  - records the total group count the route's anchored RegExp must produce.

  `match` runs the pattern, checks the group count, then validates each parameter in turn into the buffer. Only when every parameter has passed does it build the context map. `chomp` removes the matched prefix.
- **Router** (`lib/router.js`) is an ordered list of targets and a controller. The controller maps each target's name to a handler function, a nested router or some other value. The model's controller map is what `controller[name]` finds. For a plain object literal, `PlainObject` builds that map: the object's own entries first, then the functions every object inherits from `Object.prototype` (`toString`, `constructor`, …), which count as handlers.
  - Forward matching tries the targets in order. A handler is taken only when its target consumes the whole path. A nested router is searched on the chomped path, and the search falls back to the next target when that router finds nothing.
  - Reversing follows the name's dot-separated bits down the routers and collects the routes on the way (`ReverseMatch.toList`). It renders them with each parameter looked up as `prefix.name`, then as the bare name. Finally it collapses `//` to `/`.

Modules:
- `Wrappers`: `Option` and `Result`.
- `Strings`: the JavaScript string operations the router uses, with their properties.
- `Targets`: `lib/target.js`, with `Target` a class.
- `Routers`: `lib/router.js`.

The model follows the source's form:
- A `Target` is a class whose fields are fixed at construction, except the `output` array that `match` overwrites. `Target.Match` is a method with `modifies output`. It is proved equal to the specification function `Matched`.
- The loops of `coalesceStrings`, `countGroups`, `match`, the router's `match` and `reverseMatch`, `ReverseMatch.toList` and `Match.values` are methods with loop invariants. Each is proved equal to a recursive function, and the properties are proved as lemmas about those functions.
- `render` is pure and is modelled as functions.
- Router values, match frames and reverse steps are never mutated after construction, so they are datatypes.

The route's RegExp is interpreted over the segments rather than built as text (`Exec`):
- A literal, escaped by quotemeta, must appear verbatim.
- A parameter offers its candidate matches in the engine's priority order. The first candidate after which the rest of the route matches wins, which is the engine's backtracking.
- For the default pattern the candidates are concrete: the longest run of non-`/` characters first, then shorter ones.
- A custom pattern carries its candidates as data. `ExecCaptureCount` holds when every candidate captures as many groups as `countGroups` found.

Like the source, `countGroups` counts a lookbehind `(?<=` or `(?<!` and a `(` inside brackets as a capturing group. A parameter with such a pattern breaks that agreement, and its target can then never match.

## Model

| member | source | states |
|---|---|---|
| Targets.CoalesceStrings | lib/target.js:60-71 | the reduce loop's result is the left fold `Coalesce` of the route |
| Targets.CoalesceNoAdjacent | lib/target.js:60-71 | no two neighbouring segments of the result are both literal strings; its last segment is a literal exactly when the route's is |
| Targets.CoalesceKeepsParams | lib/target.js:60-71 | the parameters of the result are those of the route, in the same order |
| Targets.CoalesceKeepsText | lib/target.js:60-71 | the literal text of the result is that of the route |
| Targets.CoalesceRun | lib/target.js:62-66 | a non-empty run of literals becomes one literal holding their concatenation |
| Targets.CoalesceSplitsAtParam | lib/target.js:60-71 | a parameter separates what comes before it from what comes after: each side is coalesced on its own |
| Targets.CountGroups | lib/target.js:92-112 | the loop's count is `GroupCount`: a backslash skips the next character, `(` counts unless followed by `?:`, `?!` or `?=` |
| Targets.GroupCountBound | lib/target.js:92-112 | the group count is at most the number of `(` in the pattern |
| Targets.DefaultPatternGroups | lib/target.js:86-87 | the default pattern `([^\/]+)` has group count 1 |
| Targets.Normalize | lib/target.js:85-88 | a normalized parameter keeps its name and `validate`; its pattern is the default `([^\/]+)` when it had none and its own otherwise, and its group count is `countGroups` of that pattern |
| Targets.NormalizeRoute | lib/target.js:9-10 | the normalized route has the same length, keeps every literal, and holds each parameter normalized in its place |
| Targets.NormalizeIdempotent | lib/target.js:84-90 | after normalizing, the pattern is non-empty and its group count is `countGroups` of it; normalizing twice changes nothing; a parameter without a pattern gets group count 1 |
| Targets.DefaultConsistent | lib/target.js:86-87 | every candidate match of the default pattern captures exactly one group |
| Targets.Exec | lib/target.js:73-82 | a match of the anchored route never extends past the end of the input |
| Targets.ExecCaptureCount | lib/target.js:11-13 | when each parameter's candidates capture its group count, a match yields exactly as many captures as the parameters' group counts add up to |
| Targets.ExecLiterals | lib/target.js:73-82 | a route of literals matches exactly when its text is a prefix of the input, consuming that text and capturing nothing |
| Targets.DefaultSlotGreedy | lib/target.js:73-86 | a default parameter takes the longest run of non-`/` characters and captures it whenever the rest of the route matches after that run |
| Targets.DefaultSlotNeedsText | lib/target.js:73-86 | a default parameter never matches an input that is empty or starts with `/` |
| Targets.OffsetIsTotal | lib/target.js:11-13 | the capture offset after the last parameter equals the sum of the group counts, i.e. `expectCount` |
| Targets.ValidateFromSpec | lib/target.js:39-48 | validation succeeds exactly when every parameter, fed the unescaped capture at its offset, is accepted; the values are those verdicts in parameter order |
| Targets.FirstReject | lib/target.js:39-45 | the index of the first parameter whose verdict rejects: every parameter before it is accepted, and it rejects unless it is past the last parameter |
| Targets.RejectionAborts | lib/target.js:43-45 | a rejection of any parameter makes the whole validation fail |
| Targets.ContextOfSpec | lib/target.js:50-56 | the context has exactly one key per parameter name, and with distinct names each name maps to its parameter's value |
| Targets.Target.constructor | lib/target.js:7-17 | the route is coalesced then normalized, the parameters are its non-literal segments, `expectCount` is their total group count, and the output buffer has one `null` slot per parameter |
| Targets.Target.Accepts | lib/target.js:19-24 | the wildcard `*` accepts every method; any other method accepts only an identical string |
| Targets.Target.Chomp | lib/target.js:26-28 | the result is a suffix of the path: the path itself when the pattern does not match, otherwise what follows the matched prefix |
| Targets.Target.Match | lib/target.js:30-57 | the method's result is `Matched`: nothing when the pattern fails, the group count differs or a validation rejects, else the context. The output buffer is untouched when the pattern fails or the count differs. Otherwise it holds the accepted values of the parameters before the first rejection, and keeps its old contents from there on. With a context, it holds all the validated values |
| Targets.Target.ValidateInto | lib/target.js:39-48 | succeeds exactly when no parameter is rejected, and then leaves the validated values in the output buffer in order. Whether or not it succeeds, the slots before the first rejection hold their parameters' accepted values, and the rest keep what they held |
| Targets.Target.ContextFromOutput | lib/target.js:50-56 | the map built from the buffer is `ContextOf` the parameters and the buffered values |
| Targets.MatchedSpec | lib/target.js:30-57 | `match` gives a context exactly when the pattern matches, the count equals `expectCount` and every verdict accepts; that context has one key per name, holding the accepted value when names are distinct |
| Strings.Split | lib/router.js:21 | splitting yields at least one piece and no piece contains the separator |
| Strings.JoinSplit | lib/router.js:21 | joining the pieces of `split('.')` with `.` gives back the original name |
| Strings.SplitJoin | lib/router.js:21 | splitting a `.`-join of dot-free bits gives back the bits |
| Strings.CollapseKeepsText | lib/router.js:142 | replacing `//` by `/` keeps every other character in order and never lengthens the text |
| Strings.CollapseClean | lib/router.js:142 | a text without `//` is unchanged |
| Strings.CollapseNoDouble | lib/router.js:142 | a text without `///` has no `//` left after the replacement |
| Strings.CollapseRun | lib/router.js:142 | the replacement is one non-overlapping left-to-right pass: a run of `n` slashes keeps `(n + 1) / 2` of them, and the text after the run is collapsed on its own |
| Strings.JoinAppend | lib/router.js:122 | joining one more bit appends the separator and that bit |
| Strings.Decimal | lib/router.js:130-134 | `String(n)` of an integer is non-empty and starts with `-` exactly when the integer is negative |
| Strings.DecimalRoundTrip | lib/router.js:130-134 | what `String(n)` writes for an integer is an optional `-` and decimal digits that read back as that integer, so distinct integers render differently |
| Routers.PlainObject | lib/router.js:53 | `controller[name]` on a plain object finds its own entry first; without one, it finds a handler for each function inherited from `Object.prototype`, and `Object.prototype` itself under `__proto__`; every other name is undefined |
| Routers.Match.Destination | lib/router.js:181-183 | the `target` getter is what the controller holds under the frame's name, and undefined when the name is absent |
| Routers.FramesLinked | lib/router.js:171-177 | the frames start at the match itself, each is followed by the one its `next` points to, and the last has no `next` |
| Routers.Values | lib/router.js:171-177 | walking `next` yields the chain's frames, innermost first |
| Routers.MatchFirstStop | lib/router.js:43-91 | the search returns what the first target that is not passed over returns, which is never null; it returns null exactly when every target is passed over |
| Routers.CompleteNeverThrows | lib/router.js:53-56 | when every target name at every level is in its controller, matching never throws |
| Routers.MatchChain | lib/router.js:43-91 | a successful match puts new frames on top of the enclosing one. They form a chain down the router tree, starting at the router searched. At each level, the target is one of that router's targets and the frame holds that router's controller. The target accepts the method, and it produced the frame's context on the path left by the level above. The router's entry for the target is the next level's router, or a handler at the last level. The targets together chomp the whole path |
| Routers.ChainLast | lib/router.js:58-69 | the innermost level of a chain is a handler's target that left nothing of the path |
| Routers.ResolveShape | lib/router.js:11-13 | a match from the top has exactly the frames of such a chain, starting at the router `match` was called on, and the innermost frame's `target` is a handler |
| Routers.RouterMatch | lib/router.js:43-91 | the loop returns `MatchFrom`: targets in order, first success wins, throw on a missing controller entry, backtrack when a nested router returns null |
| Routers.TryTarget | lib/router.js:44-88 | one loop iteration is `Attempt`: it skips on a method mismatch, on no context, on a handler whose target leaves path, or on a nested router that returns null |
| Routers.Route | lib/router.js:11-13 | `match` searches from the first target with no enclosing frame |
| Routers.LinkExtends | lib/router.js:145-150 | a new step is one longer than its predecessor and puts its target at the end of the path |
| Routers.PathLength | lib/router.js:145-150 | a step's `length` is the number of targets on its path |
| Routers.ToList | lib/router.js:151-161 | filling the array from the back while walking `prev` gives the targets shallowest first, `length` of them |
| Routers.Stringify | lib/router.js:130-134 | `String(value)` leaves text as it is, writes `null` as the word, and writes a number with a leading `-` exactly when it is negative |
| Routers.Prefix | lib/router.js:122 | the first level has an empty prefix, and a level past the last bit has the whole dotted name |
| Routers.PrefixExtends | lib/router.js:122 | each level's prefix is the prefix of the level above, a `.`, and its own name bit |
| Routers.PrefixSplits | lib/router.js:122 | when no bit contains `.`, splitting a non-empty prefix gives back the bits it joined |
| Routers.Lookup | lib/router.js:128-140 | a parameter resolves exactly when its prefixed key or its bare name is given. The prefixed key wins when present, then the bare name, and the value is `String` of what it holds. Failing, the error names both keys and the whole dotted name |
| Routers.RenderRoute | lib/router.js:123-141 | a route that renders gives one piece per segment |
| Routers.RenderRoutePieces | lib/router.js:123-141 | in a rendered route, each piece is its literal's text, or the value `Lookup` finds for its parameter under the level's prefix |
| Routers.RenderLevelsPieces | lib/router.js:121-141 | rendered levels give one piece per segment, in level then segment order, and each piece is its literal's text or its parameter's value under its own level's prefix |
| Routers.Render | lib/router.js:120-143 | rendering fails exactly when some parameter of some level has neither key, and then the error names the whole dotted name |
| Routers.RenderOk | lib/router.js:120-143 | rendering succeeds exactly when every parameter of every level has its prefixed key or its bare name among the arguments |
| Routers.RenderError | lib/router.js:120-143 | a failed rendering fails at the first parameter, in level and segment order, that cannot be filled, and the error names both keys tried there and the whole dotted name |
| Routers.RenderLiterals | lib/router.js:123-126 | routes without parameters render to pieces that join to their literal text, whatever the arguments |
| Routers.RenderLiteralPath | lib/router.js:120-143 | a chain of routes without parameters renders to its literal text with `//` collapsed, whatever the arguments |
| Routers.ReverseFirstStop | lib/router.js:93-118 | the reverse loop passes over targets named differently and handlers above the last bit, and returns what the first other target returns; null when there is none |
| Routers.ReverseSound | lib/router.js:93-118 | a rendered URL comes from a walk down the router tree from the router searched, one target per remaining name bit. Each target is named after its bit and is one of its router's targets. Each router's entry for its target is the next router, and the last one's is a handler. The targets are rendered after the levels already taken |
| Routers.ReverseStopSound | lib/router.js:98-115 | the same, for the target that ends the search with the rendering |
| Routers.ReverseMissing | lib/router.js:93-140 | a missing-argument error from any depth names the whole dotted name and two keys neither of which was given |
| Routers.DottedMissing | lib/router.js:15-26 | for a dotted name, that error names the route exactly as the caller wrote it |
| Routers.ReverseSearch | lib/router.js:93-118 | the loop returns `ReverseFrom` |
| Routers.TryReverse | lib/router.js:94-115 | one loop iteration is `ReverseAttempt`: skip a different name, render at a handler on the last bit, skip a handler above it, commit to a nested router even when it returns null; an iterable entry that is not a router yields null, and any other entry throws |
| Routers.Reverse | lib/router.js:15-26 | `reverse` splits a string name on `.`, uses an array as it is, and treats missing arguments as none |

## Left out

- The RegExp engine is not modelled as text. A custom parameter pattern is represented by its candidate matches, so anchors inside a pattern, alternation outside a group, and capture groups that are left undefined are not modelled.
- quotemeta is not modelled as text: a literal segment must match verbatim.
- `routeToRegExp` builds no text; `Exec` plays the compiled RegExp.
- querystring.unescape is a parameter of the model, a function from the capture (or `undefined`) to a string.
- Each parameter's `validate` is a pure function from the unescaped string to a verdict, with no side effects. A rejection whose error is falsy, which the source treats as acceptance, is not modelled.
- Values are `null`, strings or integers. `String(value)` for other numbers and objects is not modelled.
- Stringify: a number is written as its exact decimal digits. JavaScript numbers are doubles, so an integer beyond 2^53 is not held exactly, and `String` writes a magnitude of 1e21 or more in exponent form (`1e+21`); neither is modelled.
- Argument lookup uses the map's own keys. Keys inherited through the prototype chain, which JavaScript's `in` also finds, are not modelled.
- Thrown errors are datatypes carrying the keys and names the messages mention. The exact message text is not modelled.
- A controller entry is a handler, a router, or some other truthy value, iterable or not. A falsy entry other than a missing one (`0`, `""`, `null`) is not modelled; a missing entry is.
- Reversing into an iterable entry that is not a router (a string, an array) iterates its elements as targets. The model takes those elements to match no name bit, so the result is null. In the source, an element whose `name` equals the bit is looked up in the iterable's own `controller` property (`router.controller[target.name]`, lib/router.js:98). A string or array has none, so this throws a TypeError. Past the last bit, the bit is `undefined`, so any element without a `name` (every character of a string, for instance) reaches that lookup.
- A controller's map is what property lookup finds under each name. `PlainObject` builds it for a plain object literal, with the functions of `Object.prototype`. Any other prototype is modelled only through the map it yields. A router whose map lacks those functions models a controller without a prototype.
- Handlers are identified by a string. Invoking them is not part of this model.
- `normalizeParams` updates the parameter objects in place, and those objects are shared with the route. The model computes the normalized route as a value, so the aliasing itself is not modelled.
- The router-marker symbol, the iterators over a router's targets (read as a sequence) and `Symbol.iterator` on a match (read as `Values`) are not modelled as JavaScript protocols.
- An array name holding non-strings is not modelled.
- The route description parser, the `concat` and `all` helpers, and escaping are not part of this model.

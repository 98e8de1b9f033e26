/**
 * The syntax highlighter's stack machine: contexts hold rules, the best match of the current context's
 * rules decides what comes next, and its action pushes or pops contexts.
 */
module HighlightModel {
  import opened Wrappers

  type Format = nat

  /** A context is known by its address, which is all that comparing states looks at. */
  type Context = nat

  /** What a rule answers where it finds nothing: minus one as an unsigned position. */
  const NOWHERE: nat := 0xFFFF_FFFF

  datatype Found = Found(pos: nat, size: int)

  datatype Action = Stay | Pop(count: nat) | SetContext(context: Context)

  /** A rule looks for its leftmost match in a string. How it does so is not our concern. */
  datatype Rule = Rule(tryMatch: string -> Found, format: Format, action: Action)

  datatype ContextData = ContextData(rules: seq<Rule>, defaultFormat: Format, lineEnd: Action)

  datatype Grammar = Grammar(contexts: map<Context, ContextData>, initial: Context)

  const MAX_LENGTH: nat := 0x8000_0000

  type Line = s: string | |s| < MAX_LENGTH

  /** What any search promises: a match lies within the string. It may be empty. */
  predicate Possible(found: Found, str: string) {
    found.pos == NOWHERE || (found.size >= 0 && found.pos + found.size <= |str|)
  }

  predicate ActionOk(g: Grammar, action: Action) {
    action.SetContext? ==> action.context in g.contexts
  }

  ghost predicate RuleOk(g: Grammar, rule: Rule) {
    && (forall str: Line :: Possible(rule.tryMatch(str), str))
    && ActionOk(g, rule.action)
  }

  /** All contexts that rules and line ends lead to exist. */
  ghost predicate GrammarSound(g: Grammar) {
    && g.initial in g.contexts
    && forall c | c in g.contexts ::
      && ActionOk(g, g.contexts[c].lineEnd)
      && forall i | 0 <= i < |g.contexts[c].rules| :: RuleOk(g, g.contexts[c].rules[i])
  }

  // ---- Choosing a rule ----------------------------------------------------------------------------

  /** Further left, or at the same place and longer. */
  predicate Better(a: Found, b: Found) {
    a.pos < b.pos || (a.pos == b.pos && a.size > b.size)
  }

  /** The rule that the first `n` rules leave as the winner, if any beats finding nothing at all. */
  function Winner(rules: seq<Rule>, str: string, n: nat): (w: Option<nat>)
    requires n <= |rules|
    ensures w.Some? ==> w.value < n
  {
    if n == 0 then None
    else
      var w := Winner(rules, str, n - 1);
      var best := if w.None? then Found(|str|, 0) else rules[w.value].tryMatch(str);
      if Better(rules[n - 1].tryMatch(str), best) then Some(n - 1) else w
  }

  /**
   * This rule's match is the best of the first `n` rules: none is further left, none at the same place is longer,
   * and every earlier rule's is further right or, at the same place, shorter.
   */
  ghost predicate IsBestOf(rules: seq<Rule>, str: string, n: nat, w: nat)
    requires w < n <= |rules|
  {
    var best := rules[w].tryMatch(str);
    && (forall i | 0 <= i < n ::
          var found := rules[i].tryMatch(str);
          best.pos <= found.pos && (found.pos == best.pos ==> found.size <= best.size))
    && (forall i | 0 <= i < w ::
          var found := rules[i].tryMatch(str);
          best.pos < found.pos || (found.pos == best.pos && found.size < best.size))
  }

  /** Every match of the first `n` rules is behind the string, or empty at its end. */
  ghost predicate NoneFinds(rules: seq<Rule>, str: string, n: nat)
    requires n <= |rules|
  {
    forall i | 0 <= i < n ::
      var found := rules[i].tryMatch(str);
      found.pos >= |str| && (found.pos == |str| ==> found.size <= 0)
  }

  /** Whatever rules answer: the winner is the best of them, and without one none finds anything in the string. */
  lemma {:induction false} WinnerIsFirst(rules: seq<Rule>, str: string, n: nat)
    requires n <= |rules|
    ensures match Winner(rules, str, n)
      case Some(w) =>
        IsBestOf(rules, str, n, w) &&
        (rules[w].tryMatch(str).pos < |str| || (rules[w].tryMatch(str).pos == |str| && rules[w].tryMatch(str).size > 0))
      case None => NoneFinds(rules, str, n)
  {
    if n > 0 { WinnerIsFirst(rules, str, n - 1); }
  }

  /** The winner is leftmost, then longest, then first; without one, no rule finds anything in the string. */
  lemma {:induction false} WinnerIsBest(rules: seq<Rule>, str: Line, n: nat)
    requires n <= |rules|
    requires forall i | 0 <= i < n :: Possible(rules[i].tryMatch(str), str)
    ensures match Winner(rules, str, n)
      case Some(w) =>
        rules[w].tryMatch(str).pos < |str| && IsBestOf(rules, str, n, w)
      case None => forall i | 0 <= i < n :: rules[i].tryMatch(str).pos >= |str|
  {
    WinnerIsFirst(rules, str, n);
  }

  /** What the best match of a context amounts to: how far it is, how long it is, what it formats and does. */
  datatype Result = Result(format: Option<Format>, action: Option<Action>, pos: nat, size: int)

  function ResultOf(rule: Rule, str: string): Result {
    var found := rule.tryMatch(str);
    Result(Some(rule.format), Some(rule.action), found.pos, found.size)
  }

  function Match(c: ContextData, str: string): Result {
    match Winner(c.rules, str, |c.rules|)
    case None => Result(None, None, |str|, 0)
    case Some(w) => ResultOf(c.rules[w], str)
  }

  lemma MatchLiesWithin(g: Grammar, c: Context, str: Line)
    requires GrammarSound(g) && c in g.contexts && str != ""
    ensures var r := Match(g.contexts[c], str);
      && 0 <= r.size && r.pos + r.size <= |str|
      && (r.format.Some? <==> r.action.Some?) && (r.action.None? ==> r.pos == |str| && r.size == 0)
      && (r.action.Some? ==> r.pos < |str| && ActionOk(g, r.action.value))
  {
    var rules := g.contexts[c].rules;
    assert forall i | 0 <= i < |rules| :: RuleOk(g, rules[i]);
    WinnerIsBest(rules, str, |rules|);
  }

  // ---- Steps that take nothing ------------------------------------------------------------------------

  /** The best match is here and empty. */
  predicate Stalls(c: ContextData, str: string) {
    Match(c, str).pos == 0 == Match(c, str).size
  }

  /**
   * A step takes nothing exactly when some rule matches emptily at once and none matches more there.
   */
  lemma StallsExactly(c: ContextData, str: Line)
    requires str != "" && forall i | 0 <= i < |c.rules| :: Possible(c.rules[i].tryMatch(str), str)
    ensures Stalls(c, str) <==>
      && (exists i :: 0 <= i < |c.rules| && c.rules[i].tryMatch(str) == Found(0, 0))
      && (forall i | 0 <= i < |c.rules| :: c.rules[i].tryMatch(str).pos == 0 ==> c.rules[i].tryMatch(str).size == 0)
  {
    WinnerIsBest(c.rules, str, |c.rules|);
  }

  // ---- The stack of contexts ------------------------------------------------------------------------

  /** Between steps the stack has the initial context at its bottom and holds only contexts that exist. */
  ghost predicate StackOk(g: Grammar, stack: seq<Context>) {
    stack != [] && stack[0] == g.initial && forall i | 0 <= i < |stack| :: stack[i] in g.contexts
  }

  function Top(stack: seq<Context>): Context
    requires stack != []
  {
    stack[|stack| - 1]
  }

  /** Popping never takes the last context off. */
  function Apply(action: Action, stack: seq<Context>): seq<Context>
    requires stack != []
  {
    match action
    case Stay => stack
    case Pop(count) => if count < |stack| then stack[..|stack| - count] else stack[..1]
    case SetContext(c) => stack + [c]
  }

  function Act(r: Result, stack: seq<Context>): seq<Context>
    requires stack != []
  {
    if r.action.Some? then Apply(r.action.value, stack) else stack
  }

  lemma ActKeepsStack(g: Grammar, r: Result, stack: seq<Context>)
    requires StackOk(g, stack) && (r.action.Some? ==> ActionOk(g, r.action.value))
    ensures StackOk(g, Act(r, stack))
  {
  }

  // ---- The way out of a stall -------------------------------------------------------------------------

  function NotOn(g: Grammar, way: seq<Context>): set<Context> {
    g.contexts.Keys - (set c | c in way)
  }

  lemma WayGoesOn(g: Grammar, way: seq<Context>, c: Context)
    requires c in g.contexts && c !in way
    ensures NotOn(g, way + [c]) < NotOn(g, way)
  {
    assert c in NotOn(g, way) && c in way + [c] && c !in NotOn(g, way + [c]);
  }

  /**
   * `way` is a context that stalled and those it led to by pushes. The last one must not stall, or push one that
   * is not on the way, or pop all of the way; and nothing pops the bottom of the stack.
   */
  ghost predicate LeadsOut(g: Grammar, str: string, way: seq<Context>, atBottom: bool)
    requires way != [] && forall i | 0 <= i < |way| :: way[i] in g.contexts
    decreases NotOn(g, way)
  {
    Stalls(g.contexts[Top(way)], str) ==>
      match Match(g.contexts[Top(way)], str).action
      case None => false
      case Some(Stay) => false
      case Some(Pop(count)) => !atBottom && count >= |way|
      case Some(SetContext(c)) =>
        c in g.contexts && c !in way && (WayGoesOn(g, way, c); LeadsOut(g, str, way + [c], atBottom))
  }

  /** The contexts that exist are led to, and there is a way out of every stall. */
  ghost predicate GrammarOk(g: Grammar) {
    && GrammarSound(g)
    && forall str: Line | str != "" :: LeadsOut(g, str, [g.initial], true) && OthersLeadOut(g, str)
  }

  ghost predicate OthersLeadOut(g: Grammar, str: string) {
    forall c | c in g.contexts :: LeadsOut(g, str, [c], false)
  }

  /** A grammar whose rules never match the empty string is one of these. */
  lemma NeverEmptyIsOk(g: Grammar)
    requires GrammarSound(g)
    requires forall c, i, str: Line | c in g.contexts && 0 <= i < |g.contexts[c].rules| ::
      var found := g.contexts[c].rules[i].tryMatch(str); found.pos != NOWHERE ==> found.size > 0
    ensures GrammarOk(g)
  {
    forall c, str: Line | c in g.contexts && str != "" ensures !Stalls(g.contexts[c], str) {
      var rules := g.contexts[c].rules;
      assert forall i | 0 <= i < |rules| :: RuleOk(g, rules[i]);
      WinnerIsBest(rules, str, |rules|);
    }
  }

  /** How many contexts are pushed until one does something else. */
  ghost function Pushes(g: Grammar, str: string, way: seq<Context>, atBottom: bool): nat
    requires way != [] && (forall i | 0 <= i < |way| :: way[i] in g.contexts) && LeadsOut(g, str, way, atBottom)
    decreases NotOn(g, way)
  {
    var next := Match(g.contexts[Top(way)], str).action;
    if Stalls(g.contexts[Top(way)], str) && next.value.SetContext? then
      WayGoesOn(g, way, next.value.context);
      1 + Pushes(g, str, way + [next.value.context], atBottom)
    else 0
  }

  lemma {:induction false} PushesAnyway(g: Grammar, str: string, a: seq<Context>, b: seq<Context>)
    requires a != [] && (forall i | 0 <= i < |a| :: a[i] in g.contexts) && LeadsOut(g, str, a, false)
    requires b != [] && (forall i | 0 <= i < |b| :: b[i] in g.contexts) && LeadsOut(g, str, b, false)
    requires Top(a) == Top(b)
    ensures Pushes(g, str, a, false) == Pushes(g, str, b, false)
    decreases NotOn(g, a)
  {
    var next := Match(g.contexts[Top(a)], str).action;
    if Stalls(g.contexts[Top(a)], str) && next.value.SetContext? {
      WayGoesOn(g, a, next.value.context);
      PushesAnyway(g, str, a + [next.value.context], b + [next.value.context]);
    }
  }

  predicate LeadsTo(g: Grammar, str: string, c: Context, d: Context) {
    c in g.contexts && Stalls(g.contexts[c], str) && Match(g.contexts[c], str).action == Some(SetContext(d))
  }

  /** Where in the stack the contexts begin that led to the last one by pushes. */
  function Base(g: Grammar, str: string, stack: seq<Context>): (b: nat)
    requires stack != []
    ensures b < |stack|
  {
    var n := |stack| - 1;
    if n > 0 && LeadsTo(g, str, stack[n - 1], stack[n]) then Base(g, str, stack[..n]) else n
  }

  lemma WayLeadsOn(g: Grammar, str: string, way: seq<Context>, c: Context, atBottom: bool)
    requires way != [] && c in g.contexts && (forall i | 0 <= i < |way| :: way[i] in g.contexts)
    requires LeadsTo(g, str, Top(way), c)
    ensures LeadsOut(g, str, way, atBottom) ==> c !in way && LeadsOut(g, str, way + [c], atBottom)
  {
  }

  lemma SingleLeadsOut(g: Grammar, str: Line, c: Context)
    requires GrammarOk(g) && c in g.contexts && str != ""
    ensures LeadsOut(g, str, [c], c == g.initial) && LeadsOut(g, str, [c], false)
  {
    assert OthersLeadOut(g, str);
  }

  /** There is a way out from the base. */
  ghost predicate BaseIsOut(g: Grammar, str: Line, stack: seq<Context>)
    requires stack != [] && forall i | 0 <= i < |stack| :: stack[i] in g.contexts
  {
    var b := Base(g, str, stack);
    LeadsOut(g, str, stack[b..], b == 0)
  }

  lemma BaseGoesOn(g: Grammar, str: Line, stack: seq<Context>)
    requires |stack| > 1 && forall i | 0 <= i < |stack| :: stack[i] in g.contexts
    requires LeadsTo(g, str, stack[|stack| - 2], stack[|stack| - 1])
    ensures BaseIsOut(g, str, stack[..|stack| - 1]) ==> BaseIsOut(g, str, stack)
  {
    var n, b := |stack| - 1, Base(g, str, stack);
    WayLeadsOn(g, str, stack[..n][b..], stack[n], b == 0);
    assert stack[..n][b..] + [stack[n]] == stack[b..];
  }

  lemma BaseIsAlone(g: Grammar, str: Line, stack: seq<Context>)
    requires GrammarOk(g) && StackOk(g, stack) && str != "" && Base(g, str, stack) == |stack| - 1
    ensures BaseIsOut(g, str, stack)
  {
    SingleLeadsOut(g, str, Top(stack));
    assert stack[|stack| - 1..] == [Top(stack)];
  }

  lemma {:induction false} BaseLeadsOut(g: Grammar, str: Line, stack: seq<Context>)
    requires GrammarOk(g) && StackOk(g, stack) && str != ""
    ensures BaseIsOut(g, str, stack)
    decreases |stack|
  {
    var n := |stack| - 1;
    if n > 0 && LeadsTo(g, str, stack[n - 1], stack[n]) {
      BaseLeadsOut(g, str, stack[..n]);
      BaseGoesOn(g, str, stack);
    } else {
      BaseIsAlone(g, str, stack);
    }
  }

  ghost function Depth(g: Grammar, str: Line, stack: seq<Context>): nat
    requires GrammarOk(g) && StackOk(g, stack) && str != ""
  {
    SingleLeadsOut(g, str, Top(stack));
    Pushes(g, str, [Top(stack)], false)
  }

  lemma PushGoesDeeper(g: Grammar, str: Line, stack: seq<Context>, c: Context)
    requires GrammarOk(g) && StackOk(g, stack) && str != "" && c in g.contexts && LeadsTo(g, str, Top(stack), c)
    ensures Base(g, str, stack + [c]) == Base(g, str, stack)
    ensures Depth(g, str, stack + [c]) < Depth(g, str, stack)
  {
    assert (stack + [c])[..|stack|] == stack;
    SingleLeadsOut(g, str, Top(stack));
    SingleLeadsOut(g, str, c);
    WayLeadsOn(g, str, [Top(stack)], c, false);
    PushesAnyway(g, str, [c], [Top(stack)] + [c]);
  }

  /** What does not push pops the base. */
  lemma PopLeavesBase(g: Grammar, str: Line, stack: seq<Context>)
    requires GrammarOk(g) && StackOk(g, stack) && str != "" && Stalls(g.contexts[Top(stack)], str)
    ensures var b, next := Base(g, str, stack), Match(g.contexts[Top(stack)], str).action;
      next.Some? && (!next.value.SetContext? ==> next.value.Pop? && b > 0 && next.value.count >= |stack| - b)
  {
    BaseLeadsOut(g, str, stack);
    var way := stack[Base(g, str, stack)..];
    assert Top(way) == Top(stack) && |way| == |stack| - Base(g, str, stack);
  }

  /** A step that takes nothing pushes on, or leaves the base. */
  lemma StallLeadsOut(g: Grammar, str: Line, stack: seq<Context>)
    requires GrammarOk(g) && StackOk(g, stack) && str != "" && Stalls(g.contexts[Top(stack)], str)
    ensures var next := Act(Match(g.contexts[Top(stack)], str), stack);
      && StackOk(g, next)
      && (Base(g, str, next) < Base(g, str, stack)
          || (Base(g, str, next) == Base(g, str, stack) && Depth(g, str, next) < Depth(g, str, stack)))
  {
    MatchLiesWithin(g, Top(stack), str);
    PopLeavesBase(g, str, stack);
    var action := Match(g.contexts[Top(stack)], str).action.value;
    if action.SetContext? { PushGoesDeeper(g, str, stack, action.context); }
  }

  /** How many steps take nothing before one that does. */
  ghost function Steps(g: Grammar, str: Line, stack: seq<Context>): nat
    requires GrammarOk(g) && StackOk(g, stack) && str != ""
    decreases Base(g, str, stack), Depth(g, str, stack)
  {
    if Stalls(g.contexts[Top(stack)], str) then
      StallLeadsOut(g, str, stack);
      1 + Steps(g, str, Act(Match(g.contexts[Top(stack)], str), stack))
    else 0
  }

  // ---- One line ---------------------------------------------------------------------------------------

  datatype Range = Range(start: nat, length: nat, format: Format)

  function RangesOf(at: nat, r: Result, defaultFormat: Format): seq<Range> {
    (if r.pos > 0 then [Range(at, r.pos, defaultFormat)] else []) +
    (if r.size > 0 && r.format.Some? then [Range(at + r.pos, r.size, r.format.value)] else [])
  }

  /** What a line comes to: the formats set on it, and a stack. */
  datatype Scanned = Scanned(formats: seq<Range>, stack: seq<Context>)

  /** How many steps that take nothing come before the next one that does. */
  ghost function Stall(g: Grammar, stack: seq<Context>, text: Line, at: nat): nat
    requires GrammarOk(g) && StackOk(g, stack)
  {
    if at < |text| then Steps(g, text[at..], stack) else 0
  }

  lemma StallEnds(g: Grammar, stack: seq<Context>, text: Line, at: nat)
    requires GrammarOk(g) && StackOk(g, stack) && at < |text| && Stalls(g.contexts[Top(stack)], text[at..])
    ensures var next := Act(Match(g.contexts[Top(stack)], text[at..]), stack);
      StackOk(g, next) && Stall(g, next, text, at) < Stall(g, stack, text, at)
  {
    StallLeadsOut(g, text[at..], stack);
  }

  /** The best match at one place of a line: it takes something or leads on, and it keeps the stack sound. */
  ghost function MatchAt(g: Grammar, stack: seq<Context>, text: Line, at: nat): (m: Result)
    requires GrammarOk(g) && StackOk(g, stack) && at < |text|
    ensures m == Match(g.contexts[Top(stack)], text[at..])
    ensures at <= at + m.pos + m.size <= |text|
    ensures 0 <= m.size && (m.size > 0 ==> m.format.Some?) && (m.format.Some? <==> m.action.Some?)
    ensures StackOk(g, Act(m, stack))
    ensures m.pos + m.size > 0 || Stall(g, Act(m, stack), text, at) < Stall(g, stack, text, at)
  {
    MatchLiesWithin(g, Top(stack), text[at..]);
    var m := Match(g.contexts[Top(stack)], text[at..]);
    ActKeepsStack(g, m, stack);
    if m.pos + m.size > 0 then m
    else
      StallEnds(g, stack, text, at);
      m
  }

  /** Goes on from `at` with these formats set so far, to the end of the line. */
  ghost function Scan(g: Grammar, stack: seq<Context>, text: Line, at: nat, formats: seq<Range>): (r: Scanned)
    requires GrammarOk(g) && StackOk(g, stack)
    ensures StackOk(g, r.stack)
    decreases |text| - at, Stall(g, stack, text, at)
  {
    if at >= |text| then Scanned(formats, stack)
    else
      var m := MatchAt(g, stack, text, at);
      Scan(g, Act(m, stack), text, at + m.pos + m.size,
           formats + RangesOf(at, m, g.contexts[Top(stack)].defaultFormat))
  }

  /** One step of the scan, and what is left to do behind it. */
  lemma ScanStep(g: Grammar, stack: seq<Context>, text: Line, at: nat, formats: seq<Range>)
    returns (next: seq<Context>, behind: nat, done: seq<Range>)
    requires GrammarOk(g) && StackOk(g, stack) && at < |text|
    ensures var m := Match(g.contexts[Top(stack)], text[at..]);
      && next == Act(m, stack) && behind == at + m.pos + m.size
      && done == formats + RangesOf(at, m, g.contexts[Top(stack)].defaultFormat)
      && 0 <= m.size && (m.size > 0 ==> m.format.Some?) && (m.format.None? ==> behind > at)
    ensures StackOk(g, next) && at <= behind <= |text|
    ensures behind > at || Stall(g, next, text, behind) < Stall(g, stack, text, at)
    ensures Scan(g, stack, text, at, formats) == Scan(g, next, text, behind, done)
  {
    var m := MatchAt(g, stack, text, at);
    MatchLiesWithin(g, Top(stack), text[at..]);
    next, behind := Act(m, stack), at + m.pos + m.size;
    done := formats + RangesOf(at, m, g.contexts[Top(stack)].defaultFormat);
  }

  /** A whole line: its formats, and the stack that the next line starts from. */
  ghost function HighlightLine(g: Grammar, stack: seq<Context>, text: Line): (r: Scanned)
    requires GrammarOk(g) && StackOk(g, stack)
    ensures StackOk(g, r.stack)
  {
    var end := Scan(g, stack, text, 0, []);
    Scanned(end.formats, Apply(g.contexts[Top(end.stack)].lineEnd, end.stack))
  }

  /** The ranges follow each other without gap or overlap and cover exactly this stretch. */
  predicate Tiles(ranges: seq<Range>, from: nat, to: nat)
    decreases |ranges|
  {
    if ranges == [] then from == to
    else ranges[0].start == from && ranges[0].length > 0 && Tiles(ranges[1..], from + ranges[0].length, to)
  }

  lemma {:induction false} TilesJoin(a: seq<Range>, b: seq<Range>, from: nat, mid: nat, to: nat)
    requires Tiles(a, from, mid) && Tiles(b, mid, to)
    ensures Tiles(a + b, from, to)
    decreases |a|
  {
    if a == [] {
      assert a + b == b;
    } else {
      assert (a + b)[1..] == a[1..] + b;
      TilesJoin(a[1..], b, from + a[0].length, mid, to);
    }
  }

  lemma RangesTile(at: nat, m: Result, defaultFormat: Format)
    requires 0 <= m.size && (m.size > 0 ==> m.format.Some?)
    ensures Tiles(RangesOf(at, m, defaultFormat), at, at + m.pos + m.size)
  {
    var ranges := RangesOf(at, m, defaultFormat);
    if |ranges| > 1 { assert ranges[1..] == [Range(at + m.pos, m.size, m.format.value)]; }
  }

  lemma {:induction false} ScanTiles(g: Grammar, stack: seq<Context>, text: Line, at: nat, formats: seq<Range>)
    requires GrammarOk(g) && StackOk(g, stack) && at <= |text|
    requires Tiles(formats, 0, at)
    ensures Tiles(Scan(g, stack, text, at, formats).formats, 0, |text|)
    decreases |text| - at, Stall(g, stack, text, at)
  {
    if at < |text| {
      var m := MatchAt(g, stack, text, at);
      var defaultFormat := g.contexts[Top(stack)].defaultFormat;
      var next := at + m.pos + m.size;
      RangesTile(at, m, defaultFormat);
      TilesJoin(formats, RangesOf(at, m, defaultFormat), 0, at, next);
      ScanTiles(g, Act(m, stack), text, next, formats + RangesOf(at, m, defaultFormat));
    }
  }

  /** Every character of the line gets exactly one format. */
  lemma LineIsTiled(g: Grammar, stack: seq<Context>, text: Line)
    requires GrammarOk(g) && StackOk(g, stack)
    ensures Tiles(HighlightLine(g, stack, text).formats, 0, |text|)
  {
    ScanTiles(g, stack, text, 0, []);
  }

  // ---- What highlighting a line means ---------------------------------------------------------------------

  /** No rule is further left or, there, longer than rule `w`, and all before it are worse. */
  ghost predicate IsBest(rules: seq<Rule>, str: string, w: nat)
    requires w < |rules|
  {
    rules[w].tryMatch(str).pos < |str| && IsBestOf(rules, str, |rules|, w)
  }

  ghost predicate NothingFound(rules: seq<Rule>, str: string) {
    forall i | 0 <= i < |rules| :: rules[i].tryMatch(str).pos >= |str|
  }

  /** A stretch in one format, unless it is empty. */
  function Gap(at: nat, length: nat, format: Format): seq<Range> {
    if length > 0 then [Range(at, length, format)] else []
  }

  /**
   * What `all` ranges of a line are, with those before `at` set already, told without any procedure: where no
   * rule of the current context finds anything, the rest has the context's own format; otherwise the best
   * rule's match has that rule's format, what was passed over has the context's own, and the line goes on
   * behind the match in the context that the rule's action leads to.
   */
  ghost predicate Parsed(g: Grammar, stack: seq<Context>, text: Line, at: nat, before: seq<Range>,
                         all: seq<Range>, end: seq<Context>)
    requires GrammarOk(g) && StackOk(g, stack)
    decreases |text| - at, Stall(g, stack, text, at), 1
  {
    if at >= |text| then all == before && end == stack
    else
      var c, rest := g.contexts[Top(stack)], text[at..];
      || (NothingFound(c.rules, rest) && all == before + Gap(at, |rest|, c.defaultFormat) && end == stack)
      || exists w :: (0 <= w < |c.rules| && IsBest(c.rules, rest, w) &&
                      ParsedBehind(g, stack, text, at, before, all, end, w))
  }

  ghost predicate ParsedBehind(g: Grammar, stack: seq<Context>, text: Line, at: nat, before: seq<Range>,
                               all: seq<Range>, end: seq<Context>, w: nat)
    requires GrammarOk(g) && StackOk(g, stack) && at < |text| && w < |g.contexts[Top(stack)].rules|
    decreases |text| - at, Stall(g, stack, text, at), 0
  {
    var c := g.contexts[Top(stack)];
    var found, next := c.rules[w].tryMatch(text[at..]), Apply(c.rules[w].action, stack);
    && found.size >= 0 && StackOk(g, next)
    && (found.pos + found.size > 0 || Stall(g, next, text, at) < Stall(g, stack, text, at))
    && Parsed(g, next, text, at + found.pos + found.size,
              before + (Gap(at, found.pos, c.defaultFormat) + Gap(at + found.pos, found.size, c.rules[w].format)),
              all, end)
  }

  /** What the best match of a context amounts to, in terms of its rules. */
  lemma MatchIsBest(c: ContextData, str: Line)
    requires str != "" && forall i | 0 <= i < |c.rules| :: Possible(c.rules[i].tryMatch(str), str)
    ensures var m := Match(c, str);
      || (NothingFound(c.rules, str) && m == Result(None, None, |str|, 0))
      || exists w :: 0 <= w < |c.rules| && IsBest(c.rules, str, w) &&
           m == ResultOf(c.rules[w], str)
  {
    WinnerIsBest(c.rules, str, |c.rules|);
    var w := Winner(c.rules, str, |c.rules|);
    if w.Some? { assert IsBest(c.rules, str, w.value); }
  }

  /** Where a match was found, it is that of the best rule. */
  lemma BestRule(g: Grammar, stack: seq<Context>, text: Line, at: nat) returns (w: nat)
    requires GrammarOk(g) && StackOk(g, stack) && at < |text| && MatchAt(g, stack, text, at).action.Some?
    ensures var c, rest := g.contexts[Top(stack)], text[at..];
      w < |c.rules| && IsBest(c.rules, rest, w) && MatchAt(g, stack, text, at) == ResultOf(c.rules[w], rest)
  {
    var c, rest := g.contexts[Top(stack)], text[at..];
    RuleOfContext(g, Top(stack), rest);
    MatchIsBest(c, rest);
    w :| 0 <= w < |c.rules| && IsBest(c.rules, rest, w) && MatchAt(g, stack, text, at) == ResultOf(c.rules[w], rest);
  }

  /** And where none was, no rule finds anything. */
  lemma NoRule(g: Grammar, stack: seq<Context>, text: Line, at: nat)
    requires GrammarOk(g) && StackOk(g, stack) && at < |text| && MatchAt(g, stack, text, at).action.None?
    ensures NothingFound(g.contexts[Top(stack)].rules, text[at..])
    ensures MatchAt(g, stack, text, at) == Result(None, None, |text| - at, 0)
  {
    RuleOfContext(g, Top(stack), text[at..]);
    MatchIsBest(g.contexts[Top(stack)], text[at..]);
  }

  /** Where the best rule found something, its match is what comes next. */
  lemma ParsedOn(g: Grammar, stack: seq<Context>, text: Line, at: nat, before: seq<Range>, r: Scanned)
    requires GrammarOk(g) && StackOk(g, stack) && at < |text| && MatchAt(g, stack, text, at).action.Some?
    ensures var m := MatchAt(g, stack, text, at);
      ParsedFrom(g, Act(m, stack), text, at + m.pos + m.size,
                 before + RangesOf(at, m, g.contexts[Top(stack)].defaultFormat), r) ==>
      ParsedFrom(g, stack, text, at, before, r)
  {
    var c, m := g.contexts[Top(stack)], MatchAt(g, stack, text, at);
    var w := BestRule(g, stack, text, at);
    assert RangesOf(at, m, c.defaultFormat) ==
           Gap(at, m.pos, c.defaultFormat) + Gap(at + m.pos, m.size, c.rules[w].format);
    if ParsedFrom(g, Act(m, stack), text, at + m.pos + m.size, before + RangesOf(at, m, c.defaultFormat), r) {
      assert ParsedBehind(g, stack, text, at, before, r.formats, r.stack, w);
    }
  }

  /** And where none did, the line has its end. */
  lemma ParsedOut(g: Grammar, stack: seq<Context>, text: Line, at: nat, before: seq<Range>)
    requires GrammarOk(g) && StackOk(g, stack) && at < |text| && MatchAt(g, stack, text, at).action.None?
    ensures ParsedFrom(g, stack, text, at, before, Scan(g, stack, text, at, before))
  {
    NoRule(g, stack, text, at);
  }

  ghost predicate ParsedFrom(g: Grammar, stack: seq<Context>, text: Line, at: nat, before: seq<Range>, r: Scanned)
    requires GrammarOk(g) && StackOk(g, stack)
  {
    Parsed(g, stack, text, at, before, r.formats, r.stack)
  }

  lemma {:induction false} ScanIsParsed(g: Grammar, stack: seq<Context>, text: Line, at: nat,
                                        formats: seq<Range>, r: Scanned)
    requires GrammarOk(g) && StackOk(g, stack) && Scan(g, stack, text, at, formats) == r
    ensures ParsedFrom(g, stack, text, at, formats, r)
    decreases |text| - at, Stall(g, stack, text, at)
  {
    if at < |text| {
      var m := MatchAt(g, stack, text, at);
      if m.action.None? {
        ParsedOut(g, stack, text, at, formats);
      } else {
        ScanIsParsed(g, Act(m, stack), text, at + m.pos + m.size,
                     formats + RangesOf(at, m, g.contexts[Top(stack)].defaultFormat), r);
        ParsedOn(g, stack, text, at, formats, r);
      }
    }
  }

  lemma RuleOfContext(g: Grammar, c: Context, str: Line)
    requires GrammarOk(g) && c in g.contexts
    ensures forall i | 0 <= i < |g.contexts[c].rules| :: Possible(g.contexts[c].rules[i].tryMatch(str), str)
  {
    forall i | 0 <= i < |g.contexts[c].rules|
      ensures Possible(g.contexts[c].rules[i].tryMatch(str), str)
    {
      assert RuleOk(g, g.contexts[c].rules[i]);
    }
  }

  /** A line is formatted as it should be, and the next line starts from where its line end action leads. */
  lemma LineIsParsed(g: Grammar, stack: seq<Context>, text: Line)
    requires GrammarOk(g) && StackOk(g, stack)
    ensures var line := HighlightLine(g, stack, text);
      exists end :: (StackOk(g, end) && Parsed(g, stack, text, 0, [], line.formats, end) &&
                     line.stack == Apply(g.contexts[Top(end)].lineEnd, end))
  {
    var end := Scan(g, stack, text, 0, []);
    ScanIsParsed(g, stack, text, 0, [], end);
    assert StackOk(g, end.stack);
  }

  // ---- Whole documents --------------------------------------------------------------------------------

  /** The stack at the start of line `i` when everything before it is processed in order. */
  ghost function StackAt(g: Grammar, lines: seq<Line>, i: nat): (stack: seq<Context>)
    requires GrammarOk(g) && i <= |lines|
    ensures StackOk(g, stack)
  {
    if i == 0 then [g.initial] else HighlightLine(g, StackAt(g, lines, i - 1), lines[i - 1]).stack
  }

  /** The formats of line `i` in the document as a whole. */
  ghost function FormatsOf(g: Grammar, lines: seq<Line>, i: nat): seq<Range>
    requires GrammarOk(g) && i < |lines|
  {
    HighlightLine(g, StackAt(g, lines, i), lines[i]).formats
  }
}

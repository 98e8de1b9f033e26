/**
 * The highlighter itself: it numbers the stacks at line ends, so that a line can be highlighted from the
 * number of the line before, and the text document that keeps those numbers between edits.
 */
module Highlighter {
  import opened HighlightModel
  import opened StateOrder
  import opened Wrappers

  method DoHighlight(c: ContextData, str: string) returns (r: Result)
    ensures r == Match(c, str)
    ensures r.format.None? ==> r == Result(None, None, |str|, 0) && NoneFinds(c.rules, str, |c.rules|)
    ensures r.format.Some? ==> exists w ::
      (0 <= w < |c.rules| && IsBestOf(c.rules, str, |c.rules|, w) &&
       r.format == Some(c.rules[w].format) && r.action == Some(c.rules[w].action) &&
       c.rules[w].tryMatch(str) == Found(r.pos, r.size))
  {
    WinnerIsFirst(c.rules, str, |c.rules|);
    var bestMatchSize, best, haveBest, bestPos: nat := 0, 0, false, |str|;
    var i := 0;
    while i < |c.rules|
      invariant i <= |c.rules|
      invariant haveBest == Winner(c.rules, str, i).Some?
      invariant haveBest ==>
          && best == Winner(c.rules, str, i).value
          && c.rules[best].tryMatch(str) == Found(bestPos, bestMatchSize)
      invariant !haveBest ==> bestPos == |str| && bestMatchSize == 0
    {
      var found := c.rules[i].tryMatch(str);
      if found.pos < bestPos || (found.pos == bestPos && found.size > bestMatchSize) {
        bestPos, bestMatchSize, best, haveBest := found.pos, found.size, i, true;
      }
      i := i + 1;
    }
    if haveBest {
      r := Result(Some(c.rules[best].format), Some(c.rules[best].action), bestPos, bestMatchSize);
    } else {
      r := Result(None, None, |str|, 0);
    }
  }

  method DoAction(action: Action, state: seq<Context>) returns (after: seq<Context>)
    requires state != []
    ensures after == Apply(action, state)
    ensures action.Stay? ==> after == state
    ensures action.Pop? ==> after <= state && |after| == (if action.count < |state| then |state| - action.count else 1)
    ensures action.SetContext? ==>
      state <= after && |after| == |state| + 1 && after[|state|] == action.context
  {
    after := state;
    match action
    case Stay =>
    case Pop(count) =>
      var i := 0;
      while i < count
        invariant 0 <= i <= count && i < |state|
        invariant after == state[..|state| - i]
      {
        if |after| == 1 { break; }
        after := after[..|after| - 1];
        i := i + 1;
      }
    case SetContext(c) =>
      after := after + [c];
  }

  /** What was passed over gets the context's own format, the match that of its rule, whose action is done. */
  method TakeMatch(formats: seq<Range>, state: seq<Context>, at: nat, res: Result, defaultFormat: Format)
    returns (formats': seq<Range>, state': seq<Context>, pos: nat)
    requires state != [] && 0 <= res.size && (res.size > 0 ==> res.format.Some?)
    ensures formats' == formats + RangesOf(at, res, defaultFormat)
    ensures state' == Act(res, state) && pos == at + res.pos + res.size
  {
    formats', state' := formats, state;
    if res.pos != 0 { formats' := formats' + [Range(at, res.pos, defaultFormat)]; }
    if res.size != 0 { formats' := formats' + [Range(at + res.pos, res.size, res.format.value)]; }
    pos := at + res.pos + res.size;
    if res.action.Some? { state' := DoAction(res.action.value, state); }
  }

  /** One line, from the stack it starts in. */
  method HighlightText(g: Grammar, before: seq<Context>, text: Line) returns (formats: seq<Range>, state: seq<Context>)
    requires GrammarOk(g) && StackOk(g, before)
    ensures Scanned(formats, state) == HighlightLine(g, before, text)
  {
    state := before;
    var pos := 0;
    formats := [];
    ghost var whole := Scan(g, before, text, 0, []);
    ghost var stack, at, done := state, pos, formats;
    while pos < |text|
      invariant state == stack && pos == at && formats == done
      invariant at <= |text| && StackOk(g, stack) && Scan(g, stack, text, at, done) == whole
      decreases |text| - pos, Stall(g, state, text, pos)
    {
      stack, at, done := ScanStep(g, stack, text, at, done);
      var res := DoHighlight(g.contexts[Top(state)], text[pos..]);
      formats, state, pos := TakeMatch(formats, state, pos, res, g.contexts[Top(state)].defaultFormat);
      if res.format.None? && res.action.None? && res.pos + res.size == 0 { assert false; }
    }
    state := DoAction(g.contexts[Top(state)].lineEnd, state);
  }

  predicate Known(states: seq<seq<Context>>, idx: int) {
    idx == -1 || 0 <= idx < |states|
  }

  /** The stack that a number stands for; minus one is a document's beginning. */
  function Decode(g: Grammar, states: seq<seq<Context>>, idx: int): seq<Context>
    requires Known(states, idx)
  {
    if idx == -1 then [g.initial] else states[idx]
  }

  lemma InsertedAt(keys: seq<Stack>, key: Stack, after: seq<Stack>, end: nat)
    requires end <= |keys| && InsertsAt(keys, key, after, end)
    ensures Inserts(keys, key, after)
    ensures Orderly(keys, key) ==> Sorted(after) && (key in keys ==> |after| == |keys|)
  {
    if Orderly(keys, key) { HeldStateIsFound(keys, key, after); }
  }

  class SyntaxHighlighter {
    const grammar: Grammar
    var hlStateByIdx: seq<seq<Context>>
    /** The map of states as a search tree: the numbers of its keys from left to right. */
    var hlStateMap: seq<nat>

    ghost predicate Valid()
      reads this
    {
      && GrammarOk(grammar)
      && |hlStateMap| == |hlStateByIdx|
      && (forall k | 0 <= k < |hlStateMap| :: hlStateMap[k] < |hlStateByIdx|)
      && (forall i | 0 <= i < |hlStateByIdx| :: StackOk(grammar, hlStateByIdx[i]))
    }

    /** The states in the map from left to right. */
    ghost function Keys(): (keys: seq<Stack>)
      requires forall k | 0 <= k < |hlStateMap| :: hlStateMap[k] < |hlStateByIdx|
      reads this
      ensures |keys| == |hlStateMap| && forall k | 0 <= k < |keys| :: keys[k] == hlStateByIdx[hlStateMap[k]]
    {
      seq(|hlStateMap|, k requires 0 <= k < |hlStateMap| reads this =>
        if hlStateMap[k] < |hlStateByIdx| then hlStateByIdx[hlStateMap[k]] else [])
    }

    constructor (grammar: Grammar)
      requires GrammarOk(grammar)
      ensures Valid() && this.grammar == grammar && hlStateByIdx == []
    {
      this.grammar := grammar;
      hlStateByIdx := [];
      hlStateMap := [];
    }

    /**
     * Finds the state in the map or inserts it under the next number. The search goes down a tree of any
     * shape and trusts a comparison that need not be an order; it may miss a state that is there, but never
     * takes one state for another, and a number once given keeps its meaning.
     */
    method Insert(state: seq<Context>) returns (idx: nat)
      requires Valid() && StackOk(grammar, state)
      modifies this`hlStateByIdx, this`hlStateMap
      ensures Valid()
      ensures idx < |hlStateByIdx| && hlStateByIdx[idx] == state
      ensures old(hlStateByIdx) <= hlStateByIdx <= old(hlStateByIdx) + [state]
      ensures state !in old(hlStateByIdx) ==> idx == |old(hlStateByIdx)|
      ensures Inserts(old(Keys()), state, Keys())
      ensures Orderly(old(Keys()), state) ==>
        Sorted(Keys()) && (state in old(Keys()) ==> hlStateByIdx == old(hlStateByIdx))
    {
      ghost var keys := Keys();
      var end := Search(state);
      if end == 0 || Less(hlStateByIdx[hlStateMap[end - 1]], state) {
        idx := PutAt(state, end);
      } else {
        idx := hlStateMap[end - 1];
        EquivalentIsEqual(state, hlStateByIdx[idx]);
      }
      InsertedAt(keys, state, Keys(), end);
    }

    /** The state enters the map at this place, under the next number. */
    method PutAt(state: seq<Context>, at: nat) returns (idx: nat)
      requires Valid() && StackOk(grammar, state) && at <= |hlStateMap|
      modifies this`hlStateByIdx, this`hlStateMap
      ensures Valid() && idx == |old(hlStateByIdx)|
      ensures hlStateByIdx == old(hlStateByIdx) + [state]
      ensures Keys() == old(Keys())[..at] + [state] + old(Keys())[at..]
    {
      idx := |hlStateByIdx|;
      hlStateMap := hlStateMap[..at] + [idx] + hlStateMap[at..];
      hlStateByIdx := hlStateByIdx + [state];
    }

    /** Where a search for the state comes out of the tree. */
    method Search(state: seq<Context>) returns (end: nat)
      requires Valid()
      ensures end <= |hlStateMap| && Searches(Keys(), state, 0, |hlStateMap|, end)
      ensures end > 0 ==> !Less(state, hlStateByIdx[hlStateMap[end - 1]])
    {
      ghost var keys := Keys();
      var lo, hi := 0, |hlStateMap|;
      while lo < hi
        invariant lo <= hi <= |keys|
        invariant lo > 0 ==> !Less(state, keys[lo - 1])
        invariant forall e :: Searches(keys, state, lo, hi, e) ==> Searches(keys, state, 0, |keys|, e)
        decreases hi - lo
      {
        var mid :| lo <= mid < hi;
        assert forall e | GoesOn(keys, state, lo, hi, e, mid) :: Searches(keys, state, lo, hi, e);
        if Less(state, hlStateByIdx[hlStateMap[mid]]) {
          assert forall e | Searches(keys, state, lo, mid, e) :: GoesOn(keys, state, lo, hi, e, mid);
          hi := mid;
        } else {
          assert forall e | Searches(keys, state, mid + 1, hi, e) :: GoesOn(keys, state, lo, hi, e, mid);
          lo := mid + 1;
        }
      }
      end := lo;
    }

    /** One line, from the number of the line before: its formats and its own number. */
    method HighlightBlock(previousBlockState: int, text: Line) returns (formats: seq<Range>, currentBlockState: nat)
      requires Valid() && Known(hlStateByIdx, previousBlockState)
      modifies this`hlStateByIdx, this`hlStateMap
      ensures Valid()
      ensures currentBlockState < |hlStateByIdx|
      ensures Scanned(formats, hlStateByIdx[currentBlockState]) ==
              HighlightLine(grammar, Decode(grammar, old(hlStateByIdx), previousBlockState), text)
      ensures old(hlStateByIdx) <= hlStateByIdx
    {
      var state := Decode(grammar, hlStateByIdx, previousBlockState);
      formats, state := HighlightText(grammar, state, text);
      currentBlockState := Insert(state);
    }
  }

  /** A text with what is stored beside it: each line's formats and the number of the state it ended in. */
  datatype Text = Text(lines: seq<Line>, formats: seq<seq<Range>>, userStates: seq<int>)

  ghost predicate Shape(g: Grammar, states: seq<seq<Context>>, t: Text) {
    && GrammarOk(g)
    && (forall i | 0 <= i < |states| :: StackOk(g, states[i]))
    && |t.formats| == |t.userStates| == |t.lines|
    && forall i | 0 <= i < |t.userStates| :: Known(states, t.userStates[i])
  }

  function StateBefore(t: Text, i: nat): int
    requires i <= |t.userStates|
  {
    if i == 0 then -1 else t.userStates[i - 1]
  }

  /** Line `i` shows what follows from the number the line before it has now. */
  ghost predicate UpToDate(g: Grammar, states: seq<seq<Context>>, t: Text, i: nat)
    requires Shape(g, states, t) && i < |t.lines|
  {
    && t.userStates[i] != -1
    && Scanned(t.formats[i], Decode(g, states, t.userStates[i])) ==
       HighlightLine(g, Decode(g, states, StateBefore(t, i)), t.lines[i])
  }

  ghost predicate AllUpToDate(g: Grammar, states: seq<seq<Context>>, t: Text) {
    Shape(g, states, t) && forall i | 0 <= i < |t.lines| :: UpToDate(g, states, t, i)
  }

  /** The formats are those of highlighting the whole text afresh. */
  ghost predicate ShowsTheWhole(g: Grammar, t: Text)
    requires GrammarOk(g)
  {
    |t.formats| == |t.lines| && forall i | 0 <= i < |t.lines| :: t.formats[i] == FormatsOf(g, t.lines, i)
  }

  ghost predicate Agree(g: Grammar, states: seq<seq<Context>>, t: Text, n: nat) {
    && Shape(g, states, t) && n <= |t.lines|
    && Decode(g, states, StateBefore(t, n)) == StackAt(g, t.lines, n)
  }

  lemma AgreeNext(g: Grammar, states: seq<seq<Context>>, t: Text, n: nat)
    requires 0 < n <= |t.lines| && Agree(g, states, t, n - 1) && UpToDate(g, states, t, n - 1)
    ensures Agree(g, states, t, n)
  {
  }

  lemma {:induction false} StacksAgree(g: Grammar, states: seq<seq<Context>>, t: Text, n: nat)
    requires AllUpToDate(g, states, t) && n <= |t.lines|
    ensures Agree(g, states, t, n)
  {
    if n == 0 {
      AgreeStart(g, states, t);
    } else {
      StacksAgree(g, states, t, n - 1);
      AgreeNext(g, states, t, n);
    }
  }

  lemma AgreeStart(g: Grammar, states: seq<seq<Context>>, t: Text)
    requires Shape(g, states, t)
    ensures Agree(g, states, t, 0)
  {
  }

  /** When every line follows from its neighbour, the text shows what highlighting it afresh shows. */
  lemma LocalIsGlobal(g: Grammar, states: seq<seq<Context>>, t: Text)
    requires AllUpToDate(g, states, t)
    ensures ShowsTheWhole(g, t)
  {
    forall i | 0 <= i < |t.lines| ensures t.formats[i] == FormatsOf(g, t.lines, i) {
      StacksAgree(g, states, t, i);
      assert UpToDate(g, states, t, i);
    }
  }

  /** A text document under a highlighter. */
  class TextDocument {
    const highlighter: SyntaxHighlighter
    var text: Text

    ghost predicate Stored()
      reads this, highlighter
    {
      highlighter.Valid() && Shape(highlighter.grammar, highlighter.hlStateByIdx, text)
    }

    ghost predicate Fine(i: nat)
      requires Stored() && i < |text.lines|
      reads this, highlighter
    {
      UpToDate(highlighter.grammar, highlighter.hlStateByIdx, text, i)
    }

    ghost predicate Valid()
      reads this, highlighter
    {
      highlighter.Valid() && AllUpToDate(highlighter.grammar, highlighter.hlStateByIdx, text)
    }

    constructor (highlighter: SyntaxHighlighter)
      requires highlighter.Valid()
      ensures Valid() && this.highlighter == highlighter && text.lines == []
    {
      this.highlighter := highlighter;
      text := Text([], [], []);
    }

    /** Highlights one line and stores its formats and number; all other lines keep theirs. */
    method Reformat(i: nat)
      requires Stored() && i < |text.lines|
      modifies this`text, highlighter
      ensures text.lines == old(text.lines)
      ensures Stored() && Fine(i)
      ensures text.userStates == old(text.userStates)[i := text.userStates[i]]
      ensures forall j | 0 <= j < |text.lines| && j != i && old(Fine(j)) &&
                         (j != i + 1 || text.userStates[i] == old(text.userStates[i])) :: Fine(j)
    {
      var ranges, state := highlighter.HighlightBlock(StateBefore(text, i), text.lines[i]);
      text := text.(formats := text.formats[i := ranges], userStates := text.userStates[i := state]);
    }

    /** A new text, highlighted line by line from the top. */
    method SetPlainText(lines: seq<Line>)
      requires Stored()
      modifies this, highlighter
      ensures Valid() && text.lines == lines
      ensures ShowsTheWhole(highlighter.grammar, text)
    {
      text := Text(lines, seq(|lines|, _ => []), seq(|lines|, _ => -1));
      var i := 0;
      while i < |text.lines|
        invariant Stored() && text.lines == lines && i <= |lines|
        invariant forall j | 0 <= j < i :: Fine(j)
      {
        Reformat(i);
        i := i + 1;
      }
      forall j | 0 <= j < |text.lines| ensures UpToDate(highlighter.grammar, highlighter.hlStateByIdx, text, j) {
        assert Fine(j);
      }
      LocalIsGlobal(highlighter.grammar, highlighter.hlStateByIdx, text);
    }

    /**
     * An edit of one line. It is highlighted again, and then the lines after it, only until one ends in
     * the number it already had; yet the whole document comes out right.
     */
    method SetLine(at: nat, line: Line)
      requires Valid() && at < |text.lines|
      modifies this, highlighter
      ensures Valid() && text.lines == old(text.lines)[at := line]
      ensures ShowsTheWhole(highlighter.grammar, text)
    {
      text := text.(lines := text.lines[at := line]);
      var i, forceHighlightOfNextBlock := at, true;
      forall j | 0 <= j < |text.lines| && j != at ensures Fine(j) { assert old(Fine(j)); }
      while i < |text.lines| && forceHighlightOfNextBlock
        invariant Stored() && text.lines == old(text.lines)[at := line] && at <= i <= |text.lines|
        invariant forall j | 0 <= j < |text.lines| && (j != i || !forceHighlightOfNextBlock) :: Fine(j)
        decreases |text.lines| - i
      {
        var stateBefore := text.userStates[i];
        Reformat(i);
        forceHighlightOfNextBlock := text.userStates[i] != stateBefore;
        i := i + 1;
      }
      forall j | 0 <= j < |text.lines| ensures UpToDate(highlighter.grammar, highlighter.hlStateByIdx, text, j) {
        assert Fine(j);
      }
      LocalIsGlobal(highlighter.grammar, highlighter.hlStateByIdx, text);
    }
  }
}

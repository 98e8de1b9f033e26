/**
 * For which grammars the scan of a line ends, whatever the line and the stack it starts from.
 */
module ScanEnds {
  import opened HighlightModel

  /** Where a scan has come to. */
  datatype Place = Place(stack: seq<Context>, at: nat)

  /** One round of the loop. */
  ghost function Round(g: Grammar, text: Line, p: Place): (q: Place)
    requires GrammarSound(g) && StackOk(g, p.stack)
    ensures StackOk(g, q.stack)
  {
    if p.at >= |text| then p
    else
      MatchLiesWithin(g, Top(p.stack), text[p.at..]);
      var m := Match(g.contexts[Top(p.stack)], text[p.at..]);
      ActKeepsStack(g, m, p.stack);
      Place(Act(m, p.stack), p.at + m.pos + m.size)
  }

  ghost function After(g: Grammar, text: Line, p: Place, rounds: nat): (q: Place)
    requires GrammarSound(g) && StackOk(g, p.stack)
    ensures StackOk(g, q.stack)
    decreases rounds
  {
    if rounds == 0 then p else After(g, text, Round(g, text, p), rounds - 1)
  }

  ghost predicate Ends(g: Grammar, text: Line, p: Place)
    requires GrammarSound(g) && StackOk(g, p.stack)
  {
    exists rounds: nat :: After(g, text, p, rounds).at >= |text|
  }

  /** With a way out of every stall, every scan ends. */
  lemma {:induction false} OkEnds(g: Grammar, text: Line, p: Place)
    requires GrammarOk(g) && StackOk(g, p.stack)
    ensures Ends(g, text, p)
    decreases |text| - p.at, Stall(g, p.stack, text, p.at)
  {
    if p.at >= |text| {
      assert After(g, text, p, 0).at >= |text|;
    } else {
      var m := MatchAt(g, p.stack, text, p.at);
      var q := Round(g, text, p);
      OkEnds(g, text, q);
      var rounds: nat :| After(g, text, q, rounds).at >= |text|;
      assert After(g, text, p, rounds + 1).at >= |text|;
    }
  }

  // ---- Without a way out ------------------------------------------------------------------------------

  /** Contexts that exist, each of which leads to the next one by a push. */
  ghost predicate Chain(g: Grammar, str: string, way: seq<Context>) {
    && way != [] && (forall i | 0 <= i < |way| :: way[i] in g.contexts)
    && forall i | 0 < i < |way| :: LeadsTo(g, str, way[i - 1], way[i])
  }

  /** Such a way from which nothing leads on but back into it. */
  ghost predicate Trap(g: Grammar, str: string, way: seq<Context>, atBottom: bool) {
    && Chain(g, str, way) && Stalls(g.contexts[Top(way)], str)
    && match Match(g.contexts[Top(way)], str).action
       case None => false
       case Some(Stay) => true
       case Some(Pop(count)) => atBottom || count < |way|
       case Some(SetContext(c)) => c in way
  }

  lemma {:induction false} NoWayOut(g: Grammar, str: Line, way: seq<Context>, atBottom: bool)
    returns (trap: seq<Context>)
    requires GrammarSound(g) && str != "" && Chain(g, str, way) && !LeadsOut(g, str, way, atBottom)
    ensures Trap(g, str, trap, atBottom) && trap[0] == way[0]
    decreases NotOn(g, way)
  {
    MatchLiesWithin(g, Top(way), str);
    trap := way;
    var next := Match(g.contexts[Top(way)], str).action;
    if next.Some? && next.value.SetContext? && next.value.context !in way {
      WayGoesOn(g, way, next.value.context);
      trap := NoWayOut(g, str, way + [next.value.context], atBottom);
    }
  }

  /** Where the pushes come back to a context they have passed, they go on for ever. */
  lemma {:induction false} CycleHolds(g: Grammar, str: Line, trap: seq<Context>, atBottom: bool, p: Place, rounds: nat)
    requires GrammarSound(g) && StackOk(g, p.stack) && p.at == 0 && str != "" && Top(p.stack) in trap
    requires Trap(g, str, trap, atBottom) && Match(g.contexts[Top(trap)], str).action.value.SetContext?
    ensures After(g, str, p, rounds).at == 0
    decreases rounds
  {
    if rounds > 0 {
      assert str[0..] == str;
      var j :| 0 <= j < |trap| && trap[j] == Top(p.stack);
      if j + 1 < |trap| { assert LeadsTo(g, str, trap[j + 1 - 1], trap[j + 1]); }
      CycleHolds(g, str, trap, atBottom, Round(g, str, p), rounds - 1);
    }
  }

  /** Where the last one stays or pops into the way, a round ends on the way again. */
  lemma PopStays(g: Grammar, str: Line, below: seq<Context>, trap: seq<Context>, j: nat) returns (i: nat)
    requires GrammarSound(g) && str != "" && j < |trap| && StackOk(g, below + trap[..j + 1])
    requires Trap(g, str, trap, below == []) && !Match(g.contexts[Top(trap)], str).action.value.SetContext?
    ensures i < |trap| && Round(g, str, Place(below + trap[..j + 1], 0)) == Place(below + trap[..i + 1], 0)
  {
    var stack := below + trap[..j + 1];
    assert str[0..] == str && Top(stack) == trap[j];
    if j + 1 < |trap| {
      i := j + 1;
      assert LeadsTo(g, str, trap[i - 1], trap[i]);
      assert stack + [trap[i]] == below + trap[..i + 1];
    } else {
      var action := Match(g.contexts[trap[j]], str).action.value;
      i := if action.Stay? then j else if action.count < |trap| then j - action.count else 0;
      assert Apply(action, stack) == below + trap[..i + 1];
    }
  }

  lemma {:induction false} PopHolds(g: Grammar, str: Line, below: seq<Context>, trap: seq<Context>, j: nat, rounds: nat)
    requires GrammarSound(g) && str != "" && j < |trap| && StackOk(g, below + trap[..j + 1])
    requires Trap(g, str, trap, below == []) && !Match(g.contexts[Top(trap)], str).action.value.SetContext?
    ensures After(g, str, Place(below + trap[..j + 1], 0), rounds).at == 0
    decreases rounds
  {
    if rounds > 0 {
      var i := PopStays(g, str, below, trap, j);
      PopHolds(g, str, below, trap, i, rounds - 1);
    }
  }

  /** A trap catches a stack for good. */
  lemma TrapHolds(g: Grammar, str: Line, below: seq<Context>, trap: seq<Context>)
    requires GrammarSound(g) && str != "" && Trap(g, str, trap, below == []) && StackOk(g, below + [trap[0]])
    ensures !Ends(g, str, Place(below + [trap[0]], 0))
  {
    forall rounds: nat ensures After(g, str, Place(below + [trap[0]], 0), rounds).at == 0 {
      if Match(g.contexts[Top(trap)], str).action.value.SetContext? {
        CycleHolds(g, str, trap, below == [], Place(below + [trap[0]], 0), rounds);
      } else {
        assert trap[..1] == [trap[0]];
        PopHolds(g, str, below, trap, 0, rounds);
      }
    }
  }

  /**
   * The scan of every line from every stack on the initial context ends exactly if there is a way out of every
   * stall: by pushes that never come back to a context they have passed, or, above the bottom, by a pop of the
   * context that stalled and all it pushed.
   */
  lemma ScanEndsExactly(g: Grammar)
    requires GrammarSound(g)
    ensures (forall text: Line, stack | StackOk(g, stack) :: Ends(g, text, Place(stack, 0))) <==> GrammarOk(g)
  {
    if GrammarOk(g) {
      forall text: Line, stack | StackOk(g, stack) ensures Ends(g, text, Place(stack, 0)) {
        OkEnds(g, text, Place(stack, 0));
      }
    } else {
      var str: Line :| str != "" && !(LeadsOut(g, str, [g.initial], true) && OthersLeadOut(g, str));
      if !LeadsOut(g, str, [g.initial], true) {
        var trap := NoWayOut(g, str, [g.initial], true);
        TrapHolds(g, str, [], trap);
        assert [] + [trap[0]] == [g.initial];
      } else {
        var c :| c in g.contexts && !LeadsOut(g, str, [c], false);
        var trap := NoWayOut(g, str, [c], false);
        TrapHolds(g, str, [g.initial], trap);
      }
    }
  }

  // ---- Two grammars -----------------------------------------------------------------------------------

  /** A rule that finds an `a` at once, and one that finds nothing at once. */
  const TAKES_A: string -> Found := str => if str != "" && str[0] == 'a' then Found(0, 1) else Found(NOWHERE, 0)
  const TAKES_NOTHING: string -> Found := str => Found(0, 0)

  /** A context that stalls may pop back to one that takes something: this grammar never hangs. */
  lemma PopsBack()
    ensures var g := Grammar(map[0 := ContextData([Rule(TAKES_A, 0, SetContext(1))], 0, Stay),
                                 1 := ContextData([Rule(TAKES_NOTHING, 0, Pop(1))], 0, Stay)], 0);
      GrammarOk(g) && forall str: Line | str != "" :: Stalls(g.contexts[1], str)
  {
  }

  /** A rule of the initial context that matches emptily and stays holds the scan of every line that is not empty. */
  lemma StaysForEver(text: Line)
    requires text != ""
    ensures var g := Grammar(map[0 := ContextData([Rule(TAKES_NOTHING, 0, Stay)], 0, Stay)], 0);
      GrammarSound(g) && !GrammarOk(g) && !Ends(g, text, Place([0], 0))
  {
    var g := Grammar(map[0 := ContextData([Rule(TAKES_NOTHING, 0, Stay)], 0, Stay)], 0);
    assert Stalls(g.contexts[0], text);
    assert Trap(g, text, [0], true);
    TrapHolds(g, text, [], [0]);
    assert [] + [0] == [0];
    ScanEndsExactly(g);
  }
}

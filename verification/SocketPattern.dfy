/**
 * The debugger's side of socket names: the template becomes a pattern of literal text and greedy groups,
 * and the groups give back process name and number.
 */
module SocketPattern {
  import opened Expansion
  import opened SocketNames
  import opened Wrappers

  // ---- Patterns -------------------------------------------------------------------------------------------

  datatype Piece = Literal(text: string) | Group

  function Groups(pieces: seq<Piece>): nat {
    if pieces == [] then 0 else (if pieces[0].Group? then 1 else 0) + Groups(pieces[1..])
  }

  /** The string that a pattern becomes when its groups take these texts. */
  function Fill(pieces: seq<Piece>, texts: seq<string>): string
    requires |texts| == Groups(pieces)
  {
    if pieces == [] then ""
    else match pieces[0]
      case Literal(t) => t + Fill(pieces[1..], texts)
      case Group => texts[0] + Fill(pieces[1..], texts[1..])
  }

  /** Matches the whole string, every group as long as can be. */
  function MatchAll(pieces: seq<Piece>, s: string): (r: Option<seq<string>>)
    ensures r.Some? ==> |r.value| == Groups(pieces)
    decreases |pieces|, 0
  {
    if pieces == [] then (if s == "" then Some([]) else None)
    else match pieces[0]
      case Literal(t) => if t <= s then MatchAll(pieces[1..], s[|t|..]) else None
      case Group => MatchGroup(pieces[1..], s, |s|)
  }

  /** A group of at most `k` characters, then the rest. */
  function MatchGroup(rest: seq<Piece>, s: string, k: nat): (r: Option<seq<string>>)
    requires k <= |s|
    ensures r.Some? ==> |r.value| == 1 + Groups(rest)
    decreases |rest|, 1 + k
  {
    var m := MatchAll(rest, s[k..]);
    if m.Some? then Some([s[..k]] + m.value)
    else if k == 0 then None
    else MatchGroup(rest, s, k - 1)
  }

  /** The first text that differs in length is longer. */
  predicate Greedier(a: seq<string>, b: seq<string>) {
    a != [] && b != [] && (|a[0]| > |b[0]| || (|a[0]| == |b[0]| && Greedier(a[1..], b[1..])))
  }

  ghost predicate Fills(pieces: seq<Piece>, texts: seq<string>, s: string) {
    |texts| == Groups(pieces) && Fill(pieces, texts) == s
  }

  /** Matching finds the greediest way to fill the pattern, and fails only if there is none. */
  lemma {:induction false} MatchIsGreediest(pieces: seq<Piece>, s: string)
    ensures match MatchAll(pieces, s)
      case Some(best) => Fills(pieces, best, s) && forall texts :: Fills(pieces, texts, s) ==> !Greedier(texts, best)
      case None => forall texts :: !Fills(pieces, texts, s)
    decreases |pieces|, 0
  {
    if pieces == [] {
    } else if pieces[0].Literal? {
      var t, rest := pieces[0].text, pieces[1..];
      if t <= s {
        MatchIsGreediest(rest, s[|t|..]);
        assert t + s[|t|..] == s;
        forall texts | Fills(pieces, texts, s) ensures Fills(rest, texts, s[|t|..]) {
          assert (t + Fill(rest, texts))[|t|..] == Fill(rest, texts);
        }
      } else {
        forall texts | |texts| == Groups(pieces) ensures !Fills(pieces, texts, s) {
          assert t <= Fill(pieces, texts);
        }
      }
    } else {
      GroupIsGreediest(pieces, s, |s|);
      forall texts | Fills(pieces, texts, s) ensures ShortFills(pieces, texts, s, |s|) {
        FirstGroup(pieces, texts, s);
      }
    }
  }

  ghost predicate ShortFills(pieces: seq<Piece>, texts: seq<string>, s: string, k: nat) {
    Fills(pieces, texts, s) && texts != [] && |texts[0]| <= k
  }

  lemma FirstGroup(pieces: seq<Piece>, texts: seq<string>, s: string)
    requires pieces != [] && pieces[0].Group? && Fills(pieces, texts, s)
    ensures |texts[0]| <= |s| && Fills(pieces[1..], texts[1..], s[|texts[0]|..])
  {
    assert (texts[0] + Fill(pieces[1..], texts[1..]))[|texts[0]|..] == Fill(pieces[1..], texts[1..]);
  }

  lemma {:induction false} GroupIsGreediest(pieces: seq<Piece>, s: string, k: nat)
    requires pieces != [] && pieces[0].Group? && k <= |s|
    ensures match MatchGroup(pieces[1..], s, k)
      case Some(best) =>
        Fills(pieces, best, s) && forall texts :: ShortFills(pieces, texts, s, k) ==> !Greedier(texts, best)
      case None => forall texts :: !ShortFills(pieces, texts, s, k)
    decreases |pieces|, 0, k
  {
    var rest := pieces[1..];
    MatchIsGreediest(rest, s[k..]);
    var m := MatchAll(rest, s[k..]);
    if m.Some? {
      var best := [s[..k]] + m.value;
      assert best[1..] == m.value && s[..k] + s[k..] == s;
      forall texts | ShortFills(pieces, texts, s, k) ensures !Greedier(texts, best) {
        FirstGroup(pieces, texts, s);
      }
    } else {
      forall texts | ShortFills(pieces, texts, s, k) ensures k > 0 && ShortFills(pieces, texts, s, k - 1) {
        FirstGroup(pieces, texts, s);
      }
      if k > 0 { GroupIsGreediest(pieces, s, k - 1); }
    }
  }

  // ---- From template to pattern ----------------------------------------------------------------------------

  function CharAt(s: string, i: nat): char {
    if i < |s| then s[i] else '\0'
  }

  /** What the scan makes of the template from `i` on; text from `last` on is not yet taken. */
  function Compile(s: string, i: nat, last: nat): seq<Piece>
    requires last <= i
    decreases |s| - i
  {
    if i >= |s| then (if last < |s| then [Literal(s[last..])] else [])
    else if s[i] == '%' then [Literal(s[last..i]), Group] + Compile(s, i + 3, i + 2)
    else Compile(s, i + 1, last)
  }

  /** The letters of the placeholders that the scan comes upon from `i` on. */
  function Keys(s: string, i: nat): seq<char>
    decreases |s| - i
  {
    if i >= |s| then []
    else if s[i] == '%' then [CharAt(s, i + 1)] + Keys(s, i + 3)
    else Keys(s, i + 1)
  }

  lemma {:induction false} GroupPerKey(s: string, i: nat, last: nat)
    requires last <= i
    ensures Groups(Compile(s, i, last)) == |Keys(s, i)|
    decreases |s| - i
  {
    if i < |s| && s[i] == '%' {
      GroupPerKey(s, i + 3, i + 2);
      var rest := Compile(s, i + 3, i + 2);
      assert Compile(s, i, last)[1..] == [Group] + rest;
      assert ([Group] + rest)[1..] == rest;
    } else if i < |s| {
      GroupPerKey(s, i + 1, last);
    } else if last < |s| {
      assert [Literal(s[last..])][1..] == [];
    }
  }

  function LastIndex(keys: seq<char>, key: char): (r: int)
    ensures -1 <= r < |keys|
  {
    if keys == [] then -1
    else if keys[|keys| - 1] == key then |keys| - 1
    else LastIndex(keys[..|keys| - 1], key)
  }

  datatype Process = Process(pid: string, name: string, socket: string)

  datatype Pattern = Pattern(pieces: seq<Piece>, pid: int, name: int)

  predicate PatternOk(p: Pattern) {
    -1 <= p.pid < Groups(p.pieces) && -1 <= p.name < Groups(p.pieces)
  }

  function PatternOf(template: string): (p: Pattern)
    ensures PatternOk(p)
  {
    GroupPerKey(template, 0, 0);
    Pattern(Compile(template, 0, 0), LastIndex(Keys(template, 0), 'p'), LastIndex(Keys(template, 0), 'n'))
  }

  /** The process behind a socket, if its name fits; capture zero is the whole name. */
  function ProcessOf(p: Pattern, socket: string): Option<Process>
    requires PatternOk(p)
  {
    var m := MatchAll(p.pieces, socket);
    if m.None? then None
    else Some(Process(if p.pid == -1 then socket else m.value[p.pid],
                      if p.name == -1 then "" else m.value[p.name],
                      socket))
  }

  /**
   * These are the processes of exactly the sockets that fit, in order: `at` are the places of those sockets, and
   * each process is that of its socket.
   */
  ghost predicate Lists(p: Pattern, sockets: seq<string>, at: seq<nat>, processes: seq<Process>)
    requires PatternOk(p)
  {
    && |at| == |processes|
    && (forall j, k | 0 <= j < k < |at| :: at[j] < at[k])
    && (forall k | 0 <= k < |at| :: at[k] < |sockets| && ProcessOf(p, sockets[at[k]]) == Some(processes[k]))
    && (forall i: nat | i < |sockets| :: ProcessOf(p, sockets[i]).Some? <==> i in at)
  }

  lemma ListsOneMore(p: Pattern, sockets: seq<string>, at: seq<nat>, processes: seq<Process>, socket: string)
    requires PatternOk(p) && Lists(p, sockets, at, processes)
    ensures var found := ProcessOf(p, socket);
      if found.Some? then Lists(p, sockets + [socket], at + [|sockets|], processes + [found.value])
      else Lists(p, sockets + [socket], at, processes)
  {
    var n, more := |sockets|, sockets + [socket];
    forall i: nat | i < n ensures more[i] == sockets[i] && (i in at + [n] <==> i in at) {}
  }

  class AdbDevice {
    var pidInSocketRegex: int
    var pNameInSocketRegex: int
    var socketPathRegex: seq<Piece>

    constructor ()
      ensures Valid()
    {
      pidInSocketRegex, pNameInSocketRegex, socketPathRegex := -1, -1, [];
    }

    function CurrentPattern(): Pattern
      reads this
    {
      Pattern(socketPathRegex, pidInSocketRegex, pNameInSocketRegex)
    }

    ghost predicate Valid()
      reads this
    {
      PatternOk(CurrentPattern())
    }

    /** An empty answer changes nothing. */
    method ReloadProcessesGotPortString(portString: string)
      requires Valid()
      modifies this
      ensures Valid()
      ensures CurrentPattern() == if portString == "" then old(CurrentPattern()) else PatternOf(portString)
    {
      if |portString| == 0 { return; }
      var pieces: seq<Piece>, lastOffset, currentRegexGroup := [], 0, 0;
      ghost var keys: seq<char> := [];
      pidInSocketRegex := -1;
      pNameInSocketRegex := -1;
      var i := 0;
      while i < |portString|
        invariant lastOffset <= i && currentRegexGroup == |keys|
        invariant pieces + Compile(portString, i, lastOffset) == Compile(portString, 0, 0)
        invariant keys + Keys(portString, i) == Keys(portString, 0)
        invariant pidInSocketRegex == LastIndex(keys, 'p') && pNameInSocketRegex == LastIndex(keys, 'n')
      {
        if portString[i] == '%' {
          var here := [Literal(portString[lastOffset..i]), Group];
          var c := CharAt(portString, i + 1);
          if c == 'p' {
            pidInSocketRegex := currentRegexGroup;
          } else if c == 'n' {
            pNameInSocketRegex := currentRegexGroup;
          }
          assert (keys + [c])[..|keys|] == keys;
          assert keys + ([c] + Keys(portString, i + 3)) == (keys + [c]) + Keys(portString, i + 3);
          assert pieces + (here + Compile(portString, i + 3, i + 2)) ==
                 (pieces + here) + Compile(portString, i + 3, i + 2);
          keys := keys + [c];
          i := i + 2;
          pieces := pieces + here;
          currentRegexGroup := currentRegexGroup + 1;
          lastOffset := i;
        }
        i := i + 1;
      }
      if lastOffset < |portString| { pieces := pieces + [Literal(portString[lastOffset..])]; }
      socketPathRegex := pieces;
      assert keys + [] == keys;
      assert pieces + [] == pieces;
      GroupPerKey(portString, 0, 0);
    }

    method ReloadProcessesGotUnixSockets(sockets: seq<string>) returns (processes: seq<Process>)
      requires Valid()
      ensures exists at :: Lists(CurrentPattern(), sockets, at, processes)
    {
      processes := [];
      ghost var at: seq<nat> := [];
      var i := 0;
      while i < |sockets|
        invariant i <= |sockets|
        invariant Lists(CurrentPattern(), sockets[..i], at, processes)
      {
        ListsOneMore(CurrentPattern(), sockets[..i], at, processes, sockets[i]);
        assert sockets[..i] + [sockets[i]] == sockets[..i + 1];
        var m := MatchAll(socketPathRegex, sockets[i]);
        if m.Some? {
          var pid := if pidInSocketRegex == -1 then sockets[i] else m.value[pidInSocketRegex];
          var processName := "";
          if pNameInSocketRegex >= 0 { processName := m.value[pNameInSocketRegex]; }
          processes := processes + [Process(pid, processName, sockets[i])];
          at := at + [i];
        }
        i := i + 1;
      }
      assert sockets[..|sockets|] == sockets;
    }
  }

  // ---- There and back ----------------------------------------------------------------------------------------

  predicate EverySignStarts(s: string) {
    forall i | 0 <= i < |s| :: s[i] == '%' ==> CharAt(s, i + 1) in ['n', 'p']
  }

  /** Every per cent sign starts a placeholder, and no placeholder touches the next. */
  predicate Separated(s: string) {
    EverySignStarts(s) && forall i | 0 <= i < |s| :: s[i] == '%' ==> CharAt(s, i + 2) != '%'
  }

  function TextsOf(keys: seq<char>, values: map<char, string>): (texts: seq<string>)
    ensures |texts| == |keys|
  {
    if keys == [] then []
    else [if keys[0] in values then values[keys[0]] else ""] + TextsOf(keys[1..], values)
  }

  lemma OnePlainCharacter(s: string, at: nat, values: map<char, string>)
    requires at <= |s| && CharAt(s, at) != '%'
    ensures var k := if at < |s| then at + 1 else |s|;
      s[at..k] + Subst(s[k..], values) == Subst(s[at..], values)
  {
    if at < |s| { assert s[at..at + 1] == [s[at]] && s[at..][1..] == s[at + 1..]; }
  }

  lemma PatternFitsPlaceholder(s: string, i: nat, last: nat, values: map<char, string>)
    requires last <= i < |s| - 1 && s[i] == '%' && s[i + 1] in values
    requires Fills(Compile(s, i + 3, i + 2), TextsOf(Keys(s, i + 3), values), Subst(s[i + 2..], values))
    ensures Fills(Compile(s, i, last), TextsOf(Keys(s, i), values), s[last..i] + Subst(s[i..], values))
  {
    var rest, texts := Compile(s, i + 3, i + 2), TextsOf(Keys(s, i + 3), values);
    FillTwo(s[last..i], values[s[i + 1]], rest, texts);
    assert Keys(s, i)[1..] == Keys(s, i + 3);
    assert s[i..][2..] == s[i + 2..];
  }

  lemma {:induction false} PatternFits(s: string, i: nat, last: nat, name: string, pid: string)
    requires Separated(s) && last <= i <= |s| + 1 && last <= |s|
    ensures var k := if i <= |s| then i else |s|;
      Fills(Compile(s, i, last), TextsOf(Keys(s, i), Both(name, pid)), s[last..k] + Subst(s[k..], Both(name, pid)))
    decreases |s| - i
  {
    var values := Both(name, pid);
    if i >= |s| {
      assert s[|s|..] == "" && s[last..] == s[last..|s|];
    } else if s[i] == '%' {
      assert CharAt(s, i + 1) in ['n', 'p'];
      PatternFits(s, i + 3, i + 2, name, pid);
      OnePlainCharacter(s, i + 2, values);
      PatternFitsPlaceholder(s, i, last, values);
    } else {
      PatternFits(s, i + 1, last, name, pid);
      assert s[i..][1..] == s[i + 1..];
      assert s[last..i + 1] + Subst(s[i + 1..], values) == s[last..i] + ([s[i]] + Subst(s[i + 1..], values));
    }
  }

  lemma FillTwo(t: string, value: string, rest: seq<Piece>, texts: seq<string>)
    requires |texts| == Groups(rest)
    ensures Groups([Literal(t), Group] + rest) == 1 + Groups(rest)
    ensures Fill([Literal(t), Group] + rest, [value] + texts) == t + (value + Fill(rest, texts))
  {
    var pieces := [Literal(t), Group] + rest;
    assert pieces[1..] == [Group] + rest && pieces[1..][1..] == rest;
    assert ([value] + texts)[1..] == texts;
  }

  /** With separate placeholders, the name of a debuggee's socket fits its own template. */
  lemma FitsItsTemplate(template: string, name: string, pid: nat)
    requires Separated(template) && LeavesNone(template, name, pid)
    ensures NameEnds(template, name)
    ensures ProcessOf(PatternOf(template), SocketName(template, name, pid)).Some?
  {
    ExpansionIsSubstitution(template, name, pid);
    var socket := SocketName(template, name, pid);
    PatternFits(template, 0, 0, name, Decimal(pid));
    assert template[0..0] + Subst(template, Both(name, Decimal(pid))) == socket && template[0..] == template;
    MatchIsGreediest(Compile(template, 0, 0), socket);
  }

  /** A debuggee listens on the socket of this name. */
  ghost predicate ListensOn(template: string, socket: string, name: string, pid: nat) {
    LeavesNone(template, name, pid) && socket == Subst(template, Both(name, Decimal(pid)))
  }

  /**
   * Of any list of sockets, with separate placeholders: every socket that a debuggee listens on is listed, in
   * its place, and nothing is listed that does not fit. If debuggees listen on all of them, the list is theirs.
   */
  lemma EveryDebuggeeIsListed(template: string, sockets: seq<string>, at: seq<nat>, processes: seq<Process>,
                              names: seq<string>, pids: seq<nat>)
    requires Separated(template) && Lists(PatternOf(template), sockets, at, processes)
    requires |names| == |pids| == |sockets|
    ensures forall i: nat | i < |sockets| && ListensOn(template, sockets[i], names[i], pids[i]) ::
      NameEnds(template, names[i]) && SocketName(template, names[i], pids[i]) == sockets[i] && i in at
    ensures forall k | 0 <= k < |processes| :: processes[k].socket == sockets[at[k]]
    ensures (forall i | 0 <= i < |sockets| :: ListensOn(template, sockets[i], names[i], pids[i])) ==>
      |processes| == |sockets| && forall k | 0 <= k < |sockets| :: processes[k].socket == sockets[k]
  {
    forall i: nat | i < |sockets| && ListensOn(template, sockets[i], names[i], pids[i])
      ensures NameEnds(template, names[i]) && SocketName(template, names[i], pids[i]) == sockets[i] && i in at
    {
      ExpansionIsSubstitution(template, names[i], pids[i]);
      FitsItsTemplate(template, names[i], pids[i]);
    }
    if forall i | 0 <= i < |sockets| :: ListensOn(template, sockets[i], names[i], pids[i]) {
      AllPlaces(at, |sockets|);
    }
  }

  /** Rising numbers that leave none out are all numbers in turn. */
  lemma {:induction false} AllPlaces(at: seq<nat>, n: nat)
    requires (forall j, k | 0 <= j < k < |at| :: at[j] < at[k]) && (forall k | 0 <= k < |at| :: at[k] < n)
    requires forall i: nat | i < n :: i in at
    ensures |at| == n && forall k | 0 <= k < n :: at[k] == k
    decreases n
  {
    assert at == [] || at[0] < n;
    if n > 0 {
      assert n - 1 in at;
      var j :| 0 <= j < |at| && at[j] == n - 1;
      var front := at[..j];
      forall i: nat | i < n - 1 ensures i in front {
        assert i in at;
        var k :| 0 <= k < |at| && at[k] == i;
        assert front[k] == i;
      }
      assert forall k | 0 <= k < |front| :: front[k] == at[k] < at[j];
      AllPlaces(front, n - 1);
    }
  }

  /** A name without a per cent sign leaves none in such a template. */
  lemma {:induction false} PlainNameLeavesNoSign(s: string, name: string, pid: nat)
    requires EverySignStarts(s) && '%' !in name
    ensures '%' !in Subst(s, Both(name, Decimal(pid))) && LeavesNone(s, name, pid)
    decreases |s|
  {
    DecimalHasNo(pid, '%');
    if s != "" {
      assert s[0] == '%' ==> CharAt(s, 1) in ['n', 'p'];
      var k := if s[0] == '%' then 2 else 1;
      forall i | 0 <= i < |s[k..]| ensures s[k..][i] == '%' ==> CharAt(s[k..], i + 1) in ['n', 'p'] {
        assert s[k..][i] == s[i + k] && CharAt(s[k..], i + 1) == CharAt(s, i + k + 1);
      }
      PlainNameLeavesNoSign(s[k..], name, pid);
    }
  }

  // ---- Two placeholders -----------------------------------------------------------------------------------

  /** The text between the placeholders comes up again after its own place. */
  ghost predicate Again(mid: string, second: string) {
    exists k :: 0 < k <= |second| && AgainAt(mid, second, k)
  }

  predicate AgainAt(mid: string, second: string, k: nat) {
    k <= |second| && (mid + second)[k..k + |mid|] == mid
  }

  /** For one separating character this is plain: it occurs in the second value. */
  lemma OneSeparator(c: char, second: string)
    ensures Again([c], second) <==> c in second
  {
    if c in second {
      var j :| 0 <= j < |second| && second[j] == c;
      assert AgainAt([c], second, j + 1);
    }
    if Again([c], second) {
      var k: nat :| 0 < k <= |second| && AgainAt([c], second, k);
      assert ([c] + second)[k..k + 1][0] == second[k - 1];
    }
  }

  function TwoGroups(pre: string, mid: string, post: string): seq<Piece> {
    [Literal(pre), Group] + ([Literal(mid), Group] + (if post == "" then [] else [Literal(post)]))
  }

  lemma RegroupRight(pre: string, u: string, mid: string, v: string, post: string)
    ensures pre + (u + (mid + (v + post))) == pre + (u + mid + v) + post
  {
  }

  lemma TwoGroupsFill(pre: string, mid: string, post: string, texts: seq<string>)
    requires |texts| == 2
    ensures Groups(TwoGroups(pre, mid, post)) == 2
    ensures Fill(TwoGroups(pre, mid, post), texts) == pre + (texts[0] + mid + texts[1]) + post
  {
    var tail := if post == "" then [] else [Literal(post)];
    assert tail != [] ==> tail[1..] == [];
    assert Fill(tail, []) == post;
    FillTwo(mid, texts[1], tail, []);
    assert [texts[1]] + [] == [texts[1]];
    FillTwo(pre, texts[0], [Literal(mid), Group] + tail, [texts[1]]);
    assert texts == [texts[0]] + [texts[1]];
    RegroupRight(pre, texts[0], mid, texts[1], post);
  }

  /** Where the separating text comes up again, the first value can be taken longer. */
  lemma LongerFirst(first: string, mid: string, second: string) returns (other: seq<string>)
    requires Again(mid, second)
    ensures |other| == 2 && |other[0]| > |first| && other[0] + mid + other[1] == first + mid + second
  {
    var k: nat :| 0 < k <= |second| && AgainAt(mid, second, k);
    var inner, at := first + mid + second, |first| + k;
    assert inner == first + (mid + second);
    assert inner[at..at + |mid|] == mid;
    other := [inner[..at], inner[at + |mid|..]];
  }

  lemma LaterSplitMeansAgain(first: string, mid: string, second: string, a: string, b: string)
    requires a + mid + b == first + mid + second && |a| > |first|
    ensures Again(mid, second)
  {
    var inner, k := first + mid + second, |a| - |first|;
    assert (a + mid + b)[|a|..|a| + |mid|] == mid;
    assert inner == first + (mid + second);
    assert (mid + second)[k..k + |mid|] == inner[|a|..|a| + |mid|];
    assert AgainAt(mid, second, k);
  }

  lemma NoOtherSplit(first: string, mid: string, second: string, a: string, b: string)
    requires a + mid + b == first + mid + second && |a| >= |first| && !Again(mid, second)
    ensures a == first && b == second
  {
    if |a| > |first| { LaterSplitMeansAgain(first, mid, second, a, b); }
    SameSplit(first, mid, second, a, b);
  }

  lemma SameSplit(first: string, mid: string, second: string, a: string, b: string)
    requires a + mid + b == first + mid + second && |a| == |first|
    ensures a == first && b == second
  {
    assert (a + mid + b)[..|a|] == a && (first + mid + second)[..|a|] == first;
    assert (a + mid + b)[|a| + |mid|..] == b && (first + mid + second)[|a| + |mid|..] == second;
  }

  /** Matching gives back the two values exactly when the separating text does not come up again. */
  lemma TwoGroupsRecovered(pre: string, mid: string, post: string, first: string, second: string)
    ensures var m := MatchAll(TwoGroups(pre, mid, post), pre + (first + mid + second) + post);
      m.Some? && |m.value| == 2 && (m.value == [first, second] <==> !Again(mid, second))
  {
    var pieces, inner := TwoGroups(pre, mid, post), first + mid + second;
    var s := pre + inner + post;
    TwoGroupsFill(pre, mid, post, [first, second]);
    MatchIsGreediest(pieces, s);
    assert Fills(pieces, [first, second], s);
    var best := MatchAll(pieces, s).value;
    if Again(mid, second) {
      var other := LongerFirst(first, mid, second);
      TwoGroupsFill(pre, mid, post, other);
      assert Fills(pieces, other, s);
      assert !Greedier(other, best);
    } else {
      TwoGroupsFill(pre, mid, post, best);
      SameInner(pre, best[0] + mid + best[1], inner, post);
      assert !Greedier([first, second], best);
      NoOtherSplit(first, mid, second, best[0], best[1]);
      assert best == [best[0], best[1]];
    }
  }

  lemma SameInner(pre: string, a: string, b: string, post: string)
    requires pre + a + post == pre + b + post
    ensures a == b
  {
    assert (pre + a + post)[|pre|..|pre| + |a|] == a;
    assert (pre + b + post)[|pre|..|pre| + |b|] == b;
  }

  lemma {:induction false} ScanSkips(s: string, i: nat, j: nat, last: nat)
    requires last <= i <= j <= |s| && forall k | i <= k < j :: s[k] != '%'
    ensures Compile(s, i, last) == Compile(s, j, last) && Keys(s, i) == Keys(s, j)
    decreases j - i
  {
    if i < j { ScanSkips(s, i + 1, j, last); }
  }

  function Template(pre: string, k1: char, mid: string, k2: char, post: string): string {
    pre + ['%', k1] + (mid + ['%', k2] + post)
  }

  /** Per cent signs in `t` stand at `a` and `b` only. */
  ghost predicate TwoSigns(t: string, a: nat, b: nat) {
    && a + 2 <= b <= |t| - 2
    && forall i | 0 <= i < |t| :: t[i] == '%' <==> i == a || i == b
  }

  lemma TemplateParts(pre: string, k1: char, mid: string, k2: char, post: string)
    ensures var t := Template(pre, k1, mid, k2, post); var a := |pre|; var b := |pre| + 2 + |mid|;
      && |t| == b + 2 + |post| && t[..a] == pre && t[a] == '%' && t[a + 1] == k1 && t[a + 2..b] == mid
      && t[b] == '%' && t[b + 1] == k2 && t[b + 2..] == post
  {
  }

  lemma TemplateSigns(pre: string, k1: char, mid: string, k2: char, post: string)
    requires '%' !in pre + mid + post && k1 != '%' && k2 != '%'
    ensures var t := Template(pre, k1, mid, k2, post); var a := |pre|; var b := |pre| + 2 + |mid|;
      && TwoSigns(t, a, b)
      && t[..a] == pre && t[a + 1] == k1 && t[a + 2..b] == mid && t[b..] == ['%', k2] + post
      && t[b + 1] == k2 && t[b + 2..] == post
  {
    var t := Template(pre, k1, mid, k2, post);
    TemplateParts(pre, k1, mid, k2, post);
    assert '%' !in pre && '%' !in mid && '%' !in post by {
      assert forall x | x in pre || x in mid || x in post :: x in pre + mid + post;
    }
    SignsBetween(t, |pre|, |pre| + 2 + |mid|);
    assert t[|pre| + 2 + |mid|..] == ['%', k2] + post;
  }

  lemma SignsBetween(t: string, a: nat, b: nat)
    requires a + 2 <= b <= |t| - 2 && t[a] == '%' && t[a + 1] != '%' && t[b] == '%' && t[b + 1] != '%'
    requires '%' !in t[..a] && '%' !in t[a + 2..b] && '%' !in t[b + 2..]
    ensures TwoSigns(t, a, b)
  {
    forall i | 0 <= i < |t| ensures t[i] == '%' <==> i == a || i == b {
      if i < a {
        assert t[i] in t[..a];
      } else if a + 2 <= i < b {
        assert t[i] == t[a + 2..b][i - a - 2];
      } else if b + 2 <= i {
        assert t[i] == t[b + 2..][i - b - 2];
      }
    }
  }

  lemma ScanApart(t: string, a: nat, b: nat)
    requires TwoSigns(t, a, b) && a + 2 < b
    ensures Compile(t, 0, 0) == TwoGroups(t[..a], t[a + 2..b], t[b + 2..])
    ensures Keys(t, 0) == [t[a + 1], t[b + 1]]
  {
    ScanSkips(t, 0, a, 0);
    ScanSkips(t, a + 3, b, a + 2);
    if b + 2 < |t| {
      ScanSkips(t, b + 3, |t|, b + 2);
    } else {
      assert t[b + 2..] == "";
    }
  }

  lemma ScanAdjacent(t: string, a: nat)
    requires TwoSigns(t, a, a + 2)
    ensures Compile(t, 0, 0) == [Literal(t[..a]), Group, Literal(t[a + 2..])]
  {
    ScanSkips(t, 0, a, 0);
    ScanSkips(t, a + 3, |t|, a + 2);
  }

  lemma TemplateSubst(pre: string, k1: char, mid: string, k2: char, post: string, values: map<char, string>)
    requires '%' !in pre + mid + post && k1 in values && k2 in values && '%' !in values
    ensures Subst(Template(pre, k1, mid, k2, post), values) == pre + (values[k1] + mid + values[k2]) + post
  {
    var tail := mid + ['%', k2] + post;
    assert forall x | x in pre || x in mid || x in post :: x in pre + mid + post;
    SubstReplaces(pre, k1, tail, values);
    SubstReplaces(mid, k2, post, values);
    assert post + "" == post;
    SubstSkips(post, "", values);
    Regroup(pre, values[k1], mid, values[k2], post);
  }

  lemma Regroup(pre: string, u: string, mid: string, v: string, post: string)
    ensures pre + u + (mid + v + post) == pre + (u + mid + v) + post
  {
  }

  /** The name of the socket in terms of its parts. */
  lemma TemplateName(pre: string, k1: char, mid: string, k2: char, post: string, name: string, pid: nat)
    requires '%' !in pre + mid + post && k1 in ['n', 'p'] && k2 in ['n', 'p']
    requires LeavesNone(Template(pre, k1, mid, k2, post), name, pid)
    ensures var t, values := Template(pre, k1, mid, k2, post), Both(name, Decimal(pid));
      && NameEnds(t, name) && SocketName(t, name, pid) == pre + (values[k1] + mid + values[k2]) + post
      && !Has(SocketName(t, name, pid), k2)
  {
    ExpansionIsSubstitution(Template(pre, k1, mid, k2, post), name, pid);
    TemplateSubst(pre, k1, mid, k2, post, Both(name, Decimal(pid)));
  }

  /** The scan steps over a placeholder that touches the one before, and takes it for literal text. */
  lemma NoMatchOnceAdjacent(pre: string, k2: char, post: string, s: string)
    requires !Has(s, k2)
    ensures MatchAll([Literal(pre), Group, Literal(['%', k2] + post)], s).None?
  {
    var tail := [Literal(['%', k2] + post)];
    var pieces := [Literal(pre), Group] + tail;
    assert pieces == [Literal(pre), Group, Literal(['%', k2] + post)];
    MatchIsGreediest(pieces, s);
    assert tail[1..] == [];
    forall texts ensures !Fills(pieces, texts, s) {
      FillTwo(pre, "", tail, []);
      if |texts| == 1 {
        FillTwo(pre, texts[0], tail, []);
        assert texts == [texts[0]] + [];
        assert At(Fill(pieces, texts), |pre| + |texts[0]|, k2);
      }
    }
  }

  /**
   * The debugger reads back the name and number of the process that made the socket exactly when some text
   * separates the placeholders and does not come up again in the value of the second.
   */
  lemma ThereAndBack(pre: string, mid: string, post: string, nameFirst: bool, name: string, pid: nat)
    requires '%' !in pre + mid + post
    requires var k1, k2 := if nameFirst then 'n' else 'p', if nameFirst then 'p' else 'n';
      LeavesNone(Template(pre, k1, mid, k2, post), name, pid)
    ensures NameEnds(Template(pre, if nameFirst then 'n' else 'p', mid, if nameFirst then 'p' else 'n', post), name)
    ensures
      var template := Template(pre, if nameFirst then 'n' else 'p', mid, if nameFirst then 'p' else 'n', post);
      var socket := SocketName(template, name, pid);
      ProcessOf(PatternOf(template), socket) == Some(Process(Decimal(pid), name, socket)) <==>
      mid != "" && !Again(mid, if nameFirst then Decimal(pid) else name)
  {
    var k1, k2 := if nameFirst then 'n' else 'p', if nameFirst then 'p' else 'n';
    TemplateName(pre, k1, mid, k2, post, name, pid);
    if mid == "" {
      TemplateSigns(pre, k1, mid, k2, post);
      ScanAdjacent(Template(pre, k1, mid, k2, post), |pre|);
      NoMatchOnceAdjacent(pre, k2, post, SocketName(Template(pre, k1, mid, k2, post), name, pid));
    } else {
      var number := Decimal(pid);
      PatternApart(pre, k1, mid, k2, post);
      TwoGroupsRecovered(pre, mid, post, if nameFirst then name else number, if nameFirst then number else name);
    }
  }

  lemma PatternApart(pre: string, k1: char, mid: string, k2: char, post: string)
    requires '%' !in pre + mid + post && mid != "" && k1 in ['n', 'p'] && k2 in ['n', 'p'] && k1 != k2
    ensures PatternOf(Template(pre, k1, mid, k2, post)) ==
            Pattern(TwoGroups(pre, mid, post), if k1 == 'p' then 0 else 1, if k1 == 'n' then 0 else 1)
  {
    TemplateSigns(pre, k1, mid, k2, post);
    ScanApart(Template(pre, k1, mid, k2, post), |pre|, |pre| + 2 + |mid|);
    IndexOfTwo(k1, k2);
  }

  lemma IndexOfTwo(k1: char, k2: char)
    requires k1 != k2
    ensures LastIndex([k1, k2], k1) == 0 && LastIndex([k1, k2], k2) == 1
  {
    assert [k1, k2][..1] == [k1];
  }

  // ---- A single placeholder ------------------------------------------------------------------------------------

  lemma ScanSingle(pre: string, k: char, post: string)
    requires '%' !in pre && '%' !in post
    ensures var t := pre + ['%', k] + post;
      && Compile(t, 0, 0) == [Literal(pre), Group] + (if post == "" then [] else [Literal(post)])
      && Keys(t, 0) == [k]
  {
    var t, a := pre + ['%', k] + post, |pre|;
    assert t[..a] == pre && t[a] == '%' && t[a + 1] == k && t[a + 2..] == post;
    forall i | 0 <= i < |t| && i != a && i != a + 1 ensures t[i] != '%' {
      assert t[i] == if i < a then pre[i] else post[i - a - 2];
    }
    ScanSkips(t, 0, a, 0);
    if post != "" { ScanSkips(t, a + 3, |t|, a + 2); }
  }

  lemma SingleSubst(pre: string, k: char, post: string, values: map<char, string>)
    requires '%' !in pre && '%' !in post && k in values && '%' !in values
    ensures Subst(pre + ['%', k] + post, values) == pre + values[k] + post
  {
    SubstReplaces(pre, k, post, values);
    assert post + "" == post;
    SubstSkips(post, "", values);
  }

  /** One placeholder is read back as it was; without one for the number the whole name of the socket stands for it. */
  lemma OneAndBack(pre: string, k: char, post: string, name: string, pid: nat)
    requires '%' !in pre && '%' !in post && k in ['n', 'p']
    requires LeavesNone(pre + ['%', k] + post, name, pid)
    ensures NameEnds(pre + ['%', k] + post, name)
    ensures var template := pre + ['%', k] + post;
      var socket := SocketName(template, name, pid);
      ProcessOf(PatternOf(template), socket) ==
      Some(if k == 'p' then Process(Decimal(pid), "", socket) else Process(socket, name, socket))
  {
    var template, values := pre + ['%', k] + post, Both(name, Decimal(pid));
    ExpansionIsSubstitution(template, name, pid);
    ScanSingle(pre, k, post);
    SingleSubst(pre, k, post, values);
    OneGroupRecovered(pre, values[k], post);
    assert [k][..0] == [];
  }

  lemma OneGroupRecovered(pre: string, value: string, post: string)
    ensures MatchAll([Literal(pre), Group] + (if post == "" then [] else [Literal(post)]), pre + value + post) ==
            Some([value])
  {
    var rest := if post == "" then [] else [Literal(post)];
    var pieces, s := [Literal(pre), Group] + rest, pre + value + post;
    OneGroupFill(pre, value, post);
    MatchIsGreediest(pieces, s);
    assert Fills(pieces, [value], s);
    var best := MatchAll(pieces, s).value;
    OneGroupFill(pre, best[0], post);
    assert best == [best[0]];
    SameInner(pre, best[0], value, post);
  }

  lemma OneGroupFill(pre: string, value: string, post: string)
    ensures var pieces := [Literal(pre), Group] + if post == "" then [] else [Literal(post)];
      Groups(pieces) == 1 && Fill(pieces, [value]) == pre + value + post
  {
    var rest := if post == "" then [] else [Literal(post)];
    assert Groups(rest) == 0 && Fill(rest, []) == post by {
      if post != "" { assert rest[1..] == [] && post + "" == post; }
    }
    FillTwo(pre, value, rest, []);
    assert [value] + [] == [value] && pre + (value + post) == pre + value + post;
  }
}

/**
 * The comparison by which the highlighter keeps its map of states, and what a search that trusts it finds.
 */
module StateOrder {
  import opened HighlightModel

  type Stack = seq<Context>

  /** Shorter first, then any smaller element decides. */
  predicate Less(a: Stack, b: Stack) {
    |a| < |b| || (|a| == |b| && exists i :: 0 <= i < |a| && a[i] < b[i])
  }

  /** Two states that neither precedes are the same state. */
  lemma EquivalentIsEqual(a: Stack, b: Stack)
    requires !Less(a, b) && !Less(b, a)
    ensures a == b
  {
    forall i | 0 <= i < |a| ensures a[i] == b[i] {
      assert !(a[i] < b[i]) && !(b[i] < a[i]);
    }
  }

  /** Each of the two is the smaller one somewhere. */
  ghost predicate Cross(a: Stack, b: Stack) {
    |a| == |b| && (exists i :: 0 <= i < |a| && a[i] < b[i]) && (exists i :: 0 <= i < |a| && b[i] < a[i])
  }

  ghost predicate NoneCross(states: set<Stack>) {
    forall a, b | a in states && b in states :: !Cross(a, b)
  }

  ghost predicate StrictOrderOn(states: set<Stack>) {
    && (forall a, b | a in states && b in states :: !(Less(a, b) && Less(b, a)))
    && (forall a, b, c | a in states && b in states && c in states && Less(a, b) && Less(b, c) :: Less(a, c))
  }

  lemma LessGoesOn(a: Stack, b: Stack, c: Stack)
    requires !Cross(a, b) && !Cross(b, c) && !Cross(a, c) && Less(a, b) && Less(b, c)
    ensures Less(a, c)
  {
    if |a| == |c| {
      var i :| 0 <= i < |a| && a[i] < b[i];
      assert a[i] < c[i];
    }
  }

  lemma NotBeforeEarlier(a: Stack, b: Stack, c: Stack)
    requires !Cross(a, b) && !Cross(b, c) && !Cross(a, c) && !Less(a, c) && Less(b, c)
    ensures !Less(a, b)
  {
    if Less(a, b) { LessGoesOn(a, b, c); }
  }

  lemma NeitherBoth(a: Stack, b: Stack)
    requires !Cross(a, b) && Less(a, b)
    ensures !Less(b, a) && a != b
  {
  }

  /** The comparison orders a set of states strictly exactly when no two of them cross. */
  lemma StrictOrderExactly(states: set<Stack>)
    ensures StrictOrderOn(states) <==> NoneCross(states)
  {
    if NoneCross(states) {
      forall a, b | a in states && b in states ensures !(Less(a, b) && Less(b, a)) {
        assert !Cross(a, b);
      }
      forall a, b, c | a in states && b in states && c in states && Less(a, b) && Less(b, c) ensures Less(a, c) {
        LessGoesOn(a, b, c);
      }
    } else {
      var a, b :| a in states && b in states && Cross(a, b);
      assert Less(a, b) && Less(b, a);
    }
  }

  // ---- Searching a tree of states ----------------------------------------------------------------------------

  /** A way down some tree over the keys between `lo` and `hi` ends at `end`. */
  ghost predicate Searches(keys: seq<Stack>, key: Stack, lo: nat, hi: nat, end: nat)
    requires lo <= hi <= |keys|
    decreases hi - lo
  {
    if lo == hi then end == lo
    else exists mid :: lo <= mid < hi && GoesOn(keys, key, lo, hi, end, mid)
  }

  ghost predicate GoesOn(keys: seq<Stack>, key: Stack, lo: nat, hi: nat, end: nat, mid: nat)
    requires lo <= mid < hi <= |keys|
    decreases hi - lo, 0
  {
    if Less(key, keys[mid]) then Searches(keys, key, lo, mid, end) else Searches(keys, key, mid + 1, hi, end)
  }

  /** Where the search ends, the key is taken for new. */
  predicate TakenForNew(keys: seq<Stack>, key: Stack, end: nat)
    requires end <= |keys|
  {
    end == 0 || Less(keys[end - 1], key)
  }

  /** The keys after a search for `key`, which is inserted where it ends unless it is found there. */
  ghost predicate Inserts(keys: seq<Stack>, key: Stack, after: seq<Stack>) {
    exists end :: 0 <= end <= |keys| && InsertsAt(keys, key, after, end)
  }

  ghost predicate InsertsAt(keys: seq<Stack>, key: Stack, after: seq<Stack>, end: nat)
    requires end <= |keys|
  {
    && Searches(keys, key, 0, |keys|, end)
    && after == if TakenForNew(keys, key, end) then keys[..end] + [key] + keys[end..] else keys
  }

  /** From left to right, every key precedes the next ones. */
  ghost predicate Sorted(keys: seq<Stack>) {
    forall i, j | 0 <= i < j < |keys| :: Less(keys[i], keys[j])
  }

  /** The keys are sorted, and neither they nor the key cross. */
  ghost predicate Orderly(keys: seq<Stack>, key: Stack) {
    && Sorted(keys)
    && (forall i | 0 <= i < |keys| :: !Cross(key, keys[i]) && !Cross(keys[i], key))
    && (forall i, j | 0 <= i < |keys| && 0 <= j < |keys| :: !Cross(keys[i], keys[j]))
  }

  lemma SearchParts(keys: seq<Stack>, key: Stack, lo: nat, hi: nat, end: nat)
    requires lo <= hi <= |keys| && Searches(keys, key, lo, hi, end) && Orderly(keys, key)
    requires forall i | 0 <= i < lo :: !Less(key, keys[i])
    requires forall i | hi <= i < |keys| :: Less(key, keys[i])
    ensures lo <= end <= hi
    ensures forall i | 0 <= i < end :: !Less(key, keys[i])
    ensures forall i | end <= i < |keys| :: Less(key, keys[i])
    decreases hi - lo
  {
    if lo < hi {
      var mid :| lo <= mid < hi && GoesOn(keys, key, lo, hi, end, mid);
      if Less(key, keys[mid]) {
        forall i | mid < i < |keys| ensures Less(key, keys[i]) { LessGoesOn(key, keys[mid], keys[i]); }
        SearchParts(keys, key, lo, mid, end);
      } else {
        forall i | 0 <= i < mid ensures !Less(key, keys[i]) { NotBeforeEarlier(key, keys[i], keys[mid]); }
        SearchParts(keys, key, mid + 1, hi, end);
      }
    }
  }

  lemma BeforeTheEnd(keys: seq<Stack>, key: Stack, end: nat, i: nat)
    requires Orderly(keys, key) && i < end <= |keys| && Less(keys[end - 1], key)
    ensures Less(keys[i], key)
  {
    if i < end - 1 { LessGoesOn(keys[i], keys[end - 1], key); }
  }

  /** Where no states cross, a held state is found, and the keys stay sorted. */
  lemma HeldStateIsFound(keys: seq<Stack>, key: Stack, after: seq<Stack>)
    requires Orderly(keys, key) && Inserts(keys, key, after)
    ensures Sorted(after) && (key in keys ==> after == keys)
  {
    var end :| 0 <= end <= |keys| && InsertsAt(keys, key, after, end);
    SearchParts(keys, key, 0, |keys|, end);
    if TakenForNew(keys, key, end) {
      forall i | 0 <= i < end ensures Less(keys[i], key) && keys[i] != key {
        BeforeTheEnd(keys, key, end, i);
        NeitherBoth(keys[i], key);
      }
      forall i | end <= i < |keys| ensures keys[i] != key { NeitherBoth(key, keys[i]); }
      SortedWith(keys, key, end);
    }
  }

  lemma SortedWith(keys: seq<Stack>, key: Stack, end: nat)
    requires Sorted(keys) && end <= |keys|
    requires (forall i | 0 <= i < end :: Less(keys[i], key)) && forall i | end <= i < |keys| :: Less(key, keys[i])
    ensures Sorted(keys[..end] + [key] + keys[end..])
  {
  }

  // ---- Over a whole run --------------------------------------------------------------------------------------

  /** The keys of a map that is empty at first, after every one of these insertions. */
  ghost predicate Builds(trace: seq<seq<Stack>>, inserted: seq<Stack>) {
    && |trace| == |inserted| + 1 && trace[0] == []
    && forall i | 0 <= i < |inserted| :: Inserts(trace[i], inserted[i], trace[i + 1])
  }

  ghost predicate Once(keys: seq<Stack>) {
    forall i, j | 0 <= i < j < |keys| :: keys[i] != keys[j]
  }

  ghost predicate AllFrom(list: seq<Stack>, states: set<Stack>) {
    forall i | 0 <= i < |list| :: list[i] in states
  }

  lemma {:induction false} KeysStaySorted(states: set<Stack>, trace: seq<seq<Stack>>, inserted: seq<Stack>, n: nat)
    requires NoneCross(states) && Builds(trace, inserted) && AllFrom(inserted, states) && n <= |inserted|
    ensures Sorted(trace[n]) && AllFrom(trace[n], states)
    decreases n
  {
    if n > 0 {
      KeysStaySorted(states, trace, inserted, n - 1);
      assert Inserts(trace[n - 1], inserted[n - 1], trace[n - 1 + 1]);
      KeysStayIn(states, trace[n - 1], inserted[n - 1], trace[n]);
      HeldStateIsFound(trace[n - 1], inserted[n - 1], trace[n]);
    }
  }

  lemma KeysStayIn(states: set<Stack>, keys: seq<Stack>, key: Stack, after: seq<Stack>)
    requires NoneCross(states) && AllFrom(keys, states) && key in states && Sorted(keys) && Inserts(keys, key, after)
    ensures Orderly(keys, key) && AllFrom(after, states)
  {
    forall i | 0 <= i < |keys| ensures !Cross(key, keys[i]) && !Cross(keys[i], key) { assert keys[i] in states; }
    forall i, j | 0 <= i < |keys| && 0 <= j < |keys| ensures !Cross(keys[i], keys[j]) {
      assert keys[i] in states && keys[j] in states;
    }
  }

  lemma SortedIsOnce(keys: seq<Stack>)
    requires Sorted(keys)
    ensures Once(keys)
  {
    forall i, j | 0 <= i < j < |keys| ensures keys[i] != keys[j] { assert Less(keys[i], keys[j]); }
  }

  lemma CrossingIsNumberedTwice(a: Stack, b: Stack)
    requires Cross(a, b)
    ensures Builds([[], [a], [b, a], [a, b, a]], [a, b, a]) && !Once([a, b, a])
  {
    assert Less(a, b) && Less(b, a);
    assert InsertsAt([], a, [a], 0);
    assert GoesOn([a], b, 0, 1, 0, 0);
    assert InsertsAt([a], b, [b, a], 0);
    assert GoesOn([b, a], a, 0, 2, 0, 0);
    assert InsertsAt([b, a], a, [a, b, a], 0);
    assert [a, b, a][0] == [a, b, a][2];
  }

  /**
   * Whatever the shape of the tree, and whichever of these states are inserted however often: every state has
   * one number throughout, exactly when no two of them cross.
   */
  lemma OneNumberExactly(states: set<Stack>)
    ensures NoneCross(states) <==>
            forall trace, inserted | Builds(trace, inserted) && AllFrom(inserted, states) :: Once(trace[|inserted|])
  {
    if NoneCross(states) {
      forall trace, inserted | Builds(trace, inserted) && AllFrom(inserted, states) ensures Once(trace[|inserted|]) {
        KeysStaySorted(states, trace, inserted, |inserted|);
        SortedIsOnce(trace[|inserted|]);
      }
    } else {
      var a, b :| a in states && b in states && Cross(a, b);
      CrossingIsNumberedTwice(a, b);
      var trace, inserted := [[], [a], [b, a], [a, b, a]], [a, b, a];
      assert AllFrom(inserted, states) && trace[|inserted|] == [a, b, a];
    }
  }

  // ---- Where they do cross -----------------------------------------------------------------------------------

  const LEFT: Stack := [0, 1, 2]
  const RIGHT: Stack := [0, 2, 1]
  const BOTTOM: Stack := [0]

  lemma Comparisons()
    ensures Less(LEFT, RIGHT) && Less(RIGHT, LEFT) && Less(BOTTOM, LEFT) && Less(BOTTOM, RIGHT)
    ensures !Less(LEFT, BOTTOM) && !Less(RIGHT, BOTTOM) && !Less(LEFT, LEFT)
  {
    assert LEFT[1] < RIGHT[1] && RIGHT[2] < LEFT[2];
  }

  /**
   * Three states that pushing contexts reaches from the same bottom one, and searches in trees that hold them,
   * after which a state that is held is taken for new: it has two numbers.
   */
  lemma HeldStateIsNumberedTwice()
    ensures LEFT == Apply(SetContext(2), Apply(SetContext(1), BOTTOM))
    ensures RIGHT == Apply(SetContext(1), Apply(SetContext(2), BOTTOM))
    ensures Inserts([], LEFT, [LEFT])
    ensures Inserts([LEFT], RIGHT, [RIGHT, LEFT])
    ensures Inserts([RIGHT, LEFT], BOTTOM, [BOTTOM, RIGHT, LEFT])
    ensures Inserts([BOTTOM, RIGHT, LEFT], LEFT, [BOTTOM, LEFT, RIGHT, LEFT])
  {
    Comparisons();
    assert InsertsAt([], LEFT, [LEFT], 0);
    var one := [LEFT];
    assert GoesOn(one, RIGHT, 0, 1, 0, 0);
    assert InsertsAt(one, RIGHT, [RIGHT, LEFT], 0);
    var two := [RIGHT, LEFT];
    assert GoesOn(two, BOTTOM, 0, 1, 0, 0);
    assert GoesOn(two, BOTTOM, 0, 2, 0, 1);
    assert InsertsAt(two, BOTTOM, [BOTTOM, RIGHT, LEFT], 0);
    var three := [BOTTOM, RIGHT, LEFT];
    assert GoesOn(three, LEFT, 0, 1, 1, 0);
    assert GoesOn(three, LEFT, 0, 3, 1, 1);
    assert InsertsAt(three, LEFT, [BOTTOM, LEFT, RIGHT, LEFT], 1);
  }
}

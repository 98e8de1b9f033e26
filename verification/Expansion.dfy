/**
 * A loop that replaces the first placeholder, a per cent sign and a key letter, until none is left; and for
 * which texts and values it ends.
 */
module Expansion {
  // ---- Expanding, one placeholder at a time -----------------------------------------------------------

  predicate At(s: string, i: int, key: char) {
    0 <= i < |s| - 1 && s[i] == '%' && s[i + 1] == key
  }

  ghost predicate Has(s: string, key: char) {
    exists i :: At(s, i, key)
  }

  /** The first place at or after `i` where the placeholder stands, or the length if there is none. */
  function Find(s: string, key: char, i: nat): (r: nat)
    requires i <= |s|
    ensures i <= r <= |s|
    ensures r < |s| ==> At(s, r, key)
    ensures forall j | i <= j < r :: !At(s, j, key)
    decreases |s| - i
  {
    if i == |s| || At(s, i, key) then i else Find(s, key, i + 1)
  }

  function ReplaceAt(s: string, i: nat, value: string): string
    requires i + 2 <= |s|
  {
    s[..i] + value + s[i + 2..]
  }

  function Count(s: string, c: char): nat {
    if s == "" then 0 else (if s[0] == c then 1 else 0) + Count(s[1..], c)
  }

  // ---- For which values it ends -----------------------------------------------------------------------

  /** The value starts with two key letters and ends with two per cent signs. */
  predicate Explosive(key: char, value: string) {
    |value| > 1 && value[0] == value[1] == key && value[|value| - 2] == value[|value| - 1] == '%'
  }

  /** Two placeholders in a row, or one with another of its letters beside it. */
  predicate FuseAt(s: string, i: int, key: char) {
    || (At(s, i + 1, key) && i >= 0 && s[i] == '%')
    || (At(s, i, key) && i + 2 < |s| && s[i + 2] == key)
    || (At(s, i, key) && At(s, i + 2, key))
  }

  ghost predicate Fuse(s: string, key: char) {
    exists i :: FuseAt(s, i, key)
  }

  /** The loop has something to do and never gets done. */
  ghost predicate Endless(s: string, key: char, value: string) {
    (Has(s, key) && Has(value, key)) || (Fuse(s, key) && Explosive(key, value))
  }

  /**
   * The weight of a text when every per cent sign stands for one more, every key letter for `q` times as
   * much, and every other character closes an account and opens a new one.
   */
  function Weight(s: string, key: char, q: nat, m: nat): nat {
    if s == "" then m
    else if s[0] == '%' then Weight(s[1..], key, q, m + 1)
    else if s[0] == key then Weight(s[1..], key, q, m * q)
    else m + Weight(s[1..], key, q, 0)
  }

  function Slope(s: string, key: char, q: nat): (c: nat)
    requires q > 0
    ensures c > 0
  {
    if s == "" then 1
    else if s[0] == '%' then Slope(s[1..], key, q)
    else if s[0] == key then q * Slope(s[1..], key, q)
    else 1
  }

  lemma Distribute(c: nat, m: nat)
    ensures c * (m + 1) == c * m + c
  {
  }

  lemma Regroup(c: nat, m: nat, q: nat)
    ensures c * (m * q) == (q * c) * m
  {
  }

  lemma {:induction false} WeightIsLinear(s: string, key: char, q: nat, m: nat)
    requires q > 0
    ensures Weight(s, key, q, m) == Slope(s, key, q) * m + Weight(s, key, q, 0)
  {
    if s != "" {
      var t, c := s[1..], Slope(s[1..], key, q);
      if s[0] == '%' {
        WeightIsLinear(t, key, q, m + 1);
        WeightIsLinear(t, key, q, 1);
        Distribute(c, m);
      } else if s[0] == key {
        WeightIsLinear(t, key, q, m * q);
        Regroup(c, m, q);
      }
    }
  }

  lemma {:induction false} WeightOfSum(a: string, b: string, key: char, q: nat, m: nat)
    requires q > 0
    ensures Weight(a + b, key, q, m) <= Slope(b, key, q) * Weight(a, key, q, m) + Weight(b, key, q, 0)
  {
    if a == "" {
      assert a + b == b;
      WeightIsLinear(b, key, q, m);
    } else {
      assert (a + b)[1..] == a[1..] + b;
      if a[0] == '%' {
        WeightOfSum(a[1..], b, key, q, m + 1);
      } else if a[0] == key {
        WeightOfSum(a[1..], b, key, q, m * q);
      } else {
        WeightOfSum(a[1..], b, key, q, 0);
        AtLeastOnce(Slope(b, key, q), m, Weight(a[1..], key, q, 0));
      }
    }
  }

  lemma AtLeastOnce(c: nat, m: nat, w: nat)
    requires c > 0
    ensures m + c * w <= c * (m + w)
  {
    assert c * (m + w) == c * m + c * w;
    assert c * m >= m;
  }

  /** Without a placeholder in it, a text that does not start with a key letter adds no more than its signs. */
  lemma {:induction false} FlatWeight(v: string, key: char, q: nat, m: nat)
    requires key != '%' && !Has(v, key)
    ensures Weight(v, key, q, 0) <= Count(v, '%')
    ensures v == "" || v[0] != key ==> Weight(v, key, q, m) <= m + Count(v, '%')
  {
    if v != "" {
      var t := v[1..];
      assert !Has(t, key) by { forall i ensures !At(t, i, key) { assert !At(v, i + 1, key); } }
      assert t != "" && v[0] == '%' ==> t[0] != key by { assert !At(v, 0, key); }
      FlatWeight(t, key, q, m + 1);
      FlatWeight(t, key, q, 1);
    }
  }

  function Quotient(value: string): nat {
    Count(value, '%') + 1
  }

  predicate StartsLight(key: char, value: string) {
    !(|value| > 1 && value[0] == value[1] == key)
  }

  lemma LightWeight(v: string, key: char, m: nat)
    requires key != '%' && !Has(v, key) && StartsLight(key, v)
    ensures Weight(v, key, Quotient(v), m) < Quotient(v) * (m + 1)
  {
    var q := Quotient(v);
    assert q * (m + 1) == q * m + q && q * m >= m;
    FlatWeight(v, key, q, m);
    if v != "" && v[0] == key {
      var t := v[1..];
      assert !Has(t, key) by { forall i ensures !At(t, i, key) { assert !At(v, i + 1, key); } }
      FlatWeight(t, key, q, m * q);
    }
  }

  lemma LessTimes(c: nat, x: nat, y: nat)
    requires c > 0 && x < y
    ensures c * x < c * y
  {
  }

  /** Putting such a value for a placeholder makes any text lighter. */
  lemma {:induction false} WeightFalls(a: string, v: string, b: string, key: char, m: nat)
    requires key != '%' && !Has(v, key) && StartsLight(key, v)
    ensures Weight(a + v + b, key, Quotient(v), m) < Weight(a + ['%', key] + b, key, Quotient(v), m)
  {
    var q := Quotient(v);
    if a == "" {
      var ab := ['%', key] + b;
      assert a + v + b == v + b && a + ['%', key] + b == ab && ab[1..][1..] == b && ab[1..][0] == key;
      WeightOfSum(v, b, key, q, m);
      LightWeight(v, key, m);
      LessTimes(Slope(b, key, q), Weight(v, key, q, m), q * (m + 1));
      WeightIsLinear(b, key, q, (m + 1) * q);
    } else {
      assert (a + v + b)[1..] == a[1..] + v + b && (a + ['%', key] + b)[1..] == a[1..] + ['%', key] + b;
      WeightFalls(a[1..], v, b, key, if a[0] == '%' then m + 1 else if a[0] == key then m * q else 0);
    }
  }

  /** A text read backwards, with signs and key letters exchanged, has its placeholders at the mirrored places. */
  function Mirror(s: string, key: char): (r: string)
    ensures |r| == |s|
  {
    seq(|s|, i requires 0 <= i < |s| =>
      var c := s[|s| - 1 - i]; if c == '%' then key else if c == key then '%' else c)
  }

  lemma MirrorHas(s: string, key: char)
    requires key != '%'
    ensures Has(Mirror(s, key), key) ==> Has(s, key)
  {
    var r := Mirror(s, key);
    if Has(r, key) {
      var i :| At(r, i, key);
      assert At(s, |s| - 2 - i, key);
    }
  }

  lemma MirrorOfSum(a: string, v: string, b: string, key: char)
    ensures Mirror(a + v + b, key) == Mirror(b, key) + Mirror(v, key) + Mirror(a, key)
  {
  }

  /** What every round makes less: a weight from either side, or what is left behind the first placeholder. */
  function Rank(s: string, key: char, value: string): nat {
    if StartsLight(key, value) then Weight(s, key, Quotient(value), 0)
    else if StartsLight(key, Mirror(value, key)) then Weight(Mirror(s, key), key, Quotient(Mirror(value, key)), 0)
    else |s| - Find(s, key, 0)
  }

  /** One round: the first placeholder gives way to the value. */
  function Round(s: string, key: char, value: string): string {
    var i := Find(s, key, 0);
    if i == |s| then s else ReplaceAt(s, i, value)
  }

  lemma FirstStands(s: string, key: char)
    ensures Has(s, key) <==> Find(s, key, 0) < |s|
  {
  }

  lemma RankFalls(s: string, key: char, value: string)
    requires key != '%' && Has(s, key) && !Endless(s, key, value)
    ensures Rank(Round(s, key, value), key, value) < Rank(s, key, value)
  {
    var i := Find(s, key, 0);
    var a, b := s[..i], s[i + 2..];
    FirstStands(s, key);
    assert s == a + ['%', key] + b && Round(s, key, value) == a + value + b;
    if StartsLight(key, value) {
      WeightFalls(a, value, b, key, 0);
    } else if StartsLight(key, Mirror(value, key)) {
      MirrorOfSum(a, value, b, key);
      MirrorOfSum(a, ['%', key], b, key);
      assert Mirror(['%', key], key) == ['%', key];
      MirrorHas(value, key);
      WeightFalls(Mirror(b, key), Mirror(value, key), Mirror(a, key), key, 0);
    } else {
      NextIsBehind(s, key, value);
    }
  }

  /** A heavy value leaves nothing to do up to its last character. */
  lemma NextIsBehind(s: string, key: char, value: string)
    requires key != '%' && Has(s, key) && !Endless(s, key, value) && Explosive(key, value)
    ensures var i, t := Find(s, key, 0), Round(s, key, value);
      i < |s| && |t| == |s| + |value| - 2 && forall j | 0 <= j < i + |value| :: !At(t, j, key)
  {
    var i, t := Find(s, key, 0), Round(s, key, value);
    FirstStands(s, key);
    assert !FuseAt(s, i, key) && !FuseAt(s, i - 1, key);
    forall j | 0 <= j < i + |value| ensures !At(t, j, key) {
      if j < i - 1 {
        assert !At(s, j, key);
      } else if i <= j < i + |value| - 1 {
        assert !At(value, j - i, key);
      }
    }
  }

  lemma FuseWasThere(a: string, v: string, b: string, key: char)
    requires v != "" && Fuse(a + v + b, key) && forall j | 0 <= j < |a + v| :: !At(a + v + b, j, key)
    ensures Fuse(a + ['%', key] + b, key)
  {
    var s, t, n := a + ['%', key] + b, a + v + b, |a + v|;
    var j :| FuseAt(t, j, key);
    if j >= n {
      FuseOfRest(a + v, a + ['%', key], b, j - n, key);
    } else {
      assert !At(t, j, key);
      assert At(t, j + 1, key) && j + 1 == n;
      assert At(b, 0, key);
      assert At(s, |a|, key) && At(s, |a| + 2, key);
      assert FuseAt(s, |a|, key);
    }
  }

  lemma FuseOfRest(a: string, c: string, b: string, j: nat, key: char)
    requires FuseAt(a + b, |a| + j, key)
    ensures FuseAt(c + b, |c| + j, key)
  {
  }

  lemma StaysEndable(s: string, key: char, value: string)
    requires key != '%' && Has(s, key) && !Endless(s, key, value)
    ensures !Endless(Round(s, key, value), key, value)
  {
    if Explosive(key, value) {
      NextIsBehind(s, key, value);
      var i := Find(s, key, 0);
      assert s == s[..i] + ['%', key] + s[i + 2..];
      if Fuse(Round(s, key, value), key) { FuseWasThere(s[..i], value, s[i + 2..], key); }
    }
  }

  /** Round after round until no placeholder is left. */
  ghost function Expand(s: string, key: char, value: string): string
    requires key != '%' && !Endless(s, key, value)
    decreases Rank(s, key, value)
  {
    if !Has(s, key) then s
    else
      RankFalls(s, key, value);
      StaysEndable(s, key, value);
      Expand(Round(s, key, value), key, value)
  }

  lemma {:induction false} ExpandLeavesNone(s: string, key: char, value: string)
    requires key != '%' && !Endless(s, key, value)
    ensures !Has(Expand(s, key, value), key)
    decreases Rank(s, key, value)
  {
    if Has(s, key) {
      RankFalls(s, key, value);
      StaysEndable(s, key, value);
      ExpandLeavesNone(Round(s, key, value), key, value);
    }
  }

  method ReplaceAll(port: string, key: char, value: string) returns (expanded: string)
    requires key != '%' && !Endless(port, key, value)
    ensures expanded == Expand(port, key, value)
  {
    expanded := port;
    var pos := Find(expanded, key, 0);
    FirstStands(expanded, key);
    while pos != |expanded|
      invariant pos == Find(expanded, key, 0) && (pos < |expanded| <==> Has(expanded, key))
      invariant !Endless(expanded, key, value)
      invariant Expand(port, key, value) == Expand(expanded, key, value)
      decreases Rank(expanded, key, value)
    {
      RankFalls(expanded, key, value);
      StaysEndable(expanded, key, value);
      expanded := ReplaceAt(expanded, pos, value);
      pos := Find(expanded, key, 0);
      FirstStands(expanded, key);
    }
  }

  // ---- And for which it does not ------------------------------------------------------------------------

  /** What the text has become after so many rounds. */
  function After(s: string, key: char, value: string, rounds: nat): string
    decreases rounds
  {
    if rounds == 0 then s else After(Round(s, key, value), key, value, rounds - 1)
  }

  lemma EndlessGoesOn(s: string, key: char, value: string)
    requires key != '%' && Endless(s, key, value)
    ensures Has(s, key) && Endless(Round(s, key, value), key, value)
  {
    if Has(s, key) && Has(value, key) {
      FirstStands(s, key);
      var j :| At(value, j, key);
      assert At(Round(s, key, value), Find(s, key, 0) + j, key);
    } else {
      FuseGoesOn(s, key, value);
    }
  }

  lemma FuseGoesOn(s: string, key: char, value: string)
    requires key != '%' && Fuse(s, key) && Explosive(key, value)
    ensures Has(s, key) && Fuse(Round(s, key, value), key)
  {
    var j :| FuseAt(s, j, key);
    assert At(s, j, key) || At(s, j + 1, key);
    FirstStands(s, key);
    var i, n := Find(s, key, 0), |value|;
    var t := ReplaceAt(s, i, value);
    assert forall k | i <= k < i + n :: t[k] == value[k - i];
    assert forall k | i + n <= k < |t| :: t[k] == s[k - n + 2];
    if i + 2 <= j {
      assert FuseAt(t, j + n - 2, key);
    } else if i == j + 1 {
      assert FuseAt(t, j, key);
    } else {
      assert FuseAt(t, if s[i + 2] == key then i + n - 2 else i + n - 1, key);
    }
  }

  lemma {:induction false} EndlessStays(s: string, key: char, value: string, rounds: nat)
    requires key != '%' && Endless(s, key, value)
    ensures Endless(After(s, key, value, rounds), key, value)
    decreases rounds
  {
    if rounds > 0 {
      EndlessGoesOn(s, key, value);
      EndlessStays(Round(s, key, value), key, value, rounds - 1);
    }
  }

  lemma EndlessNeverEnds(s: string, key: char, value: string, rounds: nat)
    requires key != '%' && Endless(s, key, value)
    ensures Has(After(s, key, value, rounds), key)
  {
    EndlessStays(s, key, value, rounds);
    EndlessGoesOn(After(s, key, value, rounds), key, value);
  }

  lemma {:induction false} OthersEnd(s: string, key: char, value: string) returns (rounds: nat)
    requires key != '%' && !Endless(s, key, value)
    ensures !Has(After(s, key, value, rounds), key)
    decreases Rank(s, key, value)
  {
    if Has(s, key) {
      RankFalls(s, key, value);
      StaysEndable(s, key, value);
      var n := OthersEnd(Round(s, key, value), key, value);
      rounds := n + 1;
    } else {
      rounds := 0;
    }
  }

  /** For every text and every value: the loop gets done exactly when the two are not endless. */
  lemma EndsExactly(s: string, key: char, value: string)
    requires key != '%'
    ensures (exists rounds: nat :: !Has(After(s, key, value, rounds), key)) <==> !Endless(s, key, value)
  {
    if Endless(s, key, value) {
      forall rounds: nat ensures Has(After(s, key, value, rounds), key) { EndlessNeverEnds(s, key, value, rounds); }
    } else {
      var rounds := OthersEnd(s, key, value);
    }
  }

  /** A value is safe in every text exactly when it neither holds the placeholder nor is explosive. */
  lemma SafeValuesExactly(key: char, value: string)
    requires key != '%'
    ensures (forall s :: !Endless(s, key, value)) <==> !Has(value, key) && !Explosive(key, value)
  {
    if Has(value, key) {
      assert At(['%', key], 0, key);
      assert Endless(['%', key], key, value);
    } else if Explosive(key, value) {
      assert FuseAt(['%', '%', key], 0, key);
      assert Endless(['%', '%', key], key, value);
    }
  }

  /** Without the placeholder in it, this name still keeps the loop going for ever in this template. */
  lemma NameWithoutPlaceholderNeverEnds(rounds: nat)
    ensures !Has("nn%%", 'n') && Has(After("%%n", 'n', "nn%%", rounds), 'n')
  {
    assert FuseAt("%%n", 0, 'n');
    EndlessNeverEnds("%%n", 'n', "nn%%", rounds);
  }
}

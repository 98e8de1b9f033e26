/** A texture object's record of the images the program asked for, level by level. */
module TextureObject {
  datatype Level = Level(internalFormat: nat, dataType: nat, width: int, height: int, depth: int)

  const NO_LEVEL := Level(0, 0, 0, 0, 0)

  /** Halves like C++: towards zero. */
  function Half(d: int): (r: int)
    ensures d >= 0 ==> 2 * r <= d <= 2 * r + 1
    ensures d < 0 ==> 2 * r - 1 <= d <= 2 * r
  {
    if d >= 0 then d / 2 else -(-d / 2)
  }

  function Max1(d: int): (r: int)
    ensures r >= 1 && r >= d
  {
    if d < 1 then 1 else d
  }

  function Pow2(n: nat): (r: nat)
    ensures r > 0
  {
    if n == 0 then 1 else 2 * Pow2(n - 1)
  }

  /** What halving after every level leaves at level `i`. */
  function Halved(d: int, i: nat): int {
    if i == 0 then d else Max1(Half(Halved(d, i - 1)))
  }

  lemma HalfOfQuotient(d: nat, p: nat)
    requires p > 0
    ensures d / p / 2 == d / (2 * p)
  {
    var q := d / p;
    var r := d - q * p;
    assert 0 <= r < p by { assert d == p * (d / p) + d % p; }
    var h := q / 2;
    assert q == 2 * h || q == 2 * h + 1;
    assert d == h * (2 * p) + (q - 2 * h) * p + r;
    var rest := (q - 2 * h) * p + r;
    assert 0 <= rest < 2 * p;
    assert d / (2 * p) == h by { QuotientIs(d, 2 * p, h, rest); }
  }

  lemma QuotientIs(d: nat, p: nat, q: nat, r: nat)
    requires p > 0 && d == q * p + r && r < p
    ensures d / p == q
  {
    var k := d / p;
    assert d == p * k + d % p;
    if k < q {
      NextMultiple(p, k, q);
    } else if k > q {
      NextMultiple(p, q, k);
    }
  }

  lemma NextMultiple(p: nat, a: nat, b: nat)
    requires a < b
    ensures p * a + p <= p * b
  {
    assert p * (a + 1) <= p * b;
  }

  /** Level by level halving is one division: level `i` is the size over two to the `i`, but at least one. */
  lemma {:induction false} HalvedIsQuotient(d: int, i: nat)
    ensures Halved(d, i) == if i == 0 then d else if d >= 1 then Max1(d / Pow2(i)) else 1
  {
    if i > 0 {
      HalvedIsQuotient(d, i - 1);
      if d >= 1 {
        HalfOfQuotient(d, Pow2(i - 1));
        if i > 1 && d / Pow2(i - 1) < 1 { assert d / Pow2(i) < 1; }
      }
    }
  }

  /** The rule of mipmap sizes holds at every level, the first included, exactly for a size of one or more. */
  lemma MipmapRuleExactly(d: int)
    ensures (forall i: nat :: Halved(d, i) == Max1(if d >= 1 then d / Pow2(i) else 0)) <==> d >= 1
  {
    if d >= 1 {
      forall i: nat ensures Halved(d, i) == Max1(d / Pow2(i)) { HalvedIsQuotient(d, i); }
    } else {
      assert Halved(d, 0) == d;
    }
  }

  class GLTextureObj {
    var levels: seq<Level>

    constructor ()
      ensures levels == []
    {
      levels := [];
    }

    /** Levels that had to be made up on the way are blank; all others stay. */
    method SetTexImage(level: nat, width: int, height: int, depth: int, internalFormat: nat, dataType: nat)
      modifies this
      ensures |levels| == if level < |old(levels)| then |old(levels)| else level + 1
      ensures levels[level] == Level(internalFormat, dataType, width, height, depth)
      ensures forall i | 0 <= i < |levels| && i != level ::
        levels[i] == if i < |old(levels)| then old(levels)[i] else NO_LEVEL
    {
      if |levels| < level + 1 {
        levels := levels + seq(level + 1 - |levels|, _ => NO_LEVEL);
      }
      levels := levels[level := Level(internalFormat, dataType, width, height, depth)];
    }

    method SetTexStorage(count: nat, width: int, height: int, depth: int, internalFormat: nat, dataType: nat)
      modifies this
      ensures |levels| == count
      ensures forall i | 0 <= i < count ::
        levels[i] == Level(internalFormat, dataType, Halved(width, i), Halved(height, i), Halved(depth, i))
    {
      var levelWidth, levelHeight, levelDepth := width, height, depth;
      levels := if count <= |levels| then levels[..count] else levels + seq(count - |levels|, _ => NO_LEVEL);
      for i := 0 to count
        invariant |levels| == count
        invariant levelWidth == Halved(width, i) && levelHeight == Halved(height, i) && levelDepth == Halved(depth, i)
        invariant forall k | 0 <= k < i ::
          levels[k] == Level(internalFormat, dataType, Halved(width, k), Halved(height, k), Halved(depth, k))
      {
        SetTexImage(i, levelWidth, levelHeight, levelDepth, internalFormat, dataType);
        levelWidth := Max1(Half(levelWidth));
        levelHeight := Max1(Half(levelHeight));
        levelDepth := Max1(Half(levelDepth));
      }
    }

    /** The level asked for, if the list reaches that far, blank or not; a negative level is a huge one. */
    method GetRequestedLevel(level: int) returns (found: bool, value: Level)
      ensures found <==> 0 <= level < |levels|
      ensures found ==> value == levels[level]
    {
      found, value := false, NO_LEVEL;
      if 0 <= level < |levels| {
        found, value := true, levels[level];
      }
    }
  }
}

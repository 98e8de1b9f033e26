/**
 * Names of listening sockets: the debuggee expands a template with its process name and number, one
 * placeholder after the other, and that is compared with substituting all at once.
 */
module SocketNames {
  import opened Expansion

  // ---- Substituting all at once -----------------------------------------------------------------------------

  /** The meaning of a template: read from left to right, every placeholder stands for its value. */
  function Subst(s: string, values: map<char, string>): string {
    if s == "" then ""
    else if |s| > 1 && s[0] == '%' && s[1] in values then values[s[1]] + Subst(s[2..], values)
    else [s[0]] + Subst(s[1..], values)
  }

  /** Text in which no placeholder begins stays as it is. */
  lemma {:induction false} SubstSkips(a: string, b: string, values: map<char, string>)
    requires forall i | 0 <= i < |a| :: (a + b)[i] == '%' ==> i + 1 == |a + b| || (a + b)[i + 1] !in values
    ensures Subst(a + b, values) == a + Subst(b, values)
  {
    if a == "" {
      assert a + b == b;
    } else {
      assert (a + b)[0] == a[0];
      assert (a + b)[1..] == a[1..] + b;
      forall i | 0 <= i < |a[1..]|
        ensures (a[1..] + b)[i] == '%' ==> i + 1 == |a[1..] + b| || (a[1..] + b)[i + 1] !in values
      {
        assert (a[1..] + b)[i] == (a + b)[i + 1];
        if i + 1 < |a[1..] + b| { assert (a[1..] + b)[i + 1] == (a + b)[i + 2]; }
      }
      SubstSkips(a[1..], b, values);
      assert a == [a[0]] + a[1..];
    }
  }

  lemma SubstReplaces(a: string, key: char, b: string, values: map<char, string>)
    requires key in values && key != '%'
    requires forall i | 0 <= i < |a| :: a[i] == '%' ==> i + 1 < |a| ==> a[i + 1] !in values
    requires '%' !in values
    ensures Subst(a + ['%', key] + b, values) == a + values[key] + Subst(b, values)
  {
    var rest := ['%', key] + b;
    assert a + ['%', key] + b == a + rest;
    SubstSkips(a, rest, values);
    assert rest[2..] == b;
    assert a + (values[key] + Subst(b, values)) == a + values[key] + Subst(b, values);
  }

  /** A text can be substituted in two parts, unless the second starts with a key letter. */
  lemma {:induction false} SubstSplits(a: string, b: string, values: map<char, string>)
    requires b == "" || b[0] !in values
    ensures Subst(a + b, values) == Subst(a, values) + Subst(b, values)
  {
    if a == "" {
      assert a + b == b;
    } else {
      var k := if |a| > 1 && a[0] == '%' && a[1] in values then 2 else 1;
      assert (a + b)[0] == a[0] && (a + b)[k..] == a[k..] + b;
      assert |a| > 1 ==> (a + b)[1] == a[1];
      SubstSplits(a[k..], b, values);
      var front := if k == 2 then values[a[1]] else [a[0]];
      assert front + (Subst(a[k..], values) + Subst(b, values)) == (front + Subst(a[k..], values)) + Subst(b, values);
    }
  }

  /** A placeholder anywhere is read as one. */
  lemma SubstAround(s: string, i: nat, key: char, value: string)
    requires key != '%' && At(s, i, key)
    ensures var values := map[key := value];
      Subst(s, values) == Subst(s[..i], values) + (value + Subst(s[i + 2..], values))
  {
    assert s == s[..i] + s[i..];
    SubstSplits(s[..i], s[i..], map[key := value]);
    assert s[i..][2..] == s[i + 2..];
  }

  /** Where substitution leaves no placeholder behind, the loop ends. */
  lemma EndlessShows(s: string, key: char, value: string)
    requires key != '%' && Endless(s, key, value)
    ensures Has(Subst(s, map[key := value]), key)
  {
    var values, all := map[key := value], Subst(s, map[key := value]);
    if Has(s, key) && Has(value, key) {
      var i, j :| At(s, i, key) && At(value, j, key);
      SubstAround(s, i, key, value);
      assert At(all, |Subst(s[..i], values)| + j, key);
    } else {
      var i :| FuseAt(s, i, key);
      FuseShows(s, i, key, value);
    }
  }

  lemma FuseShows(s: string, i: int, key: char, value: string)
    requires key != '%' && FuseAt(s, i, key) && Explosive(key, value)
    ensures Has(Subst(s, map[key := value]), key)
  {
    var values, all := map[key := value], Subst(s, map[key := value]);
    if At(s, i, key) {
      SubstAround(s, i, key, value);
      var tail := s[i + 2..];
      if At(s, i + 2, key) { SubstAround(tail, 0, key, value); } else { SubstKeepsFirst(tail, key, values); }
      assert At(all, |Subst(s[..i], values)| + |value| - 1, key);
    } else {
      SubstAround(s, i + 1, key, value);
      assert s[..i + 1] == s[..i] + ['%'];
      SubstSplits(s[..i], ['%'], values);
      assert At(all, |Subst(s[..i], values)|, key);
    }
  }

  /** Where substitution leaves no placeholder behind, replacing one after the other comes to the same. */
  lemma {:induction false} ExpandIsSubst(s: string, key: char, value: string)
    requires key != '%' && !Endless(s, key, value) && !Has(Subst(s, map[key := value]), key)
    ensures Expand(s, key, value) == Subst(s, map[key := value])
    decreases Rank(s, key, value)
  {
    var values, all := map[key := value], Subst(s, map[key := value]);
    FirstStands(s, key);
    if !Has(s, key) {
      assert s + "" == s;
      forall j | 0 <= j < |s| ensures (s + "")[j] == '%' ==> j + 1 == |s| || (s + "")[j + 1] !in values {
        assert !At(s, j, key);
      }
      SubstSkips(s, "", values);
    } else {
      var i := Find(s, key, 0);
      var a, b := s[..i], s[i + 2..];
      RankFalls(s, key, value);
      StaysEndable(s, key, value);
      FirstGivesWay(s, key, value);
      ExpandIsSubst(Round(s, key, value), key, value);
    }
  }

  /** One round does not change what substitution makes of the text. */
  lemma FirstGivesWay(s: string, key: char, value: string)
    requires key != '%' && Has(s, key) && !Has(Subst(s, map[key := value]), key)
    ensures Subst(Round(s, key, value), map[key := value]) == Subst(s, map[key := value])
  {
    var values, all, i := map[key := value], Subst(s, map[key := value]), Find(s, key, 0);
    FirstStands(s, key);
    var a, b := s[..i], s[i + 2..];
    assert s == a + ['%', key] + b;
    forall j | 0 <= j < |a| ensures a[j] == '%' ==> j + 1 < |a| ==> a[j + 1] !in values {
      assert !At(s, j, key);
    }
    SubstReplaces(a, key, b, values);
    var t := (a + value) + b;
    assert Round(s, key, value) == t && all == (a + value) + Subst(b, values);
    forall j | 0 <= j < |a + value| ensures t[j] == '%' ==> j + 1 == |t| || t[j + 1] !in values {
      assert !At(all, j, key);
      SubstKeepsFirst(b, key, values);
    }
    SubstSkips(a + value, b, values);
  }

  /** A letter that does not start a placeholder stands first after substitution if it did before. */
  lemma SubstKeepsFirst(s: string, c: char, values: map<char, string>)
    requires c != '%'
    ensures s != "" && s[0] == c ==> Subst(s, values) != "" && Subst(s, values)[0] == c
  {
  }

  // ---- Names and numbers together -----------------------------------------------------------------------

  function Digit(d: nat): char
    requires d < 10
  {
    ['0', '1', '2', '3', '4', '5', '6', '7', '8', '9'][d]
  }

  const DIGITS := ['0', '1', '2', '3', '4', '5', '6', '7', '8', '9']

  function Decimal(n: nat): (s: string)
    ensures s != "" && forall i | 0 <= i < |s| :: s[i] in DIGITS
  {
    if n < 10 then [Digit(n)] else Decimal(n / 10) + [Digit(n % 10)]
  }

  /** The number that digits stand for. */
  function Value(s: string): nat
    requires forall i | 0 <= i < |s| :: '0' <= s[i] <= '9'
  {
    if s == "" then 0 else 10 * Value(s[..|s| - 1]) + (s[|s| - 1] - '0') as nat
  }

  /** A printed number reads as that number. */
  lemma {:induction false} DecimalReadsBack(n: nat)
    ensures (forall i | 0 <= i < |Decimal(n)| :: '0' <= Decimal(n)[i] <= '9') && Value(Decimal(n)) == n
  {
    if n < 10 {
      assert Decimal(n)[..0] == "";
    } else {
      DecimalReadsBack(n / 10);
      var s := Decimal(n);
      assert s[..|s| - 1] == Decimal(n / 10) && s[|s| - 1] == Digit(n % 10);
    }
  }

  function Both(name: string, pid: string): map<char, string> {
    map['n' := name, 'p' := pid]
  }

  /** The loop over names gets done. */
  ghost predicate NameEnds(template: string, name: string) {
    !Endless(template, 'n', name)
  }

  /** What the debuggee listens on: names first, then numbers. */
  ghost function SocketName(template: string, name: string, pid: nat): string
    requires NameEnds(template, name)
  {
    NumbersEnd(Expand(template, 'n', name), pid);
    Expand(Expand(template, 'n', name), 'p', Decimal(pid))
  }

  lemma DecimalHasNo(pid: nat, c: char)
    requires c !in DIGITS
    ensures c !in Decimal(pid)
  {
  }

  lemma NumbersEnd(s: string, pid: nat)
    ensures !Endless(s, 'p', Decimal(pid))
  {
    DecimalHasNo(pid, '%');
  }

  method GetPort(template: string, name: string, pid: nat) returns (port: string)
    requires NameEnds(template, name)
    ensures port == SocketName(template, name, pid)
  {
    port := ReplaceAll(template, 'n', name);
    NumbersEnd(port, pid);
    port := ReplaceAll(port, 'p', Decimal(pid));
  }

  /** A key letter that comes first once names are in also comes first once numbers are. */
  lemma {:induction false} SameFirst(s: string, name: string, pid: string, c: char)
    requires c != '%'
    ensures var ns, both := Subst(s, map['n' := name]), Subst(s, Both(name, pid));
      ns != "" && ns[0] == c ==> both != "" && both[0] == c
  {
    if At(s, 0, 'n') && name == "" { SameFirst(s[2..], name, pid, c); }
  }

  /** What names alone leave of a name placeholder is there with the numbers in, too. */
  lemma {:induction false} NamesLeaveNoMore(s: string, name: string, pid: string)
    requires !Has(Subst(s, Both(name, pid)), 'n')
    ensures !Has(Subst(s, map['n' := name]), 'n')
  {
    var ns, both := map['n' := name], Both(name, pid);
    if s == "" {
    } else if At(s, 0, 'p') {
      var rest, part := Subst(s[2..], both), Subst(s[2..], ns);
      HasNot(pid, rest, 'n');
      NamesLeaveNoMore(s[2..], name, pid);
      assert Subst(s[1..], ns) == ['p'] + part by { assert s[1..][0] == 'p' && s[1..][1..] == s[2..]; }
      assert Subst(s, ns) == ['%', 'p'] + part;
      forall i ensures !At(['%', 'p'] + part, i, 'n') {
        if i >= 2 { assert !At(part, i - 2, 'n'); }
      }
    } else {
      var k, front := if At(s, 0, 'n') then 2 else 1, if At(s, 0, 'n') then name else [s[0]];
      HasNot(front, Subst(s[k..], both), 'n');
      NamesLeaveNoMore(s[k..], name, pid);
      SameFirst(s[k..], name, pid, 'n');
      HasNotEither(front, Subst(s[k..], both), Subst(s[k..], ns), 'n');
    }
  }

  lemma HasNotEither(a: string, b: string, c: string, key: char)
    requires !Has(a + b, key) && !Has(c, key)
    requires c != "" && c[0] == key ==> b != "" && b[0] == key
    ensures !Has(a + c, key)
  {
    forall i ensures !At(a + c, i, key) {
      if i >= |a| {
        assert !At(c, i - |a|, key);
      } else {
        assert !At(a + b, i, key);
      }
    }
  }

  lemma HasNot(a: string, b: string, key: char)
    requires !Has(a + b, key)
    ensures !Has(b, key)
  {
    forall i ensures !At(b, i, key) { assert !At(a + b, |a| + i, key); }
  }

  /** Names first and numbers second is both at once, where that leaves no number placeholder. */
  lemma {:induction false} SubstTwice(s: string, name: string, pid: string)
    requires !Has(Subst(s, Both(name, pid)), 'p')
    ensures Subst(Subst(s, map['n' := name]), map['p' := pid]) == Subst(s, Both(name, pid))
  {
    var ns, ps, both := map['n' := name], map['p' := pid], Both(name, pid);
    if s == "" {
    } else if At(s, 0, 'p') {
      var rest := Subst(s[2..], ns);
      HasNot(pid, Subst(s[2..], both), 'p');
      SubstTwice(s[2..], name, pid);
      assert Subst(s[1..], ns) == ['p'] + rest by { assert s[1..][0] == 'p' && s[1..][1..] == s[2..]; }
      var all := Subst(s, ns);
      assert all == ['%'] + (['p'] + rest);
      assert all[2..] == rest;
    } else {
      var k, front := if At(s, 0, 'n') then 2 else 1, if At(s, 0, 'n') then name else [s[0]];
      var rest, part := Subst(s[k..], both), Subst(s[k..], ns);
      HasNot(front, rest, 'p');
      SubstTwice(s[k..], name, pid);
      SameFirst(s[k..], name, pid, 'p');
      forall i | 0 <= i < |front|
        ensures (front + part)[i] == '%' ==> i + 1 == |front + part| || (front + part)[i + 1] !in ps
      {
        assert !At(front + rest, i, 'p');
      }
      SubstSkips(front, part, ps);
    }
  }

  /** Numbers bring no name placeholder back. */
  lemma {:induction false} NumbersMakeNoNames(s: string, pid: nat)
    requires !Has(s, 'n')
    ensures !Endless(s, 'p', Decimal(pid)) && !Has(Expand(s, 'p', Decimal(pid)), 'n')
    decreases Rank(s, 'p', Decimal(pid))
  {
    var value := Decimal(pid);
    NumbersEnd(s, pid);
    DecimalHasNo(pid, '%');
    DecimalHasNo(pid, 'n');
    FirstStands(s, 'p');
    if Has(s, 'p') {
      RankFalls(s, 'p', value);
      OneNumberMakesNoName(s, value);
      NumbersMakeNoNames(Round(s, 'p', value), pid);
    }
  }

  lemma OneNumberMakesNoName(s: string, value: string)
    requires !Has(s, 'n') && Has(s, 'p') && value != "" && '%' !in value && 'n' !in value
    ensures !Has(Round(s, 'p', value), 'n')
  {
    FirstStands(s, 'p');
    var i, t := Find(s, 'p', 0), Round(s, 'p', value);
    assert forall k | i <= k < i + |value| :: t[k] == value[k - i];
    assert forall k | i + |value| <= k < |t| :: t[k] == s[k - |value| + 2];
    forall j ensures !At(t, j, 'n') {
      if j < i {
        assert !At(s, j, 'n');
      } else {
        assert !At(s, j - |value| + 2, 'n');
      }
    }
  }

  /** Read once from left to right, the template leaves no placeholder behind. */
  ghost predicate LeavesNone(template: string, name: string, pid: nat) {
    var all := Subst(template, Both(name, Decimal(pid)));
    !Has(all, 'n') && !Has(all, 'p')
  }

  /**
   * For every template, name and number: the debuggee's two loops end and come to reading the template once
   * from left to right exactly when that reading leaves no placeholder behind.
   */
  lemma ExpansionIsSubstitution(template: string, name: string, pid: nat)
    ensures var all := Subst(template, Both(name, Decimal(pid)));
      NameEnds(template, name) && SocketName(template, name, pid) == all <==> LeavesNone(template, name, pid)
  {
    var number := Decimal(pid);
    var all := Subst(template, Both(name, number));
    if LeavesNone(template, name, pid) {
      NamesLeaveNoMore(template, name, number);
      if Endless(template, 'n', name) { EndlessShows(template, 'n', name); }
      ExpandIsSubst(template, 'n', name);
      SubstTwice(template, name, number);
      NumbersEnd(Subst(template, map['n' := name]), pid);
      ExpandIsSubst(Subst(template, map['n' := name]), 'p', number);
    } else if NameEnds(template, name) {
      var named := Expand(template, 'n', name);
      NumbersEnd(named, pid);
      ExpandLeavesNone(template, 'n', name);
      ExpandLeavesNone(named, 'p', number);
      NumbersMakeNoNames(named, pid);
    }
  }

  /** A per cent sign right before a placeholder. */
  predicate DoubleAt(s: string, i: int, key: char) {
    0 <= i && At(s, i + 1, key) && s[i] == '%'
  }

  ghost predicate HasDouble(s: string, key: char) {
    exists i :: DoubleAt(s, i, key)
  }

  /** Where a doubled per cent sign stands before the name, the left-to-right reading shows `%` and the name. */
  lemma {:induction false} DoubleShows(s: string, i: nat, name: string, pid: string)
    requires DoubleAt(s, i, 'n') && name != ""
    ensures Has(Subst(s, Both(name, pid)), name[0])
  {
    var values := Both(name, pid);
    var all := Subst(s, values);
    if i == 0 {
      var rest := Subst(s[1..], values);
      assert At(s[1..], 0, 'n');
      assert rest == name + Subst(s[1..][2..], values);
      assert all == [s[0]] + rest;
      assert At(all, 0, name[0]);
    } else {
      var k := if |s| > 1 && s[0] == '%' && s[1] in values then 2 else 1;
      assert DoubleAt(s[k..], i - k, 'n');
      DoubleShows(s[k..], i - k, name, pid);
      var rest := Subst(s[k..], values);
      var front := if k == 2 then values[s[1]] else [s[0]];
      assert all == front + rest;
      var j :| At(rest, j, name[0]);
      assert At(all, |front| + j, name[0]);
    }
  }

  /** Without such a sign before the name, or with a name that starts otherwise, nothing is left behind. */
  lemma {:induction false} PlainLeavesNone(s: string, name: string, pid: nat, key: char)
    requires '%' !in name && name != "" && key in ['n', 'p'] && (name[0] == key ==> !HasDouble(s, 'n'))
    ensures !Has(Subst(s, Both(name, Decimal(pid))), key)
  {
    var both := Both(name, Decimal(pid));
    DecimalHasNo(pid, '%');
    DecimalHasNo(pid, key);
    if s != "" {
      var k := if At(s, 0, 'n') || At(s, 0, 'p') then 2 else 1;
      var front := if At(s, 0, 'n') then name else if At(s, 0, 'p') then Decimal(pid) else [s[0]];
      var rest := Subst(s[k..], both);
      if HasDouble(s[k..], 'n') {
        var i :| DoubleAt(s[k..], i, 'n');
        assert DoubleAt(s, i + k, 'n');
      }
      PlainLeavesNone(s[k..], name, pid, key);
      assert Subst(s, both) == front + rest;
      if At(s[k..], 0, 'n') && k == 1 && s[0] == '%' { assert DoubleAt(s, 0, 'n'); }
      forall i ensures !At(front + rest, i, key) {
        if i >= |front| { assert !At(rest, i - |front|, key); }
      }
    }
  }

  /**
   * For a name without a per cent sign: both come to the same exactly unless `%%n` meets a name that starts
   * with a placeholder's letter.
   */
  lemma ExpansionOfPlainNames(template: string, name: string, pid: nat)
    requires '%' !in name && name != ""
    ensures NameEnds(template, name)
    ensures SocketName(template, name, pid) == Subst(template, Both(name, Decimal(pid))) <==>
            !(HasDouble(template, 'n') && name[0] in ['n', 'p'])
  {
    ExpansionIsSubstitution(template, name, pid);
    if HasDouble(template, 'n') && name[0] in ['n', 'p'] {
      var i :| DoubleAt(template, i, 'n');
      DoubleShows(template, i, name, Decimal(pid));
    } else {
      PlainLeavesNone(template, name, pid, 'n');
      PlainLeavesNone(template, name, pid, 'p');
    }
  }
}

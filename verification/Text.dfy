/** Decimal numerals, zero-padded event keys, and the byte-wise order in which
    `std::map<std::string, ...>` iterates over its keys. */
module Text {

  // ---------------------------------------------------------------- numerals

  predicate IsDigit(c: char) { '0' <= c <= '9' }

  predicate AllDigits(s: string) { forall i :: 0 <= i < |s| ==> IsDigit(s[i]) }

  function DigitChar(d: nat): (c: char)
    requires d < 10
    ensures IsDigit(c) && c as int == '0' as int + d
  {
    ('0' as int + d) as char
  }

  /** `std::to_string` of an unsigned integer. */
  function ToString(n: nat): (s: string)
    ensures |s| >= 1 && AllDigits(s)
  {
    if n < 10 then [DigitChar(n)] else ToString(n / 10) + [DigitChar(n % 10)]
  }

  /** The number a digit string denotes in base ten. */
  function Value(s: string): nat
    requires AllDigits(s)
  {
    if s == [] then 0
    else 10 * Value(s[..|s| - 1]) + (s[|s| - 1] as int - '0' as int)
  }

  /** Reading back a printed number. */
  lemma {:induction false} ValueToString(n: nat)
    ensures Value(ToString(n)) == n
  {
    if n < 10 {
      assert ToString(n)[..0] == [];
    } else {
      ValueToString(n / 10);
      assert ToString(n)[..|ToString(n)| - 1] == ToString(n / 10);
    }
  }

  function Zeros(k: nat): (s: string)
    ensures |s| == k && AllDigits(s)
  {
    seq(k, _ => '0')
  }

  lemma {:induction false} ValueZeros(k: nat, s: string)
    requires AllDigits(s)
    ensures Value(Zeros(k) + s) == Value(s)
  {
    var z := Zeros(k) + s;
    if s != [] {
      ValueZeros(k, s[..|s| - 1]);
      assert z[..|z| - 1] == Zeros(k) + s[..|s| - 1];
    } else if k > 0 {
      ValueZeros(k - 1, s);
      assert z[..|z| - 1] == Zeros(k - 1) + s;
    } else {
      assert z == s;
    }
  }

  // -------------------------------------------------------------- event keys

  const KEY_DIGITS: nat := 10
  const ID_LIMIT: nat := 10_000_000_000

  /** The key suffix of an event id: its numeral, padded to ten digits. */
  function ToIndex(i: nat): (s: string)
    ensures AllDigits(s) && |s| >= KEY_DIGITS
  {
    var s := ToString(i);
    if |s| < KEY_DIGITS then Zeros(KEY_DIGITS - |s|) + s else s
  }

  /** Parsing a key suffix gives back the id it was made from. */
  lemma {:induction false} ValueToIndex(i: nat)
    ensures Value(ToIndex(i)) == i
  {
    ValueToString(i);
    var s := ToString(i);
    if |s| < KEY_DIGITS {
      ValueZeros(KEY_DIGITS - |s|, s);
    }
  }

  function Pow10(k: nat): (p: nat)
    ensures p >= 1
  {
    if k == 0 then 1 else 10 * Pow10(k - 1)
  }

  lemma {:induction false} NumeralLength(n: nat, k: nat)
    requires k >= 1 && n < Pow10(k)
    ensures |ToString(n)| <= k
  {
    if n >= 10 {
      NumeralLength(n / 10, k - 1);
    }
  }

  lemma {:induction false} IndexLength(i: nat)
    requires i < ID_LIMIT
    ensures |ToIndex(i)| == KEY_DIGITS
  {
    assert Pow10(5) == 100_000;
    assert Pow10(10) == 10 * Pow10(9) == 100 * Pow10(8) == 1000 * Pow10(7) == 10_000 * Pow10(6);
    assert Pow10(6) == 10 * Pow10(5);
    NumeralLength(i, 10);
  }

  // --------------------------------------------------------------- key order

  /** Byte-wise lexicographic order. */
  predicate Before(a: string, b: string)
  {
    b != [] && (a == [] || a[0] < b[0] || (a[0] == b[0] && Before(a[1..], b[1..])))
  }

  lemma {:induction false} BeforeIrreflexive(a: string)
    ensures !Before(a, a)
  {
    if a != [] { BeforeIrreflexive(a[1..]); }
  }

  lemma {:induction false} BeforeTotal(a: string, b: string)
    ensures a == b || Before(a, b) || Before(b, a)
  {
    if a != [] && b != [] && a[0] == b[0] {
      BeforeTotal(a[1..], b[1..]);
      if a[1..] == b[1..] {
        assert a == [a[0]] + a[1..] == [b[0]] + b[1..] == b;
      }
    }
  }

  lemma {:induction false} BeforeTransitive(a: string, b: string, c: string)
    requires Before(a, b) && Before(b, c)
    ensures Before(a, c)
  {
    if a != [] && a[0] == b[0] == c[0] {
      BeforeTransitive(a[1..], b[1..], c[1..]);
    }
  }

  lemma {:induction false} BeforeSnoc(a: string, x: char, b: string, y: char)
    requires |a| == |b|
    ensures Before(a + [x], b + [y]) <==> Before(a, b) || (a == b && x < y)
  {
    if a == [] {
      assert a + [x] == [x] && b + [y] == [y];
      assert !Before([x][1..], [y][1..]);
    } else {
      BeforeSnoc(a[1..], x, b[1..], y);
      assert (a + [x])[1..] == a[1..] + [x] && (b + [y])[1..] == b[1..] + [y];
      assert a == b <==> a[0] == b[0] && a[1..] == b[1..] by {
        assert a == [a[0]] + a[1..] && b == [b[0]] + b[1..];
      }
    }
  }

  /** On numerals of one length, key order is numeric order. */
  lemma {:induction false} BeforeIsNumeric(a: string, b: string)
    requires |a| == |b| && AllDigits(a) && AllDigits(b)
    ensures Before(a, b) <==> Value(a) < Value(b)
    ensures a == b <==> Value(a) == Value(b)
  {
    if a != [] {
      var n := |a| - 1;
      BeforeIsNumeric(a[..n], b[..n]);
      BeforeSnoc(a[..n], a[n], b[..n], b[n]);
      assert a == a[..n] + [a[n]] && b == b[..n] + [b[n]];
    }
  }

  /** Padding makes the store's key order agree with the order of ids ... */
  lemma {:induction false} KeyOrderIsIdOrder(i: nat, j: nat)
    requires i < ID_LIMIT && j < ID_LIMIT
    ensures Before(ToIndex(i), ToIndex(j)) <==> i < j
  {
    IndexLength(i);
    IndexLength(j);
    ValueToIndex(i);
    ValueToIndex(j);
    BeforeIsNumeric(ToIndex(i), ToIndex(j));
  }

  /** ... and only up to ten digits: the first eleven-digit id sorts too early. */
  lemma {:induction false} KeyOrderBreaksAtLimit()
    ensures Before(ToIndex(ID_LIMIT), ToIndex(ID_LIMIT - 1))
  {
    FirstDigit(10_000_000_000); FirstDigit(1_000_000_000); FirstDigit(100_000_000); FirstDigit(10_000_000);
    FirstDigit(1_000_000); FirstDigit(100_000); FirstDigit(10_000); FirstDigit(1_000); FirstDigit(100);
    FirstDigit(10);
    FirstDigit(9_999_999_999); FirstDigit(999_999_999); FirstDigit(99_999_999); FirstDigit(9_999_999);
    FirstDigit(999_999); FirstDigit(99_999); FirstDigit(9_999); FirstDigit(999); FirstDigit(99);
    assert ToString(ID_LIMIT)[0] == '1' && ToString(ID_LIMIT - 1)[0] == '9';
  }

  /** The keys of all ids below `n` sort by id if and only if `n` is at most 10^10. */
  lemma {:induction false} KeyOrderExact(n: nat)
    ensures (forall i: nat, j: nat :: i < n && j < n ==> (Before(ToIndex(i), ToIndex(j)) <==> i < j)) <==>
              n <= 10_000_000_000
  {
    if n <= ID_LIMIT {
      forall i: nat, j: nat | i < n && j < n ensures Before(ToIndex(i), ToIndex(j)) <==> i < j {
        KeyOrderIsIdOrder(i, j);
      }
    } else {
      KeyOrderBreaksAtLimit();
    }
  }

  lemma {:induction false} FirstDigit(n: nat)
    requires n >= 10
    ensures ToString(n)[0] == ToString(n / 10)[0]
    ensures |ToString(n)| == |ToString(n / 10)| + 1
  {
  }

  // ------------------------------------------------------------- white space

  predicate IsSpace(c: char)
  {
    c == ' ' || '\t' <= c <= '\r'
  }

  function TrimLeft(s: string): string
  {
    if s != [] && IsSpace(s[0]) then TrimLeft(s[1..]) else s
  }

  // ------------------------------------------------------------ ordered keys

  predicate Ascending(ks: seq<string>)
  {
    forall i, j :: 0 <= i < j < |ks| ==> Before(ks[i], ks[j])
  }

  /** The order in which a `std::map` with these keys is iterated. */
  ghost predicate Lists(ks: seq<string>, keys: set<string>)
  {
    Ascending(ks) && (forall k :: k in ks <==> k in keys)
  }

  lemma {:induction false} LeastKeyExists(keys: set<string>)
    requires keys != {}
    ensures exists k :: k in keys && forall j :: j in keys && j != k ==> Before(k, j)
  {
    var x :| x in keys;
    if keys != {x} {
      var rest := keys - {x};
      LeastKeyExists(rest);
      var m :| m in rest && forall j :: j in rest && j != m ==> Before(m, j);
      BeforeTotal(x, m);
      var k := if Before(x, m) then x else m;
      forall j | j in keys && j != k ensures Before(k, j) {
        if k == x && j != m { BeforeTransitive(x, m, j); }
      }
    }
  }

  ghost function LeastKey(keys: set<string>): (k: string)
    requires keys != {}
    ensures k in keys && forall j :: j in keys && j != k ==> Before(k, j)
  {
    LeastKeyExists(keys);
    var k :| k in keys && forall j :: j in keys && j != k ==> Before(k, j);
    k
  }

  lemma {:induction false} LeastKeyUnique(keys: set<string>, k: string)
    requires k in keys && forall j :: j in keys && j != k ==> Before(k, j)
    ensures k == LeastKey(keys)
  {
    var m := LeastKey(keys);
    if m != k {
      BeforeTransitive(k, m, k);
      BeforeIrreflexive(k);
    }
  }

  /** The keys in iteration order. */
  ghost function Ordered(keys: set<string>): (ks: seq<string>)
    ensures Lists(ks, keys)
    decreases |keys|
  {
    if keys == {} then []
    else
      var k := LeastKey(keys);
      var rest := Ordered(keys - {k});
      assert forall i :: 0 <= i < |rest| ==> rest[i] in rest;
      [k] + rest
  }

  lemma {:induction false} OrderedStep(keys: set<string>, k: string)
    requires k in keys && forall j :: j in keys && j != k ==> Before(k, j)
    ensures Ordered(keys) == [k] + Ordered(keys - {k})
  {
    LeastKeyUnique(keys, k);
  }

  /** Iteration over the keys of a `std::map`. */
  method OrderedKeys(keys: set<string>) returns (ks: seq<string>)
    ensures ks == Ordered(keys)
  {
    hide Ordered, Before;
    ks := [];
    var rest := keys;
    while rest != {}
      invariant ks + Ordered(rest) == Ordered(keys)
      decreases |rest|
    {
      LeastKeyExists(rest);
      var k :| k in rest && forall j :: j in rest && j != k ==> Before(k, j);
      OrderedStep(rest, k);
      assert ks + Ordered(rest) == ks + [k] + Ordered(rest - {k});
      ks := ks + [k];
      rest := rest - {k};
    }
    OrderedNone();
  }

  lemma {:induction false} OrderedNone()
    ensures Ordered({}) == []
  {
  }

  // -------------------------------------------------------------- prefix scans

  /** An ascending listing of a set is its iteration order. */
  lemma {:induction false} ListingIsOrdered(ks: seq<string>, keys: set<string>)
    requires Lists(ks, keys)
    ensures ks == Ordered(keys)
  {
    if ks == [] {
      assert keys == {};
    } else {
      var k, rest := ks[0], ks[1..];
      assert k in ks;
      forall j | j in keys && j != k ensures Before(k, j) {
        var i :| 0 <= i < |ks| && ks[i] == j;
      }
      forall j ensures j in rest <==> j in keys - {k} {
        if j in rest { RestDiffers(ks, j); }
        if j in keys - {k} { assert j in ks && ks == [k] + rest; }
      }
      ListingIsOrdered(rest, keys - {k});
      OrderedStep(keys, k);
    }
  }

  lemma {:induction false} RestDiffers(ks: seq<string>, j: string)
    requires Ascending(ks) && ks != [] && j in ks[1..]
    ensures j in ks && j != ks[0]
  {
    var i :| 0 <= i < |ks| - 1 && ks[1..][i] == j;
    assert ks[i + 1] == j && Before(ks[0], ks[i + 1]);
    BeforeIrreflexive(j);
  }

  /** The keys that are among the chosen ones, in the same order. */
  function Kept(ks: seq<string>, chosen: set<string>): seq<string>
  {
    if ks == [] then []
    else
      var n := |ks| - 1;
      Kept(ks[..n], chosen) + if ks[n] in chosen then [ks[n]] else []
  }

  lemma {:induction false} KeptMembers(ks: seq<string>, chosen: set<string>)
    ensures forall k :: k in Kept(ks, chosen) <==> k in ks && k in chosen
  {
    if ks != [] {
      var n := |ks| - 1;
      KeptMembers(ks[..n], chosen);
      assert ks == ks[..n] + [ks[n]];
    }
  }

  lemma {:induction false} KeptAscending(ks: seq<string>, chosen: set<string>)
    requires Ascending(ks)
    ensures Ascending(Kept(ks, chosen))
  {
    if ks != [] {
      var n := |ks| - 1;
      var front := Kept(ks[..n], chosen);
      KeptAscending(ks[..n], chosen);
      KeptMembers(ks[..n], chosen);
      forall i | 0 <= i < |front| ensures Before(front[i], ks[n]) {
        assert front[i] in ks[..n];
      }
    }
  }

  lemma {:induction false} KeptIsPrefix(ks: seq<string>, chosen: set<string>, i: nat)
    requires i <= |ks|
    ensures Kept(ks[..i], chosen) <= Kept(ks, chosen)
  {
    if i == |ks| {
      assert ks[..i] == ks;
    } else {
      var front := ks[..|ks| - 1];
      assert front[..i] == ks[..i];
      KeptIsPrefix(front, chosen, i);
    }
  }

  lemma {:induction false} KeptListed(keys: set<string>, chosen: set<string>)
    requires chosen <= keys
    ensures Kept(Ordered(keys), chosen) == Ordered(chosen)
  {
    hide Ordered;
    KeptAscending(Ordered(keys), chosen);
    KeptMembers(Ordered(keys), chosen);
    ListingIsOrdered(Kept(Ordered(keys), chosen), chosen);
  }

  /** At most `max` of them; a maximum of 0 means all. */
  function AtMost(ks: seq<string>, max: nat): seq<string>
  {
    if max == 0 || |ks| <= max then ks else ks[..max]
  }

  /** The scan of a domain of the ephemeral database: the first `max` keys with
      the prefix, in ascending byte order. */
  method ScanKeys(keys: set<string>, prefix: string, max: nat) returns (found: seq<string>)
    ensures found == AtMost(Ordered(set k | k in keys && prefix <= k), max)
  {
    hide Ordered, Before;
    var all := OrderedKeys(keys);
    ghost var chosen := set k | k in keys && prefix <= k;
    KeptListed(keys, chosen);
    found := [];
    for i := 0 to |all|
      invariant found == Kept(all[..i], chosen)
      invariant max == 0 || |found| < max
    {
      assert all[..i + 1][..i] == all[..i];
      KeptIsPrefix(all, chosen, i + 1);
      assert all[i] in all;
      if prefix <= all[i] {
        found := found + [all[i]];
        if max > 0 && |found| >= max {
          return;
        }
      }
    }
    assert all[..|all|] == all;
  }
}

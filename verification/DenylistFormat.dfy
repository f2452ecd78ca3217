/** The stored form of the schedule's denylist: `name:expiry` pairs joined by
    colons, read back by splitting, dropping empty fields and trimming. */
module DenylistFormat {
  import opened Basics
  import opened Text

  type Denylist = map<string, nat>

  // ----------------------------------------------------------- split and trim

  function TrimRight(s: string): string
  {
    if s != [] && IsSpace(s[|s| - 1]) then TrimRight(s[..|s| - 1]) else s
  }

  function Trim(s: string): string { TrimRight(TrimLeft(s)) }

  predicate Trimmed(s: string)
  {
    s == [] || (!IsSpace(s[0]) && !IsSpace(s[|s| - 1]))
  }

  predicate NoColon(s: string) { ':' !in s }

  lemma {:induction false} TrimLeftSpec(s: string)
    ensures TrimLeft(s) == [] || !IsSpace(TrimLeft(s)[0])
    ensures NoColon(s) ==> NoColon(TrimLeft(s))
  {
    if s != [] && IsSpace(s[0]) { TrimLeftSpec(s[1..]); }
  }

  lemma {:induction false} TrimRightSpec(s: string)
    requires s == [] || !IsSpace(s[0])
    ensures Trimmed(TrimRight(s))
    ensures NoColon(s) ==> NoColon(TrimRight(s))
  {
    if s != [] && IsSpace(s[|s| - 1]) { TrimRightSpec(s[..|s| - 1]); }
  }

  lemma {:induction false} TrimSpec(s: string)
    ensures Trimmed(Trim(s))
    ensures NoColon(s) ==> NoColon(Trim(s))
    ensures Trimmed(s) ==> Trim(s) == s
  {
    TrimLeftSpec(s);
    TrimRightSpec(TrimLeft(s));
  }

  function FirstColon(s: string): (k: nat)
    ensures k <= |s| && NoColon(s[..k])
    ensures k < |s| ==> s[k] == ':'
  {
    if s == [] || s[0] == ':' then 0
    else
      var k := 1 + FirstColon(s[1..]);
      assert s[..k] == [s[0]] + s[1..][..k - 1];
      k
  }

  /** All fields between colons, empty ones included. */
  function Fields(s: string): seq<string>
    decreases |s|
  {
    var k := FirstColon(s);
    if k == |s| then [s] else [s[..k]] + Fields(s[k + 1..])
  }

  lemma {:induction false} FieldsHaveNoColon(s: string)
    ensures forall f :: f in Fields(s) ==> NoColon(f)
    decreases |s|
  {
    var k := FirstColon(s);
    if k == |s| { assert s[..k] == s; } else { FieldsHaveNoColon(s[k + 1..]); }
  }

  lemma {:induction false} FirstColonOf(a: string, b: string)
    ensures FirstColon(a + ":" + b) == FirstColon(a)
    ensures NoColon(a) ==> FirstColon(a) == |a|
  {
    if a != [] && a[0] != ':' {
      FirstColonOf(a[1..], b);
      assert (a + ":" + b)[1..] == a[1..] + ":" + b;
    }
  }

  lemma {:induction false} CutJoin(a: string, b: string, k: nat)
    requires k < |a|
    ensures (a + ":" + b)[..k] == a[..k]
    ensures (a + ":" + b)[k + 1..] == a[k + 1..] + ":" + b
  {
  }

  lemma {:induction false} CutJoinEnd(a: string, b: string)
    ensures (a + ":" + b)[..|a|] == a
    ensures (a + ":" + b)[|a| + 1..] == b
  {
  }

  lemma {:induction false} FieldsStep(s: string, k: nat)
    requires k == FirstColon(s)
    ensures Fields(s) == if k == |s| then [s] else [s[..k]] + Fields(s[k + 1..])
  {
  }

  lemma {:induction false} FieldsJoin(a: string, b: string)
    ensures Fields(a + ":" + b) == Fields(a) + Fields(b)
    decreases |a|
  {
    var k := FirstColon(a);
    FirstColonOf(a, b);
    FieldsStep(a + ":" + b, k);
    FieldsStep(a, k);
    if k == |a| {
      CutJoinEnd(a, b);
    } else {
      CutJoin(a, b, k);
      FieldsJoin(a[k + 1..], b);
      SeqAssoc([a[..k]], Fields(a[k + 1..]), Fields(b));
    }
  }

  lemma {:induction false} FieldsOfOne(s: string)
    requires NoColon(s)
    ensures Fields(s) == [s]
  {
    FirstColonOf(s, "");
  }

  /** Non-empty fields, each trimmed. */
  function Keep(fs: seq<string>): seq<string>
  {
    if fs == [] then []
    else
      var n := |fs| - 1;
      Keep(fs[..n]) + if fs[n] == "" then [] else [Trim(fs[n])]
  }

  lemma {:induction false} KeepConcat(a: seq<string>, b: seq<string>)
    ensures Keep(a + b) == Keep(a) + Keep(b)
  {
    if b == [] {
      assert a + b == a;
    } else {
      var n := |b| - 1;
      KeepConcat(a, b[..n]);
      assert (a + b)[..|a + b| - 1] == a + b[..n];
    }
  }

  function Tokens(s: string): seq<string> { Keep(Fields(s)) }

  lemma {:induction false} KeptAreClean(fs: seq<string>)
    requires forall f :: f in fs ==> NoColon(f)
    ensures forall t :: t in Keep(fs) ==> NoColon(t) && Trimmed(t)
  {
    if fs != [] {
      KeptAreClean(fs[..|fs| - 1]);
      TrimSpec(fs[|fs| - 1]);
    }
  }

  // ---------------------------------------------------------- reading numbers

  function DigitPrefix(s: string): (p: string)
    ensures AllDigits(p)
  {
    if s == [] || !IsDigit(s[0]) then [] else [s[0]] + DigitPrefix(s[1..])
  }

  /** `stoll` of a trimmed token, 0 when it does not convert. */
  function LeadingNumber(s: string): int
  {
    var digits := if s != [] && (s[0] == '-' || s[0] == '+') then DigitPrefix(s[1..]) else DigitPrefix(s);
    var v := if Value(digits) < I63 then Value(digits) else 0;
    if s != [] && s[0] == '-' then -v else v
  }

  lemma {:induction false} DigitPrefixWhole(s: string)
    requires AllDigits(s)
    ensures DigitPrefix(s) == s
  {
    if s != [] { DigitPrefixWhole(s[1..]); }
  }

  /** What an expiry field reads as: a number with or without a sign, and 0 when it
      does not start as one or is too large. */
  lemma {:induction false} ExpiryReads(d: string)
    requires AllDigits(d)
    ensures var v := if Value(d) < I63 then Value(d) else 0;
            LeadingNumber(d) == v && LeadingNumber("+" + d) == v && LeadingNumber("-" + d) == -v
  {
    DigitPrefixWhole(d);
    assert ("+" + d)[1..] == d && ("-" + d)[1..] == d;
    if d != [] { assert IsDigit(d[0]); }
  }

  lemma {:induction false} NoNumberReadsZero(s: string)
    requires s == "" || (!IsDigit(s[0]) && s[0] != '+' && s[0] != '-')
    ensures LeadingNumber(s) == 0
  {
  }

  /** White space around a field is dropped: blank, tab, line feed, vertical tab, form
      feed, carriage return. */
  lemma {:induction false} WhiteIsTrimmed(c: char, s: string)
    requires c == ' ' || 9 <= c as int <= 13
    ensures Trim([c] + s) == Trim(s)
    ensures Trimmed(s) ==> Trim(s + [c]) == s
  {
    hide TrimRight;
    assert ([c] + s)[1..] == s;
    if s == [] {
      assert s + [c] == [c] && [c][1..] == [];
      TrimSpec([]);
    } else if Trimmed(s) {
      TrailingWhite(c, s);
      assert (s + [c])[0] == s[0];
    }
  }

  lemma {:induction false} TrailingWhite(c: char, s: string)
    requires IsSpace(c) && s != [] && !IsSpace(s[|s| - 1])
    ensures TrimRight(s + [c]) == s
  {
    assert (s + [c])[..|s|] == s;
  }

  lemma {:induction false} NumeralsReadBack(v: nat)
    requires v < I63
    ensures LeadingNumber(ToString(v)) == v
    ensures NoColon(ToString(v)) && Trimmed(ToString(v))
  {
    var s := ToString(v);
    DigitPrefixWhole(s);
    ValueToString(v);
    assert IsDigit(s[0]) && IsDigit(s[|s| - 1]);
  }

  // ------------------------------------------------------------ save, restore

  function Encode(names: seq<string>, d: Denylist): string
    requires forall n :: n in names ==> n in d
  {
    if names == [] then ""
    else
      var n := |names| - 1;
      var front := Encode(names[..n], d);
      (if front == "" then "" else front + ":") + names[n] + ":" + ToString(d[names[n]])
  }

  /** The stored content of a denylist. */
  ghost function Saved(d: Denylist): string { Encode(Ordered(d.Keys), d) }

  function Entry(d: Denylist, name: string, expire: int, now: nat): Denylist
  {
    if expire > 0 && now < expire then d[name := expire] else d
  }

  /** Name and expiry alternate; entries that have expired are left out. */
  function Pairs(tokens: seq<string>, now: nat): Denylist
  {
    if |tokens| < 2 then map[]
    else
      var n := |tokens| - 2;
      Entry(Pairs(tokens[..n], now), tokens[n], LeadingNumber(tokens[n + 1]), now)
  }

  function Restore(content: string, now: nat): Denylist
  {
    var tokens := Tokens(content);
    if |tokens| == 0 || |tokens| % 2 != 0 then map[] else Pairs(tokens, now)
  }

  /** The entries that have not expired yet. */
  function Pending(d: Denylist, now: nat): Denylist
  {
    map n | n in d && now < d[n] :: d[n]
  }

  /** A name that survives the stored form. */
  predicate Clean(name: string)
  {
    name != "" && NoColon(name) && Trimmed(name)
  }

  /** The stored form, written out. */
  lemma {:induction false} EncodeIs(names: seq<string>, d: Denylist, name: string)
    requires name in d && forall n :: n in names ==> n in d
    ensures Encode([name], d) == name + ":" + ToString(d[name])
    ensures Encode(names, d) != "" ==>
              Encode(names + [name], d) == Encode(names, d) + ":" + name + ":" + ToString(d[name])
  {
    assert [name][..0] == [] && (names + [name])[..|names|] == names;
    assert "" + name + ":" == name + ":";
  }

  // --------------------------------------------------------------- round trip

  function Flatten(names: seq<string>, d: Denylist): seq<string>
    requires forall n :: n in names ==> n in d
  {
    if names == [] then []
    else
      var n := |names| - 1;
      Flatten(names[..n], d) + Keep([names[n], ToString(d[names[n]])])
  }

  lemma {:induction false} KeepOne(t: string)
    ensures Keep([t]) == if t == "" then [] else [Trim(t)]
  {
    assert [t][..0] == [];
  }

  lemma {:induction false} FieldsOfEntry(name: string, v: nat)
    requires NoColon(name) && v < I63
    ensures Fields(name + ":" + ToString(v)) == [name, ToString(v)]
  {
    NumeralsReadBack(v);
    FieldsOfOne(name);
    FieldsOfOne(ToString(v));
    FieldsJoin(name, ToString(v));
  }

  lemma {:induction false} TokensOfEncode(names: seq<string>, d: Denylist)
    requires forall n :: n in names ==> n in d && NoColon(n) && d[n] < I63
    ensures Tokens(Encode(names, d)) == Flatten(names, d)
    ensures names != [] ==> Encode(names, d) != ""
  {
    if names == [] {
      KeepOne("");
    } else {
      var n := |names| - 1;
      assert names[n] in names;
      TokensOfEncode(names[..n], d);
      FieldsOfEntry(names[n], d[names[n]]);
      TokensOfEntry(Encode(names[..n], d), names[n], ToString(d[names[n]]));
    }
  }

  /** Appending one entry to the stored content appends its tokens. */
  lemma {:induction false} TokensOfEntry(front: string, name: string, num: string)
    requires Fields(name + ":" + num) == [name, num]
    ensures Tokens((if front == "" then "" else front + ":") + name + ":" + num) == Tokens(front) + Keep([name, num])
  {
    var entry := name + ":" + num;
    if front == "" {
      KeepOne("");
      FieldsOfOne("");
      assert "" + name + ":" + num == entry;
    } else {
      FieldsJoin(front, entry);
      EntryAppended(front, name, num);
      KeepConcat(Fields(front), [name, num]);
    }
  }

  lemma {:induction false} EntryAppended(front: string, name: string, num: string)
    ensures front + ":" + name + ":" + num == front + ":" + (name + ":" + num)
  {
  }

  lemma {:induction false} KeepPair(name: string, v: nat)
    requires v < I63
    ensures Keep([name, ToString(v)]) == if name == "" then [ToString(v)] else [Trim(name), ToString(v)]
  {
    NumeralsReadBack(v);
    TrimSpec(ToString(v));
    KeepOne(name);
    KeepOne(ToString(v));
    KeepConcat([name], [ToString(v)]);
    assert [name] + [ToString(v)] == [name, ToString(v)];
  }

  /** The entries restored from clean names are the saved ones still pending. */
  lemma {:induction false} PairsOfFlatten(names: seq<string>, d: Denylist, now: nat)
    requires forall n :: n in names ==> n in d && Clean(n) && d[n] < I63
    ensures |Flatten(names, d)| == 2 * |names|
    ensures Pairs(Flatten(names, d), now) == Listed(names, d, now)
  {
    hide Trim, Keep, LeadingNumber, ToString, Trimmed, Listed;
    if names == [] {
      assert Listed(names, d, now) == map[] by { ListedNone(d, now); }
    } else {
      var n := |names| - 1;
      var front, name := names[..n], names[n];
      PairsOfFlatten(front, d, now);
      KeepPair(name, d[name]);
      TrimSpec(name);
      NumeralsReadBack(d[name]);
      var tokens := Flatten(names, d);
      assert tokens[..|tokens| - 2] == Flatten(front, d);
      ListedSnoc(front, name, d, now);
      assert names == front + [name];
    }
  }

  /** The pending entries among these names. */
  function Listed(names: seq<string>, d: Denylist, now: nat): Denylist
    requires forall n :: n in names ==> n in d
  {
    map n | n in names && now < d[n] :: d[n]
  }

  lemma {:induction false} ListedNone(d: Denylist, now: nat)
    ensures Listed([], d, now) == map[]
  {
  }

  lemma {:induction false} ListedSnoc(front: seq<string>, name: string, d: Denylist, now: nat)
    requires name in d && forall n :: n in front ==> n in d
    ensures Listed(front + [name], d, now) == Entry(Listed(front, d, now), name, d[name], now)
  {
  }

  lemma {:induction false} CleanNamesRestore(d: Denylist, now: nat)
    requires forall n :: n in d ==> Clean(n) && d[n] < I63
    ensures Restore(Saved(d), now) == Pending(d, now)
  {
    RestoreListing(Ordered(d.Keys), d, now);
  }

  lemma {:induction false} RestoreListing(names: seq<string>, d: Denylist, now: nat)
    requires forall n :: n in names <==> n in d
    requires forall n :: n in d ==> Clean(n) && d[n] < I63
    ensures Restore(Encode(names, d), now) == Pending(d, now)
  {
    TokensOfEncode(names, d);
    PairsOfListing(names, d, now);
    RestoreTokens(Encode(names, d), Flatten(names, d), |names|, now);
  }

  lemma {:induction false} PairsOfListing(names: seq<string>, d: Denylist, now: nat)
    requires forall n :: n in names <==> n in d
    requires forall n :: n in d ==> Clean(n) && d[n] < I63
    ensures |Flatten(names, d)| == 2 * |names| && Pairs(Flatten(names, d), now) == Pending(d, now)
  {
    PairsOfFlatten(names, d, now);
    ListedAll(names, d, now);
  }

  lemma {:induction false} RestoreTokens(content: string, tokens: seq<string>, k: nat, now: nat)
    requires tokens == Tokens(content)
    ensures |tokens| == 2 * k ==> Restore(content, now) == Pairs(tokens, now)
    ensures |tokens| == 2 * k + 1 ==> Restore(content, now) == map[]
  {
    assert (2 * k) % 2 == 0 && (2 * k + 1) % 2 == 1;
  }

  lemma {:induction false} ListedAll(names: seq<string>, d: Denylist, now: nat)
    requires forall n :: n in names <==> n in d
    ensures Listed(names, d, now) == Pending(d, now)
  {
  }

  lemma {:induction false} PairsKeys(tokens: seq<string>, now: nat)
    ensures forall n :: n in Pairs(tokens, now) ==> n in tokens
  {
    if |tokens| >= 2 { PairsKeys(tokens[..|tokens| - 2], now); }
  }

  /** Whatever is restored has no colon and no space around it. */
  lemma {:induction false} RestoredNames(content: string, now: nat)
    ensures forall n :: n in Restore(content, now) ==> NoColon(n) && Trimmed(n)
  {
    FieldsHaveNoColon(content);
    KeptAreClean(Fields(content));
    var tokens := Tokens(content);
    PairsKeys(tokens, now);
  }

  lemma {:induction false} FlattenLength(names: seq<string>, d: Denylist)
    requires forall n :: n in names ==> n in d && d[n] < I63
    requires forall i, j :: 0 <= i < j < |names| ==> names[i] != names[j]
    ensures |Flatten(names, d)| == 2 * |names| - if "" in names then 1 else 0
  {
    hide ToString, Keep, Trim;
    if names != [] {
      var n := |names| - 1;
      FlattenLength(names[..n], d);
      KeepPair(names[n], d[names[n]]);
      assert names == names[..n] + [names[n]];
    }
  }

  lemma {:induction false} EmptyNameLosesAll(d: Denylist, now: nat)
    requires "" in d && forall n :: n in d ==> NoColon(n) && d[n] < I63
    ensures Restore(Saved(d), now) == map[]
  {
    EmptyListedNameLosesAll(Ordered(d.Keys), d, now);
  }

  lemma {:induction false} EmptyListedNameLosesAll(names: seq<string>, d: Denylist, now: nat)
    requires Lists(names, d.Keys) && "" in d && forall n :: n in d ==> NoColon(n) && d[n] < I63
    ensures Restore(Encode(names, d), now) == map[]
  {
    var tokens := Flatten(names, d);
    assert |tokens| == 2 * |names| - 1 by {
      forall i, j | 0 <= i < j < |names| ensures names[i] != names[j] { BeforeIrreflexive(names[i]); }
      FlattenLength(names, d);
    }
    assert Tokens(Encode(names, d)) == tokens by { TokensOfEncode(names, d); }
    RestoreTokens(Encode(names, d), tokens, |names| - 1, now);
  }

  /** A denylist survives being saved and restored exactly when every name in it
      is non-empty, free of colons and free of surrounding white space. */
  lemma {:induction false} SurvivesRestoreIffClean(d: Denylist, now: nat)
    requires forall n :: n in d ==> now < d[n] < I63
    ensures Restore(Saved(d), now) == d <==> forall n :: n in d ==> Clean(n)
  {
    RestoredNames(Saved(d), now);
    if forall n :: n in d ==> Clean(n) {
      CleanNamesRestore(d, now);
      assert Pending(d, now) == d;
    } else if Restore(Saved(d), now) == d {
      EmptyNameLosesAll(d, now);
    }
  }
}

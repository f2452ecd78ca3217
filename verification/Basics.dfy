/** Small facts and notions shared by several modules. */
module Basics {

  /** One more than the greatest signed 64-bit number. */
  const I63: int := 0x8000_0000_0000_0000

  function ToSet<T>(s: seq<T>): set<T>
  {
    set x | x in s
  }

  lemma {:induction false} ToSetSnoc<T>(s: seq<T>, x: T)
    ensures ToSet(s + [x]) == ToSet(s) + {x}
  {
  }

  lemma {:induction false} MinusNothing<K, V>(m: map<K, V>)
    ensures m - ToSet([]) == m
  {
  }

  lemma {:induction false} MinusSnoc<K, V>(m: map<K, V>, ks: seq<K>, k: K)
    ensures m - ToSet(ks + [k]) == m - ToSet(ks) - {k}
  {
  }

  lemma {:induction false} StillThere<K, V>(m: map<K, V>, ks: seq<K>, k: K)
    requires k in m && k !in ks
    ensures k in m - ToSet(ks) && (m - ToSet(ks))[k] == m[k]
  {
  }

  lemma {:induction false} SeqAssoc<T>(a: seq<T>, b: seq<T>, c: seq<T>)
    ensures (a + b) + c == a + (b + c)
  {
  }

  lemma {:induction false} BagAssoc<T>(a: multiset<T>, b: multiset<T>, c: multiset<T>)
    ensures (a + b) + c == a + (b + c)
  {
  }
}

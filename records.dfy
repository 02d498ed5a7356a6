/** Row records of the food-interest dataset and the values they hold.

    A record is a Python dict from column name to value; Python dicts keep
    insertion order and never hold a key twice, so a record is modelled as
    a sequence of (key, value) pairs whose keys are distinct. */
module Records {

  datatype Option<T> = None | Some(value: T)

  /** A cell value: the `Country` column holds a string, the `Pho`, `Ramen`
      and `Soba` columns hold integer scores. */
  datatype Value = Str(s: string) | Num(n: int)

  type Pair = (string, Value)

  /** No key occurs twice, as in every Python dict. */
  predicate DistinctKeys(r: seq<Pair>) {
    forall i, j :: 0 <= i < j < |r| ==> r[i].0 != r[j].0
  }

  type Record = r: seq<Pair> | DistinctKeys(r)

  /** `d.keys()`: the keys in insertion order. */
  function Keys(r: seq<Pair>): (ks: seq<string>)
    ensures |ks| == |r|
    ensures DistinctKeys(r) ==> forall i, j :: 0 <= i < j < |ks| ==> ks[i] != ks[j]
  {
    seq(|r|, i requires 0 <= i < |r| => r[i].0)
  }

  /** `d[k]`: the value stored under key `k`, or None where Python raises KeyError. */
  function Lookup(r: seq<Pair>, k: string): (o: Option<Value>)
  {
    if r == [] then None
    else if r[0].0 == k then Some(r[0].1)
    else Lookup(r[1..], k)
  }

  /** The lookup fails exactly when no pair has key `k`; when it succeeds,
      the value it returns is stored under `k`. */
  lemma {:induction false} LookupSpec(r: seq<Pair>, k: string)
    ensures Lookup(r, k).None? <==> forall i :: 0 <= i < |r| ==> r[i].0 != k
    ensures Lookup(r, k).Some? ==> (k, Lookup(r, k).value) in r
  {
    if r != [] && r[0].0 != k {
      LookupSpec(r[1..], k);
      if Lookup(r, k).None? {
        forall i | 0 <= i < |r| ensures r[i].0 != k {
          if i > 0 { assert r[i] == r[1..][i - 1]; }
        }
      }
    }
  }

  /** In a record, looking up the key at position `i` yields the value at position `i`. */
  lemma {:induction false} LookupAt(r: Record, i: nat)
    requires i < |r|
    ensures Lookup(r, r[i].0) == Some(r[i].1)
  {
    if i > 0 {
      assert r[0].0 != r[i].0;
      var tail: Record := r[1..];
      assert tail[i - 1] == r[i];
      LookupAt(tail, i - 1);
    }
  }

  lemma LookupAtAll(r: Record)
    ensures forall i :: 0 <= i < |r| ==> Lookup(r, r[i].0) == Some(r[i].1)
  {
    forall i | 0 <= i < |r| ensures Lookup(r, r[i].0) == Some(r[i].1) {
      LookupAt(r, i);
    }
  }

  /** `[d[column] for column in d.keys()]`: one lookup per key, in key order.
      Because the keys are distinct, the cells are exactly the record's own
      values, position by position. */
  function Cells(r: Record): (c: seq<Value>)
    ensures |c| == |r|
    ensures forall i :: 0 <= i < |r| ==> c[i] == r[i].1
  {
    LookupAtAll(r);
    seq(|r|, i requires 0 <= i < |r| => Lookup(r, r[i].0).value)
  }

  // ---------------------------------------------------------------------
  // Python's `<=` on the values of one column

  /** `a <= b` on two Python strings: code-point lexicographic order, a proper
      prefix sorting first. */
  predicate StrLe(a: string, b: string) {
    if a == [] then true
    else if b == [] then false
    else if a[0] != b[0] then a[0] < b[0]
    else StrLe(a[1..], b[1..])
  }

  /** A total order on values: numeric on scores, lexicographic on strings.
      Python refuses to compare a string with a number; the sort reports
      that case as an error before this order is used across kinds, so the
      choice of putting numbers first is never observed. */
  predicate Le(a: Value, b: Value) {
    match (a, b)
    case (Num(x), Num(y)) => x <= y
    case (Str(x), Str(y)) => StrLe(x, y)
    case (Num(_), Str(_)) => true
    case (Str(_), Num(_)) => false
  }

  /** A prefix is `<=` the longer string, and a string is never `<=` its own
      proper prefix. */
  lemma {:induction false} StrLeSpec(a: string, b: string)
    ensures a <= b ==> StrLe(a, b)
    ensures b < a ==> !StrLe(a, b)
  {
    if a != [] && b != [] && a[0] == b[0] {
      StrLeSpec(a[1..], b[1..]);
    }
  }

  /** Python's rule: at the first position where two strings differ, the
      smaller code point decides. */
  lemma {:induction false} StrLeFirstDifference(a: string, b: string, k: nat)
    requires k < |a| && k < |b| && a[..k] == b[..k] && a[k] != b[k]
    ensures StrLe(a, b) <==> a[k] < b[k]
  {
    if k > 0 {
      assert a[0] == a[..k][0] && b[0] == b[..k][0];
      assert a[1..][..k - 1] == a[..k][1..];
      assert b[1..][..k - 1] == b[..k][1..];
      StrLeFirstDifference(a[1..], b[1..], k - 1);
    }
  }

  lemma {:induction false} StrLeTotal(a: string, b: string)
    ensures StrLe(a, b) || StrLe(b, a)
  {
    if a != [] && b != [] && a[0] == b[0] {
      StrLeTotal(a[1..], b[1..]);
    }
  }

  lemma {:induction false} StrLeAntisymmetric(a: string, b: string)
    requires StrLe(a, b) && StrLe(b, a)
    ensures a == b
  {
    if a != [] && b != [] {
      StrLeAntisymmetric(a[1..], b[1..]);
      assert a == [a[0]] + a[1..];
      assert b == [b[0]] + b[1..];
    }
  }

  lemma {:induction false} StrLeTransitive(a: string, b: string, c: string)
    requires StrLe(a, b) && StrLe(b, c)
    ensures StrLe(a, c)
  {
    if a != [] && b != [] && c != [] && a[0] == b[0] && b[0] == c[0] {
      StrLeTransitive(a[1..], b[1..], c[1..]);
    }
  }

  /** Le is a total order: reflexive, total, antisymmetric and transitive. */
  lemma LeReflexive(a: Value)
    ensures Le(a, a)
  {
    if a.Str? { StrLeTotal(a.s, a.s); }
  }

  lemma LeTotal(a: Value, b: Value)
    ensures Le(a, b) || Le(b, a)
  {
    if a.Str? && b.Str? { StrLeTotal(a.s, b.s); }
  }

  lemma LeAntisymmetric(a: Value, b: Value)
    requires Le(a, b) && Le(b, a)
    ensures a == b
  {
    if a.Str? && b.Str? { StrLeAntisymmetric(a.s, b.s); }
  }

  lemma LeTransitive(a: Value, b: Value, c: Value)
    requires Le(a, b) && Le(b, c)
    ensures Le(a, c)
  {
    if a.Str? && b.Str? && c.Str? { StrLeTransitive(a.s, b.s, c.s); }
  }
}

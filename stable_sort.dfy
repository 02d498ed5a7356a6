/** `sorted(rows, key=lambda datum: datum[column])`: a stable ascending sort
    of records by the value of one column.

    Python's `sorted` is a timsort; the model is a stable insertion sort.
    SortByIsUnique shows that the choice does not matter: any arrangement
    that is ascending by the column and keeps equal-keyed records in their
    original order is the one SortBy returns. */
module StableSort {
  import opened Records

  predicate HasColumn(r: Record, col: string) {
    Lookup(r, col).Some?
  }

  /** Every record has the column, so the sort key can be computed for all. */
  predicate AllHave(s: seq<Record>, col: string) {
    forall i :: 0 <= i < |s| ==> HasColumn(s[i], col)
  }

  /** The sort key `datum[column]`. */
  function KeyOf(r: Record, col: string): (k: Value)
    requires HasColumn(r, col)
  {
    Lookup(r, col).value
  }

  /** Ascending by the column: every earlier record's key is <= every later one's. */
  predicate SortedBy(s: seq<Record>, col: string)
    requires AllHave(s, col)
  {
    forall i, j :: 0 <= i < j < |s| ==> Le(KeyOf(s[i], col), KeyOf(s[j], col))
  }

  /** The records whose key equals `v`, in their order in `s`. Stability says
      this subsequence is the same before and after sorting, for every `v`. */
  function Filter(s: seq<Record>, col: string, v: Value): (f: seq<Record>)
    requires AllHave(s, col)
  {
    if s == [] then []
    else (if KeyOf(s[0], col) == v then [s[0]] else []) + Filter(s[1..], col, v)
  }

  /** Inserts `x` before the first record whose key is not smaller than its own. */
  function Insert(x: Record, s: seq<Record>, col: string): (r: seq<Record>)
    requires HasColumn(x, col) && AllHave(s, col)
    ensures |r| == |s| + 1
    ensures multiset(r) == multiset(s) + multiset{x}
    ensures AllHave(r, col)
  {
    if s == [] then [x]
    else if Le(KeyOf(x, col), KeyOf(s[0], col)) then [x] + s
    else
      var rest := Insert(x, s[1..], col);
      assert s == [s[0]] + s[1..];
      assert forall i :: 0 < i < |rest| + 1 ==> ([s[0]] + rest)[i] == rest[i - 1];
      [s[0]] + rest
  }

  function SortBy(s: seq<Record>, col: string): (r: seq<Record>)
    requires AllHave(s, col)
    ensures |r| == |s|
    ensures multiset(r) == multiset(s)
    ensures AllHave(r, col)
  {
    if s == [] then []
    else
      assert s == [s[0]] + s[1..];
      Insert(s[0], SortBy(s[1..], col), col)
  }

  // ---------------------------------------------------------------------
  // Ascending order

  /** Everything in `Insert(x, s)` is bounded below by any common lower bound of `x` and `s`. */
  lemma {:induction false} InsertLowerBound(b: Value, x: Record, s: seq<Record>, col: string)
    requires HasColumn(x, col) && AllHave(s, col)
    requires Le(b, KeyOf(x, col))
    requires forall m :: 0 <= m < |s| ==> Le(b, KeyOf(s[m], col))
    ensures forall j :: 0 <= j < |Insert(x, s, col)| ==> Le(b, KeyOf(Insert(x, s, col)[j], col))
  {
    if s != [] && !Le(KeyOf(x, col), KeyOf(s[0], col)) {
      InsertLowerBound(b, x, s[1..], col);
      var rest := Insert(x, s[1..], col);
      assert Insert(x, s, col) == [s[0]] + rest;
    }
  }

  lemma {:induction false} InsertSorted(x: Record, s: seq<Record>, col: string)
    requires HasColumn(x, col) && AllHave(s, col) && SortedBy(s, col)
    ensures SortedBy(Insert(x, s, col), col)
  {
    if s == [] {
    } else if Le(KeyOf(x, col), KeyOf(s[0], col)) {
      var r := [x] + s;
      forall i, j | 0 <= i < j < |r| ensures Le(KeyOf(r[i], col), KeyOf(r[j], col)) {
        if i == 0 && j > 1 { LeTransitive(KeyOf(x, col), KeyOf(s[0], col), KeyOf(s[j - 1], col)); }
      }
    } else {
      var k0 := KeyOf(s[0], col);
      var rest := Insert(x, s[1..], col);
      InsertSorted(x, s[1..], col);
      LeTotal(KeyOf(x, col), k0);
      InsertLowerBound(k0, x, s[1..], col);
      var r := [s[0]] + rest;
      assert Insert(x, s, col) == r;
      forall i, j | 0 <= i < j < |r| ensures Le(KeyOf(r[i], col), KeyOf(r[j], col)) {
        assert r[j] == rest[j - 1];
        if i > 0 { assert r[i] == rest[i - 1]; }
      }
    }
  }

  /** The sorted records are in ascending order of the column. */
  lemma {:induction false} SortBySorted(s: seq<Record>, col: string)
    requires AllHave(s, col)
    ensures SortedBy(SortBy(s, col), col)
  {
    if s != [] {
      SortBySorted(s[1..], col);
      InsertSorted(s[0], SortBy(s[1..], col), col);
    }
  }

  // ---------------------------------------------------------------------
  // Stability

  lemma FilterCons(y: Record, s: seq<Record>, col: string, v: Value)
    requires HasColumn(y, col) && AllHave(s, col)
    ensures AllHave([y] + s, col)
    ensures Filter([y] + s, col, v) == (if KeyOf(y, col) == v then [y] else []) + Filter(s, col, v)
  {
    assert ([y] + s)[1..] == s;
  }

  /** Inserting `x` puts it ahead of every record with an equal key. */
  lemma {:induction false} InsertStable(x: Record, s: seq<Record>, col: string, v: Value)
    requires HasColumn(x, col) && AllHave(s, col)
    ensures Filter(Insert(x, s, col), col, v)
         == (if KeyOf(x, col) == v then [x] else []) + Filter(s, col, v)
  {
    if s == [] {
    } else if Le(KeyOf(x, col), KeyOf(s[0], col)) {
      FilterCons(x, s, col, v);
    } else {
      var rest := Insert(x, s[1..], col);
      assert KeyOf(x, col) != KeyOf(s[0], col) by { LeReflexive(KeyOf(x, col)); }
      InsertStable(x, s[1..], col, v);
      FilterCons(s[0], rest, col, v);
    }
  }

  /** Records with equal keys keep their original relative order. */
  lemma {:induction false} SortByStable(s: seq<Record>, col: string, v: Value)
    requires AllHave(s, col)
    ensures Filter(SortBy(s, col), col, v) == Filter(s, col, v)
  {
    if s != [] {
      SortByStable(s[1..], col, v);
      InsertStable(s[0], SortBy(s[1..], col), col, v);
    }
  }

  // ---------------------------------------------------------------------
  // Uniqueness: SortBy is the stable sort

  lemma {:induction false} FilterNonEmpty(s: seq<Record>, col: string, v: Value)
    requires AllHave(s, col) && Filter(s, col, v) != []
    ensures exists i :: 0 <= i < |s| && KeyOf(s[i], col) == v
  {
    if KeyOf(s[0], col) != v {
      FilterNonEmpty(s[1..], col, v);
      var i :| 0 <= i < |s[1..]| && KeyOf(s[1..][i], col) == v;
      assert s[i + 1] == s[1..][i];
    }
  }

  /** Two ascending arrangements with the same equal-key subsequences start
      with the same (smallest) key. */
  lemma SameHeadKey(t: seq<Record>, u: seq<Record>, col: string)
    requires AllHave(t, col) && AllHave(u, col) && t != [] && u != []
    requires SortedBy(t, col) && SortedBy(u, col)
    requires forall v :: Filter(t, col, v) == Filter(u, col, v)
    ensures KeyOf(t[0], col) == KeyOf(u[0], col)
  {
    var kt, ku := KeyOf(t[0], col), KeyOf(u[0], col);
    assert Filter(u, col, ku) != [];
    FilterNonEmpty(t, col, ku);
    var i :| 0 <= i < |t| && KeyOf(t[i], col) == ku;
    if i > 0 { assert Le(kt, ku); } else { LeReflexive(kt); }
    assert Filter(t, col, kt) != [];
    FilterNonEmpty(u, col, kt);
    var j :| 0 <= j < |u| && KeyOf(u[j], col) == kt;
    if j > 0 { assert Le(ku, kt); } else { LeReflexive(ku); }
    LeAntisymmetric(kt, ku);
  }

  /** With equal head keys, equal subsequences force equal heads and equal
      subsequences of the tails. */
  lemma HeadsAndTails(t: seq<Record>, u: seq<Record>, col: string)
    requires AllHave(t, col) && AllHave(u, col) && t != [] && u != []
    requires KeyOf(t[0], col) == KeyOf(u[0], col)
    requires forall v :: Filter(t, col, v) == Filter(u, col, v)
    ensures t[0] == u[0]
    ensures forall v :: Filter(t[1..], col, v) == Filter(u[1..], col, v)
  {
    var k := KeyOf(t[0], col);
    assert Filter(t, col, k) == [t[0]] + Filter(t[1..], col, k);
    assert Filter(u, col, k) == [u[0]] + Filter(u[1..], col, k);
    assert Filter(t, col, k)[0] == t[0] && Filter(u, col, k)[0] == u[0];
    forall v ensures Filter(t[1..], col, v) == Filter(u[1..], col, v) {
      assert Filter(t, col, v) == Filter(u, col, v);
      if v != k {
        assert Filter(t, col, v) == Filter(t[1..], col, v);
        assert Filter(u, col, v) == Filter(u[1..], col, v);
      } else {
        assert Filter(t, col, v)[1..] == Filter(t[1..], col, v);
        assert Filter(u, col, v)[1..] == Filter(u[1..], col, v);
      }
    }
  }

  /** Two ascending arrangements with the same equal-key subsequences are equal. */
  lemma {:induction false} SortedStableUnique(t: seq<Record>, u: seq<Record>, col: string)
    requires AllHave(t, col) && AllHave(u, col)
    requires SortedBy(t, col) && SortedBy(u, col)
    requires forall v :: Filter(t, col, v) == Filter(u, col, v)
    ensures t == u
  {
    assert u != [] ==> t != [] by {
      if u != [] {
        assert Filter(u, col, KeyOf(u[0], col)) != [];
        FilterNonEmpty(t, col, KeyOf(u[0], col));
      }
    }
    assert t != [] ==> u != [] by {
      if t != [] {
        assert Filter(t, col, KeyOf(t[0], col)) != [];
        FilterNonEmpty(u, col, KeyOf(t[0], col));
      }
    }
    if t != [] {
      SameHeadKey(t, u, col);
      HeadsAndTails(t, u, col);
      var t', u' := t[1..], u[1..];
      assert AllHave(t', col) && AllHave(u', col);
      assert SortedBy(t', col) && SortedBy(u', col) by {
        assert forall i :: 0 <= i < |t'| ==> t'[i] == t[i + 1];
        assert forall i :: 0 <= i < |u'| ==> u'[i] == u[i + 1];
      }
      SortedStableUnique(t', u', col);
      assert t == [t[0]] + t';
      assert u == [u[0]] + u';
    }
  }

  /** Any result that a stable ascending sort may return, Python's timsort
      included, is the one SortBy computes. */
  lemma SortByIsUnique(s: seq<Record>, t: seq<Record>, col: string)
    requires AllHave(s, col) && AllHave(t, col)
    requires SortedBy(t, col)
    requires forall v :: Filter(t, col, v) == Filter(s, col, v)
    ensures t == SortBy(s, col)
  {
    SortBySorted(s, col);
    forall v ensures Filter(t, col, v) == Filter(SortBy(s, col), col, v) {
      SortByStable(s, col, v);
    }
    SortedStableUnique(t, SortBy(s, col), col);
  }
}

/** The page's table logic: `generate_table`, which turns an ordered list of
    records into a table tree, and the `sort_table` callback, which renders
    the dataset sorted by the column chosen in the dropdown.

    Python's exceptions become the `Failure` side of a `Result`: indexing
    the first record of an empty list (IndexError), a record without the
    chosen column (KeyError) and comparing a string with a number
    (TypeError). */
module DashWithTables {
  import opened Records
  import opened StableSort

  datatype Result<T, E> = Success(value: T) | Failure(error: E)

  datatype Error =
    | IndexError               // `table_data[0]` on an empty list
    | KeyError(column: string)   // `datum[column]` on a record without that key
    | TypeError(column: string)  // `<` between a string and a number in that column

  /** The table tree: the labels of the header row (`Th` cells), then one row
      of `Td` cells per record. */
  datatype Table = Table(header: seq<string>, rows: seq<seq<Value>>)

  /** The four columns of the food-interest dataset, in the order of its records. */
  const Columns: seq<string> := ["Country", "Pho", "Ramen", "Soba"]

  /** All records have the same keys in the same order as the first one. */
  predicate Uniform(data: seq<Record>) {
    forall i :: 0 <= i < |data| ==> Keys(data[i]) == Keys(data[0])
  }

  /** `generate_table(table_data)`: a header cell per key of the first record,
      in that record's key order, then one row per record, in input order,
      holding that record's values in its own key order. */
  function GenerateTable(data: seq<Record>): (r: Result<Table, Error>)
    ensures r.Failure? <==> data == []
    ensures r.Failure? ==> r.error == IndexError
    ensures r.Success? ==>
      && |r.value.header| == |data[0]|
      && (forall j :: 0 <= j < |data[0]| ==> r.value.header[j] == data[0][j].0)
      && |r.value.rows| == |data|
      && (forall i :: 0 <= i < |data| ==> |r.value.rows[i]| == |data[i]|)
      && (forall i, j :: 0 <= i < |data| && 0 <= j < |data[i]| ==> r.value.rows[i][j] == data[i][j].1)
    ensures r.Success? && Uniform(data) ==>
      forall i :: 0 <= i < |r.value.rows| ==> |r.value.rows[i]| == |r.value.header|
  {
    if data == [] then Failure(IndexError)
    else Success(Table(Keys(data[0]), seq(|data|, i requires 0 <= i < |data| => Cells(data[i]))))
  }

  function Zip(ks: seq<string>, vs: seq<Value>): (ps: seq<Pair>)
    requires |ks| == |vs|
  {
    seq(|ks|, j requires 0 <= j < |ks| => (ks[j], vs[j]))
  }

  /** Reads the records back from a table: each row paired with the header,
      or None when some row is not as wide as the header. */
  function ReadBack(t: Table): (o: Option<seq<seq<Pair>>>) {
    if forall i :: 0 <= i < |t.rows| ==> |t.rows[i]| == |t.header| then
      Some(seq(|t.rows|, i requires 0 <= i < |t.rows| => Zip(t.header, t.rows[i])))
    else None
  }

  /** The table represents its input exactly when all records share the first
      record's key order: then reading it back gives the input, and otherwise
      the rows cannot be read back as those records. */
  lemma RenderRoundTrip(data: seq<Record>)
    requires data != []
    ensures ReadBack(GenerateTable(data).value) == Some(data) <==> Uniform(data)
  {
    var t := GenerateTable(data).value;
    if Uniform(data) {
      var recs := seq(|t.rows|, i requires 0 <= i < |t.rows| => Zip(t.header, t.rows[i]));
      forall i | 0 <= i < |data| ensures recs[i] == data[i] {
        assert Keys(data[i]) == Keys(data[0]);
        forall j | 0 <= j < |data[i]| ensures recs[i][j] == data[i][j] {
          assert Keys(data[i])[j] == data[i][j].0;
        }
      }
      assert recs == data;
    }
    if ReadBack(t) == Some(data) {
      forall i | 0 <= i < |data| ensures Keys(data[i]) == Keys(data[0]) {
        assert Zip(t.header, t.rows[i]) == data[i];
        forall j | 0 <= j < |data[i]| ensures Keys(data[i])[j] == Keys(data[0])[j] {
          assert Zip(t.header, t.rows[i])[j] == data[i][j];
        }
      }
    }
  }

  /** Python raises TypeError as soon as it compares a string with a number.
      A column holding both kinds always raises: if no string were ever
      compared with a number, every answer the sort received would fit both
      "numbers below strings" and "strings below numbers", and no single
      output is sorted under both, so a correct sort must compare the two
      kinds. A column of one kind never raises. */
  predicate OneKind(data: seq<Record>, col: string)
    requires AllHave(data, col)
  {
    forall i, j :: 0 <= i < |data| && 0 <= j < |data| ==>
      KeyOf(data[i], col).Str? == KeyOf(data[j], col).Str?
  }

  /** `sort_table(input_value)`: the keys `datum[column]` are computed for all
      records first, so a missing column is a KeyError before any comparison;
      the sorted list then goes to `generate_table`, which fails on an empty
      dataset. */
  function SortTable(data: seq<Record>, col: string): (r: Result<Table, Error>)
    ensures r == Failure(KeyError(col)) <==> !AllHave(data, col)
    ensures r == Failure(TypeError(col)) <==> AllHave(data, col) && !OneKind(data, col)
    ensures r == Failure(IndexError) <==> data == []
    ensures r.Success? ==> |r.value.rows| == |data|
  {
    if !AllHave(data, col) then Failure(KeyError(col))
    else if !OneKind(data, col) then Failure(TypeError(col))
    else GenerateTable(SortBy(data, col))
  }

  /** Sorting keeps a uniform dataset uniform, with the same key order. */
  lemma SortByUniform(data: seq<Record>, col: string)
    requires data != [] && AllHave(data, col) && Uniform(data)
    ensures SortBy(data, col) != []
    ensures Uniform(SortBy(data, col))
    ensures Keys(SortBy(data, col)[0]) == Keys(data[0])
  {
    var s := SortBy(data, col);
    assert data[0] in multiset(s);
    forall i | 0 <= i < |s| ensures Keys(s[i]) == Keys(data[0]) {
      assert s[i] in multiset(data);
      var m :| 0 <= m < |data| && data[m] == s[i];
    }
  }

  /** On a uniform dataset, the rendered sort reads back as a stable ascending
      permutation of the dataset, and its header is the unsorted render's. */
  lemma SortTableCorrect(data: seq<Record>, col: string)
    requires Uniform(data) && SortTable(data, col).Success?
    ensures var t := SortTable(data, col).value;
      && AllHave(data, col)
      && ReadBack(t) == Some(SortBy(data, col))
      && t.header == GenerateTable(data).value.header
    ensures AllHave(data, col) && multiset(SortBy(data, col)) == multiset(data)
    ensures AllHave(data, col) && SortedBy(SortBy(data, col), col)
    ensures AllHave(data, col) &&
      forall v :: Filter(SortBy(data, col), col, v) == Filter(data, col, v)
  {
    SortByUniform(data, col);
    RenderRoundTrip(SortBy(data, col));
    SortBySorted(data, col);
    forall v ensures Filter(SortBy(data, col), col, v) == Filter(data, col, v) {
      SortByStable(data, col, v);
    }
  }

  /** A record of the food-interest dataset: `Country` a string, then the
      three integer scores. */
  predicate FoodRecord(r: Record) {
    && |r| == 4
    && Keys(r) == Columns
    && r[0].1.Str? && r[1].1.Num? && r[2].1.Num? && r[3].1.Num?
  }

  /** Sorting the food-interest dataset by any of the dropdown's four columns
      succeeds, keeps every record, and renders the header
      `Country, Pho, Ramen, Soba` with four cells in every row. */
  lemma FoodSortTable(data: seq<Record>, col: string)
    requires data != [] && col in Columns
    requires forall i :: 0 <= i < |data| ==> FoodRecord(data[i])
    ensures SortTable(data, col).Success?
    ensures SortTable(data, col).value.header == Columns
    ensures |SortTable(data, col).value.rows| == |data|
    ensures forall i :: 0 <= i < |data| ==> |SortTable(data, col).value.rows[i]| == 4
  {
    var m :| 0 <= m < 4 && Columns[m] == col;
    forall i | 0 <= i < |data| ensures HasColumn(data[i], col) && KeyOf(data[i], col) == data[i][m].1 {
      assert Keys(data[i])[m] == data[i][m].0;
      LookupAt(data[i], m);
    }
    assert Uniform(data);
    assert OneKind(data, col);
    SortTableCorrect(data, col);
  }
}

/** A worked instance of the sort callback on three records, two of them
    tied on `Ramen`. The country names are left as parameters. */
module Scenario {
  import opened Records
  import opened StableSort
  import opened DashWithTables

  function Row(country: string, pho: int, ramen: int, soba: int): (r: Record)
    ensures FoodRecord(r)
  {
    [("Country", Str(country)), ("Pho", Num(pho)), ("Ramen", Num(ramen)), ("Soba", Num(soba))]
  }

  lemma RowCells(country: string, pho: int, ramen: int, soba: int)
    ensures Cells(Row(country, pho, ramen, soba)) == [Str(country), Num(pho), Num(ramen), Num(soba)]
  {
  }

  /** The sort key of a row under `Ramen` is its Ramen score. */
  lemma RamenKey(country: string, pho: int, ramen: int, soba: int)
    ensures HasColumn(Row(country, pho, ramen, soba), "Ramen")
    ensures KeyOf(Row(country, pho, ramen, soba), "Ramen") == Num(ramen)
  {
    LookupAt(Row(country, pho, ramen, soba), 2);
  }

  /** The equal-key subsequence of three records, one record at a time. */
  lemma FilterThree(a: Record, b: Record, c: Record, col: string, v: Value)
    requires HasColumn(a, col) && HasColumn(b, col) && HasColumn(c, col)
    ensures AllHave([a, b, c], col)
    ensures Filter([a, b, c], col, v)
         == (if KeyOf(a, col) == v then [a] else [])
          + (if KeyOf(b, col) == v then [b] else [])
          + (if KeyOf(c, col) == v then [c] else [])
  {
    FilterCons(c, [], col, v);
    assert [c] == [c] + [];
    FilterCons(b, [c], col, v);
    assert [b, c] == [b] + [c];
    FilterCons(a, [b, c], col, v);
    assert [a, b, c] == [a] + [b, c];
  }

  /** Sorting by `Ramen` puts the lowest score first and keeps the two
      records tied on 90 in their original order. The order is derived from
      the specification of the sort: it is ascending and keeps the tied
      records' order, and SortByIsUnique says only one order does both. */
  lemma RamenOrderExample(japan: string, india: string, taiwan: string)
    ensures AllHave([Row(japan, 40, 90, 30), Row(india, 5, 1, 2), Row(taiwan, 60, 90, 50)], "Ramen")
    ensures SortBy([Row(japan, 40, 90, 30), Row(india, 5, 1, 2), Row(taiwan, 60, 90, 50)], "Ramen")
         == [Row(india, 5, 1, 2), Row(japan, 40, 90, 30), Row(taiwan, 60, 90, 50)]
  {
    var jp, id, tw := Row(japan, 40, 90, 30), Row(india, 5, 1, 2), Row(taiwan, 60, 90, 50);
    RamenKey(japan, 40, 90, 30);
    RamenKey(india, 5, 1, 2);
    RamenKey(taiwan, 60, 90, 50);
    var data, sorted := [jp, id, tw], [id, jp, tw];
    forall v ensures Filter(sorted, "Ramen", v) == Filter(data, "Ramen", v) {
      FilterThree(jp, id, tw, "Ramen", v);
      FilterThree(id, jp, tw, "Ramen", v);
    }
    assert AllHave(sorted, "Ramen") && SortedBy(sorted, "Ramen");
    SortByIsUnique(data, sorted, "Ramen");
  }

  lemma RamenSortTableIsRender(japan: string, india: string, taiwan: string)
    ensures SortTable([Row(japan, 40, 90, 30), Row(india, 5, 1, 2), Row(taiwan, 60, 90, 50)], "Ramen")
         == GenerateTable([Row(india, 5, 1, 2), Row(japan, 40, 90, 30), Row(taiwan, 60, 90, 50)])
  {
    var data := [Row(japan, 40, 90, 30), Row(india, 5, 1, 2), Row(taiwan, 60, 90, 50)];
    assert AllHave(data, "Ramen") && OneKind(data, "Ramen") by {
      FoodSortTable(data, "Ramen");
    }
    RamenOrderExample(japan, india, taiwan);
  }

  lemma RenderThreeRows(a: string, b: string, c: string)
    ensures GenerateTable([Row(a, 5, 1, 2), Row(b, 40, 90, 30), Row(c, 60, 90, 50)])
         == Success(Table(Columns, [[Str(a), Num(5), Num(1), Num(2)],
                                    [Str(b), Num(40), Num(90), Num(30)],
                                    [Str(c), Num(60), Num(90), Num(50)]]))
  {
    var ra, rb, rc := Row(a, 5, 1, 2), Row(b, 40, 90, 30), Row(c, 60, 90, 50);
    RowCells(a, 5, 1, 2);
    RowCells(b, 40, 90, 30);
    RowCells(c, 60, 90, 50);
    assert GenerateTable([ra, rb, rc]).value.rows == [Cells(ra), Cells(rb), Cells(rc)];
    assert Keys(ra) == Columns;
  }

  /** The rendered sort: the fixed header, then the rows in sorted order. */
  lemma SortByRamenExample(japan: string, india: string, taiwan: string)
    ensures SortTable([Row(japan, 40, 90, 30), Row(india, 5, 1, 2), Row(taiwan, 60, 90, 50)], "Ramen")
         == Success(Table(Columns, [[Str(india), Num(5), Num(1), Num(2)],
                                    [Str(japan), Num(40), Num(90), Num(30)],
                                    [Str(taiwan), Num(60), Num(90), Num(50)]]))
  {
    RamenSortTableIsRender(japan, india, taiwan);
    RenderThreeRows(india, japan, taiwan);
  }

  /** A column that the records lack is a KeyError. */
  lemma MissingColumnExample(country: string)
    ensures SortTable([Row(country, 40, 90, 30)], "Udon") == Failure(KeyError("Udon"))
  {
    var r := Row(country, 40, 90, 30);
    LookupSpec(r, "Udon");
    assert r[0].0 != "Udon" && r[1].0 != "Udon" && r[2].0 != "Udon" && r[3].0 != "Udon";
  }
}

/** The expense calculator: a list of expense records that the user appends to and deletes
    from, its running total, and the CSV text offered for download. */
module Expenses {
  import opened Wrappers
  import opened Text
  import opened JsNumber

  /** One recorded expense. The id is the clock reading (`Date.now()`) at the moment it was
      added; the amount is what `parseFloat` made of the amount field. */
  datatype Expense = Expense(id: int, name: string, amount: Num)

  /** The calculator's state: the list and the two input fields. */
  datatype Form = Form(items: seq<Expense>, name: string, amount: string)

  // ---------------------------------------------------------------------------
  // add / delete
  // ---------------------------------------------------------------------------

  /** The Add button. With both fields filled in, appends one record stamped `now` and clears
      the fields; with either field empty nothing happens. `parse` is `parseFloat`. */
  function Add(f: Form, now: int, parse: string -> Num): (g: Form)
    ensures f.name == "" || f.amount == "" ==> g == f
    ensures f.name != "" && f.amount != "" ==>
      && |g.items| == |f.items| + 1
      && g.items[..|f.items|] == f.items
      && g.items[|f.items|] == Expense(now, f.name, parse(f.amount))
      && g.name == "" && g.amount == ""
  {
    if f.name == "" || f.amount == "" then f
    else Form(f.items + [Expense(now, f.name, parse(f.amount))], "", "")
  }

  /** The delete button of a row: keeps exactly the records whose id differs from `id`. */
  function Delete(items: seq<Expense>, id: int): (r: seq<Expense>)
    ensures |r| <= |items|
    ensures forall e :: e in r <==> e in items && e.id != id
    ensures (forall i | 0 <= i < |items| :: items[i].id != id) ==> r == items
  {
    if |items| == 0 then []
    else (if items[0].id == id then [] else [items[0]]) + Delete(items[1..], id)
  }

  /** Deleting works record by record: the kept records stay in their original order. */
  lemma {:induction false} DeleteAppend(a: seq<Expense>, b: seq<Expense>, id: int)
    ensures Delete(a + b, id) == Delete(a, id) + Delete(b, id)
  {
    if |a| == 0 {
      assert a + b == b;
    } else {
      assert (a + b)[1..] == a[1..] + b;
      DeleteAppend(a[1..], b, id);
    }
  }

  /** Deleting the record just added, under a fresh id, restores the list. */
  lemma DeleteUndoesAdd(f: Form, now: int, parse: string -> Num)
    requires f.name != "" && f.amount != ""
    requires forall i | 0 <= i < |f.items| :: f.items[i].id != now
    ensures Delete(Add(f, now, parse).items, now) == f.items
  {
    var e := Expense(now, f.name, parse(f.amount));
    DeleteAppend(f.items, [e], now);
    assert Delete([e], now) == [];
  }

  /** Ids are clock readings, so two records added within the same millisecond share one, and
      deleting either row removes both. */
  lemma DeleteRemovesEveryRecordWithTheId(items: seq<Expense>, id: int)
    ensures forall i | 0 <= i < |items| && items[i].id == id :: items[i] !in Delete(items, id)
  {
  }

  // ---------------------------------------------------------------------------
  // total
  // ---------------------------------------------------------------------------

  /** `items.reduce((acc, curr) => acc + curr.amount, acc)`. */
  function TotalFrom(acc: Num, items: seq<Expense>): (r: Num)
    ensures r.Finite? <==> acc.Finite? && AllFinite(items)
    decreases |items|
  {
    if |items| == 0 then acc
    else
      assert AllFinite(items) <==> items[0].amount.Finite? && AllFinite(items[1..]) by {
        if items[0].amount.Finite? && AllFinite(items[1..]) {
          forall i | 1 <= i < |items| ensures items[i].amount.Finite? {
            assert items[i] == items[1..][i - 1];
          }
        }
      }
      TotalFrom(Plus(acc, items[0].amount), items[1..])
  }

  /** The total shown beside the chart: 0 for no records, and a number exactly when every
      amount is one. */
  function Total(items: seq<Expense>): (r: Num)
    ensures r.Finite? <==> AllFinite(items)
    ensures items == [] ==> r == Finite(0.0)
  {
    TotalFrom(Finite(0.0), items)
  }

  predicate AllFinite(items: seq<Expense>)
  {
    forall i | 0 <= i < |items| :: items[i].amount.Finite?
  }

  function Amounts(items: seq<Expense>): (xs: seq<real>)
    requires AllFinite(items)
    ensures |xs| == |items|
  {
    seq(|items|, i requires 0 <= i < |items| => items[i].amount.value)
  }

  lemma {:induction false} TotalFromIsSum(acc: Num, items: seq<Expense>)
    ensures TotalFrom(acc, items) ==
      if acc.Finite? && AllFinite(items) then Finite(acc.value + Sum(Amounts(items))) else NaN
    decreases |items|
  {
    if |items| > 0 {
      TotalFromIsSum(Plus(acc, items[0].amount), items[1..]);
      if acc.Finite? && AllFinite(items) {
        assert Amounts(items)[1..] == Amounts(items[1..]);
      } else if acc.Finite? && items[0].amount.Finite? {
        assert !AllFinite(items[1..]) by {
          var i :| 0 <= i < |items| && !items[i].amount.Finite?;
          assert items[1..][i - 1] == items[i];
        }
      }
    }
  }

  /** The total is the sum of the amounts, 0 for the empty list, and NaN as soon as one amount
      is NaN. */
  lemma TotalIsSum(items: seq<Expense>)
    ensures Total(items) == if AllFinite(items) then Finite(Sum(Amounts(items))) else NaN
    ensures items == [] ==> Total(items) == Finite(0.0)
  {
    TotalFromIsSum(Finite(0.0), items);
  }

  lemma {:induction false} TotalFromAppend(acc: Num, items: seq<Expense>, e: Expense)
    ensures TotalFrom(acc, items + [e]) == Plus(TotalFrom(acc, items), e.amount)
    decreases |items|
  {
    if |items| > 0 {
      assert (items + [e])[1..] == items[1..] + [e];
      TotalFromAppend(Plus(acc, items[0].amount), items[1..], e);
    }
  }

  /** Adding a record adds its amount to the total. */
  lemma TotalAfterAdd(f: Form, now: int, parse: string -> Num)
    requires f.name != "" && f.amount != ""
    ensures Total(Add(f, now, parse).items) == Plus(Total(f.items), parse(f.amount))
  {
    TotalFromAppend(Finite(0.0), f.items, Expense(now, f.name, parse(f.amount)));
  }

  // ---------------------------------------------------------------------------
  // CSV export
  // ---------------------------------------------------------------------------

  const CsvHeader: string := "Item Name,Amount"

  /** One CSV line: the name, a comma, the amount, with no quoting. */
  function Row(e: Expense, show: real -> string): string
  {
    e.name + "," + ShowNum(e.amount, show)
  }

  function Rows(items: seq<Expense>, show: real -> string): (rows: seq<string>)
    ensures |rows| == |items|
  {
    seq(|items|, i requires 0 <= i < |items| => Row(items[i], show))
  }

  /** The text of the downloaded file: the header line, then the rows joined by newlines. */
  function Csv(items: seq<Expense>, show: real -> string): (r: string)
    ensures Split(r, '\n') == [CsvHeader] + Split(Join(Rows(items, show), '\n'), '\n')
  {
    var body := Join(Rows(items, show), '\n');
    SplitAfterPiece(CsvHeader, '\n', body);
    CsvHeader + "\n" + body
  }

  /** A field that survives unquoted CSV: no comma, no newline. */
  predicate CsvSafe(s: string)
  {
    ',' !in s && '\n' !in s
  }

  /** The (name, amount text) pairs a CSV reader recovers from the file, if the file has the
      header and every line has exactly two fields. A trailing newline ends the file. */
  function ReadCsv(text: string): Option<seq<(string, string)>>
  {
    var lines := Split(text, '\n');
    if lines[0] != CsvHeader then None
    else if lines[1..] == [""] then Some([])
    else ReadRows(lines[1..])
  }

  function ReadRows(lines: seq<string>): Option<seq<(string, string)>>
  {
    if |lines| == 0 then Some([])
    else
      var fields := Split(lines[0], ',');
      if |fields| != 2 then None
      else match ReadRows(lines[1..])
        case None => None
        case Some(rest) => Some([(fields[0], fields[1])] + rest)
  }

  /** What the file is meant to carry: each record's name and shown amount, in list order. */
  function Fields(items: seq<Expense>, show: real -> string): seq<(string, string)>
  {
    seq(|items|, i requires 0 <= i < |items| => (items[i].name, ShowNum(items[i].amount, show)))
  }

  predicate CsvSafeItems(items: seq<Expense>, show: real -> string)
  {
    forall i | 0 <= i < |items| :: CsvSafe(items[i].name) && CsvSafe(ShowNum(items[i].amount, show))
  }

  lemma {:induction false} ReadRowsOfRows(items: seq<Expense>, show: real -> string)
    requires CsvSafeItems(items, show)
    ensures ReadRows(Rows(items, show)) == Some(Fields(items, show))
  {
    if |items| > 0 {
      var e := items[0];
      var shown := ShowNum(e.amount, show);
      SplitWithoutSeparator(shown, ',');
      SplitAfterPiece(e.name, ',', shown);
      assert Row(e, show) == e.name + [','] + shown;
      assert Rows(items, show)[1..] == Rows(items[1..], show);
      ReadRowsOfRows(items[1..], show);
      assert Fields(items, show) == [(e.name, shown)] + Fields(items[1..], show);
    }
  }

  /** Reading the exported file back recovers every record's name and amount text, in order,
      provided no name or amount contains a comma or a newline. */
  lemma CsvRoundTrip(items: seq<Expense>, show: real -> string)
    requires CsvSafeItems(items, show)
    ensures ReadCsv(Csv(items, show)) == Some(Fields(items, show))
  {
    var rows := Rows(items, show);
    var text := Csv(items, show);
    if |items| == 0 {
      assert rows == [];
      assert Join([CsvHeader, ""], '\n') == CsvHeader + "\n" + "";
      assert text == Join([CsvHeader, ""], '\n');
      SplitJoin([CsvHeader, ""], '\n');
      assert Split(text, '\n')[1..] == [""];
      assert Fields(items, show) == [];
    } else {
      assert FreeOf(rows, '\n') by {
        forall i | 0 <= i < |rows| ensures '\n' !in rows[i] {
          assert rows[i] == items[i].name + "," + ShowNum(items[i].amount, show);
        }
      }
      var lines := [CsvHeader] + rows;
      assert lines[1..] == rows;
      assert text == Join(lines, '\n');
      SplitJoin(lines, '\n');
      assert ',' in rows[0] by {
        assert rows[0][|items[0].name|] == ',';
      }
      ReadRowsOfRows(items, show);
    }
  }

  /** Names are not quoted: a name with a comma makes its line split into three or more
      fields, so the file no longer reads back. */
  lemma CommaInNameBreaksRoundTrip(items: seq<Expense>, show: real -> string, k: nat)
    requires k < |items|
    requires forall i | 0 <= i < |items| :: '\n' !in items[i].name && CsvSafe(ShowNum(items[i].amount, show))
    requires ',' in items[k].name
    ensures ReadCsv(Csv(items, show)) == None
  {
    var rows := Rows(items, show);
    assert FreeOf(rows, '\n') by {
      forall i | 0 <= i < |rows| ensures '\n' !in rows[i] {
        assert rows[i] == items[i].name + "," + ShowNum(items[i].amount, show);
      }
    }
    var lines := [CsvHeader] + rows;
    assert lines[1..] == rows;
    assert Csv(items, show) == Join(lines, '\n');
    SplitJoin(lines, '\n');
    assert rows[k] == items[k].name + "," + ShowNum(items[k].amount, show);
    assert multiset(rows[k])[','] >= 2 by {
      var n := items[k].name;
      assert multiset(rows[k]) == multiset(n) + multiset(",") + multiset(ShowNum(items[k].amount, show));
    }
    ReadRowsFailsAt(rows, k);
  }

  lemma {:induction false} ReadRowsFailsAt(lines: seq<string>, k: nat)
    requires k < |lines|
    requires multiset(lines[k])[','] >= 2
    ensures ReadRows(lines) == None
  {
    if k > 0 {
      ReadRowsFailsAt(lines[1..], k - 1);
    } else {
      SplitCount(lines[0], ',');
    }
  }
}

/** The exam-marks calculator: reads comma-separated marks, keeps the fields that are
    numbers, and reports how many there are, their total and their average. */
module ExamMarks {
  import opened Text
  import opened JsNumber

  datatype Summary = Summary(avg: real, total: real, count: nat)

  /** The number in one field: `parseFloat(field.trim())`, with `parse` standing for
      `parseFloat`. */
  function FieldValue(field: string, parse: string -> Num): Num
  {
    parse(Trim(field))
  }

  /** Spaces around a mark do not change what it reads as. */
  lemma FieldValueIgnoresPadding(field: string, parse: string -> Num)
    ensures FieldValue(" " + field, parse) == FieldValue(field, parse)
    ensures FieldValue(field + " ", parse) == FieldValue(field, parse)
  {
    TrimIgnoresPadding(field);
  }

  /** The value of every field, in field order (the `map`). */
  function Values(fields: seq<string>, parse: string -> Num): (vs: seq<Num>)
    ensures |vs| == |fields|
    ensures forall i | 0 <= i < |fields| :: vs[i] == FieldValue(fields[i], parse)
  {
    seq(|fields|, i requires 0 <= i < |fields| => FieldValue(fields[i], parse))
  }

  /** What one value contributes: its number, or nothing when it is NaN. */
  function Kept(v: Num): (r: seq<real>)
    ensures v.Finite? ==> r == [v.value]
    ensures v.NaN? ==> r == []
  {
    if v.Finite? then [v.value] else []
  }

  /** The finite values, in order (the NaN `filter`). */
  function Finites(vs: seq<Num>): (r: seq<real>)
    ensures |r| <= |vs|
  {
    if |vs| == 0 then [] else Kept(vs[0]) + Finites(vs[1..])
  }

  /** The fields that are numbers, as numbers, in field order. */
  function Numbers(fields: seq<string>, parse: string -> Num): (r: seq<real>)
    ensures |r| <= |fields|
  {
    Finites(Values(fields, parse))
  }

  lemma {:induction false} FinitesAppend(x: seq<Num>, y: seq<Num>)
    ensures Finites(x + y) == Finites(x) + Finites(y)
  {
    if |x| == 0 {
      assert x + y == y;
    } else {
      assert (x + y)[0] == x[0];
      assert (x + y)[1..] == x[1..] + y;
      FinitesAppend(x[1..], y);
      assert Kept(x[0]) + (Finites(x[1..]) + Finites(y)) == (Kept(x[0]) + Finites(x[1..])) + Finites(y);
    }
  }

  /** Filtering works field by field, so the numbers keep the order of the fields they came
      from. */
  lemma NumbersAppend(a: seq<string>, b: seq<string>, parse: string -> Num)
    ensures Numbers(a + b, parse) == Numbers(a, parse) + Numbers(b, parse)
  {
    assert Values(a + b, parse) == Values(a, parse) + Values(b, parse);
    FinitesAppend(Values(a, parse), Values(b, parse));
  }

  lemma {:induction false} FinitesAllFinite(vs: seq<Num>)
    requires forall i | 0 <= i < |vs| :: vs[i].Finite?
    ensures |Finites(vs)| == |vs|
    ensures forall i | 0 <= i < |vs| :: vs[i] == Finite(Finites(vs)[i])
  {
    if |vs| > 0 {
      FinitesAllFinite(vs[1..]);
      var r := Finites(vs);
      assert r == [vs[0].value] + Finites(vs[1..]);
      forall i | 1 <= i < |vs| ensures vs[i] == Finite(r[i]) {
        assert vs[1..][i - 1] == vs[i];
      }
    }
  }

  /** When every field is a number, every field contributes its number, in place. */
  lemma NumbersAllNumeric(fields: seq<string>, parse: string -> Num)
    requires forall i | 0 <= i < |fields| :: FieldValue(fields[i], parse).Finite?
    ensures |Numbers(fields, parse)| == |fields|
    ensures forall i | 0 <= i < |fields| :: FieldValue(fields[i], parse) == Finite(Numbers(fields, parse)[i])
  {
    FinitesAllFinite(Values(fields, parse));
  }

  lemma {:induction false} FinitesNoneFinite(vs: seq<Num>)
    requires forall i | 0 <= i < |vs| :: vs[i].NaN?
    ensures Finites(vs) == []
  {
    if |vs| > 0 {
      FinitesNoneFinite(vs[1..]);
    }
  }

  /** When no field is a number, nothing is counted. */
  lemma NumbersNoneNumeric(fields: seq<string>, parse: string -> Num)
    requires forall i | 0 <= i < |fields| :: FieldValue(fields[i], parse).NaN?
    ensures Numbers(fields, parse) == []
  {
    FinitesNoneFinite(Values(fields, parse));
  }

  lemma NumbersOfOne(field: string, parse: string -> Num)
    ensures Numbers([field], parse) == Kept(FieldValue(field, parse))
  {
    var vs := Values([field], parse);
    assert vs[1..] == [];
  }

  /** The marks in the text box. */
  function Marks(text: string, parse: string -> Num): (r: seq<real>)
    ensures |r| <= |Split(text, ',')|
    ensures ',' !in text ==> r == Kept(FieldValue(text, parse))
  {
    var fields := Split(text, ',');
    if ',' in text then Numbers(fields, parse)
    else
      SplitWithoutSeparator(text, ',');
      NumbersOfOne(text, parse);
      Numbers(fields, parse)
  }


  /** `calculate()`: no numbers gives all zeros; otherwise the count of numeric fields, their
      sum, and an average that times the count gives the sum. */
  function Calculate(text: string, parse: string -> Num): (r: Summary)
    ensures r.count == |Marks(text, parse)| && r.count <= |Split(text, ',')|
    ensures r.count == 0 ==> r.avg == 0.0 && r.total == 0.0
    ensures r.count > 0 ==> r.total == Sum(Marks(text, parse)) && r.avg == r.total / r.count as real
  {
    var arr := Marks(text, parse);
    if |arr| == 0 then Summary(0.0, 0.0, 0)
    else
      var sum := ReduceSum(0.0, arr);
      ReduceSumIsSum(0.0, arr);
      Summary(sum / |arr| as real, sum, |arr|)
  }

  /** The average times the count gives back the total. */
  predicate Consistent(r: Summary)
  {
    r.avg * r.count as real == r.total
  }

  /** Whatever the text, the reported average times the reported count is the reported
      total, with or without marks. */
  lemma AverageTimesCount(text: string, parse: string -> Num)
    ensures Consistent(Calculate(text, parse))
  {
    SummaryConsistent(Calculate(text, parse));
  }

  lemma SummaryConsistent(r: Summary)
    requires r.count == 0 ==> r.avg == 0.0 && r.total == 0.0
    requires r.count > 0 ==> r.avg == r.total / r.count as real
    ensures Consistent(r)
  {
    var n := r.count as real;
    if r.count > 0 {
      MeanTimesCount(r.avg, r.total, n);
    } else {
      assert r.avg * n == 0.0;
    }
  }

  lemma MeanTimesCount(avg: real, total: real, n: real)
    requires n > 0.0 && avg == total / n
    ensures avg * n == total
  {
  }

  /** A text made of the fields `a` and then the fields `b` has the marks of `a` followed by
      the marks of `b`, and so the sum of both. */
  lemma MarksOfJoinedText(a: seq<string>, b: seq<string>, parse: string -> Num)
    requires |a| >= 1 && |b| >= 1
    requires FreeOf(a, ',') && FreeOf(b, ',')
    ensures Marks(Join(a + b, ','), parse) == Numbers(a, parse) + Numbers(b, parse)
    ensures Sum(Marks(Join(a + b, ','), parse)) == Sum(Numbers(a, parse)) + Sum(Numbers(b, parse))
  {
    assert FreeOf(a + b, ',') by {
      forall i | 0 <= i < |a + b| ensures ',' !in (a + b)[i] {
        if i < |a| { assert (a + b)[i] == a[i]; } else { assert (a + b)[i] == b[i - |a|]; }
      }
    }
    SplitJoin(a + b, ',');
    NumbersAppend(a, b, parse);
    SumAppend(Numbers(a, parse), Numbers(b, parse));
  }
}

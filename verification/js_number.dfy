/** JavaScript numbers as the calculators see them. Finite values are modelled as reals
    (rounding is not modelled); NaN is kept because `parseFloat` yields it for text that
    does not start with a number and the code either filters it out or lets it propagate. */
module JsNumber {

  datatype Num = Finite(value: real) | NaN

  /** JavaScript `+` on numbers: NaN on either side gives NaN. */
  function Plus(a: Num, b: Num): (r: Num)
    ensures r.Finite? <==> a.Finite? && b.Finite?
    ensures r.Finite? ==> r.value == a.value + b.value
  {
    if a.Finite? && b.Finite? then Finite(a.value + b.value) else NaN
  }

  /** How a template literal shows a number: NaN as "NaN", a finite value as `show` renders
      it (Number.prototype.toString is a parameter of the model). */
  function ShowNum(n: Num, show: real -> string): string
  {
    match n
    case NaN => "NaN"
    case Finite(v) => show(v)
  }

  /** The mathematical sum, first element outermost: the reference for the folds below. */
  function Sum(xs: seq<real>): real
  {
    if |xs| == 0 then 0.0 else xs[0] + Sum(xs[1..])
  }

  /** `xs.reduce((a, b) => a + b, acc)`: JavaScript's left fold. */
  function ReduceSum(acc: real, xs: seq<real>): real
    decreases |xs|
  {
    if |xs| == 0 then acc else ReduceSum(acc + xs[0], xs[1..])
  }

  /** The left fold that `reduce` performs adds up to the same value as the reference sum. */
  lemma {:induction false} ReduceSumIsSum(acc: real, xs: seq<real>)
    ensures ReduceSum(acc, xs) == acc + Sum(xs)
    decreases |xs|
  {
    if |xs| > 0 {
      ReduceSumIsSum(acc + xs[0], xs[1..]);
    }
  }

  lemma {:induction false} SumAppend(xs: seq<real>, ys: seq<real>)
    ensures Sum(xs + ys) == Sum(xs) + Sum(ys)
  {
    if |xs| > 0 {
      assert (xs + ys)[1..] == xs[1..] + ys;
      SumAppend(xs[1..], ys);
    } else {
      assert xs + ys == ys;
    }
  }
}

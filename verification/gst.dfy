/** The GST calculator: splits an amount into net amount, tax and total for one of the four
    tax rates the rate selector offers, with the tax either added on top (exclusive) or
    already contained in the amount (inclusive). */
module Gst {

  /** The options of the rate selector. */
  datatype Rate = Rate5 | Rate12 | Rate18 | Rate28 {
    function Percent(): (p: real)
      ensures 0.0 < p <= 28.0
    {
      match this
      case Rate5 => 5.0
      case Rate12 => 12.0
      case Rate18 => 18.0
      case Rate28 => 28.0
    }
  }

  datatype Mode = Exclusive | Inclusive

  datatype Breakdown = Breakdown(net: real, gst: real, total: real)

  /** The three figures the calculator displays, computed as the component does (JavaScript
      numbers read as exact reals). */
  function Compute(amount: real, rate: Rate, mode: Mode): (b: Breakdown)
    ensures b.net + b.gst == b.total
    ensures mode == Exclusive ==>
      b.net == amount && b.gst == amount * rate.Percent() / 100.0 && b.total == amount + b.gst
    ensures mode == Inclusive ==>
      && b.total == amount
      && b.net * (100.0 + rate.Percent()) == amount * 100.0
      && b.gst == b.net * rate.Percent() / 100.0
  {
    var p := rate.Percent();
    var gst := if mode == Exclusive then amount * p / 100.0 else amount - amount * (100.0 / (100.0 + p));
    var total := if mode == Exclusive then amount + gst else amount;
    var net := if mode == Exclusive then amount else amount - gst;
    Breakdown(net, gst, total)
  }

  /** Taking the tax out of a tax-inclusive total gives back the net amount the tax was
      added to: inclusive mode inverts exclusive mode. */
  lemma InclusiveInvertsExclusive(amount: real, rate: Rate)
    ensures Compute(Compute(amount, rate, Exclusive).total, rate, Inclusive) == Compute(amount, rate, Exclusive)
  {
    var e := Compute(amount, rate, Exclusive);
    var i := Compute(e.total, rate, Inclusive);
    var p := rate.Percent();
    assert e.total == amount * (100.0 + p) / 100.0;
    assert i.net * (100.0 + p) == amount * (100.0 + p);
  }

  /** Adding the tax to the net amount of an inclusive amount gives back that amount:
      exclusive mode inverts inclusive mode. */
  lemma ExclusiveInvertsInclusive(amount: real, rate: Rate)
    ensures Compute(Compute(amount, rate, Inclusive).net, rate, Exclusive) == Compute(amount, rate, Inclusive)
  {
  }
}

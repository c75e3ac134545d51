/** sumByProp of src/common/helpers/sumTotal.helper.ts: a left fold that adds
    up one property of every object of an array and throws as soon as that
    property is not a number. */
module SumTotal {
  import opened Common
  import opened JsValues

  /** Every object has a number under `prop`. */
  predicate AllNumbers(objects: seq<seq<Entry>>, prop: string) {
    forall i :: 0 <= i < |objects| ==> Get(objects[i], prop).Num?
  }

  /** The arithmetic sum of the property, grown one element at the end: the
      reference definition of the fold. */
  function Total(objects: seq<seq<Entry>>, prop: string): real
    requires AllNumbers(objects, prop)
  {
    if objects == [] then 0.0
    else Total(objects[..|objects| - 1], prop) + Get(objects[|objects| - 1], prop).n
  }

  /** The callback of `reduce`, applied from the left with accumulator `acc`. */
  function Fold(acc: real, objects: seq<seq<Entry>>, prop: string): (r: Result<real>)
    ensures r.Fail? ==> r.error == NotANumber
    ensures r.Ok? ==> AllNumbers(objects, prop)
    decreases |objects|
  {
    if objects == [] then Ok(acc)
    else
      match Get(objects[0], prop)
      case Num(n) => Fold(acc + n, objects[1..], prop)
      case _ => Fail(NotANumber)
  }

  lemma {:induction false} TotalCons(objects: seq<seq<Entry>>, prop: string)
    requires objects != [] && AllNumbers(objects, prop)
    ensures AllNumbers(objects[1..], prop)
    ensures Total(objects, prop) == Get(objects[0], prop).n + Total(objects[1..], prop)
  {
    assert AllNumbers(objects[1..], prop) by {
      forall i | 0 <= i < |objects[1..]| ensures Get(objects[1..][i], prop).Num? {
        assert objects[1..][i] == objects[i + 1];
      }
    }
    if |objects| > 1 {
      var init := objects[..|objects| - 1];
      assert AllNumbers(init, prop) by {
        forall i | 0 <= i < |init| ensures Get(init[i], prop).Num? {
          assert init[i] == objects[i];
        }
      }
      TotalCons(init, prop);
      assert init[1..] == objects[1..][..|objects[1..]| - 1];
      assert init[0] == objects[0];
      assert objects[1..][|objects[1..]| - 1] == objects[|objects| - 1];
    } else {
      assert objects[1..] == [];
      assert objects[..0] == [];
    }
  }

  /** The fold with accumulator `acc` is `acc` plus the total, or the
      not-a-number error. */
  lemma {:induction false} FoldIsTotal(acc: real, objects: seq<seq<Entry>>, prop: string)
    ensures Fold(acc, objects, prop).Ok? <==> AllNumbers(objects, prop)
    ensures Fold(acc, objects, prop).Fail? ==> Fold(acc, objects, prop).error == NotANumber
    ensures AllNumbers(objects, prop) ==> Fold(acc, objects, prop) == Ok(acc + Total(objects, prop))
    decreases |objects|
  {
    if objects != [] {
      match Get(objects[0], prop)
      case Num(n) =>
        FoldIsTotal(acc + n, objects[1..], prop);
        if AllNumbers(objects, prop) {
          TotalCons(objects, prop);
        } else {
          var i :| 0 <= i < |objects| && !Get(objects[i], prop).Num?;
          assert objects[1..][i - 1] == objects[i];
        }
      case _ =>
    }
  }

  /** sumByProp(array, propName): the reduce starting from 0. */
  function SumByProp(objects: seq<seq<Entry>>, prop: string): (r: Result<real>)
    ensures objects == [] ==> r == Ok(0.0)
    ensures r.Ok? <==> AllNumbers(objects, prop)
    ensures r.Fail? ==> r.error == NotANumber
    ensures r.Ok? ==> r.value == Total(objects, prop)
  {
    FoldIsTotal(0.0, objects, prop);
    Fold(0.0, objects, prop)
  }

  /** Summing one more object adds its value to the previous sum. */
  lemma SumByPropSnoc(objects: seq<seq<Entry>>, last: seq<Entry>, prop: string)
    requires AllNumbers(objects + [last], prop)
    ensures SumByProp(objects, prop).Ok? && Get(last, prop).Num?
    ensures SumByProp(objects + [last], prop) == Ok(SumByProp(objects, prop).value + Get(last, prop).n)
  {
    var all := objects + [last];
    assert all[..|all| - 1] == objects;
    assert all[|all| - 1] == last;
    assert AllNumbers(objects, prop) by {
      forall i | 0 <= i < |objects| ensures Get(objects[i], prop).Num? {
        assert objects[i] == all[i];
      }
    }
  }
}

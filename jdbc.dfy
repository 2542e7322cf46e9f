/** Positional parameter binding of a PreparedStatement. */
module Jdbc {

  /** The parameters of a statement: the i-th value of the list sits at position i + 1. */
  function Positions<V>(values: seq<V>): (bound: map<int, V>)
    ensures forall p :: p in bound <==> 1 <= p <= |values|
    ensures forall i :: 0 <= i < |values| ==> bound[i + 1] == values[i]
  {
    if values == [] then map[]
    else Positions(values[..|values| - 1])[|values| := values[|values| - 1]]
  }

  /** setObject(i + 1, values.get(i)) for every i, in list order. */
  method BindAll<V>(values: seq<V>) returns (bound: map<int, V>)
    ensures bound == Positions(values)
  {
    bound := map[];
    var i := 0;
    while i < |values|
      invariant 0 <= i <= |values|
      invariant bound == Positions(values[..i])
    {
      assert values[..i + 1][..i] == values[..i];
      bound := bound[i + 1 := values[i]];
      i := i + 1;
    }
    assert values[..i] == values;
  }
}

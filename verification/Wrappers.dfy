/** The stock absent-or-present value, and the members of a list that meet a test. */
module Wrappers {
  datatype Option<+T> = None | Some(value: T) {
    function GetOr(default: T): T { if Some? then value else default }
  }

  function Filter<T(==, !new)>(ps: seq<T>, keep: T -> bool): (r: seq<T>)
    ensures forall p :: p in r <==> p in ps && keep(p)
  {
    if ps == [] then []
    else
      var init := Filter(ps[..|ps| - 1], keep);
      assert ps == ps[..|ps| - 1] + [ps[|ps| - 1]];
      if keep(ps[|ps| - 1]) then init + [ps[|ps| - 1]] else init
  }
}

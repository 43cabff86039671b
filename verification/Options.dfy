/** The one wrapper type every other module shares. */
module Options {

  /** Python's `None` or a value. */
  datatype Option<+T> = None | Some(value: T) {

    function GetOr(default: T): T {
      if Some? then value else default
    }
  }

  /** Some number is above all of a finite set, so it is none of them. */
  lemma {:induction false} Bound(used: set<nat>) returns (n: nat)
    ensures forall u | u in used :: u < n
  {
    n := 0;
    if used != {} {
      var u :| u in used;
      var rest := used - {u};
      n := Bound(rest);
      if n <= u {
        n := u + 1;
      }
      forall v | v in used
        ensures v < n
      {
        assert v == u || v in rest;
      }
    }
  }
}

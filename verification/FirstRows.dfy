/** The first row of each subscription in a batch answer: what a loop with a `seen` set picks out. */
module FirstRows {
  import opened Common

  function FirstOf<R>(rows: seq<R>, owner: R -> int, s: int): Option<R> {
    if rows == [] then None
    else
      var last, before := rows[|rows| - 1], rows[..|rows| - 1];
      var first := FirstOf(before, owner, s);
      if first.Some? then first else if owner(last) == s then Some(last) else None
  }

  lemma {:induction false} FirstOfIsEarliest<R>(rows: seq<R>, owner: R -> int, s: int) returns (i: nat)
    ensures FirstOf(rows, owner, s).Some? ==>
          i < |rows| && FirstOf(rows, owner, s) == Some(rows[i]) && owner(rows[i]) == s
    ensures FirstOf(rows, owner, s).None? ==> i == |rows|
    ensures forall j :: 0 <= j < i ==> owner(rows[j]) != s
  {
    if rows == [] {
      i := 0;
    } else {
      i := FirstOfIsEarliest(rows[..|rows| - 1], owner, s);
      if i == |rows| - 1 && owner(rows[i]) != s {
        i := |rows|;
      }
    }
  }
}

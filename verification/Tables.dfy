/** Queries over table keys that several migrations share: row status, ascending order, the largest number. */
module Tables {

  /** The status column of a table with soft deletion. */
  datatype RowStatus = Live | Disabled | Deleted

  ghost predicate InOrder(ids: seq<nat>) {
    forall i, j :: 0 <= i < j < |ids| ==> ids[i] < ids[j]
  }

  lemma {:induction false} Greatest(s: set<nat>, a: nat) returns (x: nat)
    requires a in s
    ensures x in s && forall y :: y in s ==> y <= x
    decreases |s|
  {
    x := a;
    if b :| b in s && a < b {
      var rest := s - {a};
      x := Greatest(rest, b);
      assert forall y :: y in s ==> y == a || y in rest;
      assert b <= x;
    }
  }

  lemma GreatestExists(s: set<nat>, a: nat)
    requires a in s
    ensures exists x :: x in s && forall y :: y in s ==> y <= x
  {
    var x := Greatest(s, a);
  }

  /** COALESCE(MAX(column), 0). */
  function Max0(s: set<nat>): (x: nat)
    ensures x in s + {0} && forall y :: y in s ==> y <= x
  {
    GreatestExists(s + {0}, 0);
    var x :| x in s + {0} && forall y :: y in s + {0} ==> y <= x;
    x
  }

  lemma {:induction false} Least(s: set<int>, a: int) returns (x: int)
    requires a in s
    ensures x in s && forall y :: y in s ==> x <= y
    decreases |s|
  {
    x := a;
    if b :| b in s && b < a {
      var rest := s - {a};
      x := Least(rest, b);
      assert forall y :: y in s ==> y == a || y in rest;
      assert x <= b;
    }
  }

  lemma {:induction false} LeastExists(s: set<int>, a: int)
    requires a in s
    ensures exists x :: x in s && forall y :: y in s ==> x <= y
  {
    var x := Least(s, a);
  }

  lemma NonEmptyHasLeast(s: set<nat>)
    requires s != {}
    ensures exists x :: x in s && forall y :: y in s ==> x <= y
  {
    var a :| a in s;
    LeastExists(s, a);
  }

  function Min(s: set<nat>): (x: nat)
    requires s != {}
    ensures x in s && forall y :: y in s ==> x <= y
  {
    NonEmptyHasLeast(s);
    var x :| x in s && forall y :: y in s ==> x <= y;
    x
  }

  /** ORDER BY id ASC */
  function Ascending(s: set<nat>): (ids: seq<nat>)
    ensures forall x :: x in ids <==> x in s
    ensures forall i, j :: 0 <= i < j < |ids| ==> ids[i] < ids[j]
    decreases |s|
  {
    if s == {} then []
    else
      var x := Min(s);
      var rest := Ascending(s - {x});
      assert forall i :: 0 <= i < |rest| ==> rest[i] in rest;
      [x] + rest
  }

  /** There is only one such order. */
  lemma {:induction false} AscendingUnique(s: set<nat>, ids: seq<nat>)
    requires forall x :: x in ids <==> x in s
    requires forall i, j :: 0 <= i < j < |ids| ==> ids[i] < ids[j]
    ensures Ascending(s) == ids
    decreases |s|
  {
    if |ids| == 0 {
      assert s == {};
    } else {
      assert ids[0] in ids;
      var x := Min(s);
      var k :| 0 <= k < |ids| && ids[k] == x;
      var rest := ids[1..];
      assert ids == [x] + rest;
      assert x !in rest;
      AscendingUnique(s - {x}, rest);
    }
  }
}

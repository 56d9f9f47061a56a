/** Shared value types and machine-integer bounds. */
module Common {

  /** One past the largest `u32`. */
  const U32_LIMIT: nat := 0x1_0000_0000

  /** One past the largest `u64`. */
  const U64_LIMIT: nat := 0x1_0000_0000_0000_0000

  /** Time since `since`, zero if the clock has not passed it. */
  function Elapsed(since: nat, now: nat): nat {
    if now >= since then now - since else 0
  }

  datatype Option<+T> = None | Some(value: T)

  datatype Result<+T, +E> = Ok(value: T) | Err(error: E)

  /** No element occurs twice. */
  predicate NoRepeats<T(==)>(s: seq<T>) {
    forall i, j :: 0 <= i < j < |s| ==> s[i] != s[j]
  }

  ghost predicate Picked(picks: seq<nat>, i: nat) {
    exists j :: 0 <= j < |picks| && picks[j] == i
  }

  /** `picks` lists, in ascending order, exactly the positions of `s` whose elements are wanted. */
  ghost predicate Picks<T(!new)>(picks: seq<nat>, s: seq<T>, want: T -> bool) {
    && (forall i, j :: 0 <= i < j < |picks| ==> picks[i] < picks[j])
    && (forall j :: 0 <= j < |picks| ==> picks[j] < |s| && want(s[picks[j]]))
    && (forall i: nat {:trigger Picked(picks, i)} :: i < |s| && want(s[i]) ==> Picked(picks, i))
  }

  ghost predicate Images<T(!new), U(!new)>(s: seq<T>, f: T -> U, picks: seq<nat>, r: seq<U>) {
    |r| == |picks| && forall j :: 0 <= j < |r| ==> picks[j] < |s| && r[j] == f(s[picks[j]])
  }

  /** `r` holds the image of every wanted element of `s`, once per position and in the order of `s`. */
  ghost predicate Selects<T(!new), U(!new)>(s: seq<T>, want: T -> bool, f: T -> U, r: seq<U>) {
    exists picks: seq<nat> :: Picks(picks, s, want) && Images(s, f, picks, r)
  }

  lemma {:induction false} PicksSnoc<T(!new)>(picks: seq<nat>, s: seq<T>, x: T, want: T -> bool)
    requires Picks(picks, s, want)
    ensures Picks(if want(x) then picks + [|s|] else picks, s + [x], want)
  {
    var picks' := if want(x) then picks + [|s|] else picks;
    forall i: nat | i < |s + [x]| && want((s + [x])[i]) ensures Picked(picks', i) {
      if i < |s| {
        assert Picked(picks, i);
        var j :| 0 <= j < |picks| && picks[j] == i;
        assert picks'[j] == i;
      } else {
        assert picks'[|picks|] == i;
      }
    }
  }

  lemma {:induction false} ImagesSnoc<T(!new), U(!new)>(picks: seq<nat>, s: seq<T>, x: T, f: T -> U, r: seq<U>)
    requires Images(s, f, picks, r)
    ensures Images(s + [x], f, picks, r) && Images(s + [x], f, picks + [|s|], r + [f(x)])
  {
  }

  lemma {:induction false} SelectsNone<T(!new), U(!new)>(want: T -> bool, f: T -> U)
    ensures Selects([], want, f, [])
  {
    assert Picks([], [], want) && Images([], f, [], []);
  }

  lemma {:induction false} SelectsSnoc<T(!new), U(!new)>(s: seq<T>, x: T, want: T -> bool, f: T -> U, r: seq<U>)
    requires Selects(s, want, f, r)
    ensures Selects(s + [x], want, f, if want(x) then r + [f(x)] else r)
  {
    var picks: seq<nat> :| Picks(picks, s, want) && Images(s, f, picks, r);
    PicksSnoc(picks, s, x, want);
    ImagesSnoc(picks, s, x, f, r);
  }

  /** Nothing wanted is missing and nothing else is there. */
  lemma {:induction false} SelectsMembers<T(!new), U(!new)>(s: seq<T>, want: T -> bool, f: T -> U, r: seq<U>, y: U)
    requires Selects(s, want, f, r)
    ensures y in r <==> exists x :: x in s && want(x) && y == f(x)
  {
    var picks: seq<nat> :| Picks(picks, s, want) && Images(s, f, picks, r);
    if y in r {
      var j :| 0 <= j < |r| && r[j] == y;
      assert s[picks[j]] in s && want(s[picks[j]]);
    }
    if x :| x in s && want(x) && y == f(x) {
      var i :| 0 <= i < |s| && s[i] == x;
      assert Picked(picks, i);
      var j :| 0 <= j < |picks| && picks[j] == i;
      assert r[j] == y;
    }
  }
}

/** Lists of distinct numbers. */
module Lists {
  ghost predicate Distinct(list: seq<nat>) {
    forall i, j | 0 <= i < j < |list| :: list[i] != list[j]
  }

  /** list without a. */
  function Without(list: seq<nat>, a: nat): seq<nat> {
    if list == [] then [] else (if list[0] == a then [] else [list[0]]) + Without(list[1..], a)
  }

  lemma {:induction false} WithoutMembers(list: seq<nat>, a: nat)
    ensures forall x {:trigger x in Without(list, a)} :: x in Without(list, a) <==> x in list && x != a
  {
    if list != [] {
      WithoutMembers(list[1..], a);
      assert list == [list[0]] + list[1..];
    }
  }

  lemma {:induction false} WithoutAt(list: seq<nat>, p: nat)
    requires p < |list| && Distinct(list)
    ensures Without(list, list[p]) == list[..p] + list[p + 1..]
  {
    if p == 0 {
      WithoutNone(list[1..], list[0]);
    } else {
      assert list[1..][p - 1] == list[p] && list[0] != list[p];
      WithoutAt(list[1..], p - 1);
      assert list[1..][..p - 1] == list[1..p] && list[1..][p..] == list[p + 1..];
    }
  }

  lemma {:induction false} WithoutNone(list: seq<nat>, c: nat)
    requires c !in list
    ensures Without(list, c) == list
  {
    if list != [] {
      WithoutNone(list[1..], c);
    }
  }

  lemma {:induction false} WithoutDistinct(list: seq<nat>, a: nat)
    requires Distinct(list)
    ensures Distinct(Without(list, a))
  {
    if list != [] {
      WithoutDistinct(list[1..], a);
      WithoutMembers(list[1..], a);
      assert list[0] !in list[1..];
      var rest := Without(list[1..], a);
      assert forall j | 0 <= j < |rest| :: rest[j] in rest && rest[j] != list[0];
    }
  }
}

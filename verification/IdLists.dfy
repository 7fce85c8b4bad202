/** Linked lists of numbered nodes, as walked with a pointer to the current or the next node. */
module IdLists {
  import opened Common

  type Id = nat

  function First(list: seq<Id>): Option<Id> {
    if list == [] then None else Some(list[0])
  }

  /** The successor of b in the list. */
  function After(list: seq<Id>, b: Id): Option<Id> {
    if list == [] then None else if list[0] == b then First(list[1..]) else After(list[1..], b)
  }

  ghost predicate NoDup(list: seq<Id>) {
    forall i, j :: 0 <= i < j < |list| ==> list[i] != list[j]
  }

  /** The list from the current node on. */
  function From(list: seq<Id>, cur: Option<Id>): seq<Id> {
    if list == [] then [] else if cur == Some(list[0]) then list else From(list[1..], cur)
  }

  lemma NoDupHead(list: seq<Id>, n: Id)
    requires NoDup(list) && n !in list
    ensures NoDup([n] + list)
  {
    var list' := [n] + list;
    forall i, j | 0 <= i < j < |list'| ensures list'[i] != list'[j] {
      assert list'[j] == list[j - 1];
    }
  }

  lemma NoDupTail(list: seq<Id>)
    requires NoDup(list) && list != []
    ensures NoDup(list[1..]) && list[0] !in list[1..]
  {
    var rest := list[1..];
    assert forall j :: 0 <= j < |rest| ==> rest[j] == list[j + 1];
  }

  lemma FromHead(list: seq<Id>, n: Id, cur: Option<Id>)
    requires cur.Some? ==> cur.value in list && cur.value != n
    ensures cur.Some? ==> From([n] + list, cur) == From(list, cur)
  {
    assert ([n] + list)[1..] == list;
  }

  lemma {:induction false} FromNone(list: seq<Id>)
    ensures From(list, None) == []
    decreases |list|
  {
    if list != [] {
      FromNone(list[1..]);
    }
  }

  lemma FromFirst(list: seq<Id>)
    ensures From(list, First(list)) == list
  {}

  /** Moving past b splits it off what is ahead. */
  lemma {:induction false} FromAfter(list: seq<Id>, b: Id)
    requires NoDup(list) && b in list
    ensures From(list, Some(b)) == [b] + From(list, After(list, b))
    ensures After(list, b).Some? ==> After(list, b).value in list && After(list, b).value != b
    decreases |list|
  {
    NoDupTail(list);
    var rest := list[1..];
    if list[0] == b {
      if rest == [] {
        FromNone(list);
      } else {
        assert From(list, First(rest)) == From(rest, First(rest)) == rest;
      }
    } else {
      FromAfter(rest, b);
    }
  }

  lemma {:induction false} FromDistinct(list: seq<Id>, cur: Option<Id>)
    requires NoDup(list)
    ensures NoDup(From(list, cur))
    decreases |list|
  {
    if list != [] && cur != Some(list[0]) {
      NoDupTail(list);
      FromDistinct(list[1..], cur);
    }
  }

  lemma {:induction false} AheadOf(list: seq<Id>, b: Id)
    requires b in list
    ensures From(list, Some(b)) != []
    decreases |list|
  {
    if list[0] != b {
      AheadOf(list[1..], b);
    }
  }
}

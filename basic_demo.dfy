/**
 * The basic demonstration the console client runs against a store: empty
 * every list whose id starts with "demo_", append the even numbers 2..10 to
 * "demo_pares" and the odd numbers 1..9 to "demo_impares", then read, size
 * and remove. Its results follow from the store's contracts alone, whatever
 * the store held before.
 */
module BasicDemo {
  import opened NamedLists
  import opened RemoteListStore

  /** Ids the demonstration owns and clears before it starts. */
  predicate IsDemoId(id: string)
  {
    "demo_" <= id
  }

  /** Call `remove(id)` until `size(id)` answers 0. */
  method Drain(store: RemoteListImpl, id: string)
    modifies store
    ensures store.lists == if id in old(store.lists) then old(store.lists)[id := []] else old(store.lists)
  {
    var n := store.Size(id);
    while n > 0
      invariant n == Size(store.lists, id)
      invariant id in store.lists <==> id in old(store.lists)
      invariant id in old(store.lists) ==> store.lists == old(store.lists)[id := store.lists[id]]
      invariant id !in old(store.lists) ==> store.lists == old(store.lists)
      decreases n
    {
      var _ := store.Remove(id);
      n := store.Size(id);
    }
    assert id in store.lists ==> store.lists[id] == [];
  }

  /**
   * Append `first`, `first + 2`, ... up to and including `last` to `id`,
   * as the client's counting loops do.
   */
  method AppendEverySecond(store: RemoteListImpl, id: string, first: int32, last: int32)
    requires first <= last < 0x7fff_fffe
    modifies store
    ensures |Contents(store.lists, id)| == |Contents(old(store.lists), id)| + (last as int - first as int) / 2 + 1
    ensures forall k :: 0 <= k < |Contents(store.lists, id)| ==>
      Contents(store.lists, id)[k] as int ==
        if k < |Contents(old(store.lists), id)| then Contents(old(store.lists), id)[k] as int
        else first as int + 2 * (k - |Contents(old(store.lists), id)|)
    ensures store.lists.Keys == old(store.lists).Keys + {id}
    ensures forall other :: other in old(store.lists) && other != id ==> store.lists[other] == old(store.lists)[other]
  {
    ghost var before := Contents(store.lists, id);
    var i := first;
    while i <= last
      invariant first as int <= i as int <= last as int + 2
      invariant (i as int - first as int) % 2 == 0
      invariant |Contents(store.lists, id)| == |before| + (i as int - first as int) / 2
      invariant forall k :: 0 <= k < |Contents(store.lists, id)| ==>
        Contents(store.lists, id)[k] as int ==
          if k < |before| then before[k] as int else first as int + 2 * (k - |before|)
      invariant store.lists.Keys == old(store.lists).Keys + (if i > first then {id} else {})
      invariant forall other :: other in old(store.lists) && other != id ==> store.lists[other] == old(store.lists)[other]
      decreases last as int - i as int
    {
      var _ := store.Append(id, i);
      i := i + 2;
    }
  }

  /** Empty every list whose id starts with "demo_"; keep every id and every other list. */
  method ClearDemoLists(store: RemoteListImpl)
    modifies store
    ensures store.lists.Keys == old(store.lists).Keys
    ensures forall id :: id in store.lists ==>
      store.lists[id] == if IsDemoId(id) then [] else old(store.lists)[id]
  {
    var ids := store.ListIds();
    var pending := ids;
    while pending != {}
      invariant pending <= ids
      invariant store.lists.Keys == ids
      invariant forall id :: id in ids && id !in pending && IsDemoId(id) ==> store.lists[id] == []
      invariant forall id :: id in pending || (id in ids && !IsDemoId(id)) ==> store.lists[id] == old(store.lists)[id]
      decreases pending
    {
      var id :| id in pending;
      if IsDemoId(id) {
        Drain(store, id);
      }
      pending := pending - {id};
    }
  }

  /**
   * The client's two counting loops: the even numbers 2..10 go to
   * "demo_pares" and the odd numbers 1..9 to "demo_impares".
   */
  method FillDemoLists(store: RemoteListImpl)
    requires Contents(store.lists, "demo_pares") == [] && Contents(store.lists, "demo_impares") == []
    modifies store
    ensures store.lists == old(store.lists)["demo_pares" := [2, 4, 6, 8, 10]]["demo_impares" := [1, 3, 5, 7, 9]]
  {
    var pares, impares := "demo_pares", "demo_impares";
    assert pares != impares by { assert pares[5] != impares[5]; }
    AppendEverySecond(store, pares, 2, 10);
    ghost var evens := store.lists[pares];
    assert |evens| == 5 && forall k :: 0 <= k < 5 ==> evens[k] as int == 2 + 2 * k;
    assert evens == [2, 4, 6, 8, 10];
    AppendEverySecond(store, impares, 1, 9);
    ghost var odds := store.lists[impares];
    assert |odds| == 5 && forall k :: 0 <= k < 5 ==> odds[k] as int == 1 + 2 * k;
    assert odds == [1, 3, 5, 7, 9];
    ghost var expected := old(store.lists)[pares := evens][impares := odds];
    assert store.lists.Keys == expected.Keys;
    forall id | id in expected ensures store.lists[id] == expected[id] {
    }
  }

  /**
   * The client's reads, sizes and removes on the filled demonstration
   * lists: each answers as the demonstration prints it, and each remove
   * takes the tail off its list.
   */
  method QueryDemoLists(store: RemoteListImpl)
      returns (pares0: Result<int32>, pares2: Result<int32>, impares1: Result<int32>,
               paresSize: nat, imparesSize: nat, paresRemoved: Result<int32>, imparesRemoved: Result<int32>)
    requires "demo_pares" in store.lists && store.lists["demo_pares"] == [2, 4, 6, 8, 10]
    requires "demo_impares" in store.lists && store.lists["demo_impares"] == [1, 3, 5, 7, 9]
    modifies store
    ensures pares0 == Ok(2) && pares2 == Ok(6) && impares1 == Ok(3)
    ensures paresSize == 5 && imparesSize == 5
    ensures paresRemoved == Ok(10) && imparesRemoved == Ok(9)
    ensures store.lists == old(store.lists)["demo_pares" := [2, 4, 6, 8]]["demo_impares" := [1, 3, 5, 7]]
  {
    var pares, impares := "demo_pares", "demo_impares";
    assert pares != impares by { assert pares[5] != impares[5]; }
    pares0 := store.Get(pares, 0);
    pares2 := store.Get(pares, 2);
    impares1 := store.Get(impares, 1);
    paresSize := store.Size(pares);
    imparesSize := store.Size(impares);
    ghost var before := store.lists;
    paresRemoved := store.Remove(pares);
    assert [2, 4, 6, 8, 10][..4] == [2, 4, 6, 8];
    assert store.lists == before[pares := [2, 4, 6, 8]];
    imparesRemoved := store.Remove(impares);
    assert [1, 3, 5, 7, 9][..4] == [1, 3, 5, 7];
    assert store.lists == before[pares := [2, 4, 6, 8]][impares := [1, 3, 5, 7]];
  }

  /**
   * The demonstration: whatever the store held, it reads 2 and 6 from
   * "demo_pares" and 3 from "demo_impares", sizes both at 5, and removes
   * 10 and 9. Every other "demo_" list ends empty, the two demonstration
   * ids are added if absent, and lists whose id does not start with "demo_"
   * are left alone.
   */
  method RunBasicDemo(store: RemoteListImpl)
      returns (pares0: Result<int32>, pares2: Result<int32>, impares1: Result<int32>,
               paresSize: nat, imparesSize: nat, paresRemoved: Result<int32>, imparesRemoved: Result<int32>)
    modifies store
    ensures pares0 == Ok(2) && pares2 == Ok(6) && impares1 == Ok(3)
    ensures paresSize == 5 && imparesSize == 5
    ensures paresRemoved == Ok(10) && imparesRemoved == Ok(9)
    ensures Contents(store.lists, "demo_pares") == [2, 4, 6, 8]
    ensures Contents(store.lists, "demo_impares") == [1, 3, 5, 7]
    ensures store.lists.Keys == old(store.lists).Keys + {"demo_pares", "demo_impares"}
    ensures forall id :: id in store.lists && IsDemoId(id) && id != "demo_pares" && id != "demo_impares" ==>
      store.lists[id] == []
    ensures forall id :: id in old(store.lists) && !IsDemoId(id) ==> id in store.lists && store.lists[id] == old(store.lists)[id]
  {
    ClearDemoLists(store);
    assert IsDemoId("demo_pares") && IsDemoId("demo_impares");
    FillDemoLists(store);
    pares0, pares2, impares1, paresSize, imparesSize, paresRemoved, imparesRemoved := QueryDemoLists(store);
  }
}

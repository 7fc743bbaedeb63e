/**
 * The server object of the named-list store: one mutable map from list ids
 * to lists, updated in place by `append` and `remove`. Each method is one
 * atomic call; a `RemoteException` the source throws is an `Err` result.
 */
module RemoteListStore {
  import opened NamedLists

  class RemoteListImpl {
    /** Every list of the store, keyed by its id. */
    var lists: map<string, seq<int32>>

    /** A new store holds no list. */
    constructor ()
      ensures lists == map[]
    {
      lists := map[];
    }

    /**
     * Create the list under `listId` if there is none, then add `value` at
     * its tail. Always answers true; no other list changes.
     */
    method Append(listId: string, value: int32) returns (ok: bool)
      modifies this
      ensures ok
      ensures lists == NamedLists.Append(old(lists), listId, value)
      ensures Contents(lists, listId) == Contents(old(lists), listId) + [value]
      ensures lists.Keys == old(lists).Keys + {listId}
      ensures forall other :: other in old(lists) && other != listId ==> lists[other] == old(lists)[other]
    {
      if listId !in lists {
        lists := lists[listId := []];
      }
      var list := lists[listId];
      lists := lists[listId := list + [value]];
      ok := true;
    }

    /**
     * The element at position `index` of the list under `listId`; an error
     * when there is no such list or the index lies outside it. Changes
     * nothing.
     */
    method Get(listId: string, index: int32) returns (r: Result<int32>)
      ensures r == NamedLists.Get(lists, listId, index)
      ensures r.Ok? <==> listId in lists && 0 <= index as int < |lists[listId]|
      ensures r.Ok? ==> r.value == lists[listId][index]
    {
      if listId !in lists {
        return Err(InvalidIndexOrMissingList);
      }
      var list := lists[listId];
      if index < 0 || index as int >= |list| {
        return Err(InvalidIndexOrMissingList);
      }
      r := Ok(list[index]);
    }

    /**
     * Take the tail element off the list under `listId` and return it. An
     * unknown id or an empty list is an error and changes nothing; on
     * success the id stays in the store even when its list is now empty.
     */
    method Remove(listId: string) returns (r: Result<int32>)
      modifies this
      ensures (r, lists) == NamedLists.Remove(old(lists), listId)
      ensures r.Err? <==> listId !in old(lists) || old(lists)[listId] == []
      ensures r.Err? ==> lists == old(lists)
      ensures r.Ok? ==> old(lists)[listId] == lists[listId] + [r.value]
      ensures lists.Keys == old(lists).Keys
      ensures forall other :: other in old(lists) && other != listId ==> lists[other] == old(lists)[other]
    {
      if listId !in lists || |lists[listId]| == 0 {
        return Err(MissingOrEmptyList);
      }
      var list := lists[listId];
      r := Ok(list[|list| - 1]);
      lists := lists[listId := list[..|list| - 1]];
    }

    /** The length of the list under `listId`, and 0 for an unknown id. */
    method Size(listId: string) returns (n: nat)
      ensures n == NamedLists.Size(lists, listId)
      ensures listId !in lists ==> n == 0
      ensures listId in lists ==> n == |lists[listId]|
    {
      if listId in lists {
        n := |lists[listId]|;
      } else {
        n := 0;
      }
    }

    /** The ids of every list in the store, each once. */
    method ListIds() returns (ids: set<string>)
      ensures ids == NamedLists.ListIds(lists)
      ensures forall id :: id in ids <==> id in lists
    {
      ids := lists.Keys;
    }

    /** Announces shutdown; releases nothing and changes nothing. */
    method Shutdown()
      ensures lists == old(lists)
    {
    }
  }
}

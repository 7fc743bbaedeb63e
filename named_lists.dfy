/**
 * The named-list store as values: a map from list ids to integer lists, and
 * the five operations of the store as pure functions over that map. The
 * class in module RemoteListStore is proved against these functions.
 */
module NamedLists {

  /** Java's `int`: the type of every stored value and of the index of `get`. */
  newtype int32 = x: int | -0x8000_0000 <= x < 0x8000_0000

  /** The whole state of the store: the `lists` map of the server object. */
  type Store = map<string, seq<int32>>

  /**
   * The two failures the store reports (each a `RemoteException` with its
   * own message in the source).
   */
  datatype Error =
    | InvalidIndexOrMissingList  // `get` on an unknown id or an index outside the list
    | MissingOrEmptyList         // `remove` on an unknown id or an empty list

  datatype Result<T> = Ok(value: T) | Err(error: Error)

  /** The list stored under `id`, or the empty list for an id never created. */
  function Contents(s: Store, id: string): seq<int32>
  {
    if id in s then s[id] else []
  }

  /** `size`: the length of the list, 0 for an unknown id. */
  function Size(s: Store, id: string): nat
  {
    if id in s then |s[id]| else 0
  }

  /** `listIds`: every id that has a list, in no particular order. */
  function ListIds(s: Store): set<string>
  {
    s.Keys
  }

  /**
   * `append`: create the list on first use, then add `v` at its tail. It
   * never fails.
   */
  function Append(s: Store, id: string, v: int32): (s': Store)
    ensures Contents(s', id) == Contents(s, id) + [v]
    ensures Size(s', id) == Size(s, id) + 1
    ensures ListIds(s') == ListIds(s) + {id}
    ensures forall other :: other != id ==> Contents(s', other) == Contents(s, other)
  {
    var list := if id in s then s[id] else [];
    s[id := list + [v]]
  }

  /**
   * `get`: the element at position `index`; an error, never a default
   * value, when the id is unknown or the index lies outside the list.
   */
  function Get(s: Store, id: string, index: int32): (r: Result<int32>)
    ensures r.Ok? <==> 0 <= index as int < Size(s, id)
    ensures r.Ok? ==> r.value == Contents(s, id)[index]
    ensures r.Err? ==> r.error == InvalidIndexOrMissingList
  {
    if id !in s || index < 0 || index as int >= |s[id]| then
      Err(InvalidIndexOrMissingList)
    else
      Ok(s[id][index])
  }

  /**
   * `remove`: take the tail element off the list and return it, with the
   * store that follows. An unknown id or an empty list is an error, and the
   * store is then unchanged. The id stays in the store when its list becomes
   * empty.
   */
  function Remove(s: Store, id: string): (r: (Result<int32>, Store))
    ensures r.0.Err? <==> Size(s, id) == 0
    ensures r.0.Err? ==> r.0.error == MissingOrEmptyList && r.1 == s
    ensures r.0.Ok? ==> Contents(s, id) == Contents(r.1, id) + [r.0.value]
    ensures r.0.Ok? ==> Size(r.1, id) == Size(s, id) - 1
    ensures ListIds(r.1) == ListIds(s)
    ensures forall other :: other != id ==> Contents(r.1, other) == Contents(s, other)
  {
    if id !in s || |s[id]| == 0 then
      (Err(MissingOrEmptyList), s)
    else
      var list := s[id];
      (Ok(list[|list| - 1]), s[id := list[..|list| - 1]])
  }

  /**
   * An id that was never created answers `size` with 0 but `get` and
   * `remove` with an error: the asymmetry the store keeps on purpose.
   */
  lemma UnknownId(s: Store, id: string, index: int32)
    requires id !in ListIds(s)
    ensures Size(s, id) == 0
    ensures Get(s, id, index) == Err(InvalidIndexOrMissingList)
    ensures Remove(s, id) == (Err(MissingOrEmptyList), s)
  {
  }

  /** A `get` right after `append` at the old size reads back the value appended. */
  lemma GetAfterAppend(s: Store, id: string, v: int32, index: int32)
    requires index as int == Size(s, id)
    ensures Get(Append(s, id, v), id, index) == Ok(v)
  {
  }

  /**
   * `remove` undoes `append` on the list, returns the appended value, and
   * leaves the id in the store (with an empty list if it was new).
   */
  lemma RemoveAfterAppend(s: Store, id: string, v: int32)
    ensures Remove(Append(s, id, v), id).0 == Ok(v)
    ensures Remove(Append(s, id, v), id).1 == s[id := Contents(s, id)]
  {
  }
}

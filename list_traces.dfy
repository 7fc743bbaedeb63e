/**
 * Properties of sequences of store operations, each call taken as one
 * atomic step: appends followed by removes come back in reverse order, the
 * ids in the store are exactly the ids ever appended to, and no append to a
 * list is lost whatever the order in which calls to different ids arrive.
 */
module ListTraces {
  import opened NamedLists

  /** One call on the store. */
  datatype Op =
    | AppendOp(id: string, value: int32)
    | GetOp(id: string, index: int32)
    | RemoveOp(id: string)
    | SizeOp(id: string)
    | ListIdsOp
    | ShutdownOp

  /** The store after one call; reads and failed calls leave it as it was. */
  function Step(s: Store, op: Op): Store
  {
    match op
    case AppendOp(id, v) => Append(s, id, v)
    case RemoveOp(id) => Remove(s, id).1
    case _ => s
  }

  /** The store after the calls of `ops`, one after the other. */
  function Run(s: Store, ops: seq<Op>): Store
    decreases |ops|
  {
    if ops == [] then s else Run(Step(s, ops[0]), ops[1..])
  }

  /** The ids that `ops` appends to. */
  function AppendedIds(ops: seq<Op>): set<string>
    decreases |ops|
  {
    if ops == [] then {}
    else (if ops[0].AppendOp? then {ops[0].id} else {}) + AppendedIds(ops[1..])
  }

  /** How many appends to `id` there are in `ops`. */
  function AppendsTo(ops: seq<Op>, id: string): nat
    decreases |ops|
  {
    if ops == [] then 0
    else (if ops[0].AppendOp? && ops[0].id == id then 1 else 0) + AppendsTo(ops[1..], id)
  }

  /**
   * No call removes an id from the store: the set that `listIds` answers
   * never shrinks, and after the calls it holds exactly the ids it held
   * before plus the ids appended to.
   */
  lemma {:induction false} ListIdsGrowByAppends(s: Store, ops: seq<Op>)
    ensures ListIds(Run(s, ops)) == ListIds(s) + AppendedIds(ops)
    decreases |ops|
  {
    if ops != [] {
      ListIdsGrowByAppends(Step(s, ops[0]), ops[1..]);
    }
  }

  /**
   * From an empty store, an id is listed by `listIds` if and only if some
   * call appended to it; any other id has size 0.
   */
  lemma ListedIffAppended(ops: seq<Op>, id: string)
    ensures id in ListIds(Run(map[], ops)) <==> id in AppendedIds(ops)
    ensures id !in AppendedIds(ops) ==> Size(Run(map[], ops), id) == 0
  {
    ListIdsGrowByAppends(map[], ops);
  }

  /**
   * No lost appends: with no `remove` on `id` among the calls, the size of
   * `id` grows by exactly the number of appends to it, however those are
   * interleaved with calls on other ids and with reads. For instance five
   * workers whose calls reach the store one at a time, appending ten values
   * each to one id, leave it fifty longer.
   */
  lemma {:induction false} SizeCountsAppends(s: Store, ops: seq<Op>, id: string)
    requires RemoveOp(id) !in ops
    ensures Size(Run(s, ops), id) == Size(s, id) + AppendsTo(ops, id)
    decreases |ops|
  {
    if ops != [] {
      assert ops == [ops[0]] + ops[1..];
      SizeCountsAppends(Step(s, ops[0]), ops[1..], id);
    }
  }

  /** `s` reversed. */
  function Reverse(s: seq<int32>): seq<int32>
    decreases |s|
  {
    if s == [] then [] else [s[|s| - 1]] + Reverse(s[..|s| - 1])
  }

  /** The calls `append(id, vs[0])`, `append(id, vs[1])`, ... in that order. */
  function AppendAll(s: Store, id: string, vs: seq<int32>): Store
    decreases |vs|
  {
    if vs == [] then s else AppendAll(Append(s, id, vs[0]), id, vs[1..])
  }

  /**
   * `n` calls `remove(id)` in a row: the values they return, in order, and
   * the store after them, or the first error (the store as it then is).
   */
  function RemoveTimes(s: Store, id: string, n: nat): (Result<seq<int32>>, Store)
    decreases n
  {
    if n == 0 then (Ok([]), s)
    else
      var (r, s1) := Remove(s, id);
      if r.Err? then (Err(r.error), s1)
      else
        var (rs, s2) := RemoveTimes(s1, id, n - 1);
        if rs.Err? then (rs, s2) else (Ok([r.value] + rs.value), s2)
  }

  /** Appending `vs` adds `vs` at the tail of the list and touches no other list. */
  lemma {:induction false} AppendAllContents(s: Store, id: string, vs: seq<int32>)
    ensures Contents(AppendAll(s, id, vs), id) == Contents(s, id) + vs
    ensures ListIds(AppendAll(s, id, vs)) == ListIds(s) + (if vs == [] then {} else {id})
    ensures forall other :: other != id ==> Contents(AppendAll(s, id, vs), other) == Contents(s, other)
    decreases |vs|
  {
    if vs != [] {
      var s1 := Append(s, id, vs[0]);
      AppendAllContents(s1, id, vs[1..]);
      assert Contents(s, id) + [vs[0]] + vs[1..] == Contents(s, id) + vs;
    }
  }

  /**
   * Removing as many values as the list holds beyond `prefix` returns them
   * from the tail back, and leaves `prefix` in place under the same id.
   */
  lemma {:induction false} RemoveTimesTail(s: Store, id: string, prefix: seq<int32>, vs: seq<int32>)
    requires id in s && s[id] == prefix + vs
    ensures RemoveTimes(s, id, |vs|) == (Ok(Reverse(vs)), s[id := prefix])
    decreases |vs|
  {
    if vs != [] {
      var last, init := vs[|vs| - 1], vs[..|vs| - 1];
      assert s[id] == (prefix + init) + [last];
      var s1 := s[id := prefix + init];
      assert Remove(s, id) == (Ok(last), s1);
      RemoveTimesTail(s1, id, prefix, init);
      assert s1[id := prefix] == s[id := prefix];
    } else {
      assert prefix + vs == prefix;
      assert s[id := prefix] == s;
    }
  }

  /**
   * LIFO round trip: appending `vs` to an id and then removing `|vs|` times
   * returns the values in reverse order and brings the list back to what it
   * was; the id itself stays listed. For an id never used before, the list
   * ends empty (size 0).
   */
  lemma LifoRoundTrip(s: Store, id: string, vs: seq<int32>)
    requires vs != []
    ensures RemoveTimes(AppendAll(s, id, vs), id, |vs|).0 == Ok(Reverse(vs))
    ensures RemoveTimes(AppendAll(s, id, vs), id, |vs|).1 == s[id := Contents(s, id)]
    ensures id !in s ==> Size(RemoveTimes(AppendAll(s, id, vs), id, |vs|).1, id) == 0
  {
    var t, c := AppendAll(s, id, vs), Contents(s, id);
    AppendAllContents(s, id, vs);
    assert id in t;
    RemoveTimesTail(t, id, c, vs);
    var u, w := t[id := c], s[id := c];
    assert u.Keys == w.Keys;
    forall k | k in u ensures u[k] == w[k] {
      if k != id {
        assert Contents(t, k) == Contents(s, k);
      }
    }
    assert u == w;
  }

  /** Reversal reads the list from its tail: position k holds `s[|s| - 1 - k]`. */
  lemma {:induction false} ReverseAt(s: seq<int32>, k: nat)
    requires k < |s|
    ensures |Reverse(s)| == |s| && Reverse(s)[k] == s[|s| - 1 - k]
    decreases |s|
  {
    if k > 0 {
      ReverseAt(s[..|s| - 1], k - 1);
    } else if |s| > 1 {
      ReverseAt(s[..|s| - 1], 0);
    }
  }
}

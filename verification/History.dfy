/** The command history (brush-core/src/history.rs): an ordered list of ids beside a map from
    ids to items, and a filtered cursor over them. */
module History {
  import opened Wrappers

  datatype Timestamp = Timestamp(seconds: int, nanos: nat)

  predicate NotAfter(a: Timestamp, b: Timestamp) {
    a.seconds < b.seconds || (a.seconds == b.seconds && a.nanos <= b.nanos)
  }

  datatype Item = Item(id: int, commandLine: string, timestamp: Option<Timestamp>, dirty: bool)

  // ----- The store ------------------------------------------------------------------------------

  datatype Store = Store(items: seq<int>, idMap: map<int, Item>, nextId: int)

  const EMPTY := Store([], map[], 0)

  ghost predicate Increasing(items: seq<int>) {
    forall i, j :: 0 <= i < j < |items| ==> items[i] < items[j]
  }

  ghost predicate Listed(items: seq<int>, id: int) {
    exists i :: 0 <= i < |items| && items[i] == id
  }

  /** The list is strictly increasing, it names exactly the keys of the map, and every id was
      given out before the next one. */
  ghost predicate Valid(s: Store) {
    && Increasing(s.items)
    && (forall i :: 0 <= i < |s.items| ==> s.items[i] in s.idMap && s.items[i] < s.nextId)
    && (forall id :: id in s.idMap ==> Listed(s.items, id))
  }

  /** The items, oldest first. */
  function Contents(s: Store): seq<Item>
    requires forall i :: 0 <= i < |s.items| ==> s.items[i] in s.idMap
  {
    seq(|s.items|, i requires 0 <= i < |s.items| => s.idMap[s.items[i]])
  }

  function RemoveAt<T>(s: seq<T>, n: nat): seq<T> {
    if n < |s| then s[..n] + s[n + 1..] else s
  }

  function Without(items: seq<int>, id: int): seq<int> {
    if items == [] then []
    else Without(items[..|items| - 1], id) + (if items[|items| - 1] == id then [] else [items[|items| - 1]])
  }

  datatype Operation =
    | Add(item: Item)
    | RemoveNth(n: nat)
    | Delete(id: int)
    | Update(target: int, replacement: Item)
    | Clear

  function Apply(s: Store, op: Operation): Store {
    match op
    case Add(item) => Store(s.items + [s.nextId], s.idMap[s.nextId := item.(id := s.nextId)], s.nextId + 1)
    case RemoveNth(n) => if n < |s.items| then Store(RemoveAt(s.items, n), s.idMap - {s.items[n]}, s.nextId) else s
    case Delete(id) => Store(Without(s.items, id), s.idMap - {id}, s.nextId)
    case Update(id, item) => if id in s.idMap then s.(idMap := s.idMap[id := item]) else s
    case Clear => Store([], map[], s.nextId)
  }

  function ApplyAll(s: Store, ops: seq<Operation>): Store {
    if ops == [] then s else Apply(ApplyAll(s, ops[..|ops| - 1]), ops[|ops| - 1])
  }

  class HistoryStore {
    var items: seq<int>
    var idMap: map<int, Item>
    var nextId: int

    function State(): Store
      reads this
    {
      Store(items, idMap, nextId)
    }

    constructor ()
      ensures State() == EMPTY
    {
      items, idMap, nextId := [], map[], 0;
    }

    method AddItem(item: Item) returns (id: int)
      modifies this
      ensures id == old(nextId) && State() == Apply(old(State()), Add(item))
    {
      id := nextId;
      nextId := nextId + 1;
      items := items + [id];
      idMap := idMap[id := item.(id := id)];
    }

    method RemoveNthItem(n: nat) returns (removed: bool)
      modifies this
      ensures removed == (n < |old(items)|) && State() == Apply(old(State()), RemoveNth(n))
    {
      if n >= |items| {
        return false;
      }
      var id := items[n];
      var kept: seq<int> := [];
      for i := 0 to |items|
        invariant items == old(items) && idMap == old(idMap) && nextId == old(nextId)
        invariant kept == if i <= n then items[..i] else items[..n] + items[n + 1..i]
      {
        if i != n {
          kept := kept + [items[i]];
        }
      }
      items := kept;
      idMap := idMap - {id};
      removed := true;
    }

    method DeleteItemById(id: int)
      modifies this
      ensures State() == Apply(old(State()), Delete(id))
    {
      idMap := idMap - {id};
      var kept: seq<int> := [];
      for i := 0 to |items|
        invariant items == old(items) && idMap == old(idMap) - {id} && nextId == old(nextId)
        invariant kept == Without(items[..i], id)
      {
        assert items[..i + 1][..i] == items[..i];
        if items[i] != id {
          kept := kept + [items[i]];
        }
      }
      assert items[..|items|] == items;
      items := kept;
    }

    method UpdateById(id: int, item: Item) returns (found: bool)
      modifies this
      ensures found == (id in old(idMap)) && State() == Apply(old(State()), Update(id, item))
    {
      found := id in idMap;
      if found {
        idMap := idMap[id := item];
      }
    }

    method ClearAll()
      modifies this
      ensures State() == Apply(old(State()), Clear)
    {
      items, idMap := [], map[];
    }
  }

  // What the operations keep, and what they do to the contents.

  lemma {:induction false} WithoutAbsent(items: seq<int>, id: int)
    requires forall i :: 0 <= i < |items| ==> items[i] != id
    ensures Without(items, id) == items
  {
    if items != [] {
      WithoutAbsent(items[..|items| - 1], id);
    }
  }

  lemma RemoveAtSnoc(items: seq<int>, n: nat)
    requires n < |items| - 1
    ensures RemoveAt(items, n) == RemoveAt(items[..|items| - 1], n) + [items[|items| - 1]]
  {
  }

  lemma {:induction false} WithoutIsRemoveAt(items: seq<int>, n: nat)
    requires n < |items| && Increasing(items)
    ensures Without(items, items[n]) == RemoveAt(items, n)
  {
    var init := items[..|items| - 1];
    if n == |items| - 1 {
      WithoutAbsent(init, items[n]);
    } else {
      WithoutIsRemoveAt(init, n);
      assert init[n] == items[n] && items[|items| - 1] != items[n];
      RemoveAtSnoc(items, n);
    }
  }

  lemma RemovedShape(items: seq<int>, n: nat)
    requires n < |items| && Increasing(items)
    ensures Increasing(RemoveAt(items, n))
    ensures forall i :: 0 <= i < |items| && i != n ==> Listed(RemoveAt(items, n), items[i])
    ensures forall i :: 0 <= i < |items| - 1 ==>
              RemoveAt(items, n)[i] == items[if i < n then i else i + 1]
  {
    var r := RemoveAt(items, n);
    forall i | 0 <= i < |items| && i != n
      ensures Listed(r, items[i])
    {
      assert r[if i < n then i else i - 1] == items[i];
    }
  }

  lemma AddKeepsValid(s: Store, item: Item)
    requires Valid(s)
    ensures Valid(Apply(s, Add(item)))
  {
    var s' := Apply(s, Add(item));
    assert s'.items[|s.items|] == s.nextId;
    forall id | id in s'.idMap
      ensures Listed(s'.items, id)
    {
      if id != s.nextId {
        var i :| 0 <= i < |s.items| && s.items[i] == id;
        assert s'.items[i] == id;
      }
    }
  }

  /** Taking an id out of the list and the map at once. */
  lemma RemoveKeepsValid(s: Store, n: nat)
    requires Valid(s) && n < |s.items|
    ensures Valid(Apply(s, RemoveNth(n)))
    ensures Apply(s, Delete(s.items[n])) == Apply(s, RemoveNth(n))
  {
    RemovedShape(s.items, n);
    WithoutIsRemoveAt(s.items, n);
    var s' := Apply(s, RemoveNth(n));
    forall id | id in s'.idMap
      ensures Listed(s'.items, id)
    {
      var i :| 0 <= i < |s.items| && s.items[i] == id;
      assert i != n;
    }
  }

  lemma UpdateKeepsValid(s: Store, id: int, item: Item)
    requires Valid(s)
    ensures Valid(Apply(s, Update(id, item))) && Apply(s, Update(id, item)).nextId >= s.nextId
  {
    hide Increasing, Listed;
  }

  lemma ApplyKeepsValid(s: Store, op: Operation)
    requires Valid(s)
    ensures Valid(Apply(s, op)) && Apply(s, op).nextId >= s.nextId
  {
    match op
    case Add(item) =>
      AddKeepsValid(s, item);
    case RemoveNth(n) =>
      if n < |s.items| {
        RemoveKeepsValid(s, n);
      }
    case Delete(id) =>
      if Listed(s.items, id) {
        var n :| 0 <= n < |s.items| && s.items[n] == id;
        RemoveKeepsValid(s, n);
      } else {
        WithoutAbsent(s.items, id);
      }
    case Update(id, item) => UpdateKeepsValid(s, id, item);
    case Clear =>
  }

  /** The invariant holds after every sequence of operations. */
  lemma {:induction false} EveryRunIsValid(ops: seq<Operation>)
    ensures Valid(ApplyAll(EMPTY, ops))
  {
    if ops != [] {
      EveryRunIsValid(ops[..|ops| - 1]);
      ApplyKeepsValid(ApplyAll(EMPTY, ops[..|ops| - 1]), ops[|ops| - 1]);
    }
  }

  // On the contents, adding appends under a fresh id, removing and deleting take out one place,
  // updating replaces one place.

  lemma AddAppends(s: Store, item: Item)
    requires Valid(s)
    ensures Contents(Apply(s, Add(item))) == Contents(s) + [item.(id := s.nextId)]
  {
  }

  lemma RemoveTakesOut(s: Store, n: nat)
    requires Valid(s) && n < |s.items|
    ensures Valid(Apply(s, RemoveNth(n)))
    ensures Contents(Apply(s, RemoveNth(n))) == RemoveAt(Contents(s), n)
    ensures Apply(s, Delete(s.items[n])) == Apply(s, RemoveNth(n))
  {
    RemoveKeepsValid(s, n);
    RemovedShape(s.items, n);
    var a, b := Contents(Apply(s, RemoveNth(n))), RemoveAt(Contents(s), n);
    forall i | 0 <= i < |a|
      ensures a[i] == b[i]
    {
      assert b[i] == Contents(s)[if i < n then i else i + 1];
    }
  }
}

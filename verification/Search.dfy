/** Queries over the history and the cursor that answers them (brush-core/src/history.rs). */
module Search {
  import opened Wrappers
  import opened History

  datatype Direction = Forward | Backward

  datatype CommandLineFilter = Prefix(s: string) | Suffix(s: string) | Contains(s: string) | Exact(s: string)

  datatype Query = Query(
    direction: Direction,
    notAtOrBeforeTime: Option<Timestamp>,
    notAtOrAfterTime: Option<Timestamp>,
    notAtOrBeforeId: Option<int>,
    notAtOrAfterId: Option<int>,
    maxItems: Option<int>,
    commandLineFilter: Option<CommandLineFilter>)

  predicate StandsAt(line: string, p: string, i: int) {
    0 <= i <= i + |p| <= |line| && line[i..i + |p|] == p
  }

  predicate Matches(f: CommandLineFilter, line: string) {
    match f
    case Prefix(p) => p <= line
    case Suffix(p) => |p| <= |line| && line[|line| - |p|..] == p
    case Contains(p) => exists i :: 0 <= i <= |line| - |p| && StandsAt(line, p, i)
    case Exact(p) => line == p
  }

  /** A filter is about where its text stands in the line: in front, at the end, anywhere, or all over. */
  lemma MatchesIff(f: CommandLineFilter, line: string)
    ensures Matches(f, line) <==> exists before, after ::
              line == before + f.s + after && (f.Prefix? || f.Exact? ==> before == "") && (f.Suffix? || f.Exact? ==> after == "")
  {
    var p := f.s;
    if Matches(f, line) {
      var i := if f.Suffix? then |line| - |p| else 0;
      if f.Contains? {
        i :| 0 <= i <= |line| - |p| && StandsAt(line, p, i);
      }
      assert line == line[..i] + p + line[i + |p|..];
    }
    if before, after :| line == before + p + after && (f.Prefix? || f.Exact? ==> before == "") && (f.Suffix? || f.Exact? ==> after == "") {
      assert line[|before|..|before| + |p|] == p;
      assert StandsAt(line, p, |before|);
      assert after == "" ==> line[|line| - |p|..] == p;
    }
  }

  predicate Includes(q: Query, item: Item) {
    && (q.notAtOrBeforeTime.Some? && item.timestamp.Some? ==>
          !NotAfter(item.timestamp.value, q.notAtOrBeforeTime.value))
    && (q.notAtOrAfterTime.Some? && item.timestamp.Some? ==>
          !NotAfter(q.notAtOrAfterTime.value, item.timestamp.value))
    && (q.notAtOrBeforeId.Some? ==> item.id > q.notAtOrBeforeId.value)
    && (q.notAtOrAfterId.Some? ==> item.id < q.notAtOrAfterId.value)
    && (q.commandLineFilter.Some? ==> Matches(q.commandLineFilter.value, item.commandLine))
  }

  /** The bounds of a query are exclusive, and oriented: of the items before, at and after an id or a time,
      the one bound leaves those before, and the other those after. */
  lemma BoundsPartition(item: Item, id: int, t: Timestamp, direction: Direction)
    ensures var beforeId := Query(direction, None, None, None, Some(id), None, None);
            var afterId := beforeId.(notAtOrBeforeId := Some(id), notAtOrAfterId := None);
            (Includes(beforeId, item) <==> item.id - id < 0) && (Includes(afterId, item) <==> item.id - id > 0)
    ensures item.timestamp.Some? ==>
              var before := Query(direction, None, Some(t), None, None, None, None);
              var after := before.(notAtOrBeforeTime := Some(t), notAtOrAfterTime := None);
              var (a, b) := (Nanos(item.timestamp.value), Nanos(t));
              ValidTime(item.timestamp.value) && ValidTime(t) ==>
                (Includes(before, item) <==> a - b < 0) && (Includes(after, item) <==> a - b > 0)
  {
  }

  predicate ValidTime(t: Timestamp) { t.nanos < 1_000_000_000 }

  function Nanos(t: Timestamp): int { 1_000_000_000 * t.seconds + t.nanos }

  function Filter(q: Query, items: seq<Item>): seq<Item> {
    if items == [] then []
    else (if Includes(q, items[0]) then [items[0]] else []) + Filter(q, items[1..])
  }

  function Reversed<T>(s: seq<T>): (r: seq<T>)
    ensures |r| == |s|
  {
    seq(|s|, i requires 0 <= i < |s| => s[|s| - 1 - i])
  }

  /** The limit as the unsigned word that a signed one is read as. */
  function AsUnsigned(n: int): int {
    if n < 0 then n + 0x1_0000_0000_0000_0000 else n
  }

  function Cut<T>(s: seq<T>, limit: Option<int>): seq<T> {
    if limit.None? || limit.value >= |s| then s
    else if limit.value <= 0 then []
    else s[..limit.value]
  }

  /** Every item that the query includes, in its direction, up to its limit. */
  function Answer(q: Query, items: seq<Item>): seq<Item> {
    Cut(Filter(q, if q.direction.Forward? then items else Reversed(items)), Limit(q, 0))
  }

  function Limit(q: Query, count: nat): Option<int> {
    if q.maxItems.None? then None else Some(AsUnsigned(q.maxItems.value) - count)
  }

  /** The items from a position on, in the direction of the query. */
  function Ahead(q: Query, all: seq<Item>, next: Option<nat>): seq<Item> {
    if next.None? || next.value >= |all| then []
    else if q.direction.Forward? then all[next.value..]
    else Reversed(all[..next.value + 1])
  }

  function Advanced(q: Query, index: nat): Option<nat> {
    if q.direction.Forward? then Some(index + 1)
    else if index == 0 then None
    else Some(index - 1)
  }

  lemma AheadStep(q: Query, all: seq<Item>, index: nat)
    requires index < |all|
    ensures Ahead(q, all, Some(index)) == [all[index]] + Ahead(q, all, Advanced(q, index))
  {
  }

  /** What is still to be yielded from a position on. */
  function Rest(q: Query, all: seq<Item>, next: Option<nat>, count: nat): seq<Item> {
    Cut(Filter(q, Ahead(q, all, next)), Limit(q, count))
  }

  lemma RestStep(q: Query, all: seq<Item>, index: nat, count: nat)
    requires index < |all|
    ensures var rest := Filter(q, Ahead(q, all, Advanced(q, index)));
            Rest(q, all, Some(index), count)
            == Cut(if Includes(q, all[index]) then [all[index]] + rest else rest, Limit(q, count))
  {
    hide Includes, Limit, Ahead, Advanced;
    AheadStep(q, all, index);
    var ahead := Ahead(q, all, Some(index));
    assert ahead[0] == all[index] && ahead[1..] == Ahead(q, all, Advanced(q, index));
  }

  lemma CutStep(item: Item, rest: seq<Item>, limit: Option<int>)
    requires limit.Some? ==> limit.value > 0
    ensures Cut([item] + rest, limit) == [item] + Cut(rest, if limit.None? then None else Some(limit.value - 1))
  {
  }

  lemma RestAtStart(q: Query, all: seq<Item>, next: Option<nat>)
    requires next == if q.direction.Forward? then Some(0) else if all == [] then None else Some(|all| - 1)
    ensures Rest(q, all, next, 0) == Answer(q, all)
  {
    assert all[0..] == all && (all != [] ==> all[..|all|] == all);
    assert all == [] ==> Reversed(all) == [];
  }

  class Cursor {
    const store: Store
    const query: Query
    var nextIndex: Option<nat>
    var count: nat

    /** What the cursor is still going to yield. */
    ghost function Remaining(): seq<Item>
      requires Valid(store)
      reads this
    {
      Rest(query, Contents(store), nextIndex, count)
    }

    constructor (store: Store, query: Query)
      requires Valid(store)
      ensures this.store == store && this.query == query
      ensures Remaining() == Answer(query, Contents(store))
    {
      this.store, this.query := store, query;
      nextIndex := if query.direction.Forward? then Some(0)
                   else if store.items == [] then None
                   else Some(|store.items| - 1);
      count := 0;
      new;
      RestAtStart(query, Contents(store), nextIndex);
    }

    method IncrementNextIndex()
      requires nextIndex.Some?
      modifies this`nextIndex
      ensures nextIndex == Advanced(query, old(nextIndex).value)
    {
      var index := nextIndex.value;
      match query.direction
      case Forward => nextIndex := Some(index + 1);
      case Backward => nextIndex := if index == 0 then None else Some(index - 1);
    }

    /** Yields the first of the remaining items, if there is one. */
    method Next() returns (r: Option<Item>)
      requires Valid(store)
      modifies this
      ensures if old(Remaining()) == [] then r == None && Remaining() == []
              else r == Some(old(Remaining())[0]) && Remaining() == old(Remaining())[1..]
    {
      ghost var all := Contents(store);
      while true
        invariant Remaining() == old(Remaining())
        decreases |Ahead(query, all, nextIndex)|
      {
        if nextIndex.None? {
          return None;
        }
        var index := nextIndex.value;
        if index >= |store.items| {
          return None;
        }
        var id := store.items[index];
        IncrementNextIndex();
        var item := store.idMap[id];
        RestStep(query, all, index, count);
        AheadStep(query, all, index);
        if query.maxItems.Some? && count >= AsUnsigned(query.maxItems.value) {
          return None;
        }
        if Includes(query, item) {
          CutStep(item, Filter(query, Ahead(query, all, nextIndex)), Limit(query, count));
          count := count + 1;
          return Some(item);
        }
      }
    }
  }

  // What an answer is.

  /** A limit that is not negative cuts the matching items to the first so many; a negative
      one cuts nothing, as long as there are no more items than a signed word can count. */
  lemma AnswerIsCut(q: Query, items: seq<Item>)
    requires |items| <= 0x7FFF_FFFF_FFFF_FFFF
    requires q.maxItems.Some? ==> -0x8000_0000_0000_0000 <= q.maxItems.value
    ensures var matching := Filter(q, if q.direction.Forward? then items else Reversed(items));
            && (q.maxItems.Some? && 0 <= q.maxItems.value < |matching| ==> Answer(q, items) == matching[..q.maxItems.value])
            && (q.maxItems.None? || q.maxItems.value < 0 || q.maxItems.value >= |matching| ==> Answer(q, items) == matching)
  {
    FilterShorter(q, if q.direction.Forward? then items else Reversed(items));
  }

  lemma {:induction false} FilterShorter(q: Query, items: seq<Item>)
    ensures |Filter(q, items)| <= |items|
  {
    if items != [] {
      FilterShorter(q, items[1..]);
    }
  }

  lemma {:induction false} FilterConcat(q: Query, a: seq<Item>, b: seq<Item>)
    ensures Filter(q, a + b) == Filter(q, a) + Filter(q, b)
  {
    if a == [] {
      assert a + b == b;
    } else {
      assert (a + b)[0] == a[0] && (a + b)[1..] == a[1..] + b;
      FilterConcat(q, a[1..], b);
    }
  }

  /** Going backward yields the matching items in the opposite order. */
  lemma {:induction false} FilterReversed(q: Query, items: seq<Item>)
    ensures Filter(q, Reversed(items)) == Reversed(Filter(q, items))
  {
    if items == [] {
      assert Reversed(items) == [] && Reversed(Filter(q, items)) == [];
    } else {
      var first, rest := items[0], items[1..];
      FilterReversed(q, rest);
      assert Reversed(items) == Reversed(rest) + [first];
      FilterConcat(q, Reversed(rest), [first]);
      var f := if Includes(q, first) then [first] else [];
      assert Filter(q, [first]) == f by { assert [first][1..] == []; }
      assert Reversed(f + Filter(q, rest)) == Reversed(Filter(q, rest)) + f;
    }
  }
}

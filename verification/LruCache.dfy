/** A least-recently-used list: intrusive doubly linked items, their ids recycled through a free list. */
module LruCache {
  function Without<T>(s: seq<T>, k: nat): (r: seq<T>)
    requires k < |s|
    ensures |r| == |s| - 1
    ensures forall j :: 0 <= j < k ==> r[j] == s[j]
    ensures forall j :: k <= j < |r| ==> r[j] == s[j + 1]
  {
    s[..k] + s[k + 1..]
  }

  class Item<V(0)> {
    var obj: V
    var tick: int
    var next: Item?<V>
    var prev: Item?<V>
    // Its index in the cache's items.
    ghost const id: nat

    constructor (ghost id: nat)
      ensures next == null && prev == null && this.id == id
    {
      next := null;
      prev := null;
      this.id := id;
    }
  }

  ghost function Nth<V(0)>(list: seq<Item<V>>, k: int): Item?<V> {
    if 0 <= k < |list| then list[k] else null
  }

  lemma WithoutMembers<V(0)>(list: seq<Item<V>>, k: nat)
    requires k < |list| && forall i, j :: 0 <= i < j < |list| ==> list[i] != list[j]
    ensures forall x :: x in Without(list, k) <==> x in list && x != list[k]
  {
    var without := Without(list, k);
    forall x | x in list && x != list[k]
      ensures x in without
    {
      var j :| 0 <= j < |list| && list[j] == x;
      assert without[if j < k then j else j - 1] == x;
    }
  }

  lemma NthIs<V(0)>(list: seq<Item<V>>, k: int)
    ensures Nth(list, k) == if 0 <= k < |list| then list[k] else null
  {
  }

  lemma NthAppended<V(0)>(list: seq<Item<V>>, x: Item<V>, j: int)
    ensures Nth(list + [x], j) == if j == |list| then x else Nth(list, j)
  {
  }

  lemma NthWithout<V(0)>(list: seq<Item<V>>, k: nat, j: int)
    requires k < |list|
    ensures Nth(Without(list, k), j) == if j < k then Nth(list, j) else Nth(list, j + 1)
  {
  }

  /* ---- The cache as a list of entries, oldest first ---- */

  datatype Entry<V> = Entry(id: nat, obj: V, tick: int)

  ghost function Entries<V(0)>(list: seq<Item<V>>): (es: seq<Entry<V>>)
    reads list
    ensures |es| == |list|
    ensures forall k :: 0 <= k < |es| ==> es[k] == Entry(list[k].id, list[k].obj, list[k].tick)
  {
    seq(|list|, k requires 0 <= k < |list| reads list => Entry(list[k].id, list[k].obj, list[k].tick))
  }

  // Where the entry of an id is.
  predicate Lives<V>(es: seq<Entry<V>>, id: nat) {
    exists k :: 0 <= k < |es| && es[k].id == id
  }

  ghost function Position<V>(es: seq<Entry<V>>, id: nat): (k: nat)
    requires Lives(es, id)
    ensures k < |es| && es[k].id == id
  {
    var k :| 0 <= k < |es| && es[k].id == id;
    k
  }

  ghost function Inserted<V>(es: seq<Entry<V>>, id: nat, obj: V, tick: int): seq<Entry<V>> {
    es + [Entry(id, obj, tick)]
  }

  ghost function Touched<V>(es: seq<Entry<V>>, id: nat, tick: int): seq<Entry<V>>
    requires Lives(es, id)
  {
    var k := Position(es, id);
    if es[k].tick >= tick then es else Without(es, k) + [es[k].(tick := tick)]
  }

  ghost function Freed<V>(es: seq<Entry<V>>, id: nat): seq<Entry<V>>
    requires Lives(es, id)
  {
    Without(es, Position(es, id))
  }

  lemma UpdatedWithout<T>(s: seq<T>, k: nat, x: T)
    requires k < |s|
    ensures Without(s[k := x], k) == Without(s, k)
    ensures k == |s| - 1 ==> s[k := x] == Without(s, k) + [x]
  {
  }

  lemma TouchedAt<V>(es: seq<Entry<V>>, id: nat, tick: int, k: nat)
    requires UniqueIds(es) && k < |es| && es[k].id == id
    ensures Touched(es, id, tick) == if es[k].tick >= tick then es else Without(es, k) + [es[k].(tick := tick)]
  {
  }

  lemma FreedAt<V>(es: seq<Entry<V>>, id: nat, k: nat)
    requires UniqueIds(es) && k < |es| && es[k].id == id
    ensures Position(es, id) == k && Freed(es, id) == Without(es, k)
  {
  }

  /* ---- A traversal ---- */

  // What the callback does on its n-th call: it may free the item it was given, and it may stop the traversal.
  datatype Reply = Reply(frees: bool, stops: bool)

  // The objects a traversal hands over, the entries it leaves and the ids it frees.
  datatype Walked<V> = Walked(visited: seq<V>, kept: seq<Entry<V>>, freed: seq<nat>)

  ghost function Walk<V>(es: seq<Entry<V>>, tick: int, reply: nat -> Reply, n: nat): Walked<V>
    decreases |es|
  {
    if es == [] || es[0].tick > tick then Walked([], es, [])
    else if reply(n).stops then After(es[0], reply(n).frees, Walked([], es[1..], []))
    else After(es[0], reply(n).frees, Walk(es[1..], tick, reply, n + 1))
  }

  ghost function After<V>(e: Entry<V>, frees: bool, rest: Walked<V>): Walked<V> {
    Walked([e.obj] + rest.visited, (if frees then [] else [e]) + rest.kept, (if frees then [e.id] else []) + rest.freed)
  }

  /* ---- Runs of the cache ---- */

  datatype Cache<V> = Cache(live: seq<Entry<V>>, free: seq<nat>, count: nat)
  datatype Op<V> =
    | InsertOp(obj: V, tick: int)
    | TouchOp(id: nat, tick: int)
    | FreeOp(id: nat)
    | WalkOp(below: int, reply: nat -> Reply)     // ForEachItemBelow

  function NextId<V>(c: Cache<V>): nat {
    if c.free == [] then c.count else c.free[0]
  }

  // Touch and Free name live items.
  ghost predicate Allowed<V>(c: Cache<V>, op: Op<V>) {
    match op
    case InsertOp(_, _) => true
    case TouchOp(id, _) => Lives(c.live, id)
    case FreeOp(id) => Lives(c.live, id)
    case WalkOp(_, _) => true
  }

  ghost function Next<V>(c: Cache<V>, op: Op<V>): Cache<V>
    requires Allowed(c, op)
  {
    match op
    case InsertOp(obj, tick) =>
      if c.free == [] then Cache(Inserted(c.live, c.count, obj, tick), [], c.count + 1)
      else Cache(Inserted(c.live, c.free[0], obj, tick), c.free[1..], c.count)
    case TouchOp(id, tick) => c.(live := Touched(c.live, id, tick))
    case FreeOp(id) => Cache(Freed(c.live, id), c.free + [id], c.count)
    case WalkOp(below, reply) =>
      var w := Walk(c.live, below, reply, 0);
      Cache(w.kept, c.free + w.freed, c.count)
  }

  lemma NextInserted<V>(c: Cache<V>, obj: V, tick: int)
    ensures Next(c, InsertOp(obj, tick)) == Cache(c.live + [Entry(NextId(c), obj, tick)],
      if c.free == [] then [] else c.free[1..], if c.free == [] then c.count + 1 else c.count)
  {
  }

  lemma NextWalked<V>(c: Cache<V>, below: int, reply: nat -> Reply)
    ensures Next(c, WalkOp(below, reply)) ==
      Cache(Walk(c.live, below, reply, 0).kept, c.free + Walk(c.live, below, reply, 0).freed, c.count)
  {
    hide Walk;
  }

  lemma FirstTaken(free: seq<nat>)
    requires free != [] && forall j, k :: 0 <= j < k < |free| ==> free[j] != free[k]
    ensures forall id :: id in free[1..] <==> id in free && id != free[0]
  {
  }

  lemma NextFreed<V>(c: Cache<V>, id: nat)
    requires Lives(c.live, id)
    ensures Next(c, FreeOp(id)) == Cache(Without(c.live, Position(c.live, id)), c.free + [id], c.count)
  {
  }

  // An insertion or a touch.
  predicate IsUse<V>(op: Op<V>) {
    op.InsertOp? || op.TouchOp?
  }

  ghost predicate Legal<V>(ops: seq<Op<V>>)
    decreases |ops|, 0
  {
    ops == [] || (Legal(ops[..|ops| - 1]) && Allowed(Run(ops[..|ops| - 1]), ops[|ops| - 1]))
  }

  ghost function Run<V>(ops: seq<Op<V>>): Cache<V>
    requires Legal(ops)
    decreases |ops|, 1
  {
    if ops == [] then Cache([], [], 0) else Next(Run(ops[..|ops| - 1]), ops[|ops| - 1])
  }

  // The ticks passed to a run never decrease.
  predicate InTime<V>(ops: seq<Op<V>>) {
    forall j, k :: 0 <= j < k < |ops| && IsUse(ops[j]) && IsUse(ops[k]) ==> ops[j].tick <= ops[k].tick
  }

  // The tick an id was last inserted or touched with.
  ghost function LastUse<V>(ops: seq<Op<V>>, id: nat): int
    requires Legal(ops)
  {
    if ops == [] then 0 else
      var past, op := ops[..|ops| - 1], ops[|ops| - 1];
      if op.TouchOp? && op.id == id then op.tick
      else if op.InsertOp? && NextId(Run(past)) == id then op.tick
      else LastUse(past, id)
  }

  // Every id is live once or free once.
  ghost predicate IdsSplit<V>(c: Cache<V>) {
    && UniqueIds(c.live)
    && (forall j, k :: 0 <= j < k < |c.free| ==> c.free[j] != c.free[k])
    && (forall e :: e in c.live ==> e.id < c.count && e.id !in c.free)
    && (forall id :: id in c.free ==> id < c.count)
  }

  ghost predicate Sorted<V>(es: seq<Entry<V>>) {
    forall j, k :: 0 <= j < k < |es| ==> es[j].tick <= es[k].tick
  }

  ghost predicate AllBy<V>(es: seq<Entry<V>>, tick: int) {
    forall e :: e in es ==> e.tick <= tick
  }

  // An insertion keeps the order exactly when its tick is not older than any live one.
  lemma InsertSorted<V>(es: seq<Entry<V>>, id: nat, obj: V, tick: int)
    requires Sorted(es)
    ensures Sorted(Inserted(es, id, obj, tick)) <==> AllBy(es, tick)
  {
    var after := Inserted(es, id, obj, tick);
    assert after[|es|].tick == tick;
    if Sorted(after) {
      forall e | e in es
        ensures e.tick <= tick
      {
        var j :| 0 <= j < |es| && es[j] == e;
        assert after[j] == e;
      }
    }
  }

  // A touch keeps the order exactly when it changes nothing or its tick is not older than any live one.
  lemma TouchSorted<V>(es: seq<Entry<V>>, id: nat, tick: int)
    requires Sorted(es) && Lives(es, id)
    ensures Sorted(Touched(es, id, tick)) <==> tick <= es[Position(es, id)].tick || AllBy(es, tick)
  {
    hide Without;
    var k := Position(es, id);
    if tick > es[k].tick {
      var others := Without(es, k);
      WithoutSorted(es, k);
      InsertSorted(others, id, es[k].obj, tick);
      assert Touched(es, id, tick) == Inserted(others, id, es[k].obj, tick);
      OthersIn(es, k);
    }
  }

  lemma WithoutSorted<V>(es: seq<Entry<V>>, k: nat)
    requires k < |es| && Sorted(es)
    ensures Sorted(Without(es, k))
  {
  }

  lemma OthersIn<T>(s: seq<T>, k: nat)
    requires k < |s|
    ensures forall x :: x in s && x != s[k] ==> x in Without(s, k)
    ensures forall x :: x in Without(s, k) ==> x in s
  {
    var others := Without(s, k);
    forall x | x in s && x != s[k]
      ensures x in others
    {
      var j :| 0 <= j < |s| && s[j] == x;
      assert others[if j < k then j else j - 1] == x;
    }
  }

  // The entries after a touch or a removal.
  lemma TouchMembers<V>(es: seq<Entry<V>>, id: nat, tick: int)
    requires UniqueIds(es) && Lives(es, id)
    ensures UniqueIds(Touched(es, id, tick))
    ensures forall e :: e in Touched(es, id, tick) ==> (
      (e in es && e.id != id) || (e.id == id && e.tick >= tick && (e in es || e.tick == tick)))
    ensures forall e :: e in Touched(es, id, tick) ==> Lives(es, e.id)
  {
    var k := Position(es, id);
    WithoutUnique(es, k);
    OthersIn(es, k);
  }

  lemma WithoutUnique<V>(es: seq<Entry<V>>, k: nat)
    requires UniqueIds(es) && k < |es|
    ensures UniqueIds(Without(es, k)) && forall e :: e in Without(es, k) ==> e.id != es[k].id
  {
  }

  // What a traversal of es may leave and free.
  ghost predicate Splits<V>(es: seq<Entry<V>>, w: Walked<V>) {
    && UniqueIds(w.kept) && (forall e :: e in w.kept ==> e in es && e.id !in w.freed)
    && (forall j, k :: 0 <= j < k < |w.freed| ==> w.freed[j] != w.freed[k])
    && (forall id :: id in w.freed ==> Lives(es, id))
    && (Sorted(es) ==> Sorted(w.kept))
  }

  // A traversal only takes entries out: the others stay in order, and the ids freed are those of entries gone.
  lemma {:induction false} WalkSplits<V>(es: seq<Entry<V>>, tick: int, reply: nat -> Reply, n: nat)
    requires UniqueIds(es)
    ensures Splits(es, Walk(es, tick, reply, n))
    decreases |es|
  {
    hide Splits;
    if es == [] || es[0].tick > tick {
      NothingFreed(es, []);
    } else {
      if reply(n).stops {
        NothingFreed(es[1..], []);
        AfterSplits(es, reply(n).frees, Walked([], es[1..], []));
      } else {
        WalkSplits(es[1..], tick, reply, n + 1);
        AfterSplits(es, reply(n).frees, Walk(es[1..], tick, reply, n + 1));
      }
    }
  }

  lemma NothingFreed<V>(es: seq<Entry<V>>, visited: seq<V>)
    requires UniqueIds(es)
    ensures Splits(es, Walked(visited, es, []))
  {
  }

  lemma AfterSplits<V>(es: seq<Entry<V>>, frees: bool, rest: Walked<V>)
    requires es != [] && UniqueIds(es) && Splits(es[1..], rest)
    ensures Splits(es, After(es[0], frees, rest))
  {
    var e := es[0];
    assert !Lives(es[1..], e.id);
    assert forall j :: 0 < j < |es| ==> es[j] == es[1..][j - 1];
    forall x | x in rest.kept
      ensures x in es && x.id != e.id && (Sorted(es) ==> e.tick <= x.tick)
    {
      var j :| 0 <= j < |es[1..]| && es[1..][j] == x;
      assert es[j + 1] == x;
    }
    forall id | id in rest.freed
      ensures Lives(es, id) && id != e.id
    {
      var j :| 0 <= j < |es[1..]| && es[1..][j].id == id;
      assert es[j + 1].id == id;
    }
    KeptSplits(e, frees, rest);
  }

  // One entry in front of those left.
  lemma KeptSplits<V>(e: Entry<V>, frees: bool, rest: Walked<V>)
    requires UniqueIds(rest.kept) && forall x :: x in rest.kept ==> x.id != e.id
    requires forall j, k :: 0 <= j < k < |rest.freed| ==> rest.freed[j] != rest.freed[k]
    requires e.id !in rest.freed
    ensures var w := After(e, frees, rest);
      && UniqueIds(w.kept) && (forall j, k :: 0 <= j < k < |w.freed| ==> w.freed[j] != w.freed[k])
      && (Sorted(rest.kept) && (forall x :: x in rest.kept ==> e.tick <= x.tick) ==> Sorted(w.kept))
  {
    var w := After(e, frees, rest);
    if frees {
      assert w.kept == rest.kept && w.freed == [e.id] + rest.freed;
    } else {
      assert w.kept == [e] + rest.kept && w.freed == rest.freed;
    }
  }

  // The id an insertion takes was not live, and is no longer free.
  lemma InsertSplits<V>(c: Cache<V>)
    requires IdsSplit(c)
    ensures forall e :: e in c.live ==> e.id != NextId(c)
    ensures forall j :: 0 <= j < |c.live| ==> c.live[j].id != NextId(c)
    ensures c.free != [] ==> NextId(c) !in c.free[1..] && NextId(c) < c.count
  {
    forall j | 0 <= j < |c.live|
      ensures c.live[j].id != NextId(c)
    {
      assert c.live[j] in c.live;
    }
    if c.free != [] {
      assert c.free[0] in c.free;
    }
  }

  lemma NextSplits<V>(c: Cache<V>, op: Op<V>)
    requires IdsSplit(c) && Allowed(c, op)
    ensures IdsSplit(Next(c, op))
  {
    hide Without;
    match op {
      case InsertOp(obj, tick) =>
        InsertSplits(c);
        var id, after := NextId(c), Next(c, op);
        assert after.live == c.live + [Entry(id, obj, tick)];
        assert forall e :: e in after.live ==> e in c.live || e.id == id;
        assert forall i :: i in after.free ==> i in c.free && i != id;
      case TouchOp(id, tick) =>
        TouchMembers(c.live, id, tick);
      case FreeOp(id) =>
        WithoutUnique(c.live, Position(c.live, id));
        OthersIn(c.live, Position(c.live, id));
      case WalkOp(below, reply) =>
        WalkSplits(c.live, below, reply, 0);
        FreedApart(c, Walk(c.live, below, reply, 0));
    }
  }

  lemma FreedApart<V>(c: Cache<V>, w: Walked<V>)
    requires IdsSplit(c) && Splits(c.live, w)
    ensures IdsSplit(Cache(w.kept, c.free + w.freed, c.count))
  {
    forall id | id in w.freed
      ensures id !in c.free && id < c.count
    {
      var j :| 0 <= j < |c.live| && c.live[j].id == id;
      assert c.live[j] in c.live;
    }
    var all := c.free + w.freed;
    forall j, k | 0 <= j < k < |all|
      ensures all[j] != all[k]
    {
      assert k >= |c.free| ==> all[k] in w.freed;
      assert j < |c.free| ==> all[j] in c.free;
    }
  }

  // No live item is newer than every tick of the run.
  lemma {:induction false} RunBound<V>(ops: seq<Op<V>>, tick: int)
    requires Legal(ops) && forall j :: 0 <= j < |ops| && IsUse(ops[j]) ==> ops[j].tick <= tick
    ensures IdsSplit(Run(ops)) && AllBy(Run(ops).live, tick)
    decreases |ops|
  {
    if ops != [] {
      var past, op := ops[..|ops| - 1], ops[|ops| - 1];
      RunBound(past, tick);
      NextSplits(Run(past), op);
      NextBound(Run(past), op, tick);
    }
  }

  lemma NextBound<V>(c: Cache<V>, op: Op<V>, tick: int)
    requires IdsSplit(c) && Allowed(c, op) && AllBy(c.live, tick) && (IsUse(op) ==> op.tick <= tick)
    ensures AllBy(Next(c, op).live, tick)
  {
    hide Without;
    match op {
      case InsertOp(_, _) =>
      case TouchOp(id, t) => TouchMembers(c.live, id, t);
      case FreeOp(id) => OthersIn(c.live, Position(c.live, id));
      case WalkOp(below, reply) => WalkSplits(c.live, below, reply, 0);
    }
  }

  lemma NextSorted<V>(c: Cache<V>, op: Op<V>)
    requires IdsSplit(c) && Allowed(c, op) && Sorted(c.live) && (IsUse(op) ==> AllBy(c.live, op.tick))
    ensures Sorted(Next(c, op).live)
  {
    hide Without, Touched;
    match op {
      case InsertOp(obj, t) => InsertSorted(c.live, NextId(c), obj, t);
      case TouchOp(id, t) => TouchSorted(c.live, id, t);
      case FreeOp(id) => WithoutSorted(c.live, Position(c.live, id));
      case WalkOp(below, reply) => WalkSplits(c.live, below, reply, 0);
    }
  }

  // In a run whose ticks never decrease the live items are ordered by their last use.
  lemma {:induction false} RunOrdered<V>(ops: seq<Op<V>>)
    requires Legal(ops) && InTime(ops)
    ensures IdsSplit(Run(ops)) && Sorted(Run(ops).live)
    ensures forall e :: e in Run(ops).live ==> e.tick == LastUse(ops, e.id)
    decreases |ops|
  {
    hide Next;
    if ops != [] {
      var past, op := ops[..|ops| - 1], ops[|ops| - 1];
      RunOrdered(past);
      NextSplits(Run(past), op);
      if IsUse(op) {
        RunBound(past, op.tick);
      }
      NextSorted(Run(past), op);
      forall e | e in Run(ops).live
        ensures e.tick == LastUse(ops, e.id)
      {
        NextUse(Run(past), op, e);
      }
    }
  }

  // An entry is new, touched now or as it was.
  lemma NextUse<V>(c: Cache<V>, op: Op<V>, e: Entry<V>)
    requires IdsSplit(c) && Allowed(c, op) && (IsUse(op) ==> AllBy(c.live, op.tick))
    requires e in Next(c, op).live
    ensures var used := (op.TouchOp? && op.id == e.id) || (op.InsertOp? && NextId(c) == e.id);
      if used then e.tick == op.tick else e in c.live
  {
    hide Without;
    match op {
      case InsertOp(_, _) =>
      case TouchOp(id, t) => TouchMembers(c.live, id, t);
      case FreeOp(id) => OthersIn(c.live, Position(c.live, id));
      case WalkOp(below, reply) => WalkSplits(c.live, below, reply, 0);
    }
  }

  /* ---- Traversals ---- */

  ghost function Then<V>(soFar: Walked<V>, rest: Walked<V>): Walked<V> {
    Walked(soFar.visited + rest.visited, soFar.kept + rest.kept, soFar.freed + rest.freed)
  }

  // How many of the oldest entries are not newer than `tick`.
  ghost function Due<V>(es: seq<Entry<V>>, tick: int): (d: nat)
    ensures d <= |es|
  {
    if es == [] || es[0].tick > tick then 0 else 1 + Due(es[1..], tick)
  }

  // In an ordered list these are all the entries not newer than `tick`.
  lemma {:induction false} DueExact<V>(es: seq<Entry<V>>, tick: int)
    requires Sorted(es)
    ensures forall j :: 0 <= j < |es| ==> (j < Due(es, tick) <==> es[j].tick <= tick)
    decreases |es|
  {
    if es != [] && es[0].tick <= tick {
      DueExact(es[1..], tick);
      assert forall j :: 0 < j < |es| ==> es[j] == es[1..][j - 1];
    }
  }

  // The first v objects are handed over: all the due ones, or those up to the one the callback stops at.
  ghost predicate HandsOver<V>(es: seq<Entry<V>>, due: nat, reply: nat -> Reply, n: nat, visited: seq<V>) {
    var v := |visited|;
    && v <= due <= |es| && (v < due ==> v > 0 && reply(n + v - 1).stops)
    && (forall m :: n <= m < n + v - 1 ==> !reply(m).stops)
    && (forall j :: 0 <= j < v ==> visited[j] == es[j].obj)
  }

  // Exactly the first v entries that the callback frees are gone.
  ghost predicate Keeps<V>(es: seq<Entry<V>>, reply: nat -> Reply, n: nat, v: nat, kept: seq<Entry<V>>) {
    && (forall j :: 0 <= j < |es| ==> (es[j] in kept <==> !(j < v && reply(n + j).frees)))
    && (forall e :: e in kept ==> e in es)
  }

  ghost predicate Frees<V>(es: seq<Entry<V>>, reply: nat -> Reply, n: nat, v: nat, freed: seq<nat>) {
    && (forall j :: 0 <= j < |es| ==> (es[j].id in freed <==> j < v && reply(n + j).frees))
    && (forall id :: id in freed ==> Lives(es, id))
  }

  // A traversal hands over the due objects, oldest first, even when the callback frees the one it was given.
  lemma {:induction false} WalkExact<V>(es: seq<Entry<V>>, tick: int, reply: nat -> Reply, n: nat)
    requires UniqueIds(es)
    ensures var w := Walk(es, tick, reply, n);
      && HandsOver(es, Due(es, tick), reply, n, w.visited)
      && Keeps(es, reply, n, |w.visited|, w.kept) && Frees(es, reply, n, |w.visited|, w.freed)
    decreases |es|
  {
    hide HandsOver, Keeps, Frees;
    if es == [] || es[0].tick > tick {
      NothingWalked(es, 0, reply, n);
    } else {
      if reply(n).stops {
        NothingWalked(es[1..], 0, reply, n + 1);
        HandsFirst(es, Due(es, tick), reply, n);
        assert Walk(es, tick, reply, n).visited == [es[0].obj];
      } else {
        WalkExact(es[1..], tick, reply, n + 1);
        HandsOneMore(es, Due(es[1..], tick), reply, n, Walk(es[1..], tick, reply, n + 1).visited);
      }
      var rest := if reply(n).stops then Walked([], es[1..], []) else Walk(es[1..], tick, reply, n + 1);
      KeepsOneMore(es, reply, n, |rest.visited|, rest.kept);
      FreesOneMore(es, reply, n, |rest.visited|, rest.freed);
    }
  }

  lemma NothingWalked<V>(es: seq<Entry<V>>, due: nat, reply: nat -> Reply, n: nat)
    requires due == 0
    ensures HandsOver(es, due, reply, n, []) && Keeps(es, reply, n, 0, es) && Frees(es, reply, n, 0, [])
  {
  }

  lemma HandsFirst<V>(es: seq<Entry<V>>, due: nat, reply: nat -> Reply, n: nat)
    requires 0 < due <= |es| && reply(n).stops
    ensures HandsOver(es, due, reply, n, [es[0].obj])
  {
  }

  lemma HandsOneMore<V>(es: seq<Entry<V>>, due: nat, reply: nat -> Reply, n: nat, visited: seq<V>)
    requires es != [] && !reply(n).stops && HandsOver(es[1..], due, reply, n + 1, visited)
    ensures HandsOver(es, due + 1, reply, n, [es[0].obj] + visited)
  {
    var all := [es[0].obj] + visited;
    forall j | 0 <= j < |all|
      ensures all[j] == es[j].obj
    {
      assert j > 0 ==> all[j] == visited[j - 1] && es[j] == es[1..][j - 1];
    }
    assert |visited| < due ==> reply(n + 1 + |visited| - 1).stops;
  }

  lemma KeepsOneMore<V>(es: seq<Entry<V>>, reply: nat -> Reply, n: nat, v: nat, kept: seq<Entry<V>>)
    requires es != [] && UniqueIds(es) && Keeps(es[1..], reply, n + 1, v, kept)
    ensures Keeps(es, reply, n, v + 1, (if reply(n).frees then [] else [es[0]]) + kept)
  {
    var all := (if reply(n).frees then [] else [es[0]]) + kept;
    assert es[0] !in es[1..];
    forall j | 0 <= j < |es|
      ensures es[j] in all <==> !(j < v + 1 && reply(n + j).frees)
    {
      if j > 0 {
        assert es[1..][j - 1] in kept <==> !(j - 1 < v && reply(n + 1 + (j - 1)).frees);
      }
    }
  }

  lemma FreesOneMore<V>(es: seq<Entry<V>>, reply: nat -> Reply, n: nat, v: nat, freed: seq<nat>)
    requires es != [] && UniqueIds(es) && Frees(es[1..], reply, n + 1, v, freed)
    ensures Frees(es, reply, n, v + 1, (if reply(n).frees then [es[0].id] else []) + freed)
  {
    var all := (if reply(n).frees then [es[0].id] else []) + freed;
    assert !Lives(es[1..], es[0].id);
    forall j | 0 <= j < |es|
      ensures es[j].id in all <==> j < v + 1 && reply(n + j).frees
    {
      if j > 0 {
        assert es[1..][j - 1].id in freed <==> j - 1 < v && reply(n + 1 + (j - 1)).frees;
      }
    }
    forall id | id in freed
      ensures Lives(es, id)
    {
      var k :| 0 <= k < |es[1..]| && es[1..][k].id == id;
      assert es[k + 1].id == id;
    }
  }

  // A traversal that has handed over soFar.visited and left the entries `now`, the first ones for good.
  ghost predicate Reached<V>(es: seq<Entry<V>>, tick: int, reply: nat -> Reply, soFar: Walked<V>, now: seq<Entry<V>>) {
    && |soFar.kept| <= |now| && now[..|soFar.kept|] == soFar.kept
    && Walk(es, tick, reply, 0) == Then(soFar, Walk(now[|soFar.kept|..], tick, reply, |soFar.visited|))
  }

  ghost function OneMore<V>(soFar: Walked<V>, e: Entry<V>, frees: bool): (next: Walked<V>)
    ensures next.visited == soFar.visited + [e.obj]
    ensures next.kept == soFar.kept + if frees then [] else [e]
    ensures next.freed == soFar.freed + if frees then [e.id] else []
  {
    Then(soFar, After(e, frees, Walked([], [], [])))
  }

  ghost function Left<V>(now: seq<Entry<V>>, k: nat, frees: bool): seq<Entry<V>>
    requires k < |now|
  {
    if frees then Without(now, k) else now
  }

  // Every object's owner keeps the id of its item.
  ghost predicate Owned<V>(es: seq<Entry<V>>, idOf: V -> nat) {
    forall k :: 0 <= k < |es| ==> idOf(es[k].obj) == es[k].id
  }

  lemma LeftIs<V>(now: seq<Entry<V>>, k: nat, frees: bool, idOf: V -> nat)
    requires k < |now| && Owned(now, idOf)
    ensures idOf(now[k].obj) == now[k].id
    ensures Left(now, k, frees) == if frees then Without(now, k) else now
    ensures Owned(Left(now, k, frees), idOf)
  {
  }

  lemma ReachedStart<V>(es: seq<Entry<V>>, tick: int, reply: nat -> Reply)
    ensures Reached(es, tick, reply, Walked([], [], []), es)
  {
    hide Walk;
  }

  lemma ReachedNext<V>(es: seq<Entry<V>>, tick: int, reply: nat -> Reply, soFar: Walked<V>, now: seq<Entry<V>>)
    requires Reached(es, tick, reply, soFar, now)
    requires |soFar.kept| < |now| && now[|soFar.kept|].tick <= tick
    ensures var k, answer := |soFar.kept|, reply(|soFar.visited|);
      var next, left := OneMore(soFar, now[k], answer.frees), Left(now, k, answer.frees);
      if answer.stops then Walk(es, tick, reply, 0) == Walked(next.visited, left, next.freed)
      else Reached(es, tick, reply, next, left)
  {
    var k, answer := |soFar.kept|, reply(|soFar.visited|);
    var next, left := OneMore(soFar, now[k], answer.frees), Left(now, k, answer.frees);
    assert now[k..][0] == now[k];
    assert left[|next.kept|..] == now[k..][1..];
    assert left == next.kept + left[|next.kept|..];
    WalkOn(tick, reply, soFar, now[k..]);
  }

  lemma WalkOn<V>(tick: int, reply: nat -> Reply, soFar: Walked<V>, rest: seq<Entry<V>>)
    requires rest != [] && rest[0].tick <= tick
    ensures var answer := reply(|soFar.visited|);
      Then(soFar, Walk(rest, tick, reply, |soFar.visited|)) == Then(OneMore(soFar, rest[0], answer.frees),
        if answer.stops then Walked([], rest[1..], []) else Walk(rest[1..], tick, reply, |soFar.visited| + 1))
  {
    var n := |soFar.visited|;
    ThenAfter(soFar, rest[0], reply(n).frees,
      if reply(n).stops then Walked([], rest[1..], []) else Walk(rest[1..], tick, reply, n + 1));
  }

  lemma ThenAfter<V>(soFar: Walked<V>, e: Entry<V>, frees: bool, rest: Walked<V>)
    ensures Then(soFar, After(e, frees, rest)) == Then(OneMore(soFar, e, frees), rest)
  {
    var l, r := Then(soFar, After(e, frees, rest)), Then(OneMore(soFar, e, frees), rest);
    assert l.visited == r.visited;
    assert l.kept == r.kept;
    assert l.freed == r.freed;
  }

  lemma ReachedEnd<V>(es: seq<Entry<V>>, tick: int, reply: nat -> Reply, soFar: Walked<V>, now: seq<Entry<V>>)
    requires Reached(es, tick, reply, soFar, now)
    requires |soFar.kept| == |now| || now[|soFar.kept|].tick > tick
    ensures Walk(es, tick, reply, 0) == Walked(soFar.visited, now, soFar.freed)
  {
    assert now == soFar.kept + now[|soFar.kept|..];
  }

  ghost predicate UniqueIds<V>(es: seq<Entry<V>>) {
    forall j, k :: 0 <= j < k < |es| ==> es[j].id != es[k].id
  }

  class LeastRecentlyUsedCache<V(0)> {
    var items: seq<Item<V>>
    var free: seq<nat>
    var first: Item?<V>
    var last: Item?<V>
    // The live items from first to last.
    ghost var list: seq<Item<V>>

    // The items of `list` form one doubly linked list without a cycle.
    ghost predicate Linked()
      reads this`list, this`first, this`last
      reads set k | 0 <= k < |list| :: list[k]`next, set k | 0 <= k < |list| :: list[k]`prev
    {
      && (forall j, k :: 0 <= j < k < |list| ==> list[j] != list[k])
      && first == Nth(list, 0) && last == Nth(list, |list| - 1)
      && (forall k :: 0 <= k < |list| ==> list[k].prev == Nth(list, k - 1))
      && (forall k :: 0 <= k < |list| ==> list[k].next == Nth(list, k + 1))
    }

    // Items know their index; the live ones are in the list, once.
    ghost predicate Numbered()
      reads this
    {
      && (forall i :: 0 <= i < |items| ==> items[i].id == i)
      && (forall x :: x in list ==> x.id < |items| && items[x.id] == x)
    }

    // The free list holds exactly the ids that are not live, without repeats.
    ghost predicate FreeExact()
      reads this, set k | 0 <= k < |items| :: items[k]`next, set k | 0 <= k < |items| :: items[k]`prev
    {
      && (forall j, k :: 0 <= j < k < |free| ==> free[j] != free[k])
      && (forall id :: id in free <==> 0 <= id < |items| && items[id] !in list)
      && (forall id :: 0 <= id < |items| && items[id] !in list ==> items[id].next == null && items[id].prev == null)
    }

    // As FreeExact, while the item of one id that is in use is about to join the list.
    ghost predicate FreeBut(taken: nat)
      reads this, set k | 0 <= k < |items| :: items[k]`next, set k | 0 <= k < |items| :: items[k]`prev
    {
      && (forall j, k :: 0 <= j < k < |free| ==> free[j] != free[k])
      && (forall id :: id in free <==> 0 <= id < |items| && items[id] !in list && id != taken)
      && (forall id :: 0 <= id < |items| && items[id] !in list ==> items[id].next == null && items[id].prev == null)
    }

    ghost predicate Valid()
      reads this, items, list
    {
      Linked() && Numbered() && FreeExact()
    }

    ghost function State(): Cache<V>
      reads this, list
    {
      Cache(Entries(list), free, |items|)
    }

    // The item leaves the list.
    method Detach(item: Item<V>, ghost k: nat)
      requires Linked() && k < |list| && list[k] == item
      modifies this`first, this`last, this`list, set i | i in list :: i`next, set i | i in list :: i`prev
      ensures list == Without(old(list), k) && Linked()
      ensures forall x :: x in list <==> x in old(list) && x != item
    {
      hide Nth, Without;
      ghost var was := list;
      NthWithout(was, k, 0);
      NthWithout(was, k, |was| - 2);
      NthIs(was, 0);
      NthIs(was, |was| - 1);
      NthIs(was, k);
      NthIs(was, k - 1);
      NthIs(was, k + 1);
      assert item.prev == Nth(was, k - 1) && item.next == Nth(was, k + 1);
      assert k > 0 ==> was[k - 1] in was;
      assert k + 1 < |was| ==> was[k + 1] in was;
      if item.prev != null {
        item.prev.next := item.next;
      }
      if item.next != null {
        item.next.prev := item.prev;
      }
      assert forall j :: 0 <= j < |was| ==> was[j].next == if j == k - 1 then Nth(was, k + 1) else Nth(was, j + 1);
      assert forall j :: 0 <= j < |was| ==> was[j].prev == if j == k + 1 then Nth(was, k - 1) else Nth(was, j - 1);
      if first == item {
        first := item.next;
      }
      if last == item {
        last := item.prev;
      }
      list := Without(list, k);
      WithoutMembers(was, k);
      Relinked(was, k);
    }

    // The links after an item has been bridged are those of the list without it.
    lemma Relinked(was: seq<Item<V>>, k: nat)
      requires k < |was| && list == Without(was, k)
      requires forall i, j :: 0 <= i < j < |was| ==> was[i] != was[j]
      requires first == Nth(list, 0) && last == Nth(list, |list| - 1)
      requires forall j :: 0 <= j < |was| ==> was[j].next == if j == k - 1 then Nth(was, k + 1) else Nth(was, j + 1)
      requires forall j :: 0 <= j < |was| ==> was[j].prev == if j == k + 1 then Nth(was, k - 1) else Nth(was, j - 1)
      ensures Linked()
    {
      hide Nth, Without;
      forall j | 0 <= j < |list|
        ensures list[j].next == Nth(list, j + 1) && list[j].prev == Nth(list, j - 1)
      {
        var o := if j < k then j else j + 1;
        assert list[j] == was[o];
        NthWithout(was, k, j + 1);
        NthWithout(was, k, j - 1);
      }
    }

    // The item joins the list at its end.
    method Attach(item: Item<V>)
      requires Linked() && item !in list
      requires list == [] ==> item.next == null && item.prev == null
      modifies this`first, this`last, this`list, item`next, item`prev, set i | i in list :: i`next
      ensures list == old(list) + [item] && Linked()
    {
      hide Nth;
      ghost var was := list;
      NthIs(was, 0);
      NthIs(was, |was| - 1);
      if first == null {
        first := item;
      }
      if last == null {
        last := item;
        list := [item];
        NthIs(list, 0);
        NthIs(list, 1);
        NthIs(list, -1);
        return;
      }
      assert last == was[|was| - 1] && was[|was| - 1] in was;
      item.prev := last;
      last.next := item;
      item.next := null;
      last := item;
      list := was + [item];
      NthAppended(was, item, 0);
      NthAppended(was, item, |was|);
      forall j | 0 <= j < |list|
        ensures list[j].next == Nth(list, j + 1) && list[j].prev == Nth(list, j - 1)
      {
        NthIs(was, j + 1);
        NthAppended(was, item, j + 1);
        NthAppended(was, item, j - 1);
      }
    }

    // A free id is used again, oldest first, before a new item is made.
    method Build() returns (id: nat)
      requires Valid()
      modifies this`items, this`free
      ensures Linked() && Numbered() && FreeBut(id) && id < |items| && items[id] !in list
      ensures if old(free) == [] then id == |old(items)| && free == [] else id == old(free)[0] && free == old(free)[1..]
      ensures old(free) == [] ==> |items| == |old(items)| + 1 && items[..|old(items)|] == old(items) && fresh(items[id])
      ensures old(free) != [] ==> items == old(items)
    {
      hide Linked;
      if free == [] {
        id := |items|;
        var item := new Item<V>(id);
        items := items + [item];
        return;
      }
      id := free[0];
      assert id in free;
      FirstTaken(free);
      free := free[1..];
    }

    constructor ()
      ensures Valid() && list == [] && items == [] && free == []
    {
      items, free, list := [], [], [];
      first, last := null, null;
    }

    method Insert(obj: V, tick: int) returns (id: nat)
      requires Valid()
      modifies this, items, list
      ensures Valid()
      ensures id == NextId(old(State())) && State() == Next(old(State()), InsertOp(obj, tick))
      ensures Entries(list) == old(Entries(list)) + [Entry(id, obj, tick)]
      ensures if old(free) == [] then id == |old(items)| && free == [] else id == old(free)[0] && free == old(free)[1..]
    {
      hide Linked, Nth, Next, Allowed;
      ghost var es, c := Entries(list), State();
      id := Build();
      var item := items[id];
      item.obj := obj;
      item.tick := tick;
      Join(item);
      NextInserted(c, obj, tick);
      assert Entries(list) == es + [Entry(id, obj, tick)];
    }

    // A built item joins the list.
    method Join(item: Item<V>)
      requires Linked() && Numbered() && item in items && item !in list && FreeBut(item.id)
      modifies this`first, this`last, this`list, item`next, item`prev, set i | i in list :: i`next
      ensures Valid() && list == old(list) + [item]
    {
      hide Linked, Nth;
      Attach(item);
    }

    lemma IdsUnique()
      requires Valid()
      ensures UniqueIds(Entries(list))
    {
      forall j, k | 0 <= j < k < |list|
        ensures list[j].id != list[k].id
      {
        assert list[j] in list && list[k] in list;
      }
    }

    lemma StateSplits()
      requires Valid()
      ensures IdsSplit(State())
    {
      IdsUnique();
      forall e | e in Entries(list)
        ensures e.id < |items| && e.id !in free
      {
        var k :| 0 <= k < |list| && e == Entries(list)[k];
        assert list[k] in list;
      }
    }

    lemma LiveItem(id: nat, k: nat)
      requires Valid() && k < |list| && list[k].id == id
      ensures id < |items| && items[id] == list[k] && forall j :: 0 <= j < |list| && j != k ==> list[j] != list[k]
    {
      assert list[k] in list;
    }

    lemma NextOf(k: nat)
      requires Linked() && k < |list|
      ensures list[k].next == Nth(list, k + 1)
    {
    }

    lemma LastIs()
      requires Linked() && list != []
      ensures last == list[|list| - 1] && forall j :: 0 <= j < |list| - 1 ==> list[j] != last
    {
    }

    // The use of a live item moves it to the end, unless it is not newer than the last one.
    method Touch(id: nat, tick: int)
      requires Valid() && Lives(Entries(list), id)
      modifies this, list
      ensures Valid() && State() == Next(old(State()), TouchOp(id, tick))
      ensures free == old(free) && items == old(items)
      ensures var es, k := old(Entries(list)), Position(old(Entries(list)), id);
        Entries(list) == if tick <= es[k].tick then es else Without(es, k) + [Entry(id, es[k].obj, tick)]
    {
      hide Linked, Numbered, FreeExact, Touched, Without;
      ghost var k := Position(Entries(list), id);
      LiveItem(id, k);
      var item := items[id];
      IdsUnique();
      TouchedAt(Entries(list), id, tick, k);
      LastIs();
      if item.tick >= tick {
        return;
      }
      ghost var es := Entries(list);
      item.tick := tick;
      assert Entries(list) == es[k := es[k].(tick := tick)];
      UpdatedWithout(es, k, es[k].(tick := tick));
      if item != last {
        MoveToEnd(item, k);
      }
    }

    method MoveToEnd(item: Item<V>, ghost k: nat)
      requires Valid() && k < |list| && list[k] == item && item != last
      modifies this`first, this`last, this`list, set i | i in list :: i`next, set i | i in list :: i`prev
      ensures Valid()
      ensures Entries(list) == Without(old(Entries(list)), k) + [old(Entries(list))[k]]
    {
      hide Linked, Numbered, FreeExact, Without;
      ghost var was, es := list, Entries(list);
      Rejoin(item, k);
      forall j | 0 <= j < |list|
        ensures Entries(list)[j] == (Without(es, k) + [es[k]])[j]
      {
        assert list[j] == was[if j < k then j else if j < |was| - 1 then j + 1 else k];
      }
    }

    method Rejoin(item: Item<V>, ghost k: nat)
      requires Valid() && k < |list| && list[k] == item && item != last
      modifies this`first, this`last, this`list, set i | i in list :: i`next, set i | i in list :: i`prev
      ensures Valid() && list == Without(old(list), k) + [item]
    {
      hide Linked, Without;
      LastIs();
      assert item in list;
      Detach(item, k);
      Attach(item);
    }

    method Free(id: nat)
      requires Valid() && Lives(Entries(list), id)
      modifies this, items
      ensures Valid() && State() == Next(old(State()), FreeOp(id))
      ensures items == old(items) && list == Without(old(list), Position(old(Entries(list)), id))
      ensures Entries(list) == Without(old(Entries(list)), Position(old(Entries(list)), id)) && free == old(free) + [id]
    {
      hide Linked, FreeExact, Without, Next, Allowed;
      ghost var es, c := Entries(list), State();
      ghost var k := Position(es, id);
      LiveItem(id, k);
      NextFreed(c, id);
      Part(id, k);
      assert Entries(list) == Without(es, k);
    }

    // A live item leaves the list and its id becomes free.
    method Part(id: nat, ghost k: nat)
      requires Valid() && k < |list| && id < |items| && items[id] == list[k]
      modifies this, set i | i in list :: i`next, set i | i in list :: i`prev
      ensures Valid() && items == old(items) && list == Without(old(list), k) && free == old(free) + [id]
    {
      hide Linked, Without;
      var item := items[id];
      assert item in list && item.id == id;
      Detach(item, k);
      item.next := null;
      item.prev := null;
      free := free + [id];
    }

    // One round of the traversal: the successor is read before the callback runs.
    method Visit(item: Item<V>, ghost k: nat, frees: bool, idOf: V -> nat) returns (next: Item?<V>)
      requires Valid() && k < |list| && list[k] == item && idOf(item.obj) == item.id
      modifies this, items
      ensures Valid() && items == old(items)
      ensures Entries(list) == if frees then Without(old(Entries(list)), k) else old(Entries(list))
      ensures list == if frees then Without(old(list), k) else old(list)
      ensures next == Nth(list, if frees then k else k + 1)
      ensures free == old(free) + if frees then [item.id] else []
    {
      hide Linked, Numbered, FreeExact, Freed, Nth, Without;
      NextOf(k);
      next := item.next;
      if frees {
        IdsUnique();
        FreedAt(Entries(list), item.id, k);
        NthWithout(list, k, k);
        Free(idOf(item.obj));
      }
    }

    // Hands over the items from the oldest one on until one is newer than `tick` or the callback stops it;
    // `idOf` is the id the owner of an object keeps for it.
    method ForEachItemBelow(tick: int, reply: nat -> Reply, idOf: V -> nat) returns (visited: seq<V>)
      requires Valid() && Owned(Entries(list), idOf)
      modifies this, items
      ensures Valid() && items == old(items)
      ensures visited == Walk(old(Entries(list)), tick, reply, 0).visited
      ensures State() == Next(old(State()), WalkOp(tick, reply))
    {
      hide Valid, Walk, Owned, Next, Allowed;
      NextWalked(State(), tick, reply);
      visited := Traverse(tick, reply, idOf);
    }

    // Its loop.
    method Traverse(tick: int, reply: nat -> Reply, idOf: V -> nat) returns (visited: seq<V>)
      requires Valid() && Owned(Entries(list), idOf)
      modifies this, items
      ensures Valid() && items == old(items)
      ensures var w := Walk(old(Entries(list)), tick, reply, 0);
        visited == w.visited && Entries(list) == w.kept && free == old(free) + w.freed
    {
      hide Valid, Nth, Reached, Walk, Without, OneMore, Left, Owned;
      ghost var es := Entries(list);
      ghost var soFar: Walked<V>, now := Walked([], [], []), es;
      NthOfFirst();
      ReachedStart(es, tick, reply);
      var item := first;
      visited := [];
      while item != null
        invariant Valid() && items == old(items)
        invariant now == Entries(list) && Owned(now, idOf)
        invariant |soFar.kept| <= |list| && item == Nth(list, |soFar.kept|)
        invariant Reached(es, tick, reply, soFar, now)
        invariant visited == soFar.visited && free == old(free) + soFar.freed
        decreases |list| - |soFar.kept|
      {
        ghost var k := |soFar.kept|;
        NthIs(list, k);
        if item.tick > tick {
          ReachedEnd(es, tick, reply, soFar, now);
          return;
        }
        ReachedNext(es, tick, reply, soFar, now);
        var answer := reply(|visited|);
        visited := visited + [item.obj];
        LeftIs(now, k, answer.frees, idOf);
        soFar := OneMore(soFar, now[k], answer.frees);
        now := Left(now, k, answer.frees);
        item := Visit(item, k, answer.frees, idOf);
        if answer.stops {
          return;
        }
      }
      NthIs(list, |soFar.kept|);
      ReachedEnd(es, tick, reply, soFar, now);
    }

    lemma NthOfFirst()
      requires Valid()
      ensures first == Nth(list, 0)
    {
    }
  }
}

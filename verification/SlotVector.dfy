/** Slots addressed by index and generation: an id stops resolving when its slot is erased. */
module SlotVector {
  import opened Options

  const INVALID_INDEX := 0xFFFF_FFFF
  // Generations run from 1 to 2^32 - 1 and start over; 0 is skipped.
  const CYCLE := 0xFFFF_FFFF

  type u32 = x: int | 0 <= x < 0x1_0000_0000

  datatype SlotId = SlotId(index: u32, generation: u32)
  datatype Slot<T> = Slot(value: Option<T>, generation: u32)

  // is_allocated and try_get
  function TryGet<T>(values: seq<Slot<T>>, id: SlotId): Option<T> {
    if id.index != INVALID_INDEX && id.index < |values| && values[id.index].generation == id.generation
    then values[id.index].value else None
  }

  /* ---- The slots as a state ---- */

  // `erases` counts how often each slot was erased.
  datatype Slots<T> = Slots(values: seq<Slot<T>>, free: seq<nat>, erases: seq<nat>)
  datatype Op<T> = InsertOp(value: T) | EraseOp(id: SlotId)

  function Generation(erases: nat): u32 {
    1 + erases % CYCLE
  }

  function NextGeneration(generation: u32): u32 {
    var g := (generation + 1) % 0x1_0000_0000;
    if g == 0 then 1 else g
  }

  lemma NextGenerationIs(erases: nat)
    ensures NextGeneration(Generation(erases)) == Generation(erases + 1)
  {
  }

  // An index past 2^32 - 2 is no usable index.
  predicate Roomy<T>(s: Slots<T>) {
    s.free != [] || |s.values| < INVALID_INDEX
  }

  function InsertIndex<T>(s: Slots<T>): nat {
    if s.free == [] then |s.values| % 0x1_0000_0000 else s.free[|s.free| - 1]
  }

  predicate Allowed<T>(s: Slots<T>, op: Op<T>) {
    op.EraseOp? ==> TryGet(s.values, op.id).Some?
  }

  ghost predicate Valid<T>(s: Slots<T>) {
    && |s.erases| == |s.values|
    && (forall i :: 0 <= i < |s.values| ==> s.values[i].generation == Generation(s.erases[i]))
    && (forall i :: i in s.free <==> 0 <= i < |s.values| && s.values[i].value.None?)
    && (forall i :: i in s.free ==> i < INVALID_INDEX)
    && (forall j, k :: 0 <= j < k < |s.free| ==> s.free[j] != s.free[k])
  }

  lemma FreeInside<T>(s: Slots<T>)
    requires Valid(s)
    ensures forall j :: 0 <= j < |s.free| ==> s.free[j] < |s.values| && s.values[s.free[j]].value.None?
    ensures forall j :: 0 <= j < |s.free| ==> s.free[j] < INVALID_INDEX
    ensures |s.erases| == |s.values|
  {
    forall j | 0 <= j < |s.free|
      ensures s.free[j] < |s.values| && s.values[s.free[j]].value.None? && s.free[j] < INVALID_INDEX
    {
      assert s.free[j] in s.free;
    }
  }

  ghost function Next<T>(s: Slots<T>, op: Op<T>): Slots<T>
    requires Valid(s) && Allowed(s, op)
  {
    FreeInside(s);
    match op
    case InsertOp(v) =>
      if s.free == [] then Slots(s.values + [Slot(Some(v), 1)], [], s.erases + [0])
      else
        var i := s.free[|s.free| - 1];
        Slots(s.values[i := s.values[i].(value := Some(v))], s.free[..|s.free| - 1], s.erases)
    case EraseOp(id) =>
      var i := id.index;
      var slot := Slot(None, NextGeneration(s.values[i].generation));
      Slots(s.values[i := slot], s.free + [i], s.erases[i := s.erases[i] + 1])
  }

  lemma NextValid<T>(s: Slots<T>, op: Op<T>)
    requires Valid(s) && Allowed(s, op)
    ensures Valid(Next(s, op))
  {
    hide Generation, NextGeneration;
    FreeInside(s);
    match op {
      case InsertOp(v) =>
        Generation0();
        if s.free != [] {
          assert forall i :: i in s.free[..|s.free| - 1] <==> i in s.free && i != s.free[|s.free| - 1];
        }
      case EraseOp(id) =>
        NextGenerationIs(s.erases[id.index]);
        assert id.index !in s.free;
        assert forall i :: i in s.free + [id.index] <==> i in s.free || i == id.index;
    }
  }

  lemma Generation0()
    ensures Generation(0) == 1
  {
  }

  /* ---- As a map from ids to values ---- */

  // An insertion adds one id that resolved to nothing before; no other id changes.
  lemma InsertResolves<T>(s: Slots<T>, v: T)
    requires Valid(s) && Roomy(s)
    ensures var after := Next(s, InsertOp(v)).values; var i := InsertIndex(s);
      && i < |after| && i != INVALID_INDEX
      && TryGet(s.values, SlotId(i, after[i].generation)).None?
      && forall id: SlotId :: TryGet(after, id) ==
           if id == SlotId(i, after[i].generation) then Some(v) else TryGet(s.values, id)
  {
    hide Generation;
    FreeInside(s);
    if s.free != [] {
      assert s.free[|s.free| - 1] in s.free;
    }
  }

  // Once the usable indices are used up an insertion adds no id at all: the new value cannot be reached.
  lemma InsertLost<T>(s: Slots<T>, v: T)
    requires Valid(s) && !Roomy(s)
    ensures forall id: SlotId :: TryGet(Next(s, InsertOp(v)).values, id) == TryGet(s.values, id)
  {
    hide Generation, Valid;
  }

  // An erasure removes its id and changes no other, the slot's next id included.
  lemma EraseResolves<T>(s: Slots<T>, erased: SlotId)
    requires Valid(s) && Allowed(s, EraseOp(erased))
    ensures forall id: SlotId :: (TryGet(Next(s, EraseOp(erased)).values, id) ==
      if id == erased then None else TryGet(s.values, id))
  {
    hide Generation, NextGeneration;
    FreeInside(s);
  }

  /* ---- Runs ---- */

  ghost predicate Legal<T>(s: Slots<T>, ops: seq<Op<T>>)
    requires Valid(s)
    decreases |ops|
  {
    ops == [] || (Allowed(s, ops[0]) && (NextValid(s, ops[0]); Legal(Next(s, ops[0]), ops[1..])))
  }

  ghost function Run<T>(s: Slots<T>, ops: seq<Op<T>>): (r: Slots<T>)
    requires Valid(s) && Legal(s, ops)
    ensures Valid(r)
    decreases |ops|
  {
    if ops == [] then s
    else
      NextValid(s, ops[0]);
      Run(Next(s, ops[0]), ops[1..])
  }

  // No slot disappears and no erasure is undone; a slot that was not erased keeps its value.
  lemma {:induction false} RunKeeps<T>(s: Slots<T>, ops: seq<Op<T>>, i: nat)
    requires Valid(s) && Legal(s, ops) && i < |s.values|
    ensures var r := Run(s, ops);
      && i < |r.values| && i < |r.erases| && s.erases[i] <= r.erases[i]
      && (r.erases[i] == s.erases[i] && s.values[i].value.Some? ==> r.values[i].value == s.values[i].value)
    decreases |ops|
  {
    hide Generation, NextGeneration, Valid;
    FreeInside(s);
    if ops != [] {
      NextValid(s, ops[0]);
      StepKeeps(s, ops[0], i);
      RunKeeps(Next(s, ops[0]), ops[1..], i);
    }
  }

  lemma StepKeeps<T>(s: Slots<T>, op: Op<T>, i: nat)
    requires Valid(s) && Allowed(s, op) && i < |s.values|
    ensures var r := Next(s, op);
      && i < |r.values| && i < |r.erases| && s.erases[i] <= r.erases[i]
      && (r.erases[i] == s.erases[i] && s.values[i].value.Some? ==> r.values[i].value == s.values[i].value)
  {
    hide Generation, NextGeneration;
    FreeInside(s);
    if s.free != [] {
      assert s.free[|s.free| - 1] in s.free;
    }
  }

  lemma SameGeneration(a: nat, b: nat)
    requires a <= b
    ensures Generation(a) == Generation(b) <==> (b - a) % CYCLE == 0
  {
  }

  // An id that resolves keeps resolving to its own value until it is erased. Then it resolves to nothing until its
  // slot was erased 2^32 - 1 times: it resolves again exactly when the slot is in use after a multiple of that.
  lemma IdsExact<T>(s: Slots<T>, ops: seq<Op<T>>, id: SlotId)
    requires Valid(s) && Legal(s, ops) && TryGet(s.values, id).Some?
    ensures var r, i := Run(s, ops), id.index;
      && i < |s.erases| && i < |r.erases| && i < |r.values| && s.erases[i] <= r.erases[i]
      && var times := r.erases[i] - s.erases[i];
        && (times == 0 ==> TryGet(r.values, id) == TryGet(s.values, id))
        && (0 < times < CYCLE ==> TryGet(r.values, id).None?)
        && (TryGet(r.values, id).Some? <==> r.values[i].value.Some? && times % CYCLE == 0)
  {
    hide Generation, Run;
    RunKeeps(s, ops, id.index);
    SameGeneration(s.erases[id.index], Run(s, ops).erases[id.index]);
  }

  /* ---- Counting ---- */

  function Count<T>(values: seq<Slot<T>>): nat {
    if values == [] then 0
    else Count(values[..|values| - 1]) + if values[|values| - 1].value.Some? then 1 else 0
  }

  lemma {:induction false} CountUpdate<T>(values: seq<Slot<T>>, i: nat, slot: Slot<T>)
    requires i < |values|
    ensures Count(values[i := slot]) == Count(values)
      + (if slot.value.Some? then 1 else 0) - (if values[i].value.Some? then 1 else 0)
    decreases |values|
  {
    var n := |values| - 1;
    if i < n {
      CountUpdate(values[..n], i, slot);
      assert values[i := slot][..n] == values[..n][i := slot];
    } else {
      assert values[i := slot][..n] == values[..n];
    }
  }

  lemma CountAppend<T>(values: seq<Slot<T>>, slot: Slot<T>)
    ensures Count(values + [slot]) == Count(values) + if slot.value.Some? then 1 else 0
  {
    assert (values + [slot])[..|values|] == values;
  }

  class SlotVector<T> {
    var values: seq<Slot<T>>
    var freeList: seq<nat>
    var size: nat
    ghost var erases: seq<nat>

    constructor ()
      ensures Good() && State() == Slots([], [], [])
    {
      values, freeList, size, erases := [], [], 0, [];
    }

    ghost function State(): Slots<T>
      reads this
    {
      Slots(values, freeList, erases)
    }

    ghost predicate Good()
      reads this
    {
      Valid(State()) && size == Count(values)
    }

    method Insert(v: T) returns (id: SlotId)
      requires Good()
      modifies this
      ensures Good() && State() == Next(old(State()), InsertOp(v))
      ensures Roomy(old(State())) ==> TryGet(values, id) == Some(v) && TryGet(old(values), id).None?
      ensures Roomy(old(State())) ==>
        id.index == if old(freeList) == [] then |old(values)| else old(freeList)[|old(freeList)| - 1]
      ensures !Roomy(old(State())) ==> forall other: SlotId :: TryGet(values, other) == TryGet(old(values), other)
    {
      hide Valid, TryGet;
      ghost var s := State();
      FreeInside(s);
      NextValid(s, InsertOp(v));
      if Roomy(s) {
        InsertResolves(s, v);
      } else {
        InsertLost(s, v);
      }
      id := Place(v);
    }

    // The new value goes to the slot freed last, or to a new one.
    method Place(v: T) returns (id: SlotId)
      requires Valid(State()) && size == Count(values)
      modifies this
      ensures State() == Next(old(State()), InsertOp(v)) && size == Count(values)
      ensures InsertIndex(old(State())) < |values|
      ensures id == SlotId(InsertIndex(old(State())), values[InsertIndex(old(State()))].generation)
    {
      hide Valid, Count;
      FreeInside(State());
      var index;
      if freeList == [] {
        index := |values| % 0x1_0000_0000;
        CountAppend(values, Slot(Some(v), 1));
        values := values + [Slot(Some(v), 1)];
        erases := erases + [0];
      } else {
        index := freeList[|freeList| - 1];
        freeList := freeList[..|freeList| - 1];
        CountUpdate(values, index, values[index].(value := Some(v)));
        values := values[index := values[index].(value := Some(v))];
      }
      size := size + 1;
      id := SlotId(index, values[index].generation);
    }

    // The source stops the program for an id that is not allocated.
    method Erase(id: SlotId)
      requires Good() && TryGet(values, id).Some?
      modifies this
      ensures Good() && State() == Next(old(State()), EraseOp(id)) && TryGet(values, id).None?
      ensures freeList == old(freeList) + [id.index] && size == old(size) - 1
    {
      hide Valid, Count, NextGeneration;
      FreeInside(State());
      NextValid(State(), EraseOp(id));
      EraseResolves(State(), id);
      var i := id.index;
      var generation := NextGeneration(values[i].generation);
      CountUpdate(values, i, Slot(None, generation));
      values := values[i := Slot(None, generation)];
      freeList := freeList + [i];
      size := size - 1;
      erases := erases[i := erases[i] + 1];
    }
  }
}

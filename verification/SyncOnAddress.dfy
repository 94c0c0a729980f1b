/** Wait and wake on an address, portable path: every interleaving of WaitPortable and WakePortable.
    One step runs from one lock operation to the next. */
module SyncOnAddress {
  import opened Options

  type Addr = nat
  type CallId = nat        // one call of WaitPortable or WakePortable
  type EntryId = nat       // one PortableAddressEntry; never reused

  const INT_MAX := 0x7FFF_FFFF
  const UINT32_MAX := 0xFFFF_FFFF
  const SIGNAL_POLL_MICROS := 10000

  datatype Result = Ok | TimedOut
  datatype Deadline = Never | At(end: int)      // nanoseconds

  // GetWaitSliceMicros
  function WaitSlice(deadline: Deadline, first: bool, now: int): nat {
    match deadline
    case Never => SIGNAL_POLL_MICROS
    case At(end) =>
      if now >= end then if first then 0 else UINT32_MAX
      else
        var remaining := (end - now + 999) / 1000;
        if remaining < SIGNAL_POLL_MICROS then remaining else SIGNAL_POLL_MICROS
  }

  predicate Expired(deadline: Deadline, now: int) {
    deadline.At? && now >= deadline.end
  }

  // A slice is 0 or UINT32_MAX exactly when the deadline has passed, by whether it is the first one. Otherwise it is
  // the polling period, or the time left in microseconds, rounded up.
  lemma WaitSliceMeaning(deadline: Deadline, first: bool, now: int)
    ensures var slice := WaitSlice(deadline, first, now);
      && (slice == 0 || slice == UINT32_MAX <==> Expired(deadline, now))
      && (Expired(deadline, now) ==> slice == if first then 0 else UINT32_MAX)
      && (deadline == Never ==> slice == SIGNAL_POLL_MICROS)
      && (deadline.At? && slice < SIGNAL_POLL_MICROS ==> now + 1000 * slice >= deadline.end)
      && (!Expired(deadline, now) ==> 1 <= slice <= SIGNAL_POLL_MICROS)
      && (deadline.At? && !Expired(deadline, now) ==> now + 1000 * (slice - 1) < deadline.end)
  {
  }

  /* ---- The data under the locks ---- */

  // The registry, and the entries with their waiter lists. `wanted` holds the calls whose
  // wake_requested flag is set.
  datatype Shared = Shared(
    entries: map<Addr, EntryId>,
    home: map<EntryId, Addr>,
    waiters: map<EntryId, seq<CallId>>,
    wanted: set<CallId>)

  // entries[address], made if it is not there
  function FindOrMake(d: Shared, a: Addr, e: EntryId): Shared {
    if a in d.entries then d
    else d.(entries := d.entries[a := e], home := d.home[e := a], waiters := d.waiters[e := []])
  }

  function PushBack(d: Shared, e: EntryId, w: CallId): Shared
    requires e in d.waiters
  {
    d.(waiters := d.waiters[e := d.waiters[e] + [w]])
  }

  // std::list::remove
  function Without(s: seq<CallId>, w: CallId): seq<CallId> {
    if s == [] then []
    else if s[0] == w then Without(s[1..], w)
    else [s[0]] + Without(s[1..], w)
  }

  function Remove(d: Shared, e: EntryId, w: CallId): Shared
    requires e in d.waiters
  {
    d.(waiters := d.waiters[e := Without(d.waiters[e], w)])
  }

  // The second half of UnregisterPortableWaiter.
  function EraseIfEmpty(d: Shared, a: Addr, e: EntryId): Shared
    requires e in d.waiters
  {
    if a in d.entries && d.entries[a] == e && d.waiters[e] == [] then d.(entries := d.entries - {a}) else d
  }

  // The loop of WakePortable: flags the first `count` waiters not flagged yet.
  function Flag(list: seq<CallId>, wanted: set<CallId>, count: nat): set<CallId>
    decreases |list|
  {
    if list == [] || count == 0 then wanted
    else if list[0] in wanted then Flag(list[1..], wanted, count)
    else Flag(list[1..], wanted + {list[0]}, if count == INT_MAX then count else count - 1)
  }

  predicate Distinct(s: seq<CallId>) {
    forall i, j :: 0 <= i < j < |s| ==> s[i] != s[j]
  }

  // The waiters of a list that are not flagged yet.
  function Unflagged(list: seq<CallId>, wanted: set<CallId>): set<CallId> {
    set w | w in list && w !in wanted
  }

  // Flagging reaches waiters of the list only, and clears no flag.
  lemma {:induction false} FlagBounds(list: seq<CallId>, wanted: set<CallId>, count: nat)
    ensures wanted <= Flag(list, wanted, count)
    ensures forall v :: v in Flag(list, wanted, count) ==> v in wanted || v in list
    decreases |list|
  {
    if list != [] && count != 0 {
      var w, rest := list[0], list[1..];
      assert forall v :: v in list <==> v == w || v in rest;
      FlagBounds(rest, wanted + {w}, if w in wanted || count == INT_MAX then count else count - 1);
      assert w in wanted ==> wanted + {w} == wanted;
    }
  }

  lemma FlagOne(list: seq<CallId>, wanted: set<CallId>, count: nat)
    requires Distinct(list) && list != [] && 0 < count
    ensures var w, rest := list[0], list[1..];
      var next := if count == INT_MAX then count else count - 1;
      var all, reached := Unflagged(rest, wanted + {w}), Flag(rest, wanted + {w}, next) - (wanted + {w});
      if w in wanted then
        Unflagged(list, wanted) == Unflagged(rest, wanted) && Flag(list, wanted, count) == Flag(rest, wanted, count)
      else
        && w !in all && Unflagged(list, wanted) == all + {w}
        && w !in reached && Flag(list, wanted, count) - wanted == reached + {w}
  {
    var w, rest := list[0], list[1..];
    assert forall v :: v in list <==> v == w || v in rest;
    FlagBounds(rest, wanted + {w}, if count == INT_MAX then count else count - 1);
  }

  // It reaches exactly min(count, unflagged) of those not flagged; INT_MAX stands for all.
  lemma {:induction false} FlagExact(list: seq<CallId>, wanted: set<CallId>, count: nat)
    requires Distinct(list) && count <= INT_MAX
    ensures var reached, all := |Flag(list, wanted, count) - wanted|, |Unflagged(list, wanted)|;
      reached == if count == INT_MAX || all <= count then all else count
    decreases |list|
  {
    if list == [] || count == 0 {
      assert Flag(list, wanted, count) - wanted == {};
      assert list == [] ==> Unflagged(list, wanted) == {};
    } else {
      hide Flag, Unflagged;
      FlagOne(list, wanted, count);
      if list[0] in wanted {
        FlagExact(list[1..], wanted, count);
      } else {
        FlagExact(list[1..], wanted + {list[0]}, if count == INT_MAX then count else count - 1);
      }
    }
  }

  // A wake of everyone flags the whole list.
  lemma {:induction false} FlagAll(list: seq<CallId>, wanted: set<CallId>)
    ensures forall w :: w in list ==> w in Flag(list, wanted, INT_MAX)
    decreases |list|
  {
    if list != [] {
      var flags := if list[0] in wanted then wanted else wanted + {list[0]};
      FlagAll(list[1..], flags);
      FlagBounds(list[1..], flags, INT_MAX);
    }
  }

  // Waiters are reached in the order in which they registered.
  lemma {:induction false} FlagInOrder(list: seq<CallId>, wanted: set<CallId>, count: nat, i: nat, j: nat)
    requires Distinct(list) && count <= INT_MAX && i < j < |list| && list[j] !in wanted
    requires list[j] in Flag(list, wanted, count)
    ensures list[i] in Flag(list, wanted, count)
    decreases |list|
  {
    var next := if list[0] in wanted || count == INT_MAX then count else count - 1;
    var flags := if list[0] in wanted then wanted else wanted + {list[0]};
    FlagBounds(list[1..], flags, next);
    if i > 0 {
      FlagInOrder(list[1..], flags, next, i - 1, j - 1);
    }
  }

  lemma {:induction false} WithoutContents(s: seq<CallId>, w: CallId)
    ensures forall v :: v in Without(s, w) <==> v in s && v != w
    ensures Distinct(s) ==> Distinct(Without(s, w))
    decreases |s|
  {
    if s != [] {
      assert forall v :: v in s <==> v == s[0] || v in s[1..];
      WithoutContents(s[1..], w);
      if Distinct(s) {
        assert forall i :: 0 < i < |s| ==> s[0] != s[i];
        assert s[0] !in Without(s[1..], w);
      }
    }
  }

  /* ---- Calls and their interleaving ---- */

  datatype Wait = Wait(addr: Addr, expected: int, deadline: Deadline)

  // Where a call is. The comment says which locks it holds there.
  datatype Pc =
    | WaitStart(w: Wait)                                    // none; wants the registry
    | WaitLocking(w: Wait, e: EntryId)                      // registry; wants e
    | WaitCheck(w: Wait, e: EntryId, first: bool)           // e: the head of the wait loop
    | WaitAsleep(w: Wait, e: EntryId)                       // none: inside WaitFor; wants e
    | WaitWoken(w: Wait, e: EntryId)                        // e: WaitFor has returned
    | WaitPolling(w: Wait, e: EntryId)                      // none: polling signals; wants e
    | WaitRecheck(w: Wait, e: EntryId)                      // e: the deadline test after polling
    | WaitLeaving(w: Wait, e: EntryId, result: Result)      // e: about to unregister
    | WaitErasing(w: Wait, e: EntryId, result: Result)      // none; wants the registry
    | WaitErasingLocked(w: Wait, e: EntryId, result: Result) // registry; wants e
    | WaitDone(w: Wait, result: Result)
    | WakeStart(addr: Addr, count: nat)                     // none; wants the registry
    | WakeLocking(addr: Addr, count: nat, e: EntryId)       // registry; wants e
    | WakeFlagging(addr: Addr, count: nat, e: EntryId)      // e
    | WakeDone(addr: Addr, count: nat)

  // The entry in whose list a call's waiter is.
  function ListOf(pc: Pc): Option<EntryId> {
    if pc.WaitCheck? || pc.WaitAsleep? || pc.WaitWoken? || pc.WaitPolling? || pc.WaitRecheck? || pc.WaitLeaving?
    then Some(pc.e) else None
  }

  // The entry lock a call holds.
  function LockOf(pc: Pc): Option<EntryId> {
    if pc.WaitCheck? || pc.WaitWoken? || pc.WaitRecheck? || pc.WaitLeaving? || pc.WakeFlagging?
    then Some(pc.e) else None
  }

  // The entry lock a call waits for, and whether it waits for the registry lock.
  function WantsLock(pc: Pc): Option<EntryId> {
    if pc.WaitLocking? || pc.WaitAsleep? || pc.WaitPolling? || pc.WaitErasingLocked? || pc.WakeLocking?
    then Some(pc.e) else None
  }

  predicate WantsRegistry(pc: Pc) {
    pc.WaitStart? || pc.WaitErasing? || pc.WakeStart?
  }

  predicate HoldsRegistry(pc: Pc) {
    pc.WaitLocking? || pc.WaitErasingLocked? || pc.WakeLocking?
  }

  predicate HasEntry(pc: Pc) {
    !pc.WaitStart? && !pc.WaitDone? && !pc.WakeStart? && !pc.WakeDone?
  }

  // The call relies on the registry holding its entry.
  predicate Relies(pc: Pc) {
    pc.WaitLocking? || pc.WakeLocking? || pc.WakeFlagging?
  }

  predicate IsWait(pc: Pc) {
    !pc.WakeStart? && !pc.WakeLocking? && !pc.WakeFlagging? && !pc.WakeDone?
  }

  // A wait that has not left its loop.
  predicate InLoop(pc: Pc) {
    pc.WaitStart? || pc.WaitLocking? || pc.WaitCheck? || pc.WaitAsleep? || pc.WaitWoken? || pc.WaitPolling?
    || pc.WaitRecheck?
  }

  predicate Finished(pc: Pc) {
    pc.WaitDone? || pc.WakeDone?
  }

  function AddrOf(pc: Pc): Addr {
    if IsWait(pc) then pc.w.addr else pc.addr
  }

  predicate Returns(pc: Pc, r: Result) {
    (pc.WaitLeaving? || pc.WaitErasing? || pc.WaitErasingLocked? || pc.WaitDone?) && pc.result == r
  }

  // `changed` and `owed` are history: the calls that saw their word changed, and the calls that were
  // registered when a wake of everyone on their address took effect.
  datatype State = State(
    data: Shared,
    registry: Option<CallId>,
    locks: map<EntryId, CallId>,
    calls: map<CallId, Pc>,
    memory: map<Addr, int>,
    now: int,
    changed: set<CallId>,
    owed: set<CallId>)

  function Word(s: State, a: Addr): int {
    if a in s.memory then s.memory[a] else 0
  }

  function Goto(s: State, t: CallId, pc: Pc): State {
    s.(calls := s.calls[t := pc])
  }

  function Unlock(s: State, e: EntryId): State {
    s.(locks := s.locks - {e})
  }

  // The next lock the call needs, if any, is free.
  predicate CanStep(s: State, t: CallId) {
    && t in s.calls && !Finished(s.calls[t])
    && (WantsRegistry(s.calls[t]) ==> s.registry == None)
    && (WantsLock(s.calls[t]).Some? ==> WantsLock(s.calls[t]).value !in s.locks)
    && (HasEntry(s.calls[t]) ==> s.calls[t].e in s.data.waiters)
  }

  // The registered calls on an address.
  function Registered(s: State, a: Addr): set<CallId> {
    set t | t in s.calls && ListOf(s.calls[t]).Some? && AddrOf(s.calls[t]) == a
  }

  function Owe(s: State, a: Addr, count: nat): set<CallId> {
    if count == INT_MAX then s.owed + Registered(s, a) else s.owed
  }

  // The test at the head of the wait loop.
  function Check(s: State, t: CallId): State
    requires t in s.calls && s.calls[t].WaitCheck?
  {
    var pc := s.calls[t];
    if Word(s, pc.w.addr) != pc.w.expected then
      Goto(s, t, WaitLeaving(pc.w, pc.e, Ok)).(changed := s.changed + {t})
    else if t in s.data.wanted then Goto(s, t, WaitLeaving(pc.w, pc.e, Ok))
    else
      var slice := WaitSlice(pc.w.deadline, pc.first, s.now);
      if slice == UINT32_MAX || slice == 0 then Goto(s, t, WaitLeaving(pc.w, pc.e, TimedOut))
      else Unlock(Goto(s, t, WaitAsleep(pc.w, pc.e)), pc.e)
  }

  // The test after polling.
  function Recheck(s: State, t: CallId): State
    requires t in s.calls && s.calls[t].WaitRecheck?
  {
    var pc := s.calls[t];
    if Expired(pc.w.deadline, s.now) && Word(s, pc.w.addr) == pc.w.expected && t !in s.data.wanted then
      Goto(s, t, WaitLeaving(pc.w, pc.e, TimedOut))
    else Goto(s, t, WaitCheck(pc.w, pc.e, false))
  }

  // The first half of UnregisterPortableWaiter.
  function Leave(s: State, t: CallId): State
    requires t in s.calls && s.calls[t].WaitLeaving? && s.calls[t].e in s.data.waiters
  {
    var pc := s.calls[t];
    var d := Remove(s.data, pc.e, t);
    var left := if d.waiters[pc.e] == [] then WaitErasing(pc.w, pc.e, pc.result) else WaitDone(pc.w, pc.result);
    Unlock(Goto(s, t, left), pc.e).(data := d)
  }

  // Finding the entry, for a wake.
  function Find(s: State, t: CallId): State
    requires t in s.calls && s.calls[t].WakeStart?
  {
    var pc := s.calls[t];
    if pc.addr in s.data.entries then
      Goto(s, t, WakeLocking(pc.addr, pc.count, s.data.entries[pc.addr])).(registry := Some(t))
    else Goto(s, t, WakeDone(pc.addr, pc.count)).(owed := Owe(s, pc.addr, pc.count))
  }

  // Flagging the waiters of the entry.
  function FlagWaiters(s: State, t: CallId): State
    requires t in s.calls && s.calls[t].WakeFlagging? && s.calls[t].e in s.data.waiters
  {
    var pc := s.calls[t];
    var d := s.data.(wanted := Flag(s.data.waiters[pc.e], s.data.wanted, pc.count));
    Unlock(Goto(s, t, WakeDone(pc.addr, pc.count)), pc.e).(data := d, owed := Owe(s, pc.addr, pc.count))
  }

  // The next step of call t; `made` names the entry it may have to make.
  function Step(s: State, t: CallId, made: EntryId): State
    requires CanStep(s, t)
  {
    var pc := s.calls[t];
    match pc
    case WaitStart(w) =>
      var d := FindOrMake(s.data, w.addr, made);
      Goto(s, t, WaitLocking(w, d.entries[w.addr])).(data := d, registry := Some(t))
    case WaitLocking(w, e) =>
      Goto(s, t, WaitCheck(w, e, true)).(data := PushBack(s.data, e, t), registry := None, locks := s.locks[e := t])
    case WaitCheck(_, _, _) => Check(s, t)
    case WaitAsleep(w, e) => Goto(s, t, WaitWoken(w, e)).(locks := s.locks[e := t])
    case WaitWoken(w, e) => Unlock(Goto(s, t, WaitPolling(w, e)), e)
    case WaitPolling(w, e) => Goto(s, t, WaitRecheck(w, e)).(locks := s.locks[e := t])
    case WaitRecheck(_, _) => Recheck(s, t)
    case WaitLeaving(_, _, _) => Leave(s, t)
    case WaitErasing(w, e, r) => Goto(s, t, WaitErasingLocked(w, e, r)).(registry := Some(t))
    case WaitErasingLocked(w, e, r) =>
      Goto(s, t, WaitDone(w, r)).(data := EraseIfEmpty(s.data, w.addr, e), registry := None)
    case WakeStart(_, _) => Find(s, t)
    case WakeLocking(a, n, e) => Goto(s, t, WakeFlagging(a, n, e)).(registry := None, locks := s.locks[e := t])
    case WakeFlagging(_, _, _) => FlagWaiters(s, t)
    case WaitDone(_, _) => s
    case WakeDone(_, _) => s
  }

  function Store(s: State, a: Addr, v: int): State {
    s.(memory := s.memory[a := v])
  }

  function Later(s: State, time: int): State {
    s.(now := time)
  }

  // A step of a call, a new call, a store to memory, or the passing of time.
  ghost predicate Next(s: State, s': State) {
    || (exists t: CallId, made: EntryId :: CanStep(s, t) && made !in s.data.waiters && s' == Step(s, t, made))
    || (exists t: CallId, w: Wait :: t !in s.calls && s' == Goto(s, t, WaitStart(w)))
    || (exists t: CallId, a: Addr, n: nat :: t !in s.calls && 0 < n <= INT_MAX && s' == Goto(s, t, WakeStart(a, n)))
    || (exists a: Addr, v: int :: s' == Store(s, a, v))
    || (exists time: int :: time >= s.now && s' == Later(s, time))
  }

  ghost predicate Init(s: State) {
    s.data == Shared(map[], map[], map[], {}) && s.registry == None && s.locks == map[] && s.calls == map[]
      && s.changed == {} && s.owed == {}
  }

  /* ---- The invariant ---- */

  // Locks are held by exactly the calls at the places that hold them.
  ghost predicate LocksHeld(s: State) {
    && (forall t :: s.registry == Some(t) <==> t in s.calls && HoldsRegistry(s.calls[t]))
    && (forall e, t :: (e in s.locks && s.locks[e] == t) <==> (t in s.calls && LockOf(s.calls[t]) == Some(e)))
  }

  // A waiter is in exactly the list of the entry it registered with, once.
  ghost predicate ListsExact(s: State) {
    && (forall e :: e in s.data.waiters ==> Distinct(s.data.waiters[e]))
    && (forall e, t ::
      (e in s.data.waiters && t in s.data.waiters[e]) <==> (t in s.calls && ListOf(s.calls[t]) == Some(e)))
  }

  // Entries keep their address, and an entry that is in use is the one the registry holds.
  ghost predicate EntriesExact(d: Shared) {
    && d.home.Keys == d.waiters.Keys
    && (forall a :: a in d.entries ==> d.entries[a] in d.home && d.home[d.entries[a]] == a)
    && (forall e :: e in d.waiters && d.waiters[e] != [] ==>
      d.home[e] in d.entries && d.entries[d.home[e]] == e)
  }

  // Calls work on an entry of their address, and those that rely on it find it in the registry.
  ghost predicate CallsExact(s: State) {
    forall t :: t in s.calls ==> CallExact(s.data, s.calls[t])
  }

  ghost predicate CallExact(d: Shared, pc: Pc) {
    && (HasEntry(pc) ==> pc.e in d.home && pc.e in d.waiters && d.home[pc.e] == AddrOf(pc))
    && (Relies(pc) ==> AddrOf(pc) in d.entries && d.entries[AddrOf(pc)] == pc.e)
  }

  // A flagged call is still registered or returns OK; a call times out only if it was not flagged and
  // its deadline has passed; it returns OK only if it was flagged or saw its word changed.
  ghost predicate ResultSound(s: State, t: CallId) {
    && t in s.calls
    && (t in s.data.wanted ==> ListOf(s.calls[t]).Some? || Returns(s.calls[t], Ok))
    && (Returns(s.calls[t], TimedOut) ==> t !in s.data.wanted && Expired(s.calls[t].w.deadline, s.now))
    && (Returns(s.calls[t], Ok) ==> t in s.data.wanted || t in s.changed)
    && (s.calls[t].WakeStart? || s.calls[t].WakeLocking? || s.calls[t].WakeFlagging? ==> s.calls[t].count <= INT_MAX)
  }

  // Flags, results and the history agree.
  ghost predicate ResultsSound(s: State) {
    && s.owed <= s.data.wanted <= s.calls.Keys
    && (forall t :: t in s.calls ==> ResultSound(s, t))
  }

  ghost predicate Inv(s: State) {
    LocksHeld(s) && ListsExact(s) && EntriesExact(s.data) && CallsExact(s) && ResultsSound(s)
  }

  lemma InitInv(s: State)
    requires Init(s)
    ensures Inv(s)
  {
  }

  // Only call t moved.
  ghost predicate Moved(s: State, s': State, t: CallId) {
    t in s'.calls && s'.calls == s.calls[t := s'.calls[t]]
  }

  // A lock taken was free or already held by t, and a lock no longer needed was given back.
  lemma LocksAfter(s: State, s': State, t: CallId)
    requires LocksHeld(s) && t in s.calls && Moved(s, s', t)
    requires var p, p' := s.calls[t], s'.calls[t];
      && (HoldsRegistry(p') ==> s.registry in {None, Some(t)})
      && s'.registry == (if HoldsRegistry(p') then Some(t) else if HoldsRegistry(p) then None else s.registry)
      && (LockOf(p').Some? && LockOf(p') != LockOf(p) ==> LockOf(p').value !in s.locks)
      && s'.locks == (if LockOf(p') == LockOf(p) then s.locks
                      else if LockOf(p').Some? then s.locks[LockOf(p').value := t]
                      else s.locks - {LockOf(p).value})
      && (LockOf(p) == LockOf(p') || LockOf(p) == None || LockOf(p') == None)
    ensures LocksHeld(s')
  {
    hide HoldsRegistry, LockOf;
    RegistryAfter(s, s', t);
    forall e, u
      ensures (e in s'.locks && s'.locks[e] == u) <==> (u in s'.calls && LockOf(s'.calls[u]) == Some(e))
    {
      LockAfter(s, s', t, e, u);
    }
  }

  lemma RegistryAfter(s: State, s': State, t: CallId)
    requires LocksHeld(s) && t in s.calls && Moved(s, s', t)
    requires var p, p' := s.calls[t], s'.calls[t];
      && (HoldsRegistry(p') ==> s.registry in {None, Some(t)})
      && s'.registry == (if HoldsRegistry(p') then Some(t) else if HoldsRegistry(p) then None else s.registry)
    ensures forall u :: s'.registry == Some(u) <==> u in s'.calls && HoldsRegistry(s'.calls[u])
  {
    hide HoldsRegistry, LockOf;
  }

  lemma LockAfter(s: State, s': State, t: CallId, e: EntryId, u: CallId)
    requires LocksHeld(s) && t in s.calls && Moved(s, s', t)
    requires var p, p' := LockOf(s.calls[t]), LockOf(s'.calls[t]);
      && (p'.Some? && p' != p ==> p'.value !in s.locks)
      && s'.locks == (if p' == p then s.locks else if p'.Some? then s.locks[p'.value := t] else s.locks - {p.value})
      && (p == p' || p == None || p' == None)
    ensures (e in s'.locks && s'.locks[e] == u) <==> (u in s'.calls && LockOf(s'.calls[u]) == Some(e))
  {
    hide HoldsRegistry, LockOf;
  }

  lemma StepLocks(s: State, t: CallId, made: EntryId)
    requires LocksHeld(s) && CanStep(s, t)
    ensures LocksHeld(Step(s, t, made))
  {
    hide *;
    Unfinished(s, t);
    if InLoop(s.calls[t]) {
      StepLocksInLoop(s, t, made);
    } else {
      StepLocksLater(s, t, made);
    }
  }

  lemma StepLocksInLoop(s: State, t: CallId, made: EntryId)
    requires LocksHeld(s) && CanStep(s, t)
    requires InLoop(s.calls[t])
    ensures LocksHeld(Step(s, t, made))
  {
    hide LocksHeld, Check, Recheck, Leave, Find, FlagWaiters, FindOrMake, PushBack, EraseIfEmpty;
    if s.calls[t].WaitCheck? {
      CheckMoves(s, t);
    } else if s.calls[t].WaitRecheck? {
      RecheckMoves(s, t);
    }
    HolderKnown(s, t);
    LocksAfter(s, Step(s, t, made), t);
  }

  lemma StepLocksLater(s: State, t: CallId, made: EntryId)
    requires LocksHeld(s) && CanStep(s, t)
    requires !InLoop(s.calls[t])
    ensures LocksHeld(Step(s, t, made))
  {
    hide LocksHeld, Flag, Without, WaitSlice, Owe, Registered, Distinct;
    HolderKnown(s, t);
    LocksAfter(s, Step(s, t, made), t);
  }

  lemma HolderKnown(s: State, t: CallId)
    requires LocksHeld(s) && t in s.calls
    ensures HoldsRegistry(s.calls[t]) ==> s.registry == Some(t)
    ensures LockOf(s.calls[t]).Some? ==> LockOf(s.calls[t]).value in s.locks
  {
  }

  // A call joins a list at its end, leaves it, or stays where it is; new lists are empty.
  lemma ListsAfter(s: State, s': State, t: CallId)
    requires ListsExact(s) && t in s.calls && Moved(s, s', t)
    requires var p, p', l, l' := s.calls[t], s'.calls[t], s.data.waiters, s'.data.waiters;
      if ListOf(p') == ListOf(p) then
        (forall e :: e in l ==> e in l' && l'[e] == l[e]) && (forall e :: e in l' && e !in l ==> l'[e] == [])
      else if ListOf(p) == None then
        ListOf(p').value in l && l' == l[ListOf(p').value := l[ListOf(p').value] + [t]]
      else
        ListOf(p') == None && ListOf(p).value in l && l' == l[ListOf(p).value := Without(l[ListOf(p).value], t)]
    ensures ListsExact(s')
  {
    hide ListOf, Without;
    var p, p' := ListOf(s.calls[t]), ListOf(s'.calls[t]);
    if p == p' {
      ListsKept(s, s', t);
    } else if p == None {
      ListJoined(s, s', t, p'.value);
    } else {
      ListLeft(s, s', t, p.value);
    }
  }

  lemma ListsKept(s: State, s': State, t: CallId)
    requires ListsExact(s) && t in s.calls && Moved(s, s', t) && ListOf(s'.calls[t]) == ListOf(s.calls[t])
    requires var l, l' := s.data.waiters, s'.data.waiters;
      (forall e :: e in l ==> e in l' && l'[e] == l[e]) && (forall e :: e in l' && e !in l ==> l'[e] == [])
    ensures ListsExact(s')
  {
    hide ListOf;
  }

  lemma ListJoined(s: State, s': State, t: CallId, e: EntryId)
    requires ListsExact(s) && t in s.calls && Moved(s, s', t)
    requires ListOf(s.calls[t]) == None && ListOf(s'.calls[t]) == Some(e) && e in s.data.waiters
    requires s'.data.waiters == s.data.waiters[e := s.data.waiters[e] + [t]]
    ensures ListsExact(s')
  {
    hide ListOf;
    assert t !in s.data.waiters[e];
  }

  lemma ListLeft(s: State, s': State, t: CallId, e: EntryId)
    requires ListsExact(s) && t in s.calls && Moved(s, s', t)
    requires ListOf(s.calls[t]) == Some(e) && ListOf(s'.calls[t]) == None && e in s.data.waiters
    requires s'.data.waiters == s.data.waiters[e := Without(s.data.waiters[e], t)]
    ensures ListsExact(s')
  {
    hide ListOf, Without;
    WithoutContents(s.data.waiters[e], t);
  }

  lemma StepLists(s: State, t: CallId, made: EntryId)
    requires ListsExact(s) && CallsExact(s) && CanStep(s, t) && made !in s.data.waiters
    ensures ListsExact(Step(s, t, made))
  {
    hide *;
    Unfinished(s, t);
    if InLoop(s.calls[t]) {
      StepListsInLoop(s, t, made);
    } else {
      StepListsLater(s, t, made);
    }
  }

  lemma StepListsInLoop(s: State, t: CallId, made: EntryId)
    requires ListsExact(s) && CallsExact(s) && CanStep(s, t) && made !in s.data.waiters
    requires InLoop(s.calls[t])
    ensures ListsExact(Step(s, t, made))
  {
    hide ListsExact, CallsExact, Check, Recheck, Leave, Find, FlagWaiters, EraseIfEmpty, WantsLock, WantsRegistry,
      Relies;
    if s.calls[t].WaitCheck? {
      CheckMoves(s, t);
    } else if s.calls[t].WaitRecheck? {
      RecheckMoves(s, t);
    }
    CallOf(s, t);
    ListsAfter(s, Step(s, t, made), t);
  }

  lemma StepListsLater(s: State, t: CallId, made: EntryId)
    requires ListsExact(s) && CallsExact(s) && CanStep(s, t) && made !in s.data.waiters
    requires !InLoop(s.calls[t])
    ensures ListsExact(Step(s, t, made))
  {
    hide ListsExact, CallsExact, Flag, Without, WaitSlice, Owe, Registered, Distinct, Word, Expired, WantsLock,
      WantsRegistry, Relies;
    CallOf(s, t);
    ListsAfter(s, Step(s, t, made), t);
  }

  lemma StepEntries(s: State, t: CallId, made: EntryId)
    requires EntriesExact(s.data) && CallsExact(s) && CanStep(s, t) && made !in s.data.waiters
    ensures EntriesExact(Step(s, t, made).data)
  {
    hide *;
    Unfinished(s, t);
    if InLoop(s.calls[t]) {
      StepEntriesInLoop(s, t, made);
    } else {
      StepEntriesLater(s, t, made);
    }
  }

  lemma StepEntriesInLoop(s: State, t: CallId, made: EntryId)
    requires EntriesExact(s.data) && CallsExact(s) && CanStep(s, t) && made !in s.data.waiters
    requires InLoop(s.calls[t])
    ensures EntriesExact(Step(s, t, made).data)
  {
    hide Flag, WaitSlice, Owe, Registered, Distinct;
    assert CallExact(s.data, s.calls[t]);
  }

  lemma StepEntriesLater(s: State, t: CallId, made: EntryId)
    requires EntriesExact(s.data) && CallsExact(s) && CanStep(s, t) && made !in s.data.waiters
    requires !InLoop(s.calls[t])
    ensures EntriesExact(Step(s, t, made).data)
  {
    hide Flag, WaitSlice, Owe, Registered, Distinct;
    assert CallExact(s.data, s.calls[t]);
  }

  // No entry loses its address or its place in the registry.
  ghost predicate Keeps(d: Shared, d': Shared) {
    && (forall e :: e in d.home ==> e in d'.home && d'.home[e] == d.home[e])
    && (forall e :: e in d.waiters ==> e in d'.waiters)
    && (forall a :: a in d.entries ==> a in d'.entries && d'.entries[a] == d.entries[a])
  }

  lemma StepKeeps(s: State, t: CallId, made: EntryId)
    requires EntriesExact(s.data) && CallsExact(s) && CanStep(s, t) && made !in s.data.waiters
    requires !s.calls[t].WaitErasingLocked?
    ensures Keeps(s.data, Step(s, t, made).data)
  {
    hide Flag, Without, WaitSlice, Owe, Registered, Distinct;
    assert CallExact(s.data, s.calls[t]);
  }

  lemma StepOwnCall(s: State, t: CallId, made: EntryId)
    requires EntriesExact(s.data) && CallsExact(s) && CanStep(s, t) && made !in s.data.waiters
    ensures t in Step(s, t, made).calls && CallExact(Step(s, t, made).data, Step(s, t, made).calls[t])
  {
    hide *;
    Unfinished(s, t);
    if InLoop(s.calls[t]) {
      StepOwnCallInLoop(s, t, made);
    } else {
      StepOwnCallLater(s, t, made);
    }
  }

  lemma StepOwnCallInLoop(s: State, t: CallId, made: EntryId)
    requires EntriesExact(s.data) && CallsExact(s) && CanStep(s, t) && made !in s.data.waiters
    requires InLoop(s.calls[t])
    ensures t in Step(s, t, made).calls && CallExact(Step(s, t, made).data, Step(s, t, made).calls[t])
  {
    hide CallsExact, EntriesExact, Step, CanStep;
    Unfinished(s, t);
    CallOf(s, t);
    FoundEntry(s.data, AddrOf(s.calls[t]), made);
    if s.calls[t].WaitStart? || s.calls[t].WaitLocking? {
      StepEnters(s, t, made);
    } else {
      StepLoops(s, t, made);
    }
  }

  // Entering the loop makes the entry, and then joins its list.
  lemma StepEnters(s: State, t: CallId, made: EntryId)
    requires CanStep(s, t) && (s.calls[t].WaitStart? || s.calls[t].WaitLocking?)
    ensures var s', pc := Step(s, t, made), s.calls[t];
      t in s'.calls && if pc.WaitStart? then
        var d := FindOrMake(s.data, pc.w.addr, made);
        s'.data == d && s'.calls[t] == WaitLocking(pc.w, d.entries[pc.w.addr])
      else
        s'.data == PushBack(s.data, pc.e, t) && s'.calls[t] == WaitCheck(pc.w, pc.e, true)
  {
    hide FindOrMake, PushBack;
  }

  // Inside the loop the lists and the registry stay as they are.
  lemma StepLoops(s: State, t: CallId, made: EntryId)
    requires CanStep(s, t) && InLoop(s.calls[t]) && !s.calls[t].WaitStart? && !s.calls[t].WaitLocking?
    ensures var s' := Step(s, t, made);
      && s'.data == s.data && t in s'.calls && HasEntry(s'.calls[t]) && !Relies(s'.calls[t]) && IsWait(s'.calls[t])
      && s'.calls[t].e == s.calls[t].e && s'.calls[t].w == s.calls[t].w
  {
    hide Check, Recheck, Leave, Find, FlagWaiters, FindOrMake, PushBack, EraseIfEmpty, WantsLock, WantsRegistry;
    if s.calls[t].WaitCheck? {
      CheckMoves(s, t);
    } else if s.calls[t].WaitRecheck? {
      RecheckMoves(s, t);
    }
  }

  // The two tests of the loop change no list and no flag.
  lemma CheckMoves(s: State, t: CallId)
    requires t in s.calls && s.calls[t].WaitCheck?
    ensures var s', pc := Check(s, t), s.calls[t];
      && s'.data == s.data && Moved(s, s', t) && s'.now == s.now && s'.owed == s.owed && s.changed <= s'.changed
      && s'.registry == s.registry && (s'.calls[t].WaitAsleep? || s'.calls[t].WaitLeaving?)
      && s'.calls[t].e == pc.e && s'.calls[t].w == pc.w
      && (s'.calls[t].WaitAsleep? ==> Word(s, pc.w.addr) == pc.w.expected)
      && s'.locks == if s'.calls[t].WaitAsleep? then s.locks - {pc.e} else s.locks
  {
    hide WaitSlice, Word, Expired;
  }

  lemma RecheckMoves(s: State, t: CallId)
    requires t in s.calls && s.calls[t].WaitRecheck?
    ensures var s', pc := Recheck(s, t), s.calls[t];
      && s' == Goto(s, t, s'.calls[t]) && (s'.calls[t] == WaitCheck(pc.w, pc.e, false)
        || (s'.calls[t] == WaitLeaving(pc.w, pc.e, TimedOut) && Expired(pc.w.deadline, s.now)
            && t !in s.data.wanted))
  {
    hide WaitSlice, Word, Expired;
  }

  lemma StepOwnCallLater(s: State, t: CallId, made: EntryId)
    requires EntriesExact(s.data) && CallsExact(s) && CanStep(s, t) && made !in s.data.waiters
    requires !InLoop(s.calls[t])
    ensures t in Step(s, t, made).calls && CallExact(Step(s, t, made).data, Step(s, t, made).calls[t])
  {
    hide CallsExact, EntriesExact, Flag, Without, WaitSlice, Owe, Registered, Distinct, Word, Expired,
      WantsLock, WantsRegistry;
    CallOf(s, t);
    FoundEntry(s.data, AddrOf(s.calls[t]), made);
  }

  lemma FoundEntry(d: Shared, a: Addr, made: EntryId)
    requires EntriesExact(d) && made !in d.waiters
    ensures var d' := FindOrMake(d, a, made);
      a in d'.entries && d'.entries[a] in d'.home && d'.entries[a] in d'.waiters && d'.home[d'.entries[a]] == a
    ensures a in d.entries ==> d.entries[a] in d.home && d.entries[a] in d.waiters && d.home[d.entries[a]] == a
  {
  }

  lemma CallOf(s: State, t: CallId)
    requires CallsExact(s) && t in s.calls
    ensures CallExact(s.data, s.calls[t])
  {
  }

  lemma OtherCall(s: State, t: CallId, made: EntryId, u: CallId)
    requires LocksHeld(s) && EntriesExact(s.data) && CallsExact(s) && CanStep(s, t) && made !in s.data.waiters
    requires u in s.calls && u != t
    ensures CallExact(Step(s, t, made).data, s.calls[u])
  {
    hide LocksHeld, EntriesExact, CallsExact, Step, CanStep;
    Unfinished(s, t);
    CallOf(s, u);
    if s.calls[t].WaitErasingLocked? {
      NoOneRelies(s, t, u);
      ErasingStep(s, t, made);
    } else {
      StepKeeps(s, t, made);
    }
  }

  lemma ErasingStep(s: State, t: CallId, made: EntryId)
    requires CanStep(s, t) && s.calls[t].WaitErasingLocked?
    ensures Step(s, t, made).data == EraseIfEmpty(s.data, s.calls[t].w.addr, s.calls[t].e)
  {
  }

  // Nothing that a call relies on is taken away: entries are only added, except for the one that is
  // erased while no call relies on it.
  lemma StepCalls(s: State, t: CallId, made: EntryId)
    requires LocksHeld(s) && EntriesExact(s.data) && CallsExact(s) && CanStep(s, t) && made !in s.data.waiters
    ensures CallsExact(Step(s, t, made))
  {
    hide LocksHeld, EntriesExact, CallExact, Step, CanStep;
    var s' := Step(s, t, made);
    StepKeys(s, t, made);
    StepMoves(s, t, made);
    forall u | u in s'.calls
      ensures CallExact(s'.data, s'.calls[u])
    {
      if u == t {
        StepOwnCall(s, t, made);
      } else {
        OtherCall(s, t, made, u);
      }
    }
  }

  lemma StepMoves(s: State, t: CallId, made: EntryId)
    requires CanStep(s, t)
    ensures Moved(s, Step(s, t, made), t)
  {
    hide Flag, Without, WaitSlice, Owe, Registered, Distinct, FindOrMake, EraseIfEmpty;
  }

  // While a call erases entry e under both locks, no other call relies on e.
  lemma NoOneRelies(s: State, t: CallId, u: CallId)
    requires LocksHeld(s) && CanStep(s, t) && s.calls[t].WaitErasingLocked? && u in s.calls && u != t
    ensures !(Relies(s.calls[u]) && s.calls[u].e == s.calls[t].e)
  {
  }

  // Every call registered on the address of an entry in the registry is in that entry's list.
  lemma RegisteredInList(s: State, a: Addr, u: CallId)
    requires ListsExact(s) && EntriesExact(s.data) && CallsExact(s) && u in Registered(s, a)
    ensures a in s.data.entries && u in s.data.waiters[s.data.entries[a]]
  {
    assert CallExact(s.data, s.calls[u]);
    var e := ListOf(s.calls[u]).value;
    assert u in s.data.waiters[e];
  }

  // What a wake owes, it has flagged.
  lemma OwedAreFlagged(s: State, t: CallId)
    requires Inv(s) && CanStep(s, t) && s.calls[t].WakeFlagging?
    ensures Owe(s, s.calls[t].addr, s.calls[t].count) <= FlagWaiters(s, t).data.wanted
  {
    hide Flag;
    var pc := s.calls[t];
    assert CallExact(s.data, pc);
    FlagBounds(s.data.waiters[pc.e], s.data.wanted, pc.count);
    if pc.count == INT_MAX {
      FlagAll(s.data.waiters[pc.e], s.data.wanted);
      forall u | u in Registered(s, pc.addr)
        ensures u in FlagWaiters(s, t).data.wanted
      {
        RegisteredInList(s, pc.addr, u);
      }
    }
  }

  lemma NothingOwed(s: State, t: CallId)
    requires Inv(s) && CanStep(s, t) && s.calls[t].WakeStart? && s.calls[t].addr !in s.data.entries
    ensures Registered(s, s.calls[t].addr) == {}
  {
    forall u | u in Registered(s, s.calls[t].addr)
      ensures false
    {
      RegisteredInList(s, s.calls[t].addr, u);
    }
  }

  // Flags go only to calls that are registered.
  lemma FlaggedAreRegistered(s: State, t: CallId, u: CallId)
    requires Inv(s) && CanStep(s, t) && s.calls[t].WakeFlagging?
    requires u in FlagWaiters(s, t).data.wanted && u !in s.data.wanted
    ensures u in s.calls && ListOf(s.calls[u]) == Some(s.calls[t].e) && u != t && !Returns(s.calls[u], TimedOut)
  {
    hide Flag, EntriesExact, CallsExact, ResultsSound, WantsLock, WantsRegistry;
    var pc := s.calls[t];
    FlagBounds(s.data.waiters[pc.e], s.data.wanted, pc.count);
    assert u in s.data.waiters[pc.e];
    assert s.locks[pc.e] == t;
  }

  lemma StepOwed(s: State, t: CallId, made: EntryId)
    requires Inv(s) && CanStep(s, t) && made !in s.data.waiters
    ensures var s' := Step(s, t, made); s'.owed <= s'.data.wanted <= s'.calls.Keys
  {
    hide LocksHeld, ListsExact, EntriesExact, CallsExact, ResultSound, Flag, Without, Registered, Distinct, Step;
    StepKeys(s, t, made);
    StepFrame(s, t, made);
    OwedFrame(s, t, made);
    var pc := s.calls[t];
    if pc.WakeFlagging? {
      OwedAreFlagged(s, t);
      FlagBounds(s.data.waiters[pc.e], s.data.wanted, pc.count);
      InListKnown(s, pc.e);
    } else if pc.WakeStart? && pc.addr !in s.data.entries {
      NothingOwed(s, t);
    }
  }

  lemma InListKnown(s: State, e: EntryId)
    requires ListsExact(s) && e in s.data.waiters
    ensures forall u :: u in s.data.waiters[e] ==> u in s.calls
  {
  }

  // Only a wake that takes effect owes anything new.
  lemma OwedFrame(s: State, t: CallId, made: EntryId)
    requires CanStep(s, t)
    ensures !s.calls[t].WakeFlagging? ==> (Step(s, t, made).owed ==
      if s.calls[t].WakeStart? && s.calls[t].addr !in s.data.entries then Owe(s, s.calls[t].addr, s.calls[t].count)
      else s.owed)
  {
    hide Flag, Without, Owe, Registered, WaitSlice, Expired, Word, FindOrMake, PushBack, Remove, EraseIfEmpty;
  }

  lemma ResultOf(s: State, t: CallId)
    requires Inv(s) && t in s.calls
    ensures ResultSound(s, t)
  {
    hide LocksHeld, ListsExact, EntriesExact, CallsExact;
  }

  lemma StepOwnResult(s: State, t: CallId, made: EntryId)
    requires Inv(s) && CanStep(s, t)
    ensures ResultSound(Step(s, t, made), t)
  {
    hide *;
    Unfinished(s, t);
    if InLoop(s.calls[t]) {
      StepOwnResultInLoop(s, t, made);
    } else {
      StepOwnResultLater(s, t, made);
    }
  }

  lemma StepOwnResultInLoop(s: State, t: CallId, made: EntryId)
    requires Inv(s) && CanStep(s, t)
    requires InLoop(s.calls[t])
    ensures ResultSound(Step(s, t, made), t)
  {
    hide Inv, Check, Recheck, Leave, Find, FlagWaiters, Expired, FindOrMake, PushBack, EraseIfEmpty, WantsLock,
      WantsRegistry;
    ResultOf(s, t);
    StepFrame(s, t, made);
    if s.calls[t].WaitCheck? {
      CheckMoves(s, t);
      CheckResult(s, t);
    } else if s.calls[t].WaitRecheck? {
      RecheckMoves(s, t);
    }
  }

  lemma CheckResult(s: State, t: CallId)
    requires t in s.calls && s.calls[t].WaitCheck?
    ensures var s', pc := Check(s, t), s.calls[t]; t in s'.calls && (s'.calls[t].WaitLeaving? ==>
      if s'.calls[t].result == Ok then t in s.data.wanted || t in s'.changed
      else t !in s.data.wanted && Expired(pc.w.deadline, s.now))
  {
    hide WaitSlice, Expired, Word;
    WaitSliceMeaning(s.calls[t].w.deadline, s.calls[t].first, s.now);
  }

  lemma StepOwnResultLater(s: State, t: CallId, made: EntryId)
    requires Inv(s) && CanStep(s, t)
    requires !InLoop(s.calls[t])
    ensures ResultSound(Step(s, t, made), t)
  {
    hide Inv, Without, Owe, Registered, EraseIfEmpty, WantsLock, WantsRegistry;
    var pc := s.calls[t];
    ResultOf(s, t);
    StepFrame(s, t, made);
    if pc.WakeFlagging? {
      WakerNotFlagged(s, t);
    }
  }

  lemma WakerNotFlagged(s: State, t: CallId)
    requires Inv(s) && CanStep(s, t) && s.calls[t].WakeFlagging?
    ensures t !in FlagWaiters(s, t).data.wanted
  {
    hide Flag;
    assert ResultSound(s, t);
    if t in FlagWaiters(s, t).data.wanted && t !in s.data.wanted {
      FlaggedAreRegistered(s, t, t);
    }
  }

  // What a step changes besides the call itself.
  lemma StepFrame(s: State, t: CallId, made: EntryId)
    requires CanStep(s, t)
    ensures var s' := Step(s, t, made); s'.now == s.now && s.changed <= s'.changed
    ensures !s.calls[t].WakeFlagging? ==> Step(s, t, made).data.wanted == s.data.wanted
    ensures s.calls[t].WakeFlagging? ==> Step(s, t, made) == FlagWaiters(s, t)
  {
    hide *;
    Unfinished(s, t);
    if InLoop(s.calls[t]) {
      StepFrameInLoop(s, t, made);
    } else {
      StepFrameLater(s, t, made);
    }
  }

  lemma StepFrameInLoop(s: State, t: CallId, made: EntryId)
    requires CanStep(s, t)
    requires InLoop(s.calls[t])
    ensures var s' := Step(s, t, made); s'.now == s.now && s.changed <= s'.changed
    ensures !s.calls[t].WakeFlagging? ==> Step(s, t, made).data.wanted == s.data.wanted
    ensures s.calls[t].WakeFlagging? ==> Step(s, t, made) == FlagWaiters(s, t)
  {
    hide Flag, Without, Owe, Registered, WaitSlice, Expired, Word;
  }

  lemma StepFrameLater(s: State, t: CallId, made: EntryId)
    requires CanStep(s, t)
    requires !InLoop(s.calls[t])
    ensures var s' := Step(s, t, made); s'.now == s.now && s.changed <= s'.changed
    ensures !s.calls[t].WakeFlagging? ==> Step(s, t, made).data.wanted == s.data.wanted
    ensures s.calls[t].WakeFlagging? ==> Step(s, t, made) == FlagWaiters(s, t)
  {
    hide Flag, Without, Owe, Registered, WaitSlice, Expired, Word;
  }

  lemma StepResult(s: State, t: CallId, made: EntryId, u: CallId)
    requires Inv(s) && CanStep(s, t) && made !in s.data.waiters && u in s.calls
    ensures ResultSound(Step(s, t, made), u)
  {
    hide LocksHeld, ListsExact, EntriesExact, CallsExact, Step, CanStep, FlagWaiters;
    if u == t {
      StepOwnResult(s, t, made);
    } else {
      assert ResultSound(s, u);
      Unfinished(s, t);
      StepMoves(s, t, made);
      StepFrame(s, t, made);
      if s.calls[t].WakeFlagging? {
        StepMonotone(s, t, made);
        if u in Step(s, t, made).data.wanted && u !in s.data.wanted {
          FlaggedAreRegistered(s, t, u);
        }
      }
    }
  }

  lemma StepResults(s: State, t: CallId, made: EntryId)
    requires Inv(s) && CanStep(s, t) && made !in s.data.waiters
    ensures ResultsSound(Step(s, t, made))
  {
    hide Inv, ResultSound, Step, CanStep;
    var s' := Step(s, t, made);
    StepKeys(s, t, made);
    StepOwed(s, t, made);
    forall u | u in s'.calls
      ensures ResultSound(s', u)
    {
      StepResult(s, t, made, u);
    }
  }

  lemma StepKeys(s: State, t: CallId, made: EntryId)
    requires CanStep(s, t)
    ensures Step(s, t, made).calls.Keys == s.calls.Keys
  {
    hide Step, CanStep;
    Unfinished(s, t);
    StepMoves(s, t, made);
  }

  /* ---- Whole runs ---- */

  lemma StepInv(s: State, t: CallId, made: EntryId)
    requires Inv(s) && CanStep(s, t) && made !in s.data.waiters
    ensures Inv(Step(s, t, made))
  {
    hide LocksHeld, ListsExact, EntriesExact, CallsExact, ResultsSound, Step, CanStep;
    StepLocks(s, t, made);
    StepLists(s, t, made);
    StepEntries(s, t, made);
    StepCalls(s, t, made);
    StepResults(s, t, made);
  }

  lemma CallInv(s: State, t: CallId, pc: Pc)
    requires Inv(s) && t !in s.calls
    requires pc.WaitStart? || (pc.WakeStart? && pc.count <= INT_MAX)
    ensures Inv(Goto(s, t, pc))
  {
    hide LocksHeld, ListsExact, EntriesExact, CallExact, ResultSound;
    CallLocks(s, t, pc);
    CallLists(s, t, pc);
    var s' := Goto(s, t, pc);
    forall u | u in s'.calls
      ensures CallExact(s'.data, s'.calls[u]) && ResultSound(s', u)
    {
      CallKeepsOthers(s, t, pc, u);
    }
  }

  lemma CallLocks(s: State, t: CallId, pc: Pc)
    requires LocksHeld(s) && t !in s.calls && (pc.WaitStart? || pc.WakeStart?)
    ensures LocksHeld(Goto(s, t, pc))
  {
  }

  lemma CallLists(s: State, t: CallId, pc: Pc)
    requires ListsExact(s) && t !in s.calls && (pc.WaitStart? || pc.WakeStart?)
    ensures ListsExact(Goto(s, t, pc))
  {
    hide Distinct;
  }

  lemma CallKeepsOthers(s: State, t: CallId, pc: Pc, u: CallId)
    requires Inv(s) && t !in s.calls && (u == t || u in s.calls)
    requires pc.WaitStart? || (pc.WakeStart? && pc.count <= INT_MAX)
    ensures CallExact(Goto(s, t, pc).data, Goto(s, t, pc).calls[u]) && ResultSound(Goto(s, t, pc), u)
  {
    hide Distinct, EntriesExact, ListsExact, LocksHeld;
    if u != t {
      assert CallExact(s.data, s.calls[u]) && ResultSound(s, u);
    }
  }

  lemma TimeInv(s: State, s': State)
    requires Inv(s) && s' == s.(memory := s'.memory, now := s'.now) && s'.now >= s.now
    ensures Inv(s')
  {
    hide Distinct, CallExact;
    forall u | u in s'.calls
      ensures ResultSound(s', u)
    {
      assert ResultSound(s, u);
    }
  }

  // A run from the start.
  ghost predicate Reachable(run: seq<State>) {
    && |run| > 0 && Init(run[0])
    && (forall i :: 0 <= i < |run| - 1 ==> Next(run[i], run[i + 1]))
  }

  lemma NextInv(s: State, s': State)
    requires Inv(s) && Next(s, s')
    ensures Inv(s')
  {
    hide Inv, Step, CanStep;
    if t: CallId, made: EntryId :| CanStep(s, t) && made !in s.data.waiters && s' == Step(s, t, made) {
      StepInv(s, t, made);
    } else if t: CallId, w: Wait :| t !in s.calls && s' == Goto(s, t, WaitStart(w)) {
      CallInv(s, t, WaitStart(w));
    } else if t: CallId, a: Addr, n: nat :| t !in s.calls && 0 < n <= INT_MAX && s' == Goto(s, t, WakeStart(a, n)) {
      CallInv(s, t, WakeStart(a, n));
    } else {
      TimeInv(s, s');
    }
  }

  lemma {:induction false} RunInv(run: seq<State>, i: nat)
    requires Reachable(run) && i < |run|
    ensures Inv(run[i])
    decreases i
  {
    hide Inv, Next, Init;
    if i == 0 {
      InitInv(run[0]);
    } else {
      RunInv(run, i - 1);
      NextInv(run[i - 1], run[i]);
    }
  }

  /* ---- What holds in every run ---- */

  // Two entries for one address never both have waiters.
  lemma OneEntryInUse(run: seq<State>, i: nat, e: EntryId, f: EntryId)
    requires Reachable(run) && i < |run|
    requires var d := run[i].data;
      e in d.waiters && f in d.waiters && d.waiters[e] != [] && d.waiters[f] != []
      && e in d.home && f in d.home && d.home[e] == d.home[f]
    ensures e == f && run[i].data.home[e] in run[i].data.entries && run[i].data.entries[run[i].data.home[e]] == e
  {
    hide Reachable, LocksHeld, ListsExact, CallsExact, ResultsSound;
    RunInv(run, i);
  }

  // A call that has returned is in no waiter list and holds no lock.
  lemma ReturnedLeavesNothing(run: seq<State>, i: nat, t: CallId, e: EntryId)
    requires Reachable(run) && i < |run| && t in run[i].calls && Finished(run[i].calls[t])
    ensures e in run[i].data.waiters ==> t !in run[i].data.waiters[e]
    ensures e in run[i].locks ==> run[i].locks[e] != t
    ensures run[i].registry != Some(t)
  {
    hide Reachable, EntriesExact, CallsExact, ResultsSound;
    RunInv(run, i);
  }

  // A call that needs the registry lock holds no entry lock.
  lemma LockOrder(run: seq<State>, i: nat, t: CallId, e: EntryId)
    requires Reachable(run) && i < |run| && t in run[i].calls && WantsRegistry(run[i].calls[t])
    ensures e in run[i].locks ==> run[i].locks[e] != t
  {
    hide Reachable, ListsExact, EntriesExact, CallsExact, ResultsSound;
    RunInv(run, i);
  }

  // The locks never deadlock: while some call has not returned, some call can take a step.
  lemma NoDeadlock(run: seq<State>, i: nat, t: CallId) returns (u: CallId)
    requires Reachable(run) && i < |run| && t in run[i].calls && !Finished(run[i].calls[t])
    ensures CanStep(run[i], u)
  {
    hide Reachable, ListsExact, ResultsSound, EntriesExact, CallsExact;
    RunInv(run, i);
    var s := run[i];
    if e :| e in s.locks {
      u := s.locks[e];
    } else if s.registry.Some? {
      u := s.registry.value;
    } else {
      u := t;
    }
    CallOf(s, u);
  }

  // A result is final, a flag is never cleared, and what is owed stays owed.
  lemma NextKeeps(s: State, s': State, t: CallId)
    requires Inv(s) && Next(s, s')
    ensures s.data.wanted <= s'.data.wanted && s.owed <= s'.owed
    ensures t in s.calls && Finished(s.calls[t]) ==> t in s'.calls && s'.calls[t] == s.calls[t]
  {
    hide Inv, Flag, Step, CanStep;
    if u: CallId, made: EntryId :| CanStep(s, u) && made !in s.data.waiters && s' == Step(s, u, made) {
      StepMonotone(s, u, made);
      StepMoves(s, u, made);
      Unfinished(s, u);
    }
  }

  lemma Unfinished(s: State, u: CallId)
    requires CanStep(s, u)
    ensures u in s.calls && !Finished(s.calls[u])
  {
  }

  lemma StepMonotone(s: State, u: CallId, made: EntryId)
    requires CanStep(s, u)
    ensures s.data.wanted <= Step(s, u, made).data.wanted && s.owed <= Step(s, u, made).owed
  {
    hide Flag, Without, WaitSlice, Registered, Distinct;
    if s.calls[u].WakeFlagging? {
      FlagBounds(s.data.waiters[s.calls[u].e], s.data.wanted, s.calls[u].count);
    }
  }

  lemma {:induction false} RunKeeps(run: seq<State>, i: nat, j: nat)
    requires Reachable(run) && i <= j < |run|
    ensures run[i].data.wanted <= run[j].data.wanted && run[i].owed <= run[j].owed
    decreases j
  {
    hide Inv, Next, Init;
    if i < j {
      RunKeeps(run, i, j - 1);
      RunInv(run, j - 1);
      NextKeeps(run[j - 1], run[j], 0);
    }
  }

  // A flagged call returns OK, never ETIMEDOUT.
  lemma FlaggedReturnsOk(run: seq<State>, i: nat, j: nat, t: CallId)
    requires Reachable(run) && i <= j < |run| && t in run[i].data.wanted
    ensures t in run[j].calls
    ensures run[j].calls[t].WaitDone? ==> run[j].calls[t].result == Ok
  {
    hide Reachable, LocksHeld, ListsExact, EntriesExact, CallsExact;
    RunKeeps(run, i, j);
    RunInv(run, j);
    assert ResultSound(run[j], t);
  }

  /* ---- Why a call returned ---- */

  // In state s call t looks at its word and has a reason to return r.
  predicate Decides(s: State, t: CallId, r: Result) {
    t in s.calls && match r
      case Ok => s.calls[t].WaitCheck? && (Word(s, s.calls[t].w.addr) != s.calls[t].w.expected || t in s.data.wanted)
      case TimedOut =>
        && (s.calls[t].WaitCheck? || s.calls[t].WaitRecheck?) && Word(s, s.calls[t].w.addr) == s.calls[t].w.expected
        && t !in s.data.wanted && Expired(s.calls[t].w.deadline, s.now)
  }

  // The test of the loop ends it exactly for a changed word, a flag or a passed deadline, in this order.
  lemma CheckDecides(s: State, t: CallId)
    requires t in s.calls && s.calls[t].WaitCheck?
    ensures var s', pc := Check(s, t), s.calls[t];
      && t in s'.calls && s'.data == s.data
      && if Word(s, pc.w.addr) != pc.w.expected || t in s.data.wanted then s'.calls[t] == WaitLeaving(pc.w, pc.e, Ok)
        else if Expired(pc.w.deadline, s.now) then s'.calls[t] == WaitLeaving(pc.w, pc.e, TimedOut)
        else s'.calls[t] == WaitAsleep(pc.w, pc.e) && pc.e !in s'.locks
  {
    hide WaitSlice, Expired, Word;
    WaitSliceMeaning(s.calls[t].w.deadline, s.calls[t].first, s.now);
  }

  // The test after polling ends it exactly for a passed deadline, without a flag and with the word unchanged.
  lemma RecheckDecides(s: State, t: CallId)
    requires t in s.calls && s.calls[t].WaitRecheck?
    ensures var s', pc := Recheck(s, t), s.calls[t];
      && t in s'.calls && s'.data == s.data && s'.calls[t] ==
        if Expired(pc.w.deadline, s.now) && Word(s, pc.w.addr) == pc.w.expected && t !in s.data.wanted
        then WaitLeaving(pc.w, pc.e, TimedOut) else WaitCheck(pc.w, pc.e, false)
  {
    hide Expired, Word;
  }

  lemma StepDecides(s: State, t: CallId, made: EntryId, r: Result)
    requires CanStep(s, t) && t in Step(s, t, made).calls && Returns(Step(s, t, made).calls[t], r)
    ensures Returns(s.calls[t], r) || Decides(s, t, r)
    ensures IsWait(s.calls[t]) && s.calls[t].w == Step(s, t, made).calls[t].w
  {
    hide *;
    Unfinished(s, t);
    if InLoop(s.calls[t]) {
      DecidesInLoop(s, t, made, r);
    } else {
      KeepsResult(s, t, made, r);
    }
  }

  lemma DecidesInLoop(s: State, t: CallId, made: EntryId, r: Result)
    requires CanStep(s, t) && t in Step(s, t, made).calls && Returns(Step(s, t, made).calls[t], r)
    requires InLoop(s.calls[t])
    ensures Decides(s, t, r) && IsWait(s.calls[t]) && s.calls[t].w == Step(s, t, made).calls[t].w
  {
    hide Check, Recheck, Word, Expired, FindOrMake, PushBack, Remove, EraseIfEmpty, Flag, Owe, WantsLock, WantsRegistry;
    if s.calls[t].WaitCheck? {
      CheckDecides(s, t);
    } else if s.calls[t].WaitRecheck? {
      RecheckDecides(s, t);
    }
  }

  lemma KeepsResult(s: State, t: CallId, made: EntryId, r: Result)
    requires CanStep(s, t) && t in Step(s, t, made).calls && Returns(Step(s, t, made).calls[t], r)
    requires !InLoop(s.calls[t])
    ensures Returns(s.calls[t], r) && IsWait(s.calls[t]) && s.calls[t].w == Step(s, t, made).calls[t].w
  {
    hide Remove, EraseIfEmpty, Flag, Owe, WantsLock, WantsRegistry;
  }

  // A call decides to return in a state of the run, and keeps to it.
  lemma {:induction false} Decided(run: seq<State>, i: nat, t: CallId, r: Result) returns (j: nat)
    requires Reachable(run) && i < |run| && t in run[i].calls && Returns(run[i].calls[t], r)
    ensures j < i && Decides(run[j], t, r) && run[j].calls[t].w == run[i].calls[t].w
    decreases i
  {
    hide Next, Decides, Step, CanStep;
    if i > 0 {
      ReachableStep(run, i - 1);
      NextDecides(run[i - 1], run[i], t, r);
      if Decides(run[i - 1], t, r) {
        DecidesWaits(run[i - 1], t, r);
        j := i - 1;
      } else {
        j := Decided(run, i - 1, t, r);
      }
    }
  }

  lemma DecidesWaits(s: State, t: CallId, r: Result)
    requires Decides(s, t, r)
    ensures t in s.calls && IsWait(s.calls[t])
  {
    hide Word, Expired;
  }

  lemma NextDecides(s: State, s': State, t: CallId, r: Result)
    requires Next(s, s') && t in s'.calls && Returns(s'.calls[t], r)
    ensures t in s.calls && IsWait(s.calls[t]) && s.calls[t].w == s'.calls[t].w
    ensures Returns(s.calls[t], r) || Decides(s, t, r)
  {
    hide Step, CanStep, Decides;
    if u: CallId, made: EntryId :| CanStep(s, u) && made !in s.data.waiters && s' == Step(s, u, made) {
      StepMoves(s, u, made);
      Unfinished(s, u);
      if u == t {
        StepDecides(s, t, made, r);
      }
    }
  }

  // ETIMEDOUT is returned only after the deadline, without a flag, and after finding the word unchanged by then. OK is
  // returned only after finding the word changed, or the flag set, at the test of the loop.
  lemma ResultJustified(run: seq<State>, i: nat, t: CallId) returns (j: nat)
    requires Reachable(run) && i < |run| && t in run[i].calls && run[i].calls[t].WaitDone?
    ensures j < i && t in run[j].calls && IsWait(run[j].calls[t]) && run[j].calls[t].w == run[i].calls[t].w
    ensures run[i].calls[t].result == TimedOut ==>
      Expired(run[i].calls[t].w.deadline, run[j].now) && t !in run[i].data.wanted
      && Word(run[j], run[i].calls[t].w.addr) == run[i].calls[t].w.expected
    ensures run[i].calls[t].result == Ok ==> run[j].calls[t].WaitCheck?
    ensures run[i].calls[t].result == Ok ==>
      (t in run[j].data.wanted || Word(run[j], run[i].calls[t].w.addr) != run[i].calls[t].w.expected)
  {
    hide Reachable, LocksHeld, ListsExact, EntriesExact, CallsExact, Word, Expired;
    RunInv(run, i);
    assert ResultSound(run[i], t);
    j := Decided(run, i, t, run[i].calls[t].result);
  }

  // How many steps a registered call may still take before its next test.
  function StepsToCheck(pc: Pc): nat {
    if pc.WaitAsleep? then 4 else if pc.WaitWoken? then 3 else if pc.WaitPolling? then 2 else if pc.WaitRecheck? then 1
    else 0
  }

  // A flagged call does not go to sleep again: it leaves its loop with OK within five of its own steps.
  lemma FlaggedLeaves(s: State, t: CallId, made: EntryId)
    requires CanStep(s, t) && t in s.data.wanted && ListOf(s.calls[t]).Some? && !s.calls[t].WaitLeaving?
    ensures var s', pc := Step(s, t, made), s.calls[t];
      && t in s'.calls && t in s'.data.wanted
      && (pc.WaitCheck? ==> s'.calls[t] == WaitLeaving(pc.w, pc.e, Ok))
      && (!pc.WaitCheck? ==> ListOf(s'.calls[t]) == Some(pc.e) && !s'.calls[t].WaitLeaving?)
      && (!pc.WaitCheck? ==> StepsToCheck(s'.calls[t]) < StepsToCheck(pc))
  {
    hide Check, Recheck, Word, Expired, FindOrMake, PushBack, Remove, EraseIfEmpty, Flag, Owe, WantsLock, WantsRegistry;
    if s.calls[t].WaitCheck? {
      CheckDecides(s, t);
    } else if s.calls[t].WaitRecheck? {
      RecheckDecides(s, t);
    }
  }

  /* ---- The registry ---- */

  // An entry of the registry has a waiter, or a call that is about to register there or to look whether to erase it.
  ghost predicate Tended(s: State) {
    forall a :: a in s.data.entries ==> TendedEntry(s, s.data.entries[a])
  }

  ghost predicate TendedEntry(s: State, e: EntryId) {
    e in s.data.waiters && (s.data.waiters[e] != [] || exists t :: t in s.calls && Tends(s.calls[t], e))
  }

  predicate Tends(pc: Pc, e: EntryId) {
    (pc.WaitLocking? || pc.WaitErasing? || pc.WaitErasingLocked?) && pc.e == e
  }

  lemma StepTended(s: State, t: CallId, made: EntryId, a: Addr)
    requires Inv(s) && Tended(s) && CanStep(s, t) && made !in s.data.waiters && a in Step(s, t, made).data.entries
    ensures TendedEntry(Step(s, t, made), Step(s, t, made).data.entries[a])
  {
    hide Inv, Step, CanStep, Tended, TendedEntry, Tends;
    Unfinished(s, t);
    StepMoves(s, t, made);
    if InLoop(s.calls[t]) {
      EntersTended(s, t, made, a);
    } else {
      LeavesTended(s, t, made, a);
    }
  }

  lemma StillTended(s: State, s': State, t: CallId, e: EntryId)
    requires TendedEntry(s, e) && Moved(s, s', t) && t in s.calls && e in s'.data.waiters
    requires s.data.waiters[e] != [] ==> s'.data.waiters[e] != [] || Tends(s'.calls[t], e)
    requires Tends(s.calls[t], e) ==> s'.data.waiters[e] != [] || Tends(s'.calls[t], e)
    ensures TendedEntry(s', e)
  {
    hide Tends;
    if s'.data.waiters[e] == [] {
      if Tends(s'.calls[t], e) {
        assert t in s'.calls;
      } else {
        var u :| u in s.calls && Tends(s.calls[u], e);
        assert u in s'.calls && Tends(s'.calls[u], e);
      }
    }
  }

  lemma EntersTended(s: State, t: CallId, made: EntryId, a: Addr)
    requires Inv(s) && Tended(s) && CanStep(s, t) && made !in s.data.waiters && a in Step(s, t, made).data.entries
    requires InLoop(s.calls[t]) && Moved(s, Step(s, t, made), t)
    ensures TendedEntry(Step(s, t, made), Step(s, t, made).data.entries[a])
  {
    hide Inv, Step, CanStep, TendedEntry;
    Unfinished(s, t);
    CallInInv(s, t);
    var s', pc := Step(s, t, made), s.calls[t];
    if pc.WaitStart? || pc.WaitLocking? {
      StepEnters(s, t, made);
      if pc.WaitStart? && a !in s.data.entries {
        NewTended(s', t, s'.data.entries[a]);
      } else {
        TendedKnown(s, a);
        assert pc.WaitLocking? ==> |s'.data.waiters[pc.e]| == |s.data.waiters[pc.e]| + 1;
        StillTended(s, s', t, s.data.entries[a]);
      }
    } else {
      StepLoops(s, t, made);
      TendedKnown(s, a);
      StillTended(s, s', t, s.data.entries[a]);
    }
  }

  lemma NewTended(s: State, t: CallId, e: EntryId)
    requires e in s.data.waiters && t in s.calls && Tends(s.calls[t], e)
    ensures TendedEntry(s, e)
  {
    hide Tends;
  }

  lemma TendedKnown(s: State, a: Addr)
    requires Tended(s) && a in s.data.entries
    ensures TendedEntry(s, s.data.entries[a]) && s.data.entries[a] in s.data.waiters
  {
    hide Tends;
  }

  lemma CallInInv(s: State, t: CallId)
    requires Inv(s) && t in s.calls
    ensures EntriesExact(s.data) && CallExact(s.data, s.calls[t])
  {
    hide LocksHeld, ListsExact, EntriesExact, CallExact, ResultsSound;
  }

  lemma LeavesTended(s: State, t: CallId, made: EntryId, a: Addr)
    requires Inv(s) && Tended(s) && CanStep(s, t) && made !in s.data.waiters && a in Step(s, t, made).data.entries
    requires !InLoop(s.calls[t]) && Moved(s, Step(s, t, made), t)
    ensures TendedEntry(Step(s, t, made), Step(s, t, made).data.entries[a])
  {
    hide Inv, TendedEntry, Tended, Step, CanStep, Without, Moved;
    Unfinished(s, t);
    CallInInv(s, t);
    StepLeaves(s, t, made);
    assert a in s.data.entries && Step(s, t, made).data.entries[a] == s.data.entries[a];
    TendedKnown(s, a);
    StillTended(s, Step(s, t, made), t, s.data.entries[a]);
  }

  // Past its loop a call leaves its list, and then erases the entry if that is still empty.
  lemma StepLeaves(s: State, t: CallId, made: EntryId)
    requires CanStep(s, t) && !InLoop(s.calls[t])
    ensures var s', pc := Step(s, t, made), s.calls[t];
      && t in s'.calls
      && (pc.WaitLeaving? ==> pc.e in s.data.waiters && s'.data == Remove(s.data, pc.e, t))
      && (pc.WaitLeaving? && s'.data.waiters[pc.e] == [] ==> s'.calls[t] == WaitErasing(pc.w, pc.e, pc.result))
      && (pc.WaitErasing? ==> s'.data == s.data && s'.calls[t] == WaitErasingLocked(pc.w, pc.e, pc.result))
      && (pc.WaitErasingLocked? ==> pc.e in s.data.waiters && s'.data == EraseIfEmpty(s.data, pc.w.addr, pc.e))
      && (!IsWait(pc) ==> s'.data.entries == s.data.entries && s'.data.waiters == s.data.waiters)
  {
    hide Flag, Owe, Without, EraseIfEmpty, WantsLock, WantsRegistry;
  }

  lemma NextTended(s: State, s': State)
    requires Inv(s) && Tended(s) && Next(s, s')
    ensures Tended(s')
  {
    hide Inv, Step, CanStep, Tends, Word, Expired;
    if t: CallId, made: EntryId :| CanStep(s, t) && made !in s.data.waiters && s' == Step(s, t, made) {
      forall a | a in s'.data.entries
        ensures TendedEntry(s', s'.data.entries[a])
      {
        StepTended(s, t, made, a);
      }
    } else {
      assert s'.data == s.data && forall u :: u in s.calls ==> u in s'.calls && s'.calls[u] == s.calls[u];
      forall a | a in s.data.entries
        ensures TendedEntry(s', s.data.entries[a])
      {
        var e := s.data.entries[a];
        assert TendedEntry(s, e);
        if s.data.waiters[e] == [] {
          var u :| u in s.calls && Tends(s.calls[u], e);
          assert u in s'.calls && Tends(s'.calls[u], e);
        }
      }
    }
  }

  lemma {:induction false} RunTended(run: seq<State>, i: nat)
    requires Reachable(run) && i < |run|
    ensures Tended(run[i])
    decreases i
  {
    hide Inv, Next, TendedEntry;
    if i > 0 {
      RunTended(run, i - 1);
      RunInv(run, i - 1);
      NextTended(run[i - 1], run[i]);
    }
  }

  // Nothing is left behind: once every call has returned, the registry is empty.
  lemma RegistryEmpties(run: seq<State>, i: nat)
    requires Reachable(run) && i < |run| && forall t :: t in run[i].calls ==> Finished(run[i].calls[t])
    ensures run[i].data.entries == map[]
  {
    hide Reachable, LocksHeld, EntriesExact, CallsExact, ResultsSound, Tended;
    RunInv(run, i);
    RunTended(run, i);
    forall a | a in run[i].data.entries
      ensures false
    {
      TendedKnown(run[i], a);
      var e := run[i].data.entries[a];
      if run[i].data.waiters[e] != [] {
        FirstListed(run[i], e);
      }
    }
  }

  lemma FirstListed(s: State, e: EntryId)
    requires ListsExact(s) && e in s.data.waiters && s.data.waiters[e] != []
    ensures s.data.waiters[e][0] in s.calls && !Finished(s.calls[s.data.waiters[e][0]])
  {
    var u := s.data.waiters[e][0];
    assert u in s.data.waiters[e];
    assert ListOf(s.calls[u]) == Some(e);
  }

  /* ---- What a wake reaches ---- */

  // The step with which a wake of everyone on address a takes effect.
  ghost predicate WakesAll(s: State, s': State, a: Addr) {
    exists t: CallId, made: EntryId :: CanStep(s, t) && made !in s.data.waiters && s' == Step(s, t, made)
      && (s.calls[t].WakeFlagging? || s.calls[t].WakeStart?) && s'.calls[t].WakeDone?
      && s.calls[t].addr == a && s.calls[t].count == INT_MAX
  }

  // A wake of everyone misses nobody: each call registered on its address, in whatever entry, is
  // flagged from then on.
  lemma WakeAllMissesNobody(run: seq<State>, i: nat, j: nat, a: Addr, u: CallId)
    requires Reachable(run) && i < j < |run| && WakesAll(run[i], run[i + 1], a)
    requires u in Registered(run[i], a)
    ensures u in run[j].data.wanted
  {
    hide Reachable, Inv, CanStep, Flag, Registered;
    assert u in run[i + 1].owed;
    RunKeeps(run, i + 1, j);
    RunInv(run, j);
    OwedWanted(run[j]);
  }

  lemma OwedWanted(s: State)
    requires Inv(s)
    ensures s.owed <= s.data.wanted
  {
  }

  // The call has found its word unchanged and has not returned to that test.
  predicate PastCheck(pc: Pc) {
    pc.WaitAsleep? || pc.WaitWoken? || pc.WaitPolling? || pc.WaitRecheck?
  }

  // After a store of a new value and then a wake of everyone, no waiter for the old value misses both: as long as the
  // word stays, each call that waits for another value is flagged, or has yet to look at the word, or has left.
  lemma {:induction false} StoreThenWakeAll(run: seq<State>, k: nat, j: nat, a: Addr, v: int, u: CallId)
    requires Reachable(run) && k < j < |run| && WakesAll(run[k], run[k + 1], a)
    requires forall l :: k < l <= j ==> Word(run[l], a) == v
    requires u in run[j].calls && IsWait(run[j].calls[u])
    requires run[j].calls[u].w.addr == a && run[j].calls[u].w.expected != v
    ensures u in run[j].data.wanted || !PastCheck(run[j].calls[u])
    decreases j
  {
    hide Reachable, Inv, Next, Flag, CanStep, Step, WakesAll, Word, Registered;
    if PastCheck(run[j].calls[u]) {
      if j == k + 1 {
        SleeperRegistered(run[k], run[k + 1], a, u);
        WakeAllMissesNobody(run, k, j, a, u);
      } else {
        RunInv(run, j - 1);
        ReachableStep(run, j - 1);
        NextKeeps(run[j - 1], run[j], u);
        NextCheck(run[j - 1], run[j], u, a, v);
        StoreThenWakeAll(run, k, j - 1, a, v, u);
      }
    }
  }

  lemma ReachableStep(run: seq<State>, i: nat)
    requires Reachable(run) && i + 1 < |run|
    ensures Next(run[i], run[i + 1])
  {
    hide Next, Init;
  }

  // A wake moves no waiter, so those past their check were registered before it.
  lemma SleeperRegistered(s: State, s': State, a: Addr, u: CallId)
    requires WakesAll(s, s', a) && u in s'.calls && PastCheck(s'.calls[u]) && s'.calls[u].w.addr == a
    ensures u in Registered(s, a)
  {
    hide Flag, Owe;
  }

  // A call gets past its check only by finding the value it expects.
  lemma NextCheck(s: State, s': State, u: CallId, a: Addr, v: int)
    requires Next(s, s') && Word(s, a) == v && u in s'.calls && PastCheck(s'.calls[u])
    requires s'.calls[u].w.addr == a && s'.calls[u].w.expected != v
    ensures u in s.calls && PastCheck(s.calls[u]) && s.calls[u].w == s'.calls[u].w
  {
    hide Step, CanStep, Word;
    if t: CallId, made: EntryId :| CanStep(s, t) && made !in s.data.waiters && s' == Step(s, t, made) {
      StepMoves(s, t, made);
      Unfinished(s, t);
      if t == u {
        StepCheck(s, u, made, a, v);
      }
    }
  }

  lemma StepCheck(s: State, u: CallId, made: EntryId, a: Addr, v: int)
    requires CanStep(s, u) && Word(s, a) == v && PastCheck(Step(s, u, made).calls[u])
    requires var pc := Step(s, u, made).calls[u]; pc.w.addr == a && pc.w.expected != v
    ensures PastCheck(s.calls[u]) && s.calls[u].w == Step(s, u, made).calls[u].w
  {
    hide Step, CanStep, Word;
    Unfinished(s, u);
    if InLoop(s.calls[u]) {
      StepCheckInLoop(s, u, made, a, v);
    } else {
      StaysOut(s, u, made);
    }
  }

  lemma StepCheckInLoop(s: State, u: CallId, made: EntryId, a: Addr, v: int)
    requires CanStep(s, u) && InLoop(s.calls[u]) && Word(s, a) == v && PastCheck(Step(s, u, made).calls[u])
    requires var pc := Step(s, u, made).calls[u]; pc.w.addr == a && pc.w.expected != v
    ensures PastCheck(s.calls[u]) && s.calls[u].w == Step(s, u, made).calls[u].w
  {
    hide Check, Recheck, Leave, Find, FlagWaiters, FindOrMake, PushBack, EraseIfEmpty, WantsLock, WantsRegistry;
    if s.calls[u].WaitCheck? {
      CheckMoves(s, u);
    } else if s.calls[u].WaitRecheck? {
      RecheckMoves(s, u);
    }
  }

  // A call that has left the loop stays out of it.
  lemma StaysOut(s: State, u: CallId, made: EntryId)
    requires CanStep(s, u) && !InLoop(s.calls[u])
    ensures !PastCheck(Step(s, u, made).calls[u])
  {
    hide Flag, Remove, EraseIfEmpty, Owe, WantsLock, WantsRegistry;
  }

  // A wake of n flags exactly min(n, unflagged) of the calls registered on its address, whichever way it ends.
  lemma WakeReachesExactly(run: seq<State>, i: nat, t: CallId, made: EntryId)
    requires Reachable(run) && i < |run| && CanStep(run[i], t) && made !in run[i].data.waiters
    requires t in Step(run[i], t, made).calls && Step(run[i], t, made).calls[t].WakeDone?
    ensures !IsWait(run[i].calls[t])
    ensures var s, pc := run[i], run[i].calls[t];
      var waiting := Registered(s, pc.addr) - s.data.wanted;
      var reached := Step(s, t, made).data.wanted - s.data.wanted;
      && reached <= waiting
      && |reached| == if pc.count == INT_MAX || |waiting| <= pc.count then |waiting| else pc.count
  {
    hide Reachable, Inv, Step, CanStep, FlagWaiters, Registered;
    RunInv(run, i);
    Unfinished(run[i], t);
    var s, pc := run[i], run[i].calls[t];
    WakeEnds(s, t, made);
    StepFrame(s, t, made);
    if pc.WakeFlagging? {
      WakeReaches(s, t);
    } else {
      NothingOwed(s, t);
      assert Step(s, t, made).data.wanted - s.data.wanted == {};
    }
  }

  // A wake returns after flagging, or because there is no entry for its address.
  lemma WakeEnds(s: State, t: CallId, made: EntryId)
    requires CanStep(s, t) && t in Step(s, t, made).calls && Step(s, t, made).calls[t].WakeDone?
    ensures s.calls[t].WakeFlagging? || (s.calls[t].WakeStart? && s.calls[t].addr !in s.data.entries)
  {
    hide Check, Recheck, FindOrMake, PushBack, Remove, EraseIfEmpty, Flag, Owe, WantsLock, WantsRegistry;
    if s.calls[t].WaitCheck? {
      CheckMoves(s, t);
    } else if s.calls[t].WaitRecheck? {
      RecheckMoves(s, t);
    }
  }

  lemma WakeReaches(s: State, t: CallId)
    requires Inv(s) && CanStep(s, t) && s.calls[t].WakeFlagging?
    ensures var pc := s.calls[t];
      var waiting := Registered(s, pc.addr) - s.data.wanted;
      var reached := FlagWaiters(s, t).data.wanted - s.data.wanted;
      && reached <= waiting
      && |reached| == if pc.count == INT_MAX || |waiting| <= pc.count then |waiting| else pc.count
  {
    hide Flag, LocksHeld, EntriesExact, CallsExact, Registered, Distinct, Unflagged;
    var pc := s.calls[t];
    var list := s.data.waiters[pc.e];
    assert ResultSound(s, t);
    ListIsRegistered(s, t);
    FlagExact(list, s.data.wanted, pc.count);
    FlagReachesList(list, s.data.wanted, pc.count);
  }

  lemma FlagReachesList(list: seq<CallId>, wanted: set<CallId>, count: nat)
    ensures Flag(list, wanted, count) - wanted <= Unflagged(list, wanted)
  {
    FlagBounds(list, wanted, count);
  }

  // The list a wake works on holds exactly the calls registered on the address.
  lemma ListIsRegistered(s: State, t: CallId)
    requires Inv(s) && CanStep(s, t) && s.calls[t].WakeFlagging?
    ensures Unflagged(s.data.waiters[s.calls[t].e], s.data.wanted) == Registered(s, s.calls[t].addr) - s.data.wanted
  {
    hide LocksHeld, ResultsSound, WantsLock, WantsRegistry;
    var pc := s.calls[t];
    assert CallExact(s.data, pc);
    forall u | u in Registered(s, pc.addr)
      ensures u in s.data.waiters[pc.e]
    {
      RegisteredInList(s, pc.addr, u);
    }
    forall u | u in s.data.waiters[pc.e]
      ensures u in Registered(s, pc.addr)
    {
      assert CallExact(s.data, s.calls[u]);
    }
  }

  /* ---- The code under the locks ---- */

  class PortableAddresses {
    var entries: map<Addr, EntryId>
    ghost var home: map<EntryId, Addr>
    var waiters: map<EntryId, seq<CallId>>
    var wanted: set<CallId>

    ghost function Data(): Shared
      reads this
    {
      Shared(entries, home, waiters, wanted)
    }

    constructor ()
      ensures Data() == Shared(map[], map[], map[], {})
    {
      entries, home, waiters, wanted := map[], map[], map[], {};
    }

    // RegisterPortableWaiter; `made` is the id of the entry that make_shared would make.
    method RegisterWaiter(address: Addr, waiter: CallId, made: EntryId) returns (e: EntryId)
      requires EntriesExact(Data()) && made !in waiters
      modifies this
      ensures address in FindOrMake(old(Data()), address, made).entries
      ensures e == FindOrMake(old(Data()), address, made).entries[address]
      ensures e in FindOrMake(old(Data()), address, made).waiters
      ensures Data() == PushBack(FindOrMake(old(Data()), address, made), e, waiter)
      ensures e == if address in old(entries) then old(entries)[address] else made
      ensures e in waiters && waiters[e] == (if e in old(waiters) then old(waiters)[e] else []) + [waiter]
      ensures wanted == old(wanted)
      ensures forall f :: f in old(waiters) && f != e ==> f in waiters && waiters[f] == old(waiters)[f]
    {
      if address !in entries {
        entries := entries[address := made];
        home := home[made := address];
        waiters := waiters[made := []];
      }
      e := entries[address];
      waiters := waiters[e := waiters[e] + [waiter]];
    }

    // UnregisterPortableWaiter up to the first unlock.
    method RemoveWaiter(e: EntryId, waiter: CallId) returns (empty: bool)
      requires e in waiters
      modifies this`waiters
      ensures Data() == Remove(old(Data()), e, waiter) && empty == (waiters[e] == [])
      ensures forall w :: w in waiters[e] <==> w in old(waiters)[e] && w != waiter
    {
      var list, kept := waiters[e], [];
      for i := 0 to |list|
        invariant kept + Without(list[i..], waiter) == Without(list, waiter)
      {
        assert list[i..][1..] == list[i + 1..];
        if list[i] != waiter {
          kept := kept + [list[i]];
        }
      }
      assert kept == Without(list, waiter) by {
        assert list[|list|..] == [];
      }
      WithoutContents(list, waiter);
      waiters := waiters[e := kept];
      empty := kept == [];
    }

    // UnregisterPortableWaiter under both locks.
    method EraseEntry(address: Addr, e: EntryId)
      requires e in waiters
      modifies this`entries
      ensures Data() == EraseIfEmpty(old(Data()), address, e)
      ensures entries == if address in old(entries) && old(entries)[address] == e && waiters[e] == []
        then old(entries) - {address} else old(entries)
    {
      if address in entries && entries[address] == e && waiters[e] == [] {
        entries := entries - {address};
      }
    }

    // The loop of WakePortable.
    method WakeWaiters(e: EntryId, count: nat)
      requires e in waiters && 0 < count <= INT_MAX
      modifies this`wanted
      ensures Data() == old(Data()).(wanted := Flag(waiters[e], old(wanted), count))
    {
      var remaining := count;
      var list := waiters[e];
      for i := 0 to |list|
        invariant 0 < remaining <= INT_MAX
        invariant Flag(list[i..], wanted, remaining) == Flag(list, old(wanted), count)
      {
        assert list[i..][1..] == list[i + 1..];
        if list[i] !in wanted {
          wanted := wanted + {list[i]};
          if remaining != INT_MAX {
            remaining := remaining - 1;
            if remaining == 0 {
              assert Flag(list[i + 1..], wanted, 0) == wanted;
              break;
            }
          }
        }
      }
    }
  }
}

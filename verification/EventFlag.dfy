/** The kernel event flag: every interleaving of Wait, Set, Clear, Cancel and the destructor.
    One step is one region in which the mutex is held. */
module EventFlag {
  import opened Bits
  import opened Options

  datatype Status = Active | Canceled | Deleted      // Status::Set is Active here
  datatype Result = Ok | AlreadyWaiting | TimedOut | WasCanceled | WasDeleted
  datatype WaitMode = All | Any                      // WaitMode::And and WaitMode::Or
  datatype ClearMode = Keep | ClearAll | ClearBits

  // The arguments of Wait; no timeout means to wait for ever.
  datatype Wait = Wait(bits: nat, mode: WaitMode, clear: ClearMode, micros: Option<nat>)

  /* ---- The object's fields ---- */

  datatype Fields = Fields(status: Status, waiting: int, bits: nat, single: bool)

  // v & ~w
  function AndNot(v: nat, w: nat): nat
    decreases v
  {
    if v == 0 then 0 else (if v % 2 == 1 && w % 2 == 0 then 1 else 0) + 2 * AndNot(v / 2, w / 2)
  }

  predicate Satisfied(w: Wait, bits: nat) {
    match w.mode
    case All => And(bits, w.bits) == w.bits
    case Any => And(bits, w.bits) != 0
  }

  function Cleared(w: Wait, bits: nat): nat {
    match w.clear
    case Keep => bits
    case ClearAll => 0
    case ClearBits => AndNot(bits, w.bits)
  }

  predicate Elapsed(w: Wait, elapsed: nat) {
    w.micros.Some? && elapsed >= w.micros.value
  }

  // How a region of Wait ends: asleep on the condition variable, or returning with a result and the
  // bits it reports.
  datatype Exit = Sleeps | Returns(result: Result, seen: nat)

  // From the head of the wait loop to the next sleep or return.
  function Test(f: Fields, w: Wait, elapsed: nat): (Fields, Exit) {
    if Satisfied(w, f.bits) then (f.(bits := Cleared(w, f.bits)), Returns(Ok, f.bits))
    else if Elapsed(w, elapsed) then (f, Returns(TimedOut, f.bits))
    else (f.(waiting := f.waiting + 1), Sleeps)
  }

  // Wait from its start.
  function Enter(f: Fields, w: Wait): (Fields, Exit) {
    if f.single && f.waiting > 0 then (f, Returns(AlreadyWaiting, f.bits)) else Test(f, w, 0)
  }

  // Wait from a wakeup, with the time that has passed by then.
  function Wake(f: Fields, w: Wait, elapsed: nat): (Fields, Exit) {
    var g := f.(waiting := f.waiting - 1);
    match f.status
    case Canceled => (g, Returns(WasCanceled, g.bits))
    case Deleted => (g, Returns(WasDeleted, g.bits))
    case Active => Test(g, w, elapsed)
  }

  // The last region of Set and of Clear, reached once the status is Active.
  function SetBits(f: Fields, bits: nat): Fields {
    f.(bits := Or(f.bits, bits))
  }

  function ClearTo(f: Fields, bits: nat): Fields {
    f.(bits := And(f.bits, bits))
  }

  // Cancel once the status is Active: without waiters it completes at once.
  function StartCancel(f: Fields, bits: nat): Fields {
    f.(bits := bits, status := if f.waiting > 0 then Canceled else Active)
  }

  // What a test is to do, bit by bit. It returns OK exactly when the flag has all of the bits waited for, or one of
  // them, with the bits from before any are cleared; if not, it times out exactly when the time is up, and sleeps.
  ghost predicate Tested(f: Fields, g: Fields, w: Wait, elapsed: nat, exit: Exit) {
    && g.status == f.status && g.single == f.single
    && (exit == Returns(Ok, f.bits) <==> match w.mode
        case All => forall i: nat :: Bit(w.bits, i) ==> Bit(f.bits, i)
        case Any => exists i: nat :: Bit(w.bits, i) && Bit(f.bits, i))
    && if exit == Returns(Ok, f.bits) then
        g.waiting == f.waiting && forall i: nat :: Bit(g.bits, i) <==> Bit(f.bits, i) && !Clears(w, i)
      else if w.micros.Some? && elapsed >= w.micros.value then exit == Returns(TimedOut, f.bits) && g == f
      else exit == Sleeps && g.bits == f.bits && g.waiting == f.waiting + 1
  }

  lemma TestIs(f: Fields, w: Wait, elapsed: nat)
    ensures Tested(f, Test(f, w, elapsed).0, w, elapsed, Test(f, w, elapsed).1)
  {
    hide And, Cleared, Clears, Bit;
    AndIsAll(f.bits, w.bits);
    AndIsAny(f.bits, w.bits);
    ClearedBits(w, f.bits);
  }

  /* ---- The class: one method for each region ---- */

  class KernelEventFlag {
    const single: bool
    var status: Status
    var waiting: int
    var bits: nat

    ghost function View(): Fields
      reads this
    {
      Fields(status, waiting, bits, single)
    }

    constructor (single: bool, bits: nat)
      ensures View() == Fields(Active, 0, bits, single)
    {
      this.single := single;
      status, waiting, this.bits := Active, 0, bits;
    }

    method TestRegion(w: Wait, elapsed: nat) returns (exit: Exit)
      modifies this`waiting, this`bits
      ensures (View(), exit) == Test(old(View()), w, elapsed)
      ensures Tested(old(View()), View(), w, elapsed, exit)
    {
      hide And, AndNot, Tested;
      TestIs(View(), w, elapsed);
      var enough := match w.mode
        case All => And(bits, w.bits) == w.bits
        case Any => And(bits, w.bits) != 0;
      if !enough {
        if w.micros.Some? && elapsed >= w.micros.value {
          return Returns(TimedOut, bits);
        }
        waiting := waiting + 1;
        return Sleeps;
      }
      exit := Returns(Ok, bits);
      match w.clear {
        case ClearAll => bits := 0;
        case ClearBits => bits := AndNot(bits, w.bits);
        case Keep =>
      }
    }

    method EnterRegion(w: Wait) returns (exit: Exit)
      modifies this`waiting, this`bits
      ensures (View(), exit) == Enter(old(View()), w)
      ensures if single && old(waiting) > 0 then exit == Returns(AlreadyWaiting, old(bits)) && View() == old(View())
        else Tested(old(View()), View(), w, 0, exit)
    {
      hide Test, Tested;
      if single && waiting > 0 {
        return Returns(AlreadyWaiting, bits);
      }
      exit := TestRegion(w, 0);
    }

    method WakeRegion(w: Wait, elapsed: nat) returns (exit: Exit)
      modifies this`waiting, this`bits
      ensures (View(), exit) == Wake(old(View()), w, elapsed)
      ensures old(status) == Active ==> Tested(old(View()).(waiting := old(waiting) - 1), View(), w, elapsed, exit)
      ensures old(status) != Active ==> View() == old(View()).(waiting := old(waiting) - 1)
      ensures old(status) != Active ==>
        exit == Returns(if old(status) == Canceled then WasCanceled else WasDeleted, old(bits))
    {
      hide Test, Tested;
      waiting := waiting - 1;
      match status {
        case Canceled => exit := Returns(WasCanceled, bits);
        case Deleted => exit := Returns(WasDeleted, bits);
        case Active => exit := TestRegion(w, elapsed);
      }
    }

    // Set, Clear and Cancel find the status not Active until they try again later.
    method SetRegion(bits: nat) returns (done: bool)
      modifies this`bits
      ensures done == (status == Active)
      ensures View() == if done then SetBits(old(View()), bits) else old(View())
      ensures forall i: nat :: Bit(this.bits, i) <==> Bit(old(this.bits), i) || (done && Bit(bits, i))
    {
      OrBits(this.bits, bits);
      done := status == Active;
      if done {
        this.bits := Or(this.bits, bits);
      }
    }

    method ClearRegion(bits: nat) returns (done: bool)
      modifies this`bits
      ensures done == (status == Active)
      ensures View() == if done then ClearTo(old(View()), bits) else old(View())
      ensures forall i: nat :: Bit(this.bits, i) <==> Bit(old(this.bits), i) && (done ==> Bit(bits, i))
    {
      AndBits(this.bits, bits);
      done := status == Active;
      if done {
        this.bits := And(this.bits, bits);
      }
    }

    method CancelRegion(bits: nat) returns (started: bool, reported: int)
      modifies this`bits, this`status
      ensures started == (old(status) == Active) && reported == waiting
      ensures View() == if started then StartCancel(old(View()), bits) else old(View())
      ensures this.bits == if started then bits else old(this.bits)
      ensures status == if started && reported > 0 then Canceled else old(status)
    {
      started, reported := status == Active, waiting;
      if started {
        status := Canceled;
        this.bits := bits;
        if !(waiting > 0) {
          status := Active;
        }
      }
    }

    // The drain loop of Cancel, and of the destructor.
    method DrainRegion(next: Status) returns (done: bool)
      modifies this`status
      ensures done == (waiting <= 0)
      ensures View() == if done then old(View()).(status := next) else old(View())
    {
      done := !(waiting > 0);
      if done {
        status := next;
      }
    }
  }

  // The bitwise operators for every bit at once.
  lemma OrBits(v: nat, w: nat)
    ensures forall i: nat :: Bit(Or(v, w), i) <==> Bit(v, i) || Bit(w, i)
  {
    hide Or, Bit;
    forall i: nat
      ensures Bit(Or(v, w), i) <==> Bit(v, i) || Bit(w, i)
    {
      OrBit(v, w, i);
    }
  }

  lemma AndBits(v: nat, w: nat)
    ensures forall i: nat :: Bit(And(v, w), i) <==> Bit(v, i) && Bit(w, i)
  {
    hide And, Bit;
    forall i: nat
      ensures Bit(And(v, w), i) <==> Bit(v, i) && Bit(w, i)
    {
      AndBit(v, w, i);
    }
  }

  lemma ClearedBits(w: Wait, bits: nat)
    ensures forall i: nat :: Bit(Cleared(w, bits), i) <==> Bit(bits, i) && !Clears(w, i)
  {
    hide Cleared, Clears, Bit;
    forall i: nat
      ensures Bit(Cleared(w, bits), i) <==> Bit(bits, i) && !Clears(w, i)
    {
      ClearedBit(w, bits, i);
    }
  }

  /* ---- Calls and their interleaving ---- */

  type CallId = nat        // one call of Wait, Set, Clear, Cancel or the destructor

  datatype Pc =
    | WaitStart(w: Wait)
    | WaitAsleep(w: Wait)
    | WaitDone(w: Wait, result: Result, seen: nat)
    | SetStart(bits: nat)
    | ClearStart(bits: nat)
    | CancelStart(bits: nat)
    | Draining(bits: nat, reported: int, sleepers: set<CallId>)  // Cancel, waiting for the sleepers
    | CancelDone(bits: nat, reported: int, sleepers: set<CallId>)
    | DeleteStart
    | DeleteDraining
    | Finished                                                   // Set, Clear and the destructor

  // What changed the bits, with the bits before and after; of a wait also which call. `log` and the sleepers of a
  // cancel are history.
  datatype Cause = BySet(bits: nat) | ByClear(bits: nat) | ByCancel(bits: nat) | ByWait(caller: CallId, w: Wait)
  datatype Change = Change(cause: Cause, before: nat, after: nat)

  datatype State = State(fields: Fields, calls: map<CallId, Pc>, log: seq<Change>)

  function Sleepers(s: State): set<CallId> {
    set t | t in s.calls && s.calls[t].WaitAsleep?
  }

  function Goto(s: State, t: CallId, pc: Pc): State {
    s.(calls := s.calls[t := pc])
  }

  function Logged(s: State, f: Fields, cause: Cause): State {
    s.(fields := f, log := s.log + [Change(cause, s.fields.bits, f.bits)])
  }

  // Call t of Wait leaves a region.
  function AfterWait(s: State, t: CallId, w: Wait, out: (Fields, Exit)): State {
    match out.1
    case Sleeps => Goto(s, t, WaitAsleep(w)).(fields := out.0)
    case Returns(Ok, seen) => Logged(Goto(s, t, WaitDone(w, Ok, seen)), out.0, ByWait(t, w))
    case Returns(r, seen) => Goto(s, t, WaitDone(w, r, seen)).(fields := out.0)
  }

  // Calls that find the status not Active, or waiters left to drain, sleep and look again.
  predicate CanStep(s: State, t: CallId) {
    t in s.calls && match s.calls[t]
      case WaitStart(_) => true
      case WaitAsleep(_) => true
      case SetStart(_) => s.fields.status == Active
      case ClearStart(_) => s.fields.status == Active
      case CancelStart(_) => s.fields.status == Active
      case Draining(_, _, _) => s.fields.waiting <= 0
      case DeleteStart => s.fields.status == Active
      case DeleteDraining => s.fields.waiting <= 0
      case _ => false
  }

  // The next region of call t; `elapsed` is the time a waking Wait reads.
  function Step(s: State, t: CallId, elapsed: nat): State
    requires CanStep(s, t)
  {
    var f := s.fields;
    match s.calls[t]
    case WaitStart(w) => AfterWait(s, t, w, Enter(f, w))
    case WaitAsleep(w) => AfterWait(s, t, w, Wake(f, w, elapsed))
    case SetStart(b) => Logged(Goto(s, t, Finished), SetBits(f, b), BySet(b))
    case ClearStart(b) => Logged(Goto(s, t, Finished), ClearTo(f, b), ByClear(b))
    case CancelStart(b) =>
      var pc := if f.waiting > 0 then Draining(b, f.waiting, Sleepers(s)) else CancelDone(b, f.waiting, Sleepers(s));
      Logged(Goto(s, t, pc), StartCancel(f, b), ByCancel(b))
    case Draining(b, n, asleep) => Goto(s, t, CancelDone(b, n, asleep)).(fields := f.(status := Active))
    case DeleteStart =>
      Goto(s, t, if f.waiting > 0 then DeleteDraining else Finished).(fields := f.(status := Deleted))
    case DeleteDraining => Goto(s, t, Finished)
    case _ => s
  }

  predicate IsStart(pc: Pc) {
    pc.WaitStart? || pc.SetStart? || pc.ClearStart? || pc.CancelStart? || pc.DeleteStart?
  }

  ghost predicate Next(s: State, s': State) {
    || (exists t: CallId, elapsed: nat :: CanStep(s, t) && s' == Step(s, t, elapsed))
    || (exists t: CallId, pc: Pc :: t !in s.calls && IsStart(pc) && s' == Goto(s, t, pc))
  }

  ghost predicate Init(s: State) {
    s.fields.status == Active && s.fields.waiting == 0 && s.calls == map[] && s.log == []
  }

  ghost predicate Reachable(run: seq<State>) {
    && |run| > 0 && Init(run[0])
    && (forall i :: 0 <= i < |run| - 1 ==> Next(run[i], run[i + 1]))
  }

  /* ---- What a step does, bit by bit ---- */

  // A wait that starts or wakes while the status is Set returns, times out or sleeps as its test says.
  lemma WaitStep(s: State, t: CallId, elapsed: nat) returns (exit: Exit)
    requires CanStep(s, t) && (s.calls[t].WaitStart? || (s.calls[t].WaitAsleep? && s.fields.status == Active))
    requires s.calls[t].WaitStart? ==> !(s.fields.single && s.fields.waiting > 0)
    ensures var s', w, f := Step(s, t, elapsed), s.calls[t].w, s.fields;
      && t in s'.calls
      && s'.calls[t] == (if exit.Sleeps? then WaitAsleep(w) else WaitDone(w, exit.result, exit.seen))
      && if s.calls[t].WaitStart? then Tested(f, s'.fields, w, 0, exit)
        else Tested(f.(waiting := f.waiting - 1), s'.fields, w, elapsed, exit)
  {
    hide Satisfied, Cleared, Elapsed, Tested;
    var w, f := s.calls[t].w, s.fields;
    if s.calls[t].WaitStart? {
      TestIs(f, w, 0);
      exit := Test(f, w, 0).1;
    } else {
      TestIs(f.(waiting := f.waiting - 1), w, elapsed);
      exit := Test(f.(waiting := f.waiting - 1), w, elapsed).1;
    }
  }

  // Set adds its bits, Clear keeps no others than its own, Cancel puts its bits in place of all, and then they return
  // or, for a Cancel with sleepers, drain.
  lemma ChangeStep(s: State, t: CallId, elapsed: nat)
    requires CanStep(s, t)
    ensures t in Step(s, t, elapsed).calls
    ensures var s', pc := Step(s, t, elapsed), s.calls[t];
      && (pc.SetStart? || pc.ClearStart? ==> s'.calls[t] == Finished)
      && (pc.SetStart? ==> forall i: nat :: Bit(s'.fields.bits, i) <==> Bit(s.fields.bits, i) || Bit(pc.bits, i))
      && (pc.ClearStart? ==> forall i: nat :: Bit(s'.fields.bits, i) <==> Bit(s.fields.bits, i) && Bit(pc.bits, i))
    ensures s.calls[t].CancelStart? ==>
      var s', b, n := Step(s, t, elapsed), s.calls[t].bits, s.fields.waiting;
      && s'.fields.bits == b && s'.fields.waiting == n
      && s'.calls[t] == if n > 0 then Draining(b, n, Sleepers(s)) else CancelDone(b, n, Sleepers(s))
  {
    hide Satisfied, Cleared, Elapsed, Or, And, Bit, Enter, Wake, Sleepers;
    var pc := s.calls[t];
    if pc.SetStart? {
      OrBits(s.fields.bits, pc.bits);
    } else if pc.ClearStart? {
      AndBits(s.fields.bits, pc.bits);
    }
  }

  /* ---- The invariant ---- */

  // The counter counts the sleepers, and a single-thread flag has at most one.
  ghost predicate Counted(s: State) {
    s.fields.waiting == |Sleepers(s)| && (s.fields.single ==> s.fields.waiting <= 1)
  }

  // The status is Canceled exactly while one Cancel drains.
  ghost predicate OneCancel(s: State) {
    && (s.fields.status == Canceled <==> exists t :: t in s.calls && s.calls[t].Draining?)
    && (forall t, u :: t in s.calls && u in s.calls && s.calls[t].Draining? && s.calls[u].Draining? ==> t == u)
  }

  // Everyone asleep when a cancel began has been canceled, or is still asleep while it drains.
  ghost predicate CancelSound(s: State, t: CallId) {
    t in s.calls ==> PcSound(s, s.calls[t])
  }

  ghost predicate PcSound(s: State, pc: Pc) {
    match pc
    case Draining(_, n, asleep) => n == |asleep| && forall u :: u in asleep ==> Told(s, u) || Asleep(s, u)
    case CancelDone(_, n, asleep) => n == |asleep| && forall u :: u in asleep ==> Told(s, u)
    case _ => true
  }

  predicate Told(s: State, u: CallId) {
    u in s.calls && s.calls[u].WaitDone? && s.calls[u].result == WasCanceled
  }

  predicate Asleep(s: State, u: CallId) {
    u in s.calls && s.calls[u].WaitAsleep?
  }

  // The log is a chain of changes that ends in the present bits, and each change is what its cause does.
  ghost predicate LogSound(s: State) {
    && (s.log != [] ==> s.log[|s.log| - 1].after == s.fields.bits)
    && (forall i :: 0 <= i < |s.log| - 1 ==> s.log[i].after == s.log[i + 1].before)
    && (forall i :: 0 <= i < |s.log| ==> Explained(s.log[i]))
  }

  predicate Explained(c: Change) {
    match c.cause
    case BySet(b) => c.after == Or(c.before, b)
    case ByClear(b) => c.after == And(c.before, b)
    case ByCancel(b) => c.after == b
    case ByWait(_, w) => Satisfied(w, c.before) && c.after == Cleared(w, c.before)
  }

  // A wait that returned OK is in the log, with the bits it reported before it cleared any.
  ghost predicate OkSound(s: State, t: CallId) {
    t in s.calls && s.calls[t].WaitDone? && s.calls[t].result == Ok ==>
      exists k :: 0 <= k < |s.log| && s.log[k] == OkChange(t, s.calls[t].w, s.calls[t].seen)
  }

  function OkChange(t: CallId, w: Wait, seen: nat): Change {
    Change(ByWait(t, w), seen, Cleared(w, seen))
  }

  // Each entry of a wait is that of a call which returned OK with it, and no call has two.
  ghost predicate WaitsLogged(s: State) {
    && (forall k :: 0 <= k < |s.log| && s.log[k].cause.ByWait? ==>
      IsOk(s, s.log[k].cause.caller, s.log[k].cause.w, s.log[k].before))
    && (forall j, k :: 0 <= j < k < |s.log| && s.log[j].cause.ByWait? && s.log[k].cause.ByWait? ==>
      s.log[j].cause.caller != s.log[k].cause.caller)
  }

  predicate IsOk(s: State, t: CallId, w: Wait, seen: nat) {
    t in s.calls && s.calls[t] == WaitDone(w, Ok, seen)
  }

  ghost predicate Inv(s: State) {
    Counted(s) && OneCancel(s) && LogSound(s) && WaitsLogged(s) && forall t :: CancelSound(s, t) && OkSound(s, t)
  }

  lemma StepCounted(s: State, t: CallId, elapsed: nat)
    requires Inv(s) && CanStep(s, t)
    ensures Counted(Step(s, t, elapsed))
  {
    hide LogSound, WaitsLogged, CancelSound, OneCancel, OkSound, Step, CanStep;
    var s' := Step(s, t, elapsed);
    StepWaiting(s, t, elapsed);
    if s.calls[t].WaitAsleep? == s'.calls[t].WaitAsleep? {
      assert Sleepers(s') == Sleepers(s);
    } else if s.calls[t].WaitAsleep? {
      assert Sleepers(s') == Sleepers(s) - {t};
    } else {
      assert Sleepers(s') == Sleepers(s) + {t};
    }
  }

  // The counter follows the call that takes the step.
  lemma StepWaiting(s: State, t: CallId, elapsed: nat)
    requires CanStep(s, t)
    ensures var s' := Step(s, t, elapsed);
      && t in s.calls && t in s'.calls && s'.calls == s.calls[t := s'.calls[t]] && s'.fields.single == s.fields.single
      && var before, after := s.calls[t].WaitAsleep?, s'.calls[t].WaitAsleep?;
        && s'.fields.waiting == s.fields.waiting - (if before then 1 else 0) + (if after then 1 else 0)
        && (s.fields.single && after && !before ==> s.fields.waiting <= 0)
  {
    hide Satisfied, Cleared, Elapsed, Or, And, Sleepers;
  }

  lemma StepCancel(s: State, t: CallId, elapsed: nat)
    requires Inv(s) && CanStep(s, t)
    ensures OneCancel(Step(s, t, elapsed))
  {
    hide LogSound, CancelSound, OkSound, Counted, Satisfied, Cleared, Elapsed, Or, And, Sleepers;
    var s' := Step(s, t, elapsed);
    if s.fields.status == Canceled {
      var u :| u in s.calls && s.calls[u].Draining?;
      assert u in s'.calls && (u != t ==> s'.calls[u].Draining?);
    } else if s'.fields.status == Canceled {
      assert s'.calls[t].Draining?;
    }
  }

  lemma StepLog(s: State, t: CallId, elapsed: nat)
    requires Inv(s) && CanStep(s, t)
    ensures LogSound(Step(s, t, elapsed))
  {
    hide CancelSound, OkSound, WaitsLogged, OneCancel, Counted, Satisfied, Cleared, Elapsed, Or, And, Sleepers;
  }

  lemma StepSound(s: State, t: CallId, elapsed: nat, u: CallId)
    requires Inv(s) && CanStep(s, t)
    ensures CancelSound(Step(s, t, elapsed), u)
  {
    hide LogSound, OkSound, Satisfied, Cleared, Elapsed, Or, And;
    assert CancelSound(s, u);
    if s.calls[t].WaitAsleep? && u in s.calls && s.calls[u].Draining? {
      assert s.fields.status == Canceled;
    }
    if s.calls[t].Draining? {
      NoSleepers(s);
    }
  }

  lemma StepOk(s: State, t: CallId, elapsed: nat, u: CallId)
    requires Inv(s) && CanStep(s, t)
    ensures OkSound(Step(s, t, elapsed), u)
  {
    hide LogSound, CancelSound, Counted, OneCancel, Satisfied, Cleared, Elapsed, Or, And;
    var s' := Step(s, t, elapsed);
    assert OkSound(s, u);
    if u in s.calls && s.calls[u].WaitDone? && s.calls[u].result == Ok {
      var k :| 0 <= k < |s.log| && s.log[k] == OkChange(u, s.calls[u].w, s.calls[u].seen);
      assert s'.log[k] == s.log[k];
    } else if u == t && s'.calls[t].WaitDone? && s'.calls[t].result == Ok {
      assert s'.log[|s.log|] == OkChange(t, s'.calls[t].w, s'.calls[t].seen);
    }
  }

  lemma StepLogged(s: State, t: CallId, elapsed: nat)
    requires Inv(s) && CanStep(s, t)
    ensures WaitsLogged(Step(s, t, elapsed))
  {
    hide LogSound, CancelSound, OkSound, Counted, OneCancel, Satisfied, Cleared, Elapsed, Or, And;
    var s' := Step(s, t, elapsed);
    LogGrows(s, t, elapsed);
    forall k | 0 <= k < |s'.log| && s'.log[k].cause.ByWait?
      ensures IsOk(s', s'.log[k].cause.caller, s'.log[k].cause.w, s'.log[k].before)
    {
      if k < |s.log| {
        assert IsOk(s, s.log[k].cause.caller, s.log[k].cause.w, s.log[k].before);
      }
    }
  }

  // A step adds at most one entry; that of a wait is for the call that takes the step and now returns OK.
  lemma LogGrows(s: State, t: CallId, elapsed: nat)
    requires CanStep(s, t)
    ensures var s' := Step(s, t, elapsed);
      && |s.log| <= |s'.log| <= |s.log| + 1 && s'.log[..|s.log|] == s.log
      && (|s'.log| > |s.log| && s'.log[|s.log|].cause.ByWait? ==>
          s'.log[|s.log|].cause.caller == t && IsOk(s', t, s'.log[|s.log|].cause.w, s'.log[|s.log|].before))
      && !s.calls[t].WaitDone? && forall u :: u in s.calls && u != t ==> u in s'.calls && s'.calls[u] == s.calls[u]
  {
    hide Satisfied, Cleared, Elapsed, Or, And;
  }

  lemma NoSleepers(s: State)
    requires Counted(s) && s.fields.waiting <= 0
    ensures forall t :: t in s.calls ==> !s.calls[t].WaitAsleep?
  {
    assert Sleepers(s) == {};
    forall t | t in s.calls
      ensures !s.calls[t].WaitAsleep?
    {
      assert t !in Sleepers(s);
    }
  }

  lemma StepInv(s: State, t: CallId, elapsed: nat)
    requires Inv(s) && CanStep(s, t)
    ensures Inv(Step(s, t, elapsed))
  {
    hide Step, CanStep, Counted, OneCancel, LogSound, WaitsLogged, CancelSound, OkSound;
    StepCounted(s, t, elapsed);
    StepCancel(s, t, elapsed);
    StepLog(s, t, elapsed);
    StepLogged(s, t, elapsed);
    forall u
      ensures CancelSound(Step(s, t, elapsed), u) && OkSound(Step(s, t, elapsed), u)
    {
      StepSound(s, t, elapsed, u);
      StepOk(s, t, elapsed, u);
    }
  }

  lemma CallInv(s: State, t: CallId, pc: Pc)
    requires Inv(s) && t !in s.calls && IsStart(pc)
    ensures Inv(Goto(s, t, pc))
  {
    hide LogSound, Satisfied;
    var s' := Goto(s, t, pc);
    assert Sleepers(s') == Sleepers(s);
    forall u
      ensures CancelSound(s', u) && OkSound(s', u)
    {
      assert CancelSound(s, u) && OkSound(s, u);
    }
    if s.fields.status == Canceled {
      var u :| u in s.calls && s.calls[u].Draining?;
      assert s'.calls[u].Draining?;
    }
    LogKept(s, s');
  }

  lemma LogKept(s: State, s': State)
    requires LogSound(s) && s'.log == s.log && s'.fields == s.fields
    ensures LogSound(s')
  {
  }

  lemma NextInv(s: State, s': State)
    requires Inv(s) && Next(s, s')
    ensures Inv(s')
  {
    hide Inv, Step, CanStep;
    if t: CallId, elapsed: nat :| CanStep(s, t) && s' == Step(s, t, elapsed) {
      StepInv(s, t, elapsed);
    } else {
      var t: CallId, pc: Pc :| t !in s.calls && IsStart(pc) && s' == Goto(s, t, pc);
      CallInv(s, t, pc);
    }
  }

  lemma InitInv(s: State)
    requires Init(s)
    ensures Inv(s)
  {
    assert Sleepers(s) == {};
  }

  lemma {:induction false} RunInv(run: seq<State>, i: nat)
    requires Reachable(run) && i < |run|
    ensures Inv(run[i])
    decreases i
  {
    hide Inv, Next, Init;
    if i == 0 {
      InitInv(run[0]);
    } else {
      RunInv(run, i - 1);
      NextInv(run[i - 1], run[i]);
    }
  }

  /* ---- What holds in every run ---- */

  // A result, once returned, stays, and a cancel keeps its report until it returns.
  lemma NextKeepsCalls(s: State, s': State, t: CallId)
    requires Next(s, s') && t in s.calls
    ensures t in s'.calls
    ensures s.calls[t].WaitDone? || s.calls[t].CancelDone? ==> s'.calls[t] == s.calls[t]
    ensures s.calls[t].Draining? ==>
      s'.calls[t] in {s.calls[t], CancelDone(s.calls[t].bits, s.calls[t].reported, s.calls[t].sleepers)}
  {
    hide Step, CanStep;
    if u: CallId, elapsed: nat :| CanStep(s, u) && s' == Step(s, u, elapsed) {
      StepOwn(s, u, elapsed);
    }
  }

  // Only the call that takes a step moves, and no call moves after its result.
  lemma StepOwn(s: State, t: CallId, elapsed: nat)
    requires CanStep(s, t)
    ensures var s' := Step(s, t, elapsed);
      && t in s'.calls && s'.calls == s.calls[t := s'.calls[t]]
      && !s.calls[t].WaitDone? && !s.calls[t].CancelDone?
      && (s.calls[t].Draining? ==>
          s'.calls[t] == CancelDone(s.calls[t].bits, s.calls[t].reported, s.calls[t].sleepers))
  {
    hide Enter, Wake, SetBits, ClearTo, StartCancel, Sleepers;
  }

  // Deleted is never left, and while the status is not Active only an OK wait changes the bits.
  lemma NextKeepsFields(s: State, s': State)
    requires Inv(s) && Next(s, s')
    ensures s.fields.status == Deleted ==> s'.fields.status == Deleted
    ensures s.fields.status != Active && s'.fields.bits != s.fields.bits ==>
      |s'.log| == |s.log| + 1 && s'.log[|s.log|].cause.ByWait?
  {
    hide LogSound, CancelSound, OkSound, Counted, Satisfied, Cleared, Elapsed, Or, And, Sleepers;
  }

  lemma {:induction false} CancelKept(run: seq<State>, i: nat, j: nat, t: CallId, b: nat, n: int, asleep: set<CallId>)
    requires Reachable(run) && i <= j < |run| && t in run[i].calls
    requires run[i].calls[t] in {Draining(b, n, asleep), CancelDone(b, n, asleep)}
    ensures t in run[j].calls && run[j].calls[t] in {Draining(b, n, asleep), CancelDone(b, n, asleep)}
    decreases j
  {
    hide Next, Init;
    if i < j {
      CancelKept(run, i, j - 1, t, b, n, asleep);
      NextKeepsCalls(run[j - 1], run[j], t);
    }
  }

  // Every call asleep when a cancel takes effect has returned Canceled by the time the cancel
  // returns, and the cancel reports exactly how many there were.
  lemma CancelReachesSleepers(run: seq<State>, i: nat, j: nat, t: CallId, elapsed: nat)
    requires Reachable(run) && i < j < |run|
    requires CanStep(run[i], t) && run[i].calls[t].CancelStart? && run[i + 1] == Step(run[i], t, elapsed)
    requires t in run[j].calls && run[j].calls[t].CancelDone?
    ensures run[j].calls[t].reported == |Sleepers(run[i])|
    ensures forall u :: u in Sleepers(run[i]) ==> Told(run[j], u)
  {
    hide Reachable, LogSound, OkSound, Counted, OneCancel, Sleepers;
    var s, b := run[i], run[i].calls[t].bits;
    var n, asleep := s.fields.waiting, Sleepers(s);
    assert run[i + 1].calls[t] in {Draining(b, n, asleep), CancelDone(b, n, asleep)};
    CancelKept(run, i + 1, j, t, b, s.fields.waiting, Sleepers(s));
    RunInv(run, j);
    assert CancelSound(run[j], t);
  }

  // What a call was told is final: a sleeper that was canceled never returned anything else.
  lemma {:induction false} ToldIsFinal(run: seq<State>, i: nat, j: nat, u: CallId)
    requires Reachable(run) && i <= j < |run| && Told(run[i], u)
    ensures Told(run[j], u) && run[j].calls[u] == run[i].calls[u]
    decreases j
  {
    hide Next, Init;
    if i < j {
      ToldIsFinal(run, i, j - 1, u);
      NextKeepsCalls(run[j - 1], run[j], u);
    }
  }

  // Two cancels never drain at once, and one that drains keeps Set, Clear and Cancel waiting.
  lemma CancelsNeverOverlap(run: seq<State>, i: nat, t: CallId, u: CallId)
    requires Reachable(run) && i < |run| && t in run[i].calls && run[i].calls[t].Draining?
    requires u in run[i].calls && u != t
    ensures !run[i].calls[u].Draining?
    ensures run[i].calls[u].SetStart? || run[i].calls[u].ClearStart? || run[i].calls[u].CancelStart? ==>
      !CanStep(run[i], u)
  {
    hide Reachable, LogSound, OkSound, CancelSound, Counted;
    RunInv(run, i);
  }

  lemma {:induction false} DeletedForever(run: seq<State>, i: nat, j: nat)
    requires Reachable(run) && i <= j < |run| && run[i].fields.status == Deleted
    ensures run[j].fields.status == Deleted
    decreases j
  {
    hide Next, Init, Inv;
    if i < j {
      DeletedForever(run, i, j - 1);
      RunInv(run, j - 1);
      NextKeepsFields(run[j - 1], run[j]);
    }
  }

  lemma SingleThread(run: seq<State>, i: nat)
    requires Reachable(run) && i < |run| && run[i].fields.single
    ensures |Sleepers(run[i])| <= 1
  {
    hide Reachable, LogSound, OkSound, CancelSound, OneCancel, Sleepers;
    RunInv(run, i);
  }

  // A wait that returned OK saw its condition true in the bits it reported, and they are the bits
  // from before it cleared any.
  lemma OkSawCondition(run: seq<State>, i: nat, t: CallId) returns (k: nat)
    requires Reachable(run) && i < |run| && t in run[i].calls
    requires run[i].calls[t].WaitDone? && run[i].calls[t].result == Ok
    ensures var w, seen := run[i].calls[t].w, run[i].calls[t].seen; match w.mode
      case All => forall b: nat :: Bit(w.bits, b) ==> Bit(seen, b)
      case Any => exists b: nat :: Bit(w.bits, b) && Bit(seen, b)
    ensures k < |run[i].log| && run[i].log[k] == OkChange(t, run[i].calls[t].w, run[i].calls[t].seen)
  {
    hide Reachable, CancelSound, Counted, OneCancel, And, Bit, Cleared;
    RunInv(run, i);
    AndIsAll(run[i].calls[t].seen, run[i].calls[t].w.bits);
    AndIsAny(run[i].calls[t].seen, run[i].calls[t].w.bits);
    assert OkSound(run[i], t);
    k :| 0 <= k < |run[i].log| && run[i].log[k] == OkChange(t, run[i].calls[t].w, run[i].calls[t].seen);
    assert Explained(run[i].log[k]);
  }

  /* ---- Bits are supplied before they are consumed again ---- */

  lemma {:induction false} AndNotBit(v: nat, w: nat, i: nat)
    ensures Bit(AndNot(v, w), i) == (Bit(v, i) && !Bit(w, i))
    decreases i
  {
    if v == 0 {
      ZeroBit(i);
    } else if i != 0 {
      BitOfHalf(AndNot(v, w), i);
      BitOfHalf(v, i);
      BitOfHalf(w, i);
      AndNotBit(v / 2, w / 2, i - 1);
    }
  }

  predicate Supplies(c: Cause, b: nat) {
    (c.BySet? || c.ByCancel?) && Bit(c.bits, b)
  }

  // Only Set and Cancel can make a bit appear.
  lemma AppearsBySupply(c: Change, b: nat)
    requires Explained(c) && !Bit(c.before, b) && Bit(c.after, b)
    ensures Supplies(c.cause, b)
  {
    hide Bit, And, Or, AndNot;
    match c.cause {
      case BySet(x) => OrBit(c.before, x, b);
      case ByClear(x) => AndBit(c.before, x, b);
      case ByCancel(_) =>
      case ByWait(_, w) =>
        ZeroBit(b);
        AndNotBit(c.before, w.bits, b);
    }
  }

  lemma {:induction false} AbsentUntilSupplied(s: State, i: nat, j: nat, b: nat) returns (k: nat)
    requires LogSound(s) && i < j < |s.log| && !Bit(s.log[i].after, b) && Bit(s.log[j].before, b)
    ensures i < k < j && Supplies(s.log[k].cause, b)
    decreases j
  {
    hide Bit, Explained;
    LogChains(s, j - 1);
    if j == i + 1 {
      assert false;
    } else if Bit(s.log[j - 1].before, b) {
      k := AbsentUntilSupplied(s, i, j - 1, b);
    } else {
      k := j - 1;
      AppearsBySupply(s.log[k], b);
    }
  }

  lemma LogChains(s: State, k: nat)
    requires LogSound(s) && k + 1 < |s.log|
    ensures s.log[k].after == s.log[k + 1].before && Explained(s.log[k])
  {
  }

  // ClearAll takes every bit, ClearBits those waited for.
  predicate Clears(w: Wait, b: nat) {
    w.clear == ClearAll || (w.clear == ClearBits && Bit(w.bits, b))
  }

  // An OK wait leaves exactly the bits set that were set and that it does not clear.
  lemma ClearedBit(w: Wait, bits: nat, b: nat)
    ensures Bit(Cleared(w, bits), b) <==> Bit(bits, b) && !Clears(w, b)
  {
    ZeroBit(b);
    AndNotBit(bits, w.bits, b);
  }

  // Between two entries of waits, of which the first left bit b clear and the second needed it, there is one of a Set
  // or Cancel that supplied it.
  lemma SuppliedBetweenEntries(s: State, i: nat, j: nat, b: nat) returns (k: nat)
    requires LogSound(s) && i < j < |s.log|
    requires s.log[i].cause.ByWait? && !Bit(s.log[i].after, b)
    requires s.log[j].cause.ByWait? && s.log[j].cause.w.mode == All && Bit(s.log[j].cause.w.bits, b)
    ensures i < k < j && Supplies(s.log[k].cause, b)
  {
    hide Bit, And;
    var c := s.log[j];
    assert Explained(c);
    AndBit(c.before, c.cause.w.bits, b);
    k := AbsentUntilSupplied(s, i, j, b);
  }

  predicate ReturnedOk(s: State, t: CallId) {
    t in s.calls && s.calls[t].WaitDone? && s.calls[t].result == Ok
  }

  lemma NextLog(s: State, s': State)
    requires Next(s, s')
    ensures |s.log| <= |s'.log| && s'.log[..|s.log|] == s.log
  {
    hide Step, CanStep;
    if t: CallId, elapsed: nat :| CanStep(s, t) && s' == Step(s, t, elapsed) {
      LogGrows(s, t, elapsed);
    }
  }

  lemma {:induction false} LogPrefix(run: seq<State>, m: nat, n: nat)
    requires Reachable(run) && m <= n < |run|
    ensures |run[m].log| <= |run[n].log| && run[n].log[..|run[m].log|] == run[m].log
    decreases n
  {
    hide Next, Init;
    if m < n {
      LogPrefix(run, m, n - 1);
      NextLog(run[n - 1], run[n]);
    }
  }

  // The one entry of a call that returned OK.
  lemma EntryOf(s: State, t: CallId) returns (k: nat)
    requires Inv(s) && ReturnedOk(s, t)
    ensures k < |s.log| && s.log[k] == OkChange(t, s.calls[t].w, s.calls[t].seen)
    ensures forall j :: 0 <= j < |s.log| && s.log[j].cause.ByWait? && s.log[j].cause.caller == t ==> j == k
  {
    hide CancelSound, Counted, OneCancel, LogSound, Cleared;
    assert OkSound(s, t);
    k :| 0 <= k < |s.log| && s.log[k] == OkChange(t, s.calls[t].w, s.calls[t].seen);
  }

  lemma NoEntryYet(s: State, t: CallId)
    requires Inv(s) && !ReturnedOk(s, t)
    ensures forall k :: 0 <= k < |s.log| && s.log[k].cause.ByWait? ==> s.log[k].cause.caller != t
  {
    hide CancelSound, OkSound, Counted, OneCancel, LogSound;
  }

  // Of two waits that returned OK, the first cleared bit b and the second, not yet returned by then, needed it: some
  // Set or Cancel supplied it after the first took it and before the second did.
  lemma SuppliedBetween(run: seq<State>, m: nat, n: nat, t: CallId, u: CallId, b: nat) returns (i: nat, k: nat, j: nat)
    requires Reachable(run) && m <= n < |run|
    requires ReturnedOk(run[m], t) && !ReturnedOk(run[m], u) && ReturnedOk(run[n], u)
    requires Clears(run[m].calls[t].w, b)
    requires run[n].calls[u].w.mode == All && Bit(run[n].calls[u].w.bits, b)
    ensures i < |run[m].log| <= j < |run[n].log| && i < k < j
    ensures run[n].log[i] == OkChange(t, run[m].calls[t].w, run[m].calls[t].seen)
    ensures run[n].log[j] == OkChange(u, run[n].calls[u].w, run[n].calls[u].seen)
    ensures Supplies(run[n].log[k].cause, b)
  {
    hide Reachable, CancelSound, OkSound, Counted, OneCancel, LogSound, Bit, And, Cleared;
    RunInv(run, m);
    RunInv(run, n);
    LogPrefix(run, m, n);
    i := EntryOf(run[m], t);
    j := EntryOf(run[n], u);
    NoEntryYet(run[m], u);
    assert forall l :: 0 <= l < |run[m].log| ==> run[m].log[l] == run[n].log[l];
    ClearedBit(run[m].calls[t].w, run[m].calls[t].seen, b);
    k := SuppliedBetweenEntries(run[n], i, j, b);
  }
}

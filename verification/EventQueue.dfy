/** The kernel event queue: adding, triggering and collecting events. Every operation holds the
    queue's mutex throughout, so the operations are taken one after another. */
module EventQueue {
  import opened Bits
  import opened Options

  const EV_ONESHOT := 0x10
  const EV_CLEAR := 0x20
  const UINT32_MAX := 0xFFFF_FFFF
  const UINT64_MAX := 0xFFFF_FFFF_FFFF_FFFF

  datatype Event = Event(ident: nat, filter: int, flags: nat, fflags: nat, data: int, udata: int)

  // The trigger and reset functions that an event can carry.
  datatype Trigger = NoTrigger | UserTrigger | AmprTrigger
  datatype Reset = NoReset | UserReset

  // KernelEqueueEvent; a deadline of 0 means that there is no timer.
  datatype Entry = Entry(
    triggered: bool, deadline: nat, event: Event, trigger: Trigger, reset: Reset, pending: seq<Event>)

  datatype Key = Key(ident: nat, filter: int)

  function KeyOf(e: Event): Key {
    Key(e.ident, e.filter)
  }

  predicate IsOneshot(e: Event) {
    And(e.flags, EV_ONESHOT) != 0
  }

  predicate IsClear(e: Event) {
    And(e.flags, EV_CLEAR) != 0
  }

  /* ---- What the operations do to one entry ---- */

  function Untriggered(e: Entry): Entry {
    e.(triggered := false, event := e.event.(fflags := 0, data := 0))
  }

  // reset_func, or the edge clearing done without one. Both clear only events with EV_CLEAR.
  function ResetEntry(e: Entry): Entry {
    if IsClear(e.event) then Untriggered(e) else e
  }

  function NextPending(e: Entry): Entry {
    if e.pending != [] then e.(event := e.pending[0], pending := e.pending[1..], triggered := true) else e
  }

  // trigger_func, or setting the flag without one.
  function TriggerEntry(e: Entry, data: int): Entry {
    match e.trigger
    case NoTrigger => e.(triggered := true)
    case UserTrigger => e.(triggered := true, event := e.event.(data := data, udata := data))
    case AmprTrigger =>
      var event := e.event.(data := data);
      if e.triggered then e.(pending := e.pending + [event]) else e.(event := event, triggered := true)
  }

  function WithUdata(s: seq<Event>, udata: int): (r: seq<Event>)
    ensures |r| == |s|
  {
    if s == [] then [] else [s[0].(udata := udata)] + WithUdata(s[1..], udata)
  }

  // Adding an event that is there already.
  function Readd(e: Entry, added: Entry): Entry {
    e.(deadline := added.deadline, event := e.event.(udata := added.event.udata),
       pending := WithUdata(e.pending, added.event.udata))
  }

  function ExpireEntry(e: Entry, now: nat): Entry {
    if !e.triggered && e.deadline != 0 && e.deadline <= now then e.(triggered := true) else e
  }

  // Takes at most `room` deliveries from an entry; a one-shot entry goes away.
  function Drain(e: Entry, room: nat): (seq<Event>, Option<Entry>)
    requires room > 0
    decreases room
  {
    if !e.triggered then ([], Some(e))
    else if IsOneshot(e.event) then ([e.event], None)
    else
      var next := NextPending(ResetEntry(e));
      if room == 1 then ([e.event], Some(next))
      else var rest := Drain(next, room - 1); ([e.event] + rest.0, rest.1)
  }

  lemma {:induction false} DrainFits(e: Entry, room: nat)
    requires room > 0
    ensures |Drain(e, room).0| <= room
    ensures e.triggered ==> |Drain(e, room).0| >= 1
    decreases room
  {
    if e.triggered && !IsOneshot(e.event) && room > 1 {
      DrainFits(NextPending(ResetEntry(e)), room - 1);
    }
  }

  /* ---- What they do to the list ---- */

  function Find(s: seq<Entry>, k: Key): (i: nat)
    ensures i <= |s|
    ensures i < |s| ==> KeyOf(s[i].event) == k
    ensures forall j :: 0 <= j < i ==> KeyOf(s[j].event) != k
  {
    if s == [] || KeyOf(s[0].event) == k then 0 else 1 + Find(s[1..], k)
  }

  function Expire(s: seq<Entry>, now: nat): (r: seq<Entry>)
    ensures |r| == |s|
    ensures forall i :: 0 <= i < |s| ==> r[i] == ExpireEntry(s[i], now)
  {
    seq(|s|, i requires 0 <= i < |s| => ExpireEntry(s[i], now))
  }

  function Kept(e: Option<Entry>): seq<Entry> {
    if e.Some? then [e.value] else []
  }

  // Takes at most `room` deliveries from the list, entry by entry.
  function Collect(s: seq<Entry>, room: nat): (seq<Event>, seq<Entry>) {
    if s == [] || room == 0 then ([], s)
    else
      var d := Drain(s[0], room);
      DrainFits(s[0], room);
      var rest := Collect(s[1..], room - |d.0|);
      (d.0 + rest.0, Kept(d.1) + rest.1)
  }

  lemma CollectStep(s: seq<Entry>, room: nat)
    requires s != [] && room > 0
    ensures var d := Drain(s[0], room);
      && |d.0| <= room
      && (var rest := Collect(s[1..], room - |d.0|); Collect(s, room) == (d.0 + rest.0, Kept(d.1) + rest.1))
  {
    DrainFits(s[0], room);
  }

  function AddTo(s: seq<Entry>, e: Entry): seq<Entry> {
    var i := Find(s, KeyOf(e.event));
    if i < |s| then s[i := Readd(s[i], e)] else s + [e]
  }

  function TriggerIn(s: seq<Entry>, k: Key, data: int): seq<Entry> {
    var i := Find(s, k);
    if i < |s| then s[i := TriggerEntry(s[i], data)] else s
  }

  function DeleteFrom(s: seq<Entry>, k: Key): seq<Entry> {
    var i := Find(s, k);
    if i < |s| then s[..i] + s[i + 1..] else s
  }

  // What a trigger does to its entry, field by field: it is triggered from then on; a user event carries the value
  // given, an AMPR event that is triggered already queues a copy with it, and any other event keeps all it has.
  predicate Fired(e: Entry, n: Entry, data: int) {
    && n.triggered && n.deadline == e.deadline && n.trigger == e.trigger && n.reset == e.reset
    && KeyOf(n.event) == KeyOf(e.event) && n.event.flags == e.event.flags && n.event.fflags == e.event.fflags
    && match e.trigger
      case NoTrigger => n.event == e.event && n.pending == e.pending
      case UserTrigger => n.event.data == data && n.event.udata == data && n.pending == e.pending
      case AmprTrigger =>
        n.event.udata == e.event.udata && if e.triggered then
          n.event == e.event && |n.pending| == |e.pending| + 1 && n.pending[..|e.pending|] == e.pending
          && n.pending[|e.pending|] == e.event.(data := data)
        else n.event.data == data && n.pending == e.pending
  }

  // What adding again does to an entry: a new deadline, and the new user data, also in what is pending.
  predicate Refreshed(e: Entry, n: Entry, added: Entry) {
    && n.triggered == e.triggered && n.trigger == e.trigger && n.reset == e.reset && n.deadline == added.deadline
    && n.event == e.event.(udata := added.event.udata) && |n.pending| == |e.pending|
    && forall i :: 0 <= i < |e.pending| ==> n.pending[i] == e.pending[i].(udata := added.event.udata)
  }

  predicate SameBut(s: seq<Entry>, t: seq<Entry>, i: nat)
    requires |s| == |t|
  {
    forall j :: 0 <= j < |s| && j != i ==> t[j] == s[j]
  }

  lemma TriggerFires(e: Entry, data: int)
    ensures Fired(e, TriggerEntry(e, data), data)
  {
  }

  lemma ReaddRefreshes(e: Entry, added: Entry)
    ensures Refreshed(e, Readd(e, added), added)
  {
    WithUdataIs(e.pending, added.event.udata);
  }

  lemma {:induction false} WithUdataIs(s: seq<Event>, udata: int)
    ensures forall i :: 0 <= i < |s| ==> WithUdata(s, udata)[i] == s[i].(udata := udata)
    decreases |s|
  {
    if s != [] {
      WithUdataIs(s[1..], udata);
    }
  }

  // The entry is to be delivered by a collection at `now`.
  predicate IsDue(e: Entry, now: nat) {
    e.triggered || (e.deadline != 0 && e.deadline <= now)
  }

  /* ---- What a collection delivers ---- */

  // An entry that is triggered is the next to be delivered after those before it, when they leave room.
  lemma {:induction false} CollectDelivers(s: seq<Entry>, i: nat, room: nat)
    requires i < |s| && s[i].triggered && |Collect(s[..i], room).0| < room
    ensures var n := |Collect(s[..i], room).0|; n < |Collect(s, room).0| && Collect(s, room).0[n] == s[i].event
    decreases i
  {
    hide Collect, Drain, Kept;
    CollectStep(s, room);
    var d, rest := Drain(s[0], room), s[1..];
    if i == 0 {
      CollectNone(s[..0], room);
      DrainFirst(s[0], room);
    } else {
      assert s[..i][0] == s[0] && s[..i][1..] == rest[..i - 1] && rest[i - 1] == s[i];
      CollectStep(s[..i], room);
      CollectDelivers(rest, i - 1, room - |d.0|);
    }
  }

  lemma CollectNone(s: seq<Entry>, room: nat)
    requires s == []
    ensures Collect(s, room).0 == []
  {
  }

  lemma DrainFirst(e: Entry, room: nat)
    requires room > 0 && e.triggered
    ensures |Drain(e, room).0| > 0 && Drain(e, room).0[0] == e.event
  {
  }

  // The entries before one take no more than all of them.
  lemma {:induction false} CollectPrefix(s: seq<Entry>, i: nat, room: nat)
    requires i <= |s|
    ensures |Collect(s[..i], room).0| <= |Collect(s, room).0|
    decreases i
  {
    hide Collect, Drain, Kept;
    if i == 0 {
      CollectNone(s[..i], room);
    } else if room > 0 {
      CollectStep(s, room);
      CollectStep(s[..i], room);
      assert s[..i][0] == s[0] && s[..i][1..] == s[1..][..i - 1];
      CollectPrefix(s[1..], i - 1, room - |Drain(s[0], room).0|);
    } else {
      CollectFull(s[..i]);
    }
  }

  lemma CollectFull(s: seq<Entry>)
    ensures Collect(s, 0).0 == []
  {
  }

  // A collection that does not use its room up has delivered every entry that was due.
  lemma GetComplete(s: seq<Entry>, now: nat, room: nat, i: nat)
    requires i < |s| && IsDue(s[i], now) && |Collect(Expire(s, now), room).0| < room
    ensures s[i].event in Collect(Expire(s, now), room).0
  {
    hide Collect;
    var t := Expire(s, now);
    CollectPrefix(t, i, room);
    CollectDelivers(t, i, room);
  }

  // Everything delivered is for the key of an entry that was triggered.
  lemma {:induction false} CollectOnlyDue(s: seq<Entry>, room: nat, j: nat) returns (i: nat)
    requires Sound(s) && j < |Collect(s, room).0|
    ensures i < |s| && s[i].triggered && KeyOf(s[i].event) == KeyOf(Collect(s, room).0[j])
    decreases |s|
  {
    hide Sound, Collect, Drain, Kept, EntrySound, Keys, KeyOf;
    if s == [] || room == 0 {
      CollectEmpty(s, room);
      assert false;
    } else {
      CollectStep(s, room);
      var d, rest := Drain(s[0], room), s[1..];
      assert s == [s[0]] + rest;
      SoundCons(s[0], rest);
      if j < |d.0| {
        DrainSound(s[0], room);
        DrainNothing(s[0], room);
        i := 0;
      } else {
        i := CollectOnlyDue(rest, room - |d.0|, j - |d.0|);
        i := i + 1;
      }
    }
  }

  lemma DrainNothing(e: Entry, room: nat)
    requires room > 0
    ensures !e.triggered ==> Drain(e, room).0 == []
  {
  }

  lemma {:induction false} CollectFits(s: seq<Entry>, room: nat)
    ensures |Collect(s, room).0| <= room
    decreases |s|
  {
    hide Collect, Drain, Kept;
    if s == [] || room == 0 {
      CollectEmpty(s, room);
    } else {
      CollectStep(s, room);
      CollectFits(s[1..], room - |Drain(s[0], room).0|);
    }
  }

  // A user event triggered with `data` is delivered with it, by the next collection that has room for it.
  lemma UserDelivered(s: seq<Entry>, k: Key, data: int, num: nat, now: nat)
    requires At(s, k).Some? && At(s, k).value.trigger == UserTrigger
    requires var t := Expire(Exec(s, DoTrigger(k, data)).1, now); |Collect(t[..Find(s, k)], num).0| < num
    ensures exists j :: (0 <= j < |ExecAll(s, [DoTrigger(k, data), Get(num, now)]).0|
      && ExecAll(s, [DoTrigger(k, data), Get(num, now)]).0[j] == At(s, k).value.event.(data := data, udata := data))
  {
    hide Collect, Expire, TriggerEntry;
    var i := Find(s, k);
    TriggerFires(s[i], data);
    var after := Exec(s, DoTrigger(k, data)).1;
    CollectDelivers(Expire(after, now), i, num);
    TwoOps(s, DoTrigger(k, data), Get(num, now));
    var n := |Collect(Expire(after, now)[..i], num).0|;
    assert ExecAll(s, [DoTrigger(k, data), Get(num, now)]).0[n] == after[i].event;
  }

  lemma TwoOps(s: seq<Entry>, a: Op, b: Op)
    requires Exec(s, a).0 == []
    ensures ExecAll(s, [a, b]).0 == Exec(Exec(s, a).1, b).0
  {
    hide Exec;
    assert [a, b][1..] == [b] && [b][1..] == [];
    assert ExecAll(s, [a, b]).0 == [] + ExecAll(Exec(s, a).1, [b]).0;
    assert ExecAll(Exec(s, a).1, [b]).0 == Exec(Exec(s, a).1, b).0 + [];
  }

  // A timer past its deadline is delivered, once, by the next collection that has room for it.
  lemma TimerDelivered(s: seq<Entry>, k: Key, num: nat, now: nat)
    requires Sound(s) && At(s, k).Some? && IsTimer(At(s, k).value) && At(s, k).value.deadline <= now
    requires |Collect(Expire(s, now)[..Find(s, k)], num).0| < num
    ensures var r := Exec(s, Get(num, now));
      At(s, k).value.event in r.0 && |DataFor(r.0, k)| == 1 && At(r.1, k) == None
  {
    hide Collect, Expire, Sound, IsTimer, DataFor, Find;
    var i, e := Find(s, k), At(s, k).value;
    AtKeys(s, k);
    TimerHas(e);
    CollectDelivers(Expire(s, now), i, num);
    var r := Exec(s, Get(num, now));
    var n := |Collect(Expire(s, now)[..i], num).0|;
    assert r.0[n] == e.event;
    DeliveredData(r.0, n);
    ExecTimer(s, Get(num, now), k);
  }

  lemma TimerHas(e: Entry)
    requires IsTimer(e)
    ensures e.deadline != 0
  {
  }

  lemma {:induction false} DeliveredData(ev: seq<Event>, n: nat)
    requires n < |ev|
    ensures DataFor(ev, KeyOf(ev[n])) != []
    decreases n
  {
    if n > 0 {
      DeliveredData(ev[1..], n - 1);
    }
  }

  // Every event delivered is for the key of an entry that is due.
  ghost predicate OnlyDue(s: seq<Entry>, now: nat, ev: seq<Event>) {
    forall j :: 0 <= j < |ev| ==> DueFor(s, now, KeyOf(ev[j]))
  }

  ghost predicate DueFor(s: seq<Entry>, now: nat, k: Key) {
    exists i :: 0 <= i < |s| && IsDue(s[i], now) && KeyOf(s[i].event) == k
  }

  // A collection delivers no more than it has room for, only what is due, and all of it unless the room is used up.
  lemma GetDelivers(s: seq<Entry>, now: nat, room: nat)
    ensures var ev := Collect(Expire(s, now), room).0;
      && |ev| <= room
      && (|ev| < room ==> forall i :: 0 <= i < |s| && IsDue(s[i], now) ==> s[i].event in ev)
      && (Sound(s) ==> OnlyDue(s, now, ev))
  {
    hide Collect, Sound, OnlyDue, IsDue, Expire;
    var ev := Collect(Expire(s, now), room).0;
    CollectFits(Expire(s, now), room);
    forall i | 0 <= i < |s| && IsDue(s[i], now) && |ev| < room
      ensures s[i].event in ev
    {
      GetComplete(s, now, room, i);
    }
    if Sound(s) {
      GetOnlyDue(s, now, room);
    }
  }

  lemma EntryDue(s: seq<Entry>, now: nat, i: nat)
    requires i < |s| && Expire(s, now)[i].triggered
    ensures DueFor(s, now, KeyOf(Expire(s, now)[i].event))
  {
    hide KeyOf;
    assert IsDue(s[i], now);
  }

  lemma GetOnlyDue(s: seq<Entry>, now: nat, room: nat)
    requires Sound(s)
    ensures OnlyDue(s, now, Collect(Expire(s, now), room).0)
  {
    hide Collect, Sound, KeyOf, DueFor, IsDue, Expire;
    var t := Expire(s, now);
    var ev := Collect(t, room).0;
    ExpireAt(s, now, Key(0, 0));
    forall j | 0 <= j < |ev|
      ensures DueFor(s, now, KeyOf(ev[j]))
    {
      var i := CollectOnlyDue(t, room, j);
      EntryDue(s, now, i);
    }
  }

  // What is left of an entry that was delivered: nothing of a one-shot event, and of an event with EV_CLEAR and
  // nothing pending one that waits for its next trigger.
  lemma DrainOnce(e: Entry, room: nat)
    requires room > 0 && e.triggered && e.pending == []
    ensures IsOneshot(e.event) ==> Drain(e, room) == ([e.event], None)
    ensures !IsOneshot(e.event) && IsClear(e.event) ==>
      Drain(e, room) == ([e.event], Some(e.(triggered := false, event := e.event.(fflags := 0, data := 0))))
  {
    hide IsOneshot, IsClear;
    var n := e.(triggered := false, event := e.event.(fflags := 0, data := 0));
    assert IsClear(e.event) ==> NextPending(ResetEntry(e)) == n;
    if !IsOneshot(e.event) && IsClear(e.event) && room > 1 {
      assert Drain(n, room - 1) == ([], Some(n));
      assert [e.event] + [] == [e.event];
      assert Drain(e, room) == ([e.event] + Drain(n, room - 1).0, Drain(n, room - 1).1);
    }
  }

  /* ---- The class ---- */

  datatype Error = NoError | EBADF | ENOENT

  class KernelEqueue {
    var events: seq<Entry>
    var closed: bool

    constructor ()
      ensures events == [] && !closed
    {
      events, closed := [], false;
    }

    method FindEntry(k: Key) returns (i: nat)
      ensures i == Find(events, k)
    {
      i := 0;
      while i < |events| && KeyOf(events[i].event) != k
        invariant i <= |events| && Find(events, k) == i + Find(events[i..], k)
      {
        assert events[i..][1..] == events[i + 1..];
        i := i + 1;
      }
    }

    method Close()
      modifies this
      ensures closed && events == if old(closed) then old(events) else []
    {
      if closed {
        return;
      }
      closed := true;
      events := [];
    }

    method AddEvent(e: Entry) returns (error: Error)
      modifies this`events
      ensures error == if closed then EBADF else NoError
      ensures events == if closed then old(events) else AddTo(old(events), e)
      ensures !closed ==> var i := Find(old(events), KeyOf(e.event));
        if i == |old(events)| then events == old(events) + [e]
        else |events| == |old(events)| && Refreshed(old(events)[i], events[i], e) && SameBut(old(events), events, i)
    {
      hide Find, KeyOf, Readd, Refreshed;
      if closed {
        return EBADF;
      }
      var i := FindEntry(KeyOf(e.event));
      if i < |events| {
        ReaddRefreshes(events[i], e);
        events := events[i := Readd(events[i], e)];
      } else {
        events := events + [e];
      }
      return NoError;
    }

    method TriggerEvent(k: Key, data: int) returns (error: Error)
      modifies this`events
      ensures error == if closed then EBADF else if Find(old(events), k) < |old(events)| then NoError else ENOENT
      ensures events == if closed then old(events) else TriggerIn(old(events), k, data)
      ensures error != NoError ==> events == old(events)
      ensures error == NoError ==> var i := Find(old(events), k);
        |events| == |old(events)| && Fired(old(events)[i], events[i], data) && SameBut(old(events), events, i)
    {
      hide Find, KeyOf, TriggerEntry, Fired;
      if closed {
        return EBADF;
      }
      var i := FindEntry(k);
      if i < |events| {
        TriggerFires(events[i], data);
        events := events[i := TriggerEntry(events[i], data)];
        return NoError;
      }
      return ENOENT;
    }

    method DeleteEvent(k: Key) returns (error: Error)
      modifies this`events
      ensures error == if closed then EBADF else if Find(old(events), k) < |old(events)| then NoError else ENOENT
      ensures events == if closed then old(events) else DeleteFrom(old(events), k)
    {
      hide Find, KeyOf;
      if closed {
        return EBADF;
      }
      var i := FindEntry(k);
      if i < |events| {
        events := events[..i] + events[i + 1..];
        return NoError;
      }
      return ENOENT;
    }

    method TriggerExpiredTimers(now: nat)
      modifies this`events
      ensures events == Expire(old(events), now)
      ensures |events| == |old(events)| && forall i :: 0 <= i < |events| ==>
        events[i] == old(events)[i].(triggered := IsDue(old(events)[i], now))
    {
      for i := 0 to |events|
        invariant |events| == |old(events)|
        invariant forall j :: 0 <= j < i ==> events[j] == ExpireEntry(old(events)[j], now)
        invariant forall j :: i <= j < |events| ==> events[j] == old(events)[j]
      {
        var e := events[i];
        if !e.triggered && e.deadline != 0 && e.deadline <= now {
          events := events[i := e.(triggered := true)];
        }
      }
    }

    // The inner loop of GetTriggeredEventsLocked, for the entry in hand.
    method DrainEntry(first: Entry, num: nat, ev: seq<Event>) returns (out: seq<Event>, erase: bool, e: Entry)
      requires |ev| < num
      ensures var d := Drain(first, num - |ev|); out == ev + d.0 && erase == d.1.None? && (!erase ==> d.1 == Some(e))
      ensures |out| <= num
    {
      hide And, DataOf;
      out, erase, e := ev, false, first;
      ghost var target := Drain(first, num - |ev|);
      assert ev + target.0 == out + target.0;
      while e.triggered
        invariant |out| < num && !erase
        invariant var d := Drain(e, num - |out|); ev + target.0 == out + d.0 && target.1 == d.1
        decreases num - |out|
      {
        ghost var before, left := e, out;
        out := out + [e.event];
        if And(e.event.flags, EV_ONESHOT) != 0 {
          erase := true;
          assert out == left + [before.event];
          return;
        }
        if And(e.event.flags, EV_CLEAR) != 0 {
          e := Untriggered(e);
        }
        if e.pending != [] {
          e := e.(event := e.pending[0], pending := e.pending[1..], triggered := true);
        }
        assert e == NextPending(ResetEntry(before));
        if |out| >= num {
          return;
        }
        assert left + ([before.event] + Drain(e, num - |out|).0) == out + Drain(e, num - |out|).0;
      }
      assert out + [] == out;
    }

    // GetTriggeredEventsLocked
    method GetTriggeredEvents(num: nat, now: nat) returns (error: Error, ev: seq<Event>)
      requires num >= 1
      modifies this`events
      ensures error == if closed then EBADF else NoError
      ensures closed ==> events == old(events) && ev == []
      ensures !closed ==> (ev, events) == Collect(Expire(old(events), now), num)
      ensures |ev| <= num
      ensures !closed && |ev| < num ==>
        forall i :: 0 <= i < |old(events)| && IsDue(old(events)[i], now) ==> old(events)[i].event in ev
      ensures !closed && Sound(old(events)) ==> OnlyDue(old(events), now, ev)
    {
      hide Collect, Drain, Sound, OnlyDue, IsDue, KeyOf, Expire;
      ev, error := Take(num, now);
      if !closed {
        GetDelivers(old(events), now, num);
      }
    }

    // Its loops.
    method Take(num: nat, now: nat) returns (ev: seq<Event>, error: Error)
      requires num >= 1
      modifies this`events
      ensures error == if closed then EBADF else NoError
      ensures closed ==> events == old(events) && ev == []
      ensures !closed ==> (ev, events) == Collect(Expire(old(events), now), num)
    {
      ev := [];
      if closed {
        return ev, EBADF;
      }
      TriggerExpiredTimers(now);
      hide Collect, Drain;
      ghost var target := Collect(events, num);
      var i: nat := 0;
      assert events[0..] == events && ev + target.0 == target.0 && events[..0] + target.1 == target.1;
      while i < |events| && |ev| < num
        invariant i <= |events| && |ev| <= num
        invariant var c := Collect(events[i..], num - |ev|); target == (ev + c.0, events[..i] + c.1)
        decreases |events| - i
      {
        ev, i := CollectOne(num, ev, i);
      }
      CollectNothing(events[i..], num - |ev|);
      assert ev + [] == ev && events[..i] + events[i..] == events;
      return ev, NoError;
    }

    // The outer loop's body, for the i-th entry.
    method CollectOne(num: nat, ev: seq<Event>, i: nat) returns (out: seq<Event>, next: nat)
      requires i < |events| && |ev| < num
      modifies this`events
      ensures |out| <= num && next <= |events| && |events| - next == |old(events)| - i - 1
      ensures var c, c' := Collect(old(events[i..]), num - |ev|), Collect(events[next..], num - |out|);
        (ev + c.0, old(events[..i]) + c.1) == (out + c'.0, events[..next] + c'.1)
    {
      hide Collect, Drain;
      ghost var kept, d := events[..i], Drain(events[i], num - |ev|);
      CollectStep(events[i..], num - |ev|);
      assert events[i..][1..] == events[i + 1..];
      var erase, e;
      out, erase, e := DrainEntry(events[i], num, ev);
      ghost var c := Collect(events[i + 1..], num - |out|);
      assert ev + (d.0 + c.0) == out + c.0;
      if erase {
        events := events[..i] + events[i + 1..];
        next := i;
        assert events[next..] == old(events[i + 1..]) && events[..next] == kept;
        assert kept + ([] + c.1) == kept + c.1;
      } else {
        events := events[i := e];
        next := i + 1;
        assert events[next..] == old(events[i + 1..]) && events[..next] == kept + [e];
        assert kept + ([e] + c.1) == (kept + [e]) + c.1;
      }
    }

    static lemma CollectNothing(s: seq<Entry>, room: nat)
      requires s == [] || room == 0
      ensures Collect(s, room) == ([], s)
    {
    }

    // The loop of GetNextTimerWaitMicros.
    method NearestDeadline() returns (nearest: nat)
      requires forall i :: 0 <= i < |events| ==> events[i].deadline <= UINT64_MAX
      ensures nearest <= UINT64_MAX
      ensures nearest < UINT64_MAX ==>
        exists j :: 0 <= j < |events| && Armed(events[j]) && events[j].deadline == nearest
      ensures forall j :: 0 <= j < |events| && Armed(events[j]) ==> nearest <= events[j].deadline
    {
      nearest := UINT64_MAX;
      for i := 0 to |events|
        invariant nearest <= UINT64_MAX
        invariant nearest < UINT64_MAX ==> exists j :: 0 <= j < i && Armed(events[j]) && events[j].deadline == nearest
        invariant forall j :: 0 <= j < i && Armed(events[j]) ==> nearest <= events[j].deadline
      {
        if !events[i].triggered && events[i].deadline != 0 {
          if events[i].deadline < nearest {
            nearest := events[i].deadline;
          }
        }
      }
    }

    // GetNextTimerWaitMicros
    method GetNextTimerWaitMicros(now: nat) returns (armed: bool, micros: nat)
      requires forall i :: 0 <= i < |events| ==> events[i].deadline <= UINT64_MAX
      ensures armed <==> exists i :: 0 <= i < |events| && Armed(events[i])
      ensures armed ==> exists i :: (0 <= i < |events| && Armed(events[i])
        && (forall j :: 0 <= j < |events| && Armed(events[j]) ==> events[i].deadline <= events[j].deadline)
        && micros == SleepMicros(events[i].deadline, now))
    {
      hide SleepMicros;
      var nearest := NearestDeadline();
      if nearest == UINT64_MAX {
        return false, 0;
      }
      micros := SleepFor(nearest, now);
      armed := true;
    }

    static method SleepFor(nearest: nat, now: nat) returns (micros: nat)
      ensures micros == SleepMicros(nearest, now)
    {
      var remaining := if nearest > now then nearest - now else 0;
      var rounded := (remaining + 999) % 0x1_0000_0000_0000_0000 / 1000;
      if rounded < 1 {
        rounded := 1;
      }
      return if rounded < UINT32_MAX then rounded else UINT32_MAX;
    }
  }

  // An entry whose timer is running; the largest deadline stands for a timer that never fires.
  predicate Armed(e: Entry) {
    !e.triggered && e.deadline != 0 && e.deadline != UINT64_MAX
  }

  // The microseconds to sleep until a deadline; the sum is taken in 64 bits.
  function SleepMicros(deadline: nat, now: nat): nat {
    var remaining := if deadline > now then deadline - now else 0;
    var rounded := (remaining + 999) % 0x1_0000_0000_0000_0000 / 1000;
    if rounded < 1 then 1 else if rounded > UINT32_MAX then UINT32_MAX else rounded
  }

  // m is the least number of microseconds, at least one, that reaches the deadline, or the largest one of 32 bits.
  predicate IsCeiling(m: nat, deadline: nat, now: nat) {
    && 1 <= m <= UINT32_MAX
    && (now + 1000 * m >= deadline || m == UINT32_MAX)
    && (now + 1000 * (m - 1) < deadline || m == 1)
  }

  // The sleep is that number exactly when the sum does not wrap; otherwise it is one microsecond.
  lemma SleepIsCeiling(deadline: nat, now: nat)
    requires deadline <= UINT64_MAX
    ensures IsCeiling(SleepMicros(deadline, now), deadline, now) <==> deadline <= now + (UINT64_MAX - 999)
    ensures deadline > now + (UINT64_MAX - 999) ==> SleepMicros(deadline, now) == 1
  {
    if now < deadline <= now + (UINT64_MAX - 999) {
      var v := deadline - now + 999;
      assert v % 0x1_0000_0000_0000_0000 == v;
    }
  }

  /* ---- Runs of operations on one queue ---- */

  datatype Op = Add(entry: Entry) | DoTrigger(key: Key, data: int) | Delete(key: Key) | Get(num: nat, now: nat)

  // The list after an operation on an open queue, and what was delivered.
  function Exec(s: seq<Entry>, op: Op): (seq<Event>, seq<Entry>) {
    match op
    case Add(e) => ([], AddTo(s, e))
    case DoTrigger(k, data) => ([], TriggerIn(s, k, data))
    case Delete(k) => ([], DeleteFrom(s, k))
    case Get(num, now) => Collect(Expire(s, now), num)
  }

  function ExecAll(s: seq<Entry>, ops: seq<Op>): (seq<Event>, seq<Entry>)
    decreases |ops|
  {
    if ops == [] then ([], s)
    else
      var first := Exec(s, ops[0]);
      var rest := ExecAll(first.1, ops[1..]);
      (first.0 + rest.0, rest.1)
  }

  // The data of the deliveries with key k.
  function DataFor(ev: seq<Event>, k: Key): seq<int> {
    if ev == [] then [] else (if KeyOf(ev[0]) == k then [ev[0].data] else []) + DataFor(ev[1..], k)
  }

  // The data triggered with key k.
  function TriggeredFor(ops: seq<Op>, k: Key): seq<int> {
    if ops == [] then []
    else (if ops[0].DoTrigger? && ops[0].key == k then [ops[0].data] else []) + TriggeredFor(ops[1..], k)
  }

  // Keys are unique, and the pending events of an entry have its key and flags.
  ghost predicate Sound(s: seq<Entry>) {
    && (forall i, j :: 0 <= i < j < |s| ==> KeyOf(s[i].event) != KeyOf(s[j].event))
    && (forall i :: 0 <= i < |s| ==> EntrySound(s[i]))
  }

  ghost predicate EntrySound(e: Entry) {
    && (e.pending != [] ==> e.triggered)
    && forall i :: 0 <= i < |e.pending| ==>
      KeyOf(e.pending[i]) == KeyOf(e.event) && e.pending[i].flags == e.event.flags
  }

  // An entry made by KernelAddAmprEvent.
  predicate IsAmpr(e: Entry) {
    e.trigger == AmprTrigger && e.reset == UserReset && e.deadline == 0 && IsClear(e.event) && !IsOneshot(e.event)
  }

  function DataOf(s: seq<Event>): (r: seq<int>)
    ensures |r| == |s|
  {
    if s == [] then [] else [s[0].data] + DataOf(s[1..])
  }

  // What an AMPR entry still has to deliver.
  function Owed(e: Entry): seq<int> {
    (if e.triggered then [e.event.data] else []) + DataOf(e.pending)
  }

  /* ---- One entry ---- */

  // What a delivery never changes in an entry.
  ghost predicate SameKind(e: Entry, n: Entry) {
    && KeyOf(n.event) == KeyOf(e.event) && n.event.flags == e.event.flags
    && n.trigger == e.trigger && n.reset == e.reset && n.deadline == e.deadline
  }

  lemma ResetKeeps(e: Entry)
    requires EntrySound(e)
    ensures EntrySound(NextPending(ResetEntry(e))) && SameKind(e, NextPending(ResetEntry(e)))
  {
  }

  lemma ResetOwed(e: Entry)
    requires EntrySound(e) && IsAmpr(e) && e.triggered
    ensures [e.event.data] + Owed(NextPending(ResetEntry(e))) == Owed(e)
  {
  }

  // Every delivery of an entry has its key, and what is left is sound.
  lemma {:induction false} DrainSound(e: Entry, room: nat)
    requires room > 0 && EntrySound(e)
    ensures var d := Drain(e, room);
      && (forall i :: 0 <= i < |d.0| ==> KeyOf(d.0[i]) == KeyOf(e.event))
      && (d.1.Some? ==> EntrySound(d.1.value) && SameKind(e, d.1.value))
    decreases room
  {
    ResetKeeps(e);
    if e.triggered && !IsOneshot(e.event) && room > 1 {
      DrainSound(NextPending(ResetEntry(e)), room - 1);
    }
  }

  // Draining an AMPR entry delivers the front of what it owes and loses nothing.
  lemma {:induction false} DrainOwed(e: Entry, room: nat)
    requires room > 0 && EntrySound(e) && IsAmpr(e)
    ensures Drain(e, room).1.Some? && DataOf(Drain(e, room).0) + Owed(Drain(e, room).1.value) == Owed(e)
    decreases room
  {
    if !e.triggered {
      assert DataOf([]) + Owed(e) == Owed(e);
    } else {
      hide Owed, DataOf, ResetEntry, NextPending, IsClear, IsOneshot;
      var n := NextPending(ResetEntry(e));
      ResetKeeps(e);
      SameIsAmpr(e, n);
      ResetOwed(e);
      OneDelivered(e.event);
      if room > 1 {
        DrainOwed(n, room - 1);
        var rest := Drain(n, room - 1);
        DataOfAppend([e.event], rest.0);
        assert [e.event.data] + (DataOf(rest.0) + Owed(rest.1.value))
            == ([e.event.data] + DataOf(rest.0)) + Owed(rest.1.value);
      }
    }
  }

  lemma OneDelivered(e: Event)
    ensures DataOf([e]) == [e.data]
  {
  }

  lemma SameIsAmpr(e: Entry, n: Entry)
    requires IsAmpr(e) && SameKind(e, n)
    ensures IsAmpr(n)
  {
  }

  lemma {:induction false} WithUdataKeeps(s: seq<Event>, udata: int)
    ensures DataOf(WithUdata(s, udata)) == DataOf(s)
    ensures forall i :: 0 <= i < |s| ==>
      KeyOf(WithUdata(s, udata)[i]) == KeyOf(s[i]) && WithUdata(s, udata)[i].flags == s[i].flags
    decreases |s|
  {
    if s != [] {
      WithUdataKeeps(s[1..], udata);
    }
  }

  lemma {:induction false} DataOfAppend(s: seq<Event>, t: seq<Event>)
    ensures DataOf(s + t) == DataOf(s) + DataOf(t)
    decreases |s|
  {
    if s == [] {
      assert s + t == t;
    } else {
      assert (s + t)[1..] == s[1..] + t;
      DataOfAppend(s[1..], t);
    }
  }

  lemma TriggerOwed(e: Entry, data: int)
    requires EntrySound(e)
    ensures EntrySound(TriggerEntry(e, data)) && KeyOf(TriggerEntry(e, data).event) == KeyOf(e.event)
    ensures IsAmpr(e) ==> IsAmpr(TriggerEntry(e, data)) && Owed(TriggerEntry(e, data)) == Owed(e) + [data]
  {
    var event := e.event.(data := data);
    DataOfAppend(e.pending, [event]);
    assert DataOf([event]) == [data];
  }

  lemma ReaddOwed(e: Entry, added: Entry)
    requires EntrySound(e)
    ensures EntrySound(Readd(e, added)) && KeyOf(Readd(e, added).event) == KeyOf(e.event)
    ensures IsAmpr(e) && added.deadline == 0 ==> IsAmpr(Readd(e, added)) && Owed(Readd(e, added)) == Owed(e)
  {
    WithUdataKeeps(e.pending, added.event.udata);
  }

  /* ---- The list ---- */

  // The entry with key k, if there is one.
  function At(s: seq<Entry>, k: Key): Option<Entry> {
    if Find(s, k) < |s| then Some(s[Find(s, k)]) else None
  }

  lemma AtUpdate(s: seq<Entry>, i: nat, e: Entry, k: Key)
    requires i < |s| && KeyOf(e.event) == KeyOf(s[i].event)
    ensures At(s[i := e], k) == if i == Find(s, k) then Some(e) else At(s, k)
  {
    var t := s[i := e];
    assert forall j :: 0 <= j < |s| ==> KeyOf(t[j].event) == KeyOf(s[j].event);
    assert Find(t, k) == Find(s, k);
  }

  lemma AtAppend(s: seq<Entry>, e: Entry, k: Key)
    ensures At(s + [e], k) == if At(s, k).Some? then At(s, k) else if KeyOf(e.event) == k then Some(e) else None
  {
    var t := s + [e];
    assert forall j :: 0 <= j < |s| ==> t[j] == s[j];
    assert t[|s|] == e;
  }

  lemma AtRemove(s: seq<Entry>, i: nat, k: Key)
    requires i < |s| && KeyOf(s[i].event) != k
    ensures At(s[..i] + s[i + 1..], k) == At(s, k)
  {
    var t := s[..i] + s[i + 1..];
    assert forall j :: 0 <= j < i ==> t[j] == s[j];
    assert forall j :: i <= j < |t| ==> t[j] == s[j + 1];
    var f := Find(s, k);
    if f < |s| {
      assert t[if f < i then f else f - 1] == s[f];
    }
  }

  lemma {:induction false} DataForAppend(s: seq<Event>, t: seq<Event>, k: Key)
    ensures DataFor(s + t, k) == DataFor(s, k) + DataFor(t, k)
    decreases |s|
  {
    if s == [] {
      assert s + t == t;
    } else {
      assert (s + t)[1..] == s[1..] + t;
      DataForAppend(s[1..], t, k);
    }
  }

  lemma {:induction false} DataForOne(s: seq<Event>, k: Key, own: Key)
    requires forall i :: 0 <= i < |s| ==> KeyOf(s[i]) == own
    ensures DataFor(s, k) == if own == k then DataOf(s) else []
    decreases |s|
  {
    if s != [] {
      DataForOne(s[1..], k, own);
    }
  }

  // The keys of a list.
  function Keys(s: seq<Entry>): set<Key> {
    set i | 0 <= i < |s| :: KeyOf(s[i].event)
  }

  lemma SoundCons(e: Entry, s: seq<Entry>)
    ensures Sound([e] + s) <==> EntrySound(e) && Sound(s) && KeyOf(e.event) !in Keys(s)
    ensures Keys([e] + s) == {KeyOf(e.event)} + Keys(s)
  {
    hide EntrySound, KeyOf;
    var t := [e] + s;
    assert forall i :: 0 < i < |t| ==> t[i] == s[i - 1];
    assert forall i :: 0 <= i < |s| ==> s[i] == t[i + 1];
    assert t[0] == e;
  }

  // Collecting keeps the list sound and adds no keys.
  lemma {:induction false} CollectSound(s: seq<Entry>, room: nat)
    requires Sound(s)
    ensures Sound(Collect(s, room).1) && Keys(Collect(s, room).1) <= Keys(s)
    decreases |s|
  {
    hide Sound, EntrySound, Keys, Drain, SameKind, Collect, Kept;
    if s == [] || room == 0 {
      CollectEmpty(s, room);
    } else {
      CollectStep(s, room);
      var d, rest := Drain(s[0], room), s[1..];
      assert s == [s[0]] + rest;
      SoundCons(s[0], rest);
      DrainSound(s[0], room);
      CollectSound(rest, room - |d.0|);
      KeptSound(s[0], d.1, Collect(rest, room - |d.0|).1, rest);
    }
  }

  lemma KeptSound(e: Entry, kept: Option<Entry>, s: seq<Entry>, rest: seq<Entry>)
    requires Sound(s) && Keys(s) <= Keys(rest) && KeyOf(e.event) !in Keys(rest)
    requires kept.Some? ==> EntrySound(kept.value) && SameKind(e, kept.value)
    ensures Sound(Kept(kept) + s) && Keys(Kept(kept) + s) <= {KeyOf(e.event)} + Keys(rest)
  {
    hide Sound, EntrySound, Keys;
    if kept.Some? {
      SoundCons(kept.value, s);
    } else {
      assert Kept(kept) + s == s;
    }
  }

  lemma AtCons(e: Entry, s: seq<Entry>, k: Key)
    ensures At([e] + s, k) == if KeyOf(e.event) == k then Some(e) else At(s, k)
  {
    assert ([e] + s)[1..] == s;
  }

  lemma AtKeys(s: seq<Entry>, k: Key)
    ensures At(s, k).Some? <==> k in Keys(s)
    ensures At(s, k).Some? ==> KeyOf(At(s, k).value.event) == k
    ensures At(s, k).Some? && Sound(s) ==> EntrySound(At(s, k).value)
  {
  }

  // What a collection does to the entry with key k: it drains it with some of the room, and delivers
  // nothing else with that key.
  ghost predicate Drained(before: Option<Entry>, after: Option<Entry>, data: seq<int>) {
    || (before == after && data == [])
    || (before.Some? && exists room: nat ::
      (room > 0 && Drain(before.value, room).1 == after && data == DataOf(Drain(before.value, room).0)))
  }

  lemma {:induction false} CollectAt(s: seq<Entry>, room: nat, k: Key)
    requires Sound(s)
    ensures Drained(At(s, k), At(Collect(s, room).1, k), DataFor(Collect(s, room).0, k))
    decreases |s|
  {
    hide Sound, At, DataOf, Collect, Keys, Drain, EntrySound, Kept;
    if s == [] || room == 0 {
      CollectEmpty(s, room);
    } else {
      var rest, left := s[1..], room - |Drain(s[0], room).0|;
      assert s == [s[0]] + rest;
      CollectStep(s, room);
      SoundCons(s[0], rest);
      AtCons(s[0], rest, k);
      CollectFirst(s[0], rest, room, k);
      if KeyOf(s[0].event) != k {
        CollectAt(rest, left, k);
      }
    }
  }

  lemma CollectEmpty(s: seq<Entry>, room: nat)
    requires s == [] || room == 0
    ensures Collect(s, room) == ([], s)
  {
  }

  // Collecting from e and then from the rest, seen at key k.
  lemma CollectFirst(e: Entry, rest: seq<Entry>, room: nat, k: Key)
    requires room > 0 && |Drain(e, room).0| <= room
    requires EntrySound(e) && Sound(rest) && KeyOf(e.event) !in Keys(rest)
    ensures var d := Drain(e, room);
      var c := Collect(rest, room - |d.0|);
      if KeyOf(e.event) == k then At(Kept(d.1) + c.1, k) == d.1 && DataFor(d.0 + c.0, k) == DataOf(d.0)
      else At(Kept(d.1) + c.1, k) == At(c.1, k) && DataFor(d.0 + c.0, k) == DataFor(c.0, k)
  {
    hide Sound, EntrySound, Keys, Drain, At, DataFor, DataOf, Collect, SameKind, Kept;
    var d := Drain(e, room);
    var left := room - |d.0|;
    var c := Collect(rest, left);
    DrainSound(e, room);
    DataForOne(d.0, k, KeyOf(e.event));
    DataForAppend(d.0, c.0, k);
    CollectSound(rest, left);
    AtKeys(c.1, k);
    AtKept(e, d.1, c.1, k);
    if KeyOf(e.event) == k {
      NothingElse(c.0, rest, left, k);
      assert DataOf(d.0) + [] == DataOf(d.0);
    } else {
      assert [] + DataFor(c.0, k) == DataFor(c.0, k);
    }
  }

  lemma AtKept(e: Entry, kept: Option<Entry>, s: seq<Entry>, k: Key)
    requires kept.Some? ==> SameKind(e, kept.value)
    ensures At(Kept(kept) + s, k) == if KeyOf(e.event) == k && kept.Some? then kept else At(s, k)
  {
    hide At;
    if kept.Some? {
      AtCons(kept.value, s, k);
    } else {
      assert Kept(kept) + s == s;
    }
  }

  // Nothing is delivered for a key that is not in the list.
  lemma {:induction false} NothingElse(ev: seq<Event>, s: seq<Entry>, room: nat, k: Key)
    requires Sound(s) && k !in Keys(s) && ev == Collect(s, room).0
    ensures DataFor(ev, k) == []
    decreases |s|
  {
    hide Sound, EntrySound, Keys, Drain, DataFor, Collect, DataOf, Kept, SameKind;
    if s == [] || room == 0 {
      CollectEmpty(s, room);
      NoOps(k);
    } else {
      CollectStep(s, room);
      var d, rest := Drain(s[0], room), s[1..];
      assert s == [s[0]] + rest;
      SoundCons(s[0], rest);
      DrainSound(s[0], room);
      DataForOne(d.0, k, KeyOf(s[0].event));
      DataForAppend(d.0, Collect(rest, room - |d.0|).0, k);
      NothingElse(Collect(rest, room - |d.0|).0, rest, room - |d.0|, k);
    }
  }

  lemma ExpireAt(s: seq<Entry>, now: nat, k: Key)
    ensures At(Expire(s, now), k) == if At(s, k).Some? then Some(ExpireEntry(At(s, k).value, now)) else None
    ensures Sound(s) ==> Sound(Expire(s, now))
  {
    var t := Expire(s, now);
    assert forall j :: 0 <= j < |s| ==> KeyOf(t[j].event) == KeyOf(s[j].event);
    assert Find(t, k) == Find(s, k);
  }

  // KernelAddEvent is given a new entry that is neither triggered nor has pending events.
  predicate NewEntry(e: Entry) {
    !e.triggered && e.pending == []
  }

  lemma SoundUpdate(s: seq<Entry>, i: nat, e: Entry)
    requires Sound(s) && i < |s| && EntrySound(e) && KeyOf(e.event) == KeyOf(s[i].event)
    ensures Sound(s[i := e])
  {
  }

  lemma SoundRemove(s: seq<Entry>, i: nat)
    requires Sound(s) && i < |s|
    ensures Sound(s[..i] + s[i + 1..])
  {
    var t := s[..i] + s[i + 1..];
    assert forall j :: 0 <= j < i ==> t[j] == s[j];
    assert forall j :: i <= j < |t| ==> t[j] == s[j + 1];
  }

  // Every operation keeps keys unique and pending events consistent.
  lemma ExecSound(s: seq<Entry>, op: Op)
    requires Sound(s) && (op.Add? ==> NewEntry(op.entry))
    ensures Sound(Exec(s, op).1)
  {
    hide Sound, EntrySound, Collect, Expire;
    match op {
      case Add(e) =>
        var i := Find(s, KeyOf(e.event));
        if i < |s| {
          SoundAt(s, i);
          ReaddOwed(s[i], e);
          SoundUpdate(s, i, Readd(s[i], e));
        } else {
          SoundAppend(s, e);
        }
      case DoTrigger(k, data) =>
        var i := Find(s, k);
        if i < |s| {
          SoundAt(s, i);
          TriggerOwed(s[i], data);
          SoundUpdate(s, i, TriggerEntry(s[i], data));
        }
      case Delete(k) =>
        if Find(s, k) < |s| {
          SoundRemove(s, Find(s, k));
        }
      case Get(num, now) =>
        ExpireAt(s, now, Key(0, 0));
        CollectSound(Expire(s, now), num);
    }
  }

  lemma SoundAt(s: seq<Entry>, i: nat)
    requires Sound(s) && i < |s|
    ensures EntrySound(s[i])
  {
  }

  lemma SoundAppend(s: seq<Entry>, e: Entry)
    requires Sound(s) && NewEntry(e) && Find(s, KeyOf(e.event)) == |s|
    ensures Sound(s + [e])
  {
    assert forall j :: 0 <= j < |s| ==> (s + [e])[j] == s[j];
  }

  // What KernelAddAmprEvent and KernelAddHRTimerEvent add.
  function AmprEntry(id: nat, filter: int, udata: int): Entry {
    Entry(false, 0, Event(id, filter, 0x01 + EV_CLEAR, 0, 0, udata), AmprTrigger, UserReset, [])
  }

  function TimerEntry(id: nat, filter: int, udata: int, deadline: nat): Entry {
    Entry(false, deadline, Event(id, filter, 0x01 + EV_ONESHOT, 0, 0, udata), NoTrigger, NoReset, [])
  }

  // A newly added AMPR event owes nothing, and a newly added timer has not fired.
  lemma AddedEntries(s: seq<Entry>, id: nat, filter: int, udata: int, deadline: nat)
    requires Find(s, Key(id, filter)) == |s|
    ensures var e := AmprEntry(id, filter, udata);
      NewEntry(e) && IsAmpr(e) && Owed(e) == [] && At(AddTo(s, e), Key(id, filter)) == Some(e)
    ensures var e := TimerEntry(id, filter, udata, deadline);
      NewEntry(e) && (deadline != 0 ==> IsTimer(e)) && At(AddTo(s, e), Key(id, filter)) == Some(e)
  {
    hide And, Find, At;
    AddedFlags();
    Added(s, AmprEntry(id, filter, udata));
    Added(s, TimerEntry(id, filter, udata, deadline));
  }

  lemma Added(s: seq<Entry>, e: Entry)
    requires Find(s, KeyOf(e.event)) == |s|
    ensures At(AddTo(s, e), KeyOf(e.event)) == Some(e)
  {
    hide Find;
    AtAppend(s, e, KeyOf(e.event));
  }

  lemma AddedFlags()
    ensures And(0x21, 0x20) == 0x20 && And(0x21, 0x10) == 0 && And(0x11, 0x10) == 0x10
  {
    hide And;
    AndStep(0, 0);
    AndStep(1, 0);
    AndStep(1, 1);
    AndStep(2, 1);
    AndStep(2, 2);
    AndStep(4, 2);
    AndStep(4, 4);
    AndStep(8, 4);
    AndStep(8, 8);
    AndStep(0x10, 8);
    AndStep(0x10, 0x10);
    AndStep(0x11, 0x10);
    AndStep(0x21, 0x10);
    AndStep(0x21, 0x20);
  }

  lemma AndStep(v: nat, w: nat)
    ensures And(v, w) == if v == 0 then 0 else (if v % 2 == 1 && w % 2 == 1 then 1 else 0) + 2 * And(v / 2, w / 2)
  {
  }

  // The operations on key k do not delete it, and re-adding it arms no timer.
  predicate KeepsAmpr(op: Op, k: Key) {
    && (op.Delete? ==> op.key != k)
    && (op.Add? && KeyOf(op.entry.event) == k ==> op.entry.deadline == 0)
  }

  // One operation on an AMPR event: what was owed and what is triggered now is delivered, in order,
  // or still owed.
  lemma ExecAmpr(s: seq<Entry>, op: Op, k: Key)
    requires Sound(s) && At(s, k).Some? && IsAmpr(At(s, k).value) && KeepsAmpr(op, k)
    ensures var r := Exec(s, op);
      && At(r.1, k).Some? && IsAmpr(At(r.1, k).value)
      && DataFor(r.0, k) + Owed(At(r.1, k).value) == Owed(At(s, k).value) + TriggeredFor([op], k)
  {
    hide Sound, EntrySound, Collect, Expire, Owed, IsAmpr, Drain, Find, Readd, TriggerEntry;
    var e := At(s, k).value;
    AtKeys(s, k);
    match op {
      case Add(added) =>
        ReaddOwed(e, added);
        if Find(s, KeyOf(added.event)) < |s| {
          var i := Find(s, KeyOf(added.event));
          SoundAt(s, i);
          ReaddOwed(s[i], added);
          AtUpdate(s, i, Readd(s[i], added), k);
        } else {
          AtAppend(s, added, k);
        }
        assert [] + Owed(At(Exec(s, op).1, k).value) == Owed(e) + [];
      case DoTrigger(t, data) =>
        if Find(s, t) < |s| {
          var i := Find(s, t);
          SoundAt(s, i);
          TriggerOwed(s[i], data);
          AtUpdate(s, i, TriggerEntry(s[i], data), k);
        }
        assert TriggeredFor([op], k) == if t == k then [data] else [];
        assert [] + Owed(At(Exec(s, op).1, k).value) == Owed(At(Exec(s, op).1, k).value);
        assert Owed(e) + [] == Owed(e);
      case Delete(t) =>
        if Find(s, t) < |s| {
          AtRemove(s, Find(s, t), k);
        }
        assert [] + Owed(e) == Owed(e) + [];
      case Get(num, now) =>
        GetAmpr(s, num, now, k);
        assert Owed(e) + [] == Owed(e);
    }
  }

  lemma GetAmpr(s: seq<Entry>, num: nat, now: nat, k: Key)
    requires Sound(s) && At(s, k).Some? && IsAmpr(At(s, k).value)
    ensures var r := Collect(Expire(s, now), num);
      && At(r.1, k).Some? && IsAmpr(At(r.1, k).value)
      && DataFor(r.0, k) + Owed(At(r.1, k).value) == Owed(At(s, k).value)
  {
    hide Sound, EntrySound, Collect, Expire, Owed, Drain, DataFor, At, SameKind, IsClear, IsOneshot;
    var e := At(s, k).value;
    AtKeys(s, k);
    ExpireAt(s, now, k);
    CollectAt(Expire(s, now), num, k);
    var r := Collect(Expire(s, now), num);
    if At(r.1, k) == Some(e) && DataFor(r.0, k) == [] {
      assert [] + Owed(e) == Owed(e);
    } else {
      var room: nat :| room > 0 && Drain(e, room).1 == At(r.1, k) && DataFor(r.0, k) == DataOf(Drain(e, room).0);
      DrainOwed(e, room);
      DrainSound(e, room);
      SameIsAmpr(e, At(r.1, k).value);
    }
  }

  // Over any run that does not delete it, an AMPR event delivers each trigger exactly once, in
  // order: what was owed before, then the triggers, is what was delivered, then what is still owed.
  lemma {:induction false} AmprExactlyOnce(s: seq<Entry>, ops: seq<Op>, k: Key)
    requires Sound(s) && At(s, k).Some? && IsAmpr(At(s, k).value)
    requires forall i :: 0 <= i < |ops| ==> KeepsAmpr(ops[i], k) && (ops[i].Add? ==> NewEntry(ops[i].entry))
    ensures var r := ExecAll(s, ops);
      && Sound(r.1) && At(r.1, k).Some? && IsAmpr(At(r.1, k).value)
      && DataFor(r.0, k) + Owed(At(r.1, k).value) == Owed(At(s, k).value) + TriggeredFor(ops, k)
    decreases |ops|
  {
    hide Sound, Exec, At, Owed, IsAmpr, KeepsAmpr, DataFor, TriggeredFor;
    if ops == [] {
      NoOps(k);
      assert [] + Owed(At(s, k).value) == Owed(At(s, k).value) + [];
    } else {
      var first := Exec(s, ops[0]);
      ExecSound(s, ops[0]);
      ExecAmpr(s, ops[0], k);
      AmprExactlyOnce(first.1, ops[1..], k);
      var rest := ExecAll(first.1, ops[1..]);
      DataForAppend(first.0, rest.0, k);
      TriggeredForFirst(ops, k);
      Regroup(DataFor(first.0, k), DataFor(rest.0, k), Owed(At(first.1, k).value), Owed(At(rest.1, k).value),
        Owed(At(s, k).value), TriggeredFor([ops[0]], k), TriggeredFor(ops[1..], k));
    }
  }

  lemma NoOps(k: Key)
    ensures DataFor([], k) == [] && TriggeredFor([], k) == []
  {
  }

  lemma TriggeredForFirst(ops: seq<Op>, k: Key)
    requires ops != []
    ensures TriggeredFor(ops, k) == TriggeredFor([ops[0]], k) + TriggeredFor(ops[1..], k)
  {
  }

  // Two stretches of deliveries put together.
  lemma Regroup(a: seq<int>, b: seq<int>, c: seq<int>, d: seq<int>, o: seq<int>, x: seq<int>, y: seq<int>)
    requires a + c == o + x && b + d == c + y
    ensures (a + b) + d == o + (x + y)
  {
    assert (a + b) + d == a + (b + d);
    assert a + (c + y) == (a + c) + y;
  }

  /* ---- Timers and level events ---- */

  // An entry made by KernelAddHRTimerEvent.
  predicate IsTimer(e: Entry) {
    e.trigger == NoTrigger && e.pending == [] && e.deadline != 0 && IsOneshot(e.event)
  }

  // The operation does not add key k again and does not trigger it by hand.
  predicate LeavesTimer(op: Op, k: Key) {
    (op.DoTrigger? ==> op.key != k) && (op.Add? ==> KeyOf(op.entry.event) != k)
  }

  // A collection delivers a timer, after its deadline, and removes it, or leaves it; a deletion removes it.
  lemma ExecTimer(s: seq<Entry>, op: Op, k: Key)
    requires Sound(s) && At(s, k).Some? && IsTimer(At(s, k).value) && LeavesTimer(op, k)
    ensures var r, e := Exec(s, op), At(s, k).value;
      || (At(r.1, k) == None && |DataFor(r.0, k)| == 1 && op.Get? && (e.triggered || e.deadline <= op.now))
      || (At(r.1, k) == None && DataFor(r.0, k) == [] && op == Delete(k))
      || (DataFor(r.0, k) == [] && At(r.1, k).Some? && IsTimer(At(r.1, k).value)
          && At(r.1, k).value.deadline == e.deadline
          && (At(r.1, k).value.triggered ==> e.triggered || (op.Get? && e.deadline <= op.now)))
  {
    hide Sound, EntrySound, Collect, Expire, Find, Readd, TriggerEntry, SameKind;
    AtKeys(s, k);
    match op {
      case Add(added) =>
        if Find(s, KeyOf(added.event)) < |s| {
          var i := Find(s, KeyOf(added.event));
          SoundAt(s, i);
          ReaddOwed(s[i], added);
          AtUpdate(s, i, Readd(s[i], added), k);
        } else {
          AtAppend(s, added, k);
        }
      case DoTrigger(t, data) =>
        if Find(s, t) < |s| {
          SoundAt(s, Find(s, t));
          TriggerOwed(s[Find(s, t)], data);
          AtUpdate(s, Find(s, t), TriggerEntry(s[Find(s, t)], data), k);
        }
      case Delete(t) =>
        if t == k {
          AtDeleted(s, k);
        } else if Find(s, t) < |s| {
          AtRemove(s, Find(s, t), k);
        }
      case Get(num, now) =>
        ExpireAt(s, now, k);
        CollectAt(Expire(s, now), num, k);
        assert DataOf([At(s, k).value.event]) == [At(s, k).value.event.data];
    }
  }

  // Nothing is left under a deleted key.
  lemma AtDeleted(s: seq<Entry>, k: Key)
    requires Sound(s)
    ensures At(DeleteFrom(s, k), k) == None
  {
    hide EntrySound;
    var i, t := Find(s, k), DeleteFrom(s, k);
    if i < |s| {
      assert forall j :: 0 <= j < |t| ==> t[j] == s[if j < i then j else j + 1];
    }
  }

  // A key that is in no entry is not delivered, and stays out unless it is added.
  lemma ExecAbsent(s: seq<Entry>, op: Op, k: Key)
    requires Sound(s) && At(s, k) == None && LeavesTimer(op, k)
    ensures At(Exec(s, op).1, k) == None && DataFor(Exec(s, op).0, k) == []
  {
    hide Sound, EntrySound, Collect, Expire, Find, Readd, TriggerEntry, SameKind;
    AtKeys(s, k);
    match op {
      case Add(added) =>
        if Find(s, KeyOf(added.event)) < |s| {
          var i := Find(s, KeyOf(added.event));
          SoundAt(s, i);
          ReaddOwed(s[i], added);
          AtUpdate(s, i, Readd(s[i], added), k);
        } else {
          AtAppend(s, added, k);
        }
      case DoTrigger(t, data) =>
        if Find(s, t) < |s| {
          SoundAt(s, Find(s, t));
          TriggerOwed(s[Find(s, t)], data);
          AtUpdate(s, Find(s, t), TriggerEntry(s[Find(s, t)], data), k);
        }
      case Delete(t) =>
        if Find(s, t) < |s| {
          AtRemove(s, Find(s, t), k);
        }
      case Get(num, now) =>
        ExpireAt(s, now, k);
        CollectAt(Expire(s, now), num, k);
    }
  }

  // Some collection in the run reads a clock at or after the deadline.
  predicate Reached(ops: seq<Op>, deadline: nat) {
    exists i :: 0 <= i < |ops| && ops[i].Get? && deadline <= ops[i].now
  }

  // A timer that is neither re-added nor triggered by hand is delivered at most once over any run, and not at all in a
  // run whose clock has not reached its deadline.
  lemma {:induction false} TimerAtMostOnce(s: seq<Entry>, ops: seq<Op>, k: Key)
    requires Sound(s)
    requires At(s, k).Some? ==> IsTimer(At(s, k).value)
    requires forall i :: 0 <= i < |ops| ==> LeavesTimer(ops[i], k) && (ops[i].Add? ==> NewEntry(ops[i].entry))
    ensures var n := |DataFor(ExecAll(s, ops).0, k)|;
      && n <= (if At(s, k).Some? then 1 else 0)
      && (n > 0 && !At(s, k).value.triggered ==> Reached(ops, At(s, k).value.deadline))
    decreases |ops|
  {
    hide Sound, Exec, At, IsTimer, LeavesTimer;
    if ops != [] {
      var first := Exec(s, ops[0]);
      ExecSound(s, ops[0]);
      if At(s, k).Some? {
        ExecTimer(s, ops[0], k);
      } else {
        ExecAbsent(s, ops[0], k);
      }
      TimerAtMostOnce(first.1, ops[1..], k);
      DataForAppend(first.0, ExecAll(first.1, ops[1..]).0, k);
      if At(first.1, k).Some? && Reached(ops[1..], At(first.1, k).value.deadline) {
        var i :| 0 <= i < |ops[1..]| && ops[1..][i].Get? && At(first.1, k).value.deadline <= ops[1..][i].now;
        assert ops[i + 1] == ops[1..][i];
      }
    }
  }

  // A triggered level event, without EV_CLEAR and nothing pending, is repeated until the room is used.
  lemma {:induction false} LevelFillsRoom(e: Entry, room: nat)
    requires room > 0 && e.triggered && e.pending == [] && !IsOneshot(e.event) && !IsClear(e.event)
    ensures |Drain(e, room).0| == room && Drain(e, room).1 == Some(e)
    ensures forall i :: 0 <= i < room ==> Drain(e, room).0[i] == e.event
    decreases room
  {
    if room > 1 {
      LevelFillsRoom(e, room - 1);
    }
  }

  /* ---- KernelAddHRTimerEvent ---- */

  datatype Timespec = Timespec(sec: int, nsec: int)

  predicate ValidTimespec(ts: Timespec) {
    ts.sec >= 0 && 0 <= ts.nsec < 1_000_000_000 && ts.sec <= (UINT64_MAX - ts.nsec) / 1_000_000_000
  }

  // The delay fits 64 bits exactly when the arguments are accepted, and the deadline saturates.
  method TimerDeadline(ts: Timespec, now: nat) returns (ok: bool, deadline: nat)
    requires now <= UINT64_MAX
    ensures ok <==> ts.sec >= 0 && 0 <= ts.nsec < 1_000_000_000 && ts.sec * 1_000_000_000 + ts.nsec <= UINT64_MAX
    ensures ok ==> var exact := now + ts.sec * 1_000_000_000 + ts.nsec;
      deadline == if exact <= UINT64_MAX then exact else UINT64_MAX
  {
    if !ValidTimespec(ts) {
      return false, 0;
    }
    var delay := ts.sec * 1_000_000_000 + ts.nsec;
    return true, if delay <= UINT64_MAX - now then now + delay else UINT64_MAX;
  }
}

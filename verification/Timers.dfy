/** The timer queue (runtime/src/actor.rs). The binary heap is taken as a map from timer ids to
    entries from which the least entry is popped. `TakeId`, `Push`, `CancelToken`, `Cancel`,
    `Pop`, `CheckFirst`, `Send`, `CheckAgain` and `Reschedule` are the atomic steps of callers
    and of the timer worker, so what each of them keeps holds under every interleaving; the
    other methods run several of them in a row. */
module Timers {
  import opened Ast

  type TimerId = nat

  datatype Entry = Entry(fireAt: nat, interval: Option<nat>)

  /** How a timer was created. */
  datatype Origin = Origin(at: nat, interval: Option<nat>)

  /** A message handed to the target: by which timer, due when, sent when. */
  datatype Delivery = Delivery(id: TimerId, due: nat, at: nat)

  type Heap = map<TimerId, Entry>

  /** How far the worker is with the entry it has popped. */
  datatype Stage = Popped | Passed | Served

  /** The popped entry, and the time the worker's tick began. */
  datatype Flight = Flight(id: TimerId, entry: Entry, now: nat, stage: Stage)

  /** The heap's order: by due time, then by id. */
  predicate Before(due: nat, id: TimerId, otherDue: nat, other: TimerId) {
    due < otherDue || (due == otherDue && id < other)
  }

  predicate IsNext(heap: Heap, id: TimerId) {
    id in heap && forall other :: other in heap && other != id ==>
        Before(heap[id].fireAt, id, heap[other].fireAt, other)
  }

  lemma {:induction false} NextExists(heap: Heap)
    requires heap != map[]
    ensures exists id :: IsNext(heap, id)
    decreases |heap|
  {
    var id :| id in heap;
    var rest := heap - {id};
    if rest == map[] {
      assert heap.Keys == {id} by {
        forall k | k in heap ensures k == id { assert k in rest || k == id; }
      }
      assert IsNext(heap, id);
    } else {
      assert rest.Keys == heap.Keys - {id};
      NextExists(rest);
      var m :| IsNext(rest, m);
      var least := if Before(heap[id].fireAt, id, heap[m].fireAt, m) then id else m;
      forall other | other in heap && other != least
        ensures Before(heap[least].fireAt, least, heap[other].fireAt, other)
      {
        assert other in rest || other == id;
        assert other in rest && other != m ==> Before(rest[m].fireAt, m, rest[other].fireAt, other);
      }
      assert IsNext(heap, least);
    }
  }

  function Count(log: seq<Delivery>, id: TimerId): nat {
    if log == [] then 0 else Count(log[..|log| - 1], id) + (if log[|log| - 1].id == id then 1 else 0)
  }

  lemma CountNext(log: seq<Delivery>, d: Delivery, id: TimerId)
    ensures Count(log + [d], id) == Count(log, id) + (if d.id == id then 1 else 0)
  {
    assert (log + [d])[..|log|] == log;
  }

  lemma {:induction false} CountGrows(log: seq<Delivery>, n: nat, id: TimerId)
    requires n <= |log|
    ensures Count(log[..n], id) <= Count(log, id)
    decreases |log|
  {
    if n < |log| {
      CountGrows(log[..|log| - 1], n, id);
      assert log[..|log| - 1][..n] == log[..n];
    } else {
      assert log[..n] == log;
    }
  }

  /** A pending entry is due no earlier than its next delivery may come. */
  predicate Punctual(log: seq<Delivery>, origin: Origin, id: TimerId, e: Entry) {
    && e.interval == origin.interval
    && (e.interval.Some? ==> e.fireAt >= origin.at + (Count(log, id) + 1) * e.interval.value)
    && (e.interval.None? ==> Count(log, id) == 0)
  }

  /** The `k`-th delivery of a repeating timer comes at least `k` intervals after its creation,
      and a one-shot timer is delivered at most once. */
  predicate Kept(log: seq<Delivery>, origins: map<TimerId, Origin>) {
    && (forall p :: 0 <= p < |log| ==> log[p].id in origins)
    && (forall p :: 0 <= p < |log| ==>
          match origins[log[p].id].interval
          case Some(interval) => log[p].at >= origins[log[p].id].at + Count(log[..p + 1], log[p].id) * interval
          case None => Count(log[..p + 1], log[p].id) == 1)
  }

  lemma KeptNext(log: seq<Delivery>, origins: map<TimerId, Origin>, id: TimerId, e: Entry, now: nat)
    requires Kept(log, origins) && id in origins && Punctual(log, origins[id], id, e) && e.fireAt <= now
    ensures Kept(log + [Delivery(id, e.fireAt, now)], origins)
  {
    var more := log + [Delivery(id, e.fireAt, now)];
    CountNext(log, Delivery(id, e.fireAt, now), id);
    assert more[..|more|] == more;
    forall p | 0 <= p < |log| ensures more[..p + 1] == log[..p + 1] && more[p] == log[p] {}
  }

  /** A one-shot timer is delivered at most once. */
  lemma {:induction false} OneShotOnce(log: seq<Delivery>, origins: map<TimerId, Origin>, id: TimerId)
    requires Kept(log, origins) && id in origins && origins[id].interval.None?
    ensures Count(log, id) <= 1
    decreases |log|
  {
    if log != [] {
      var before := log[..|log| - 1];
      if log[|log| - 1].id == id {
        assert log[..|log|] == log;
      } else {
        assert Kept(before, origins) by {
          forall p | 0 <= p < |before| ensures before[..p + 1] == log[..p + 1] && before[p] == log[p] {}
        }
        OneShotOnce(before, origins, id);
      }
    }
  }

  class TimerWheel {
    var heap: Heap
    /** Popped repeating timers, to be pushed back at the end of the tick. */
    var buffer: seq<(TimerId, Entry)>
    var flight: Option<Flight>
    var nextId: TimerId
    /** The cancellation flags, which tokens share with entries. */
    var cancelled: set<TimerId>
    var attached: bool
    var log: seq<Delivery>
    ghost var origins: map<TimerId, Origin>
    /** Ids taken for timers that are not pushed yet. */
    ghost var reserved: set<TimerId>
    /** How often a cancelled timer may be delivered in all. */
    ghost var allowed: map<TimerId, nat>

    ghost predicate FlightValid()
      reads this
    {
      flight.Some? ==>
        var f := flight.value;
        && f.id in origins && f.id !in heap && f.entry.fireAt <= f.now
        && (forall k :: 0 <= k < |buffer| ==> buffer[k].0 != f.id)
        && (if !f.stage.Served? then Punctual(log, origins[f.id], f.id, f.entry)
            else f.entry.interval.Some? ==> Punctual(log, origins[f.id], f.id, Again(f.entry, f.now)))
    }

    ghost predicate CancelValid()
      reads this
    {
      cancelled == allowed.Keys && forall id :: id in allowed ==> Count(log, id) + OnItsWay(id) <= allowed[id]
    }

    ghost predicate Valid()
      reads this
    {
      && (forall id :: id in origins ==> id < nextId)
      && (forall id :: id in reserved ==> id < nextId && id !in origins)
      && (forall id :: id in heap ==> id in origins && Punctual(log, origins[id], id, heap[id]))
      && (forall k :: 0 <= k < |buffer| ==>
            && buffer[k].0 in origins && buffer[k].0 !in heap && buffer[k].1.interval.Some?
            && Punctual(log, origins[buffer[k].0], buffer[k].0, buffer[k].1))
      && (forall i, j :: 0 <= i < j < |buffer| ==> buffer[i].0 != buffer[j].0)
      && Kept(log, origins) && FlightValid() && CancelValid()
    }

    /** The message of this timer that has passed its check and is not sent yet. */
    ghost function OnItsWay(id: TimerId): nat
      reads this
    {
      if flight.Some? && flight.value.id == id && flight.value.stage.Passed? then 1 else 0
    }

    constructor ()
      ensures Valid() && heap == map[] && buffer == [] && flight == None && log == [] && cancelled == {} && !attached
      ensures nextId == 1 && reserved == {}
    {
      heap, buffer, flight, nextId, cancelled, attached, log := map[], [], None, 1, {}, false, [];
      origins, reserved, allowed := map[], {}, map[];
    }

    method Attach()
      requires Valid()
      modifies this`attached
      ensures Valid() && attached
    {
      attached := true;
    }

    // -------------------------------------------------------------- callers

    method TakeId() returns (id: TimerId)
      requires Valid()
      modifies this`nextId, this`reserved
      ensures Valid() && id == old(nextId) && nextId == id + 1 && reserved == old(reserved) + {id}
    {
      id := nextId;
      nextId := nextId + 1;
      reserved := reserved + {id};
    }

    method Push(id: TimerId, now: nat, delay: nat, interval: Option<nat>)
      requires Valid() && id in reserved && (interval.Some? ==> interval.value == delay)
      modifies this`heap, this`origins, this`reserved
      ensures Valid() && reserved == old(reserved) - {id}
      ensures heap == old(heap)[id := Entry(now + delay, interval)]
      ensures origins == old(origins)[id := Origin(now, interval)]
    {
      NeverDelivered(log, origins, id);
      heap := heap[id := Entry(now + delay, interval)];
      origins := origins[id := Origin(now, interval)];
      reserved := reserved - {id};
      assert Kept(log, origins);
    }

    method SendAfter(now: nat, delay: nat) returns (id: TimerId)
      requires Valid()
      modifies this`heap, this`nextId, this`origins, this`reserved
      ensures Valid() && id == old(nextId) && heap == old(heap)[id := Entry(now + delay, None)]
      ensures origins == old(origins)[id := Origin(now, None)]
    {
      id := TakeId();
      Push(id, now, delay, None);
    }

    method ScheduleRepeat(now: nat, interval: nat) returns (id: TimerId)
      requires Valid()
      modifies this`heap, this`nextId, this`origins, this`reserved
      ensures Valid() && id == old(nextId) && heap == old(heap)[id := Entry(now + interval, Some(interval))]
      ensures origins == old(origins)[id := Origin(now, Some(interval))]
    {
      id := TakeId();
      Push(id, now, interval, Some(interval));
    }

    /** A token's own cancellation, which always finds the flag. From here on the timer delivers
        nothing more, but for a message that has already passed its check. */
    method CancelToken(id: TimerId) returns (first: bool)
      requires Valid()
      modifies this`cancelled, this`allowed
      ensures Valid() && cancelled == old(cancelled) + {id} && first == (id !in old(cancelled))
      ensures allowed == if first then old(allowed)[id := Count(log, id) + OnItsWay(id)] else old(allowed)
    {
      first := id !in cancelled;
      cancelled := cancelled + {id};
      if first { allowed := allowed[id := Count(log, id) + OnItsWay(id)]; }
    }

    /** Cancellation by id searches the heap only: a timer that waits in the buffer of a running
        tick, or that the worker is just serving, is not found and goes on. */
    method Cancel(id: TimerId) returns (first: bool)
      requires Valid()
      modifies this`cancelled, this`allowed
      ensures Valid() && first == (id in heap && id !in old(cancelled))
      ensures cancelled == if id in heap then old(cancelled) + {id} else old(cancelled)
      ensures allowed == if first then old(allowed)[id := Count(log, id)] else old(allowed)
    {
      if id !in heap { return false; }
      first := CancelToken(id);
    }

    /** Over any run: a one-shot timer is delivered at most once, and the `k`-th delivery of a
        repeating one never comes before its creation and `k` intervals. */
    lemma TimersKeepTime(p: nat)
      requires Valid() && p < |log|
      ensures log[p].id in origins
      ensures var origin := origins[log[p].id];
              match origin.interval
              case Some(interval) => log[p].at >= origin.at + Count(log[..p + 1], log[p].id) * interval
              case None => Count(log, log[p].id) == 1
    {
      if origins[log[p].id].interval.None? {
        OneShotOnce(log, origins, log[p].id);
        CountGrows(log, p + 1, log[p].id);
      }
    }

    /** Under every interleaving a cancelled timer is delivered no more often than it had been
        when it was cancelled, but for the one message that had passed its check. */
    lemma CancelledStops(id: TimerId)
      requires Valid() && id in cancelled
      ensures id in allowed && Count(log, id) <= allowed[id]
    {
    }

    // -------------------------------------------------------------- the worker's steps

    /** The pop under the lock, of the next entry if it is due. */
    method Pop(now: nat) returns (popped: bool)
      requires Valid() && flight.None?
      modifies this`heap, this`flight
      ensures Valid()
      ensures !popped ==> heap == old(heap) && flight.None? && forall id :: id in heap ==> heap[id].fireAt > now
      ensures popped ==>
                && flight.Some? && IsNext(old(heap), flight.value.id) && heap == old(heap) - {flight.value.id}
                && (forall other :: other in heap ==>
                      || flight.value.entry.fireAt < heap[other].fireAt
                      || (flight.value.entry.fireAt == heap[other].fireAt && flight.value.id < other))
                && flight.value == Flight(flight.value.id, old(heap)[flight.value.id], now, Popped)
                && flight.value.entry.fireAt <= now
    {
      hide Punctual, Kept, Count;
      if heap == map[] { return false; }
      NextExists(heap);
      var id :| IsNext(heap, id);
      var entry := heap[id];
      if entry.fireAt > now { return false; }
      popped := true;
      heap := heap - {id};
      flight := Some(Flight(id, entry, now, Popped));
    }

    /** The first look at the cancellation flag. */
    method CheckFirst()
      requires Valid() && flight.Some? && flight.value.stage.Popped?
      modifies this`flight
      ensures Valid()
      ensures flight == if old(flight).value.id in cancelled then None else Some(old(flight).value.(stage := Passed))
    {
      hide Punctual, Kept, Count;
      var f := flight.value;
      flight := if f.id in cancelled then None else Some(f.(stage := Passed));
    }

    /** Sending the message, if there is a system to send it to. */
    method Send()
      requires Valid() && flight.Some? && flight.value.stage.Passed?
      modifies this`flight, this`log
      ensures Valid() && flight == Some(old(flight).value.(stage := Served))
      ensures var f := old(flight).value;
              log == if attached then old(log) + [Delivery(f.id, f.entry.fireAt, f.now)] else old(log)
    {
      hide Punctual, Kept, Count;
      var f := flight.value;
      ghost var before := log;
      if attached {
        var d := Delivery(f.id, f.entry.fireAt, f.now);
        KeptNext(log, origins, f.id, f.entry, f.now);
        log := log + [d];
        forall other, e | other in origins && other != f.id && Punctual(before, origins[other], other, e)
          ensures Punctual(log, origins[other], other, e)
        {
          PunctualElse(before, d, origins[other], other, e);
        }
        forall id ensures Count(log, id) == Count(before, id) + (if id == f.id then 1 else 0) {
          CountNext(before, d, id);
        }
      }
      if f.entry.interval.Some? { PunctualAgain(before, log, origins[f.id], f.id, f.entry, f.now); }
      flight := Some(f.(stage := Served));
    }

    /** The second look at the flag, for a repeating timer that is to go on. */
    method CheckAgain()
      requires Valid() && flight.Some? && flight.value.stage.Served?
      modifies this`flight, this`buffer
      ensures Valid() && flight.None?
      ensures var f := old(flight).value;
              buffer == if f.entry.interval.Some? && f.id !in cancelled
                        then old(buffer) + [(f.id, Entry(f.now + f.entry.interval.value, f.entry.interval))]
                        else old(buffer)
    {
      hide Punctual, Kept, Count;
      var f := flight.value;
      if f.entry.interval.Some? && f.id !in cancelled { buffer := buffer + [(f.id, Again(f.entry, f.now))]; }
      flight := None;
    }

    /** One round of the worker's inner loop with nothing in between: pops the next entry if it is
        due, and delivers it unless it was cancelled. */
    method FireNext(now: nat) returns (popped: Option<TimerId>)
      requires Valid() && flight.None?
      modifies this`heap, this`buffer, this`flight, this`log
      ensures Valid() && flight.None?
      ensures popped.None? ==>
                && heap == old(heap) && buffer == old(buffer) && log == old(log)
                && forall id :: id in heap ==> heap[id].fireAt > now
      ensures popped.Some? ==>
                var id := popped.value;
                && IsNext(old(heap), id) && old(heap)[id].fireAt <= now && heap == old(heap) - {id}
                && log == (if id !in cancelled && attached
                           then old(log) + [Delivery(id, old(heap)[id].fireAt, now)] else old(log))
                && buffer == (if id !in cancelled && old(heap)[id].interval.Some?
                              then old(buffer) + [(id, Again(old(heap)[id], now))]
                              else old(buffer))
    {
      hide Valid, Punctual, Kept, Count;
      var due := Pop(now);
      if !due { return None; }
      popped := Some(flight.value.id);
      CheckFirst();
      if flight.Some? {
        Send();
        CheckAgain();
      }
    }

    /** Pushes the buffered timers back. */
    method Reschedule()
      requires Valid() && flight.None?
      modifies this`heap, this`buffer
      ensures Valid() && buffer == [] && heap == Pushed(old(heap), old(buffer))
    {
      while buffer != []
        invariant Valid() && Pushed(old(heap), old(buffer)) == Pushed(heap, buffer)
        decreases |buffer|
      {
        heap := heap[buffer[0].0 := buffer[0].1];
        buffer := buffer[1..];
      }
    }

    /** A whole tick with nothing inserted or cancelled meanwhile: it ends, delivers exactly the
        due timers that are not cancelled, in the order of due times and then ids, and leaves
        pending exactly the timers not due and the repeating ones, one interval behind this tick's
        own time, however late it is. */
    method Tick(now: nat)
      requires Valid() && buffer == [] && flight.None?
      modifies this`heap, this`buffer, this`flight, this`log
      ensures Valid() && buffer == [] && flight.None?
      ensures old(log) <= log && FiredExactly(log[|old(log)|..], old(heap), cancelled, attached, now)
      ensures forall p, q :: |old(log)| <= p < q < |log| ==>
                log[p].due < log[q].due || (log[p].due == log[q].due && log[p].id < log[q].id)
      ensures heap == AfterTick(old(heap), cancelled, now)
      ensures forall id :: id in heap <==>
                id in old(heap) && (old(heap)[id].fireAt > now || (old(heap)[id].interval.Some? && id !in cancelled))
      ensures forall id :: id in heap ==>
                heap[id] == if old(heap)[id].fireAt > now then old(heap)[id]
                            else Entry(now + old(heap)[id].interval.value, old(heap)[id].interval)
    {
      hide Punctual, Kept, Progress, FiredExactly, AfterTick;
      ghost var start := heap;
      ghost var sent := FireAll(now);
      ghost var left, waiting := heap, buffer;
      ProgressEnds(start, heap, sent, buffer, cancelled, attached, now);
      assert log[|old(log)|..] == sent;
      Reschedule();
      PushedIsAfterTick(start, left, sent, waiting, cancelled, attached, now);
      AfterTickIs(start, cancelled, now);
      FiredInOrder(sent, start, cancelled, attached, now);
      forall p, q | |old(log)| <= p < q < |log|
        ensures log[p].due < log[q].due || (log[p].due == log[q].due && log[p].id < log[q].id)
      {
        assert log[p] == sent[p - |old(log)|] && log[q] == sent[q - |old(log)|];
      }
    }

    /** The worker's inner loop. */
    method FireAll(now: nat) returns (ghost sent: seq<Delivery>)
      requires Valid() && buffer == [] && flight.None?
      modifies this`heap, this`buffer, this`flight, this`log
      ensures Valid() && flight.None? && log == old(log) + sent
      ensures Progress(old(heap), heap, sent, buffer, cancelled, attached, now)
      ensures forall id :: id in heap ==> heap[id].fireAt > now
    {
      hide Valid, Punctual, Kept, Count, Progress, InHeapOrder;
      sent := [];
      var more := true;
      NothingFired(heap, cancelled, attached, now);
      while more
        invariant Valid() && flight.None? && log == old(log) + sent
        invariant Progress(old(heap), heap, sent, buffer, cancelled, attached, now)
        invariant !more ==> forall id :: id in heap ==> heap[id].fireAt > now
        decreases more, |heap|
      {
        ghost var was, out, waiting := heap, sent, buffer;
        var popped := FireNext(now);
        more := popped.Some?;
        if more {
          assert was.Keys == heap.Keys + {popped.value};
          ProgressStep(old(heap), was, out, waiting, cancelled, attached, now, popped.value);
          sent := SentBy(was, out, cancelled, attached, now, popped.value);
        }
      }
    }
  }

  /** A repeating timer, just delivered and waiting for the end of the tick. */
  method Buffered() returns (wheel: TimerWheel, id: TimerId)
    ensures fresh(wheel) && wheel.Valid() && id == 1 && wheel.flight.None? && wheel.attached && wheel.cancelled == {}
    ensures wheel.heap == map[] && |wheel.log| == 1 && wheel.log[0] == Delivery(id, 5, 5)
    ensures |wheel.buffer| == 1 && wheel.buffer[0].0 == id && wheel.buffer[0].1 == Entry(10, Some(5))
  {
    hide wheel.Valid, wheel.CancelValid, wheel.FlightValid, Punctual, Kept, Count;
    wheel := new TimerWheel();
    wheel.Attach();
    id := wheel.ScheduleRepeat(0, 5);
    assert id in wheel.heap && wheel.heap[id] == Entry(5, Some(5));
    var first := wheel.FireNext(5);
  }

  /** Cancelling a repeating timer by its id between its delivery and the end of the tick finds
      nothing, and the timer goes on. */
  method CancelMissesBuffered() returns (wheel: TimerWheel, found: bool)
    ensures fresh(wheel) && wheel.Valid() && !found
    ensures wheel.log == [Delivery(1, 5, 5), Delivery(1, 10, 10)]
  {
    hide wheel.Valid;
    var id;
    wheel, id := Buffered();
    found := wheel.Cancel(id);
    wheel.Reschedule();
    var again := wheel.FireNext(10);
  }

  // ---------------------------------------------------------------- ticks

  predicate Sent(sent: seq<Delivery>, id: TimerId) { exists p :: 0 <= p < |sent| && sent[p].id == id }

  /** One message for each due timer that is not cancelled, in heap order. */
  ghost predicate FiredExactly(sent: seq<Delivery>, start: Heap, cancelled: set<TimerId>, attached: bool, now: nat) {
    && InHeapOrder(sent)
    && (forall p :: 0 <= p < |sent| ==>
          sent[p].id in start && sent[p] == Delivery(sent[p].id, start[sent[p].id].fireAt, now))
    && (forall id :: Sent(sent, id) <==> attached && id in start && start[id].fireAt <= now && id !in cancelled)
  }

  predicate Waits(buffer: seq<(TimerId, Entry)>, id: TimerId) { exists k :: 0 <= k < |buffer| && buffer[k].0 == id }

  predicate InHeapOrder(sent: seq<Delivery>) {
    forall p, q :: 0 <= p < q < |sent| ==> Before(sent[p].due, sent[p].id, sent[q].due, sent[q].id)
  }

  function Pushed(heap: Heap, buffer: seq<(TimerId, Entry)>): Heap
    decreases buffer
  {
    if buffer == [] then heap else Pushed(heap[buffer[0].0 := buffer[0].1], buffer[1..])
  }

  function Again(e: Entry, now: nat): Entry
    requires e.interval.Some?
  {
    Entry(now + e.interval.value, e.interval)
  }

  function AfterTick(heap: Heap, cancelled: set<TimerId>, now: nat): Heap {
    map id | id in heap && (heap[id].fireAt > now || (id !in cancelled && heap[id].interval.Some?)) ::
      if heap[id].fireAt > now then heap[id] else Again(heap[id], now)
  }

  lemma AfterTickIs(heap: Heap, cancelled: set<TimerId>, now: nat)
    ensures var after := AfterTick(heap, cancelled, now);
            && (forall id :: id in after <==>
                  id in heap && (heap[id].fireAt > now || (heap[id].interval.Some? && id !in cancelled)))
            && (forall id :: id in after ==>
                  after[id] == if heap[id].fireAt > now then heap[id]
                               else Entry(now + heap[id].interval.value, heap[id].interval))
  {
  }

  lemma FiredInOrder(sent: seq<Delivery>, start: Heap, cancelled: set<TimerId>, attached: bool, now: nat)
    requires FiredExactly(sent, start, cancelled, attached, now)
    ensures forall p, q :: 0 <= p < q < |sent| ==>
              sent[p].due < sent[q].due || (sent[p].due == sent[q].due && sent[p].id < sent[q].id)
  {
  }

  ghost function SentBy(heap: Heap, sent: seq<Delivery>, cancelled: set<TimerId>, attached: bool, now: nat,
                        id: TimerId): seq<Delivery>
    requires id in heap
  {
    if id !in cancelled && attached then sent + [Delivery(id, heap[id].fireAt, now)] else sent
  }

  ghost function WaitingBy(heap: Heap, buffer: seq<(TimerId, Entry)>, cancelled: set<TimerId>, now: nat,
                           id: TimerId): seq<(TimerId, Entry)>
    requires id in heap
  {
    if id !in cancelled && heap[id].interval.Some? then buffer + [(id, Again(heap[id], now))] else buffer
  }

  /** In the middle of a tick over `start`: what has been popped was due, and was delivered and
      buffered as it should be, all before what is left. */
  ghost predicate Progress(start: Heap, heap: Heap, sent: seq<Delivery>, buffer: seq<(TimerId, Entry)>,
                           cancelled: set<TimerId>, attached: bool, now: nat) {
    && heap.Keys <= start.Keys && (forall id :: id in heap ==> heap[id] == start[id])
    && (forall id :: id in start && id !in heap ==> start[id].fireAt <= now)
    && InHeapOrder(sent)
    && (forall p :: 0 <= p < |sent| ==>
          sent[p].id in start && sent[p] == Delivery(sent[p].id, start[sent[p].id].fireAt, now))
    && (forall p, id :: 0 <= p < |sent| && id in heap ==> Before(sent[p].due, sent[p].id, heap[id].fireAt, id))
    && (forall id :: Sent(sent, id) <==> attached && id in start && id !in heap && id !in cancelled)
    && (forall id :: Waits(buffer, id) <==> id in start && id !in heap && id !in cancelled && start[id].interval.Some?)
    && (forall k :: 0 <= k < |buffer| ==>
          buffer[k].0 in start && start[buffer[k].0].interval.Some? && buffer[k].1 == Again(start[buffer[k].0], now))
  }

  lemma ProgressEnds(start: Heap, heap: Heap, sent: seq<Delivery>, buffer: seq<(TimerId, Entry)>,
                     cancelled: set<TimerId>, attached: bool, now: nat)
    requires Progress(start, heap, sent, buffer, cancelled, attached, now)
    requires forall id :: id in heap ==> heap[id].fireAt > now
    ensures FiredExactly(sent, start, cancelled, attached, now)
  {
  }

  lemma NothingFired(start: Heap, cancelled: set<TimerId>, attached: bool, now: nat)
    ensures Progress(start, start, [], [], cancelled, attached, now)
  {
  }

  lemma SentNext(sent: seq<Delivery>, d: Delivery)
    ensures forall id :: Sent(sent + [d], id) <==> Sent(sent, id) || id == d.id
  {
    forall id ensures Sent(sent + [d], id) <==> Sent(sent, id) || id == d.id {
      if Sent(sent, id) {
        var p :| 0 <= p < |sent| && sent[p].id == id;
        assert (sent + [d])[p].id == id;
      }
      assert (sent + [d])[|sent|] == d;
    }
  }

  lemma WaitsNext(buffer: seq<(TimerId, Entry)>, x: (TimerId, Entry))
    ensures forall id :: Waits(buffer + [x], id) <==> Waits(buffer, id) || id == x.0
  {
    forall id ensures Waits(buffer + [x], id) <==> Waits(buffer, id) || id == x.0 {
      if Waits(buffer, id) {
        var k :| 0 <= k < |buffer| && buffer[k].0 == id;
        assert (buffer + [x])[k].0 == id;
      }
      assert (buffer + [x])[|buffer|] == x;
    }
  }

  lemma ProgressStep(start: Heap, heap: Heap, sent: seq<Delivery>, buffer: seq<(TimerId, Entry)>,
                     cancelled: set<TimerId>, attached: bool, now: nat, id: TimerId)
    requires Progress(start, heap, sent, buffer, cancelled, attached, now) && IsNext(heap, id) && heap[id].fireAt <= now
    ensures Progress(start, heap - {id}, SentBy(heap, sent, cancelled, attached, now, id),
                     WaitingBy(heap, buffer, cancelled, now, id), cancelled, attached, now)
  {
    hide Sent, Waits;
    SentNext(sent, Delivery(id, heap[id].fireAt, now));
    if heap[id].interval.Some? { WaitsNext(buffer, (id, Again(heap[id], now))); }
  }

  lemma {:induction false} PushedContents(heap: Heap, buffer: seq<(TimerId, Entry)>, id: TimerId)
    requires forall i, j :: 0 <= i < j < |buffer| ==> buffer[i].0 != buffer[j].0
    ensures id in Pushed(heap, buffer) <==> id in heap || Waits(buffer, id)
    ensures !Waits(buffer, id) && id in heap ==> Pushed(heap, buffer)[id] == heap[id]
    ensures forall k :: 0 <= k < |buffer| && buffer[k].0 == id ==> Pushed(heap, buffer)[id] == buffer[k].1
    decreases buffer
  {
    if buffer != [] {
      var rest := buffer[1..];
      PushedContents(heap[buffer[0].0 := buffer[0].1], rest, id);
      if Waits(buffer, id) && id != buffer[0].0 {
        var k :| 0 <= k < |buffer| && buffer[k].0 == id;
        assert rest[k - 1].0 == id;
      }
      if Waits(rest, id) {
        var k :| 0 <= k < |rest| && rest[k].0 == id;
        assert buffer[k + 1].0 == id;
      }
      forall k | 0 <= k < |buffer| && buffer[k].0 == id ensures Pushed(heap, buffer)[id] == buffer[k].1 {
        if k > 0 { assert rest[k - 1] == buffer[k]; }
      }
    }
  }

  lemma PushedIsAfterTick(start: Heap, heap: Heap, sent: seq<Delivery>, buffer: seq<(TimerId, Entry)>,
                          cancelled: set<TimerId>, attached: bool, now: nat)
    requires Progress(start, heap, sent, buffer, cancelled, attached, now)
    requires forall id :: id in heap ==> heap[id].fireAt > now
    requires forall i, j :: 0 <= i < j < |buffer| ==> buffer[i].0 != buffer[j].0
    ensures Pushed(heap, buffer) == AfterTick(start, cancelled, now)
  {
    var after := AfterTick(start, cancelled, now);
    forall id ensures id in Pushed(heap, buffer) <==> id in after {
      PushedContents(heap, buffer, id);
    }
    forall id | id in after ensures Pushed(heap, buffer)[id] == after[id] {
      PushedContents(heap, buffer, id);
      if id !in heap {
        var k :| 0 <= k < |buffer| && buffer[k].0 == id;
      }
    }
  }

  // ---------------------------------------------------------------- counting deliveries

  lemma {:induction false} NeverDelivered(log: seq<Delivery>, origins: map<TimerId, Origin>, id: TimerId)
    requires (forall p :: 0 <= p < |log| ==> log[p].id in origins) && id !in origins
    ensures Count(log, id) == 0
    decreases |log|
  {
    if log != [] { NeverDelivered(log[..|log| - 1], origins, id); }
  }

  lemma PunctualElse(log: seq<Delivery>, d: Delivery, origin: Origin, id: TimerId, e: Entry)
    requires Punctual(log, origin, id, e) && d.id != id
    ensures Punctual(log + [d], origin, id, e)
  {
    CountNext(log, d, id);
  }

  /** A repeating timer that fires is due again, one interval later. */
  lemma PunctualAgain(before: seq<Delivery>, log: seq<Delivery>, origin: Origin, id: TimerId, e: Entry, now: nat)
    requires Punctual(before, origin, id, e) && e.interval.Some? && e.fireAt <= now
    requires log == before || log == before + [Delivery(id, e.fireAt, now)]
    ensures Punctual(log, origin, id, Again(e, now))
  {
    var n, step := Count(before, id), e.interval.value;
    if log != before { CountNext(before, Delivery(id, e.fireAt, now), id); }
    assert (n + 2) * step == (n + 1) * step + step;
  }
}

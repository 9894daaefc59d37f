/** The work-stealing scheduler (runtime/src/actor.rs). Deques and injectors are sequences; each
    step method is one atomic operation on them, so the invariant holds under every interleaving
    of submitters and workers. A worker's pass is the loop body run without interference. */
module Scheduler {
  import opened Ast
  import Integers

  type Task = nat

  function Bag(queues: seq<seq<Task>>): multiset<Task> {
    if queues == [] then multiset{} else Bag(queues[..|queues| - 1]) + multiset(queues[|queues| - 1])
  }

  function Slot(running: Option<Task>): multiset<Task> { if running.Some? then multiset{running.value} else multiset{} }

  function Busy(running: seq<Option<Task>>): multiset<Task> {
    if running == [] then multiset{} else Busy(running[..|running| - 1]) + Slot(running[|running| - 1])
  }

  lemma Split(q: seq<Task>, k: nat, t: Task)
    requires 1 <= k <= |q|
    ensures multiset(q)[t] == (if t == q[0] then 1 else 0) + multiset(q[1..k])[t] + multiset(q[k..])[t]
  {
    assert q == [q[0]] + q[1..k] + q[k..];
    assert multiset(q) == multiset([q[0]]) + multiset(q[1..k]) + multiset(q[k..]);
  }

  /** How often a task is held in all. */
  function Total(t: Task, injectors: seq<seq<Task>>, deques: seq<seq<Task>>, running: seq<Option<Task>>,
                 done: multiset<Task>): nat {
    Bag(injectors)[t] + Bag(deques)[t] + Busy(running)[t] + done[t]
  }

  lemma {:induction false} BagAt(queues: seq<seq<Task>>, i: nat, q: seq<Task>, t: Task)
    requires i < |queues|
    ensures Bag(queues[i := q])[t] + multiset(queues[i])[t] == Bag(queues)[t] + multiset(q)[t]
    decreases |queues|
  {
    var n := |queues| - 1;
    if i == n {
      assert queues[i := q][..n] == queues[..n];
    } else {
      BagAt(queues[..n], i, q, t);
      assert queues[i := q][..n] == queues[..n][i := q];
    }
  }

  lemma {:induction false} BusyAt(running: seq<Option<Task>>, i: nat, r: Option<Task>, t: Task)
    requires i < |running|
    ensures Busy(running[i := r])[t] + Slot(running[i])[t] == Busy(running)[t] + Slot(r)[t]
    decreases |running|
  {
    hide Slot;
    var n := |running| - 1;
    if i == n {
      assert running[i := r][..n] == running[..n];
    } else {
      BusyAt(running[..n], i, r, t);
      assert running[i := r][..n] == running[..n][i := r];
    }
  }

  lemma InjectTotal(t: Task, x: Task, i: nat, injectors: seq<seq<Task>>, deques: seq<seq<Task>>,
                    running: seq<Option<Task>>, done: multiset<Task>)
    requires i < |injectors|
    ensures Total(t, injectors[i := injectors[i] + [x]], deques, running, done)
         == Total(t, injectors, deques, running, done) + (if t == x then 1 else 0)
  {
    hide Bag;
    BagAt(injectors, i, injectors[i] + [x], t);
    assert multiset(injectors[i] + [x]) == multiset(injectors[i]) + multiset{x};
  }

  lemma PopTotal(t: Task, i: nat, injectors: seq<seq<Task>>, deques: seq<seq<Task>>,
                 running: seq<Option<Task>>, done: multiset<Task>)
    requires i < |deques| && i < |running| && deques[i] != [] && running[i].None?
    ensures Total(t, injectors, deques[i := deques[i][1..]], running[i := Some(deques[i][0])], done)
         == Total(t, injectors, deques, running, done)
  {
    hide Bag, Busy;
    var q := deques[i];
    Split(q, 1, t);
    BagAt(deques, i, q[1..], t);
    BusyAt(running, i, Some(q[0]), t);
  }

  lemma StealTotal(t: Task, i: nat, from: nat, k: nat, injectors: seq<seq<Task>>, deques: seq<seq<Task>>,
                   running: seq<Option<Task>>, done: multiset<Task>)
    requires from < |injectors| && i < |deques| && i < |running| && running[i].None? && 1 <= k <= |injectors[from]|
    ensures var q := injectors[from];
            Total(t, injectors, deques, running, done) ==
            Total(t, injectors[from := q[k..]], deques[i := deques[i] + q[1..k]], running[i := Some(q[0])], done)
  {
    hide Bag, Busy;
    var q := injectors[from];
    Split(q, k, t);
    BagAt(injectors, from, q[k..], t);
    BagAt(deques, i, deques[i] + q[1..k], t);
    assert multiset(deques[i] + q[1..k]) == multiset(deques[i]) + multiset(q[1..k]);
    BusyAt(running, i, Some(q[0]), t);
  }

  lemma StealPeerTotal(t: Task, i: nat, peer: nat, k: nat, injectors: seq<seq<Task>>, deques: seq<seq<Task>>,
                       running: seq<Option<Task>>, done: multiset<Task>)
    requires i < |deques| && peer < |deques| && i != peer && i < |running| && running[i].None?
             && 1 <= k <= |deques[peer]|
    ensures var q := deques[peer];
            Total(t, injectors, deques, running, done) ==
            Total(t, injectors, deques[peer := q[k..]][i := deques[i] + q[1..k]], running[i := Some(q[0])], done)
  {
    hide Bag, Busy;
    var q := deques[peer];
    Split(q, k, t);
    BagAt(deques, peer, q[k..], t);
    BagAt(deques[peer := q[k..]], i, deques[i] + q[1..k], t);
    assert multiset(deques[i] + q[1..k]) == multiset(deques[i]) + multiset(q[1..k]);
    BusyAt(running, i, Some(q[0]), t);
  }

  lemma FinishTotal(t: Task, i: nat, injectors: seq<seq<Task>>, deques: seq<seq<Task>>,
                    running: seq<Option<Task>>, done: multiset<Task>)
    requires i < |running| && running[i].Some?
    ensures Total(t, injectors, deques, running[i := None], done + multiset{running[i].value})
         == Total(t, injectors, deques, running, done)
  {
    hide Bag, Busy;
    BusyAt(running, i, None, t);
  }

  lemma {:induction false} EmptyBag(queues: seq<seq<Task>>)
    requires forall i :: 0 <= i < |queues| ==> queues[i] == []
    ensures Bag(queues) == multiset{}
    decreases |queues|
  {
    if queues != [] { EmptyBag(queues[..|queues| - 1]); }
  }

  lemma {:induction false} EmptyBusy(running: seq<Option<Task>>)
    requires forall i :: 0 <= i < |running| ==> running[i].None?
    ensures Busy(running) == multiset{}
    decreases |running|
  {
    if running != [] { EmptyBusy(running[..|running| - 1]); }
  }

  // ---------------------------------------------------------------- exactly one place

  lemma {:induction false} BagHolds(queues: seq<seq<Task>>, t: Task)
    ensures t in Bag(queues) <==> exists i :: 0 <= i < |queues| && t in queues[i]
    decreases |queues|
  {
    if queues != [] {
      var n := |queues| - 1;
      BagHolds(queues[..n], t);
      if t in Bag(queues[..n]) {
        var i :| 0 <= i < n && t in queues[..n][i];
        assert t in queues[i];
      }
      if exists i :: 0 <= i < |queues| && t in queues[i] {
        var i :| 0 <= i < |queues| && t in queues[i];
        if i < n { assert t in queues[..n][i]; }
      }
    }
  }

  lemma {:induction false} BusyHolds(running: seq<Option<Task>>, t: Task)
    ensures t in Busy(running) <==> exists i :: 0 <= i < |running| && running[i] == Some(t)
    decreases |running|
  {
    if running != [] {
      var n := |running| - 1;
      BusyHolds(running[..n], t);
      if t in Busy(running[..n]) {
        var i :| 0 <= i < n && running[..n][i] == Some(t);
        assert running[i] == Some(t);
      }
      if exists i :: 0 <= i < |running| && running[i] == Some(t) {
        var i :| 0 <= i < |running| && running[i] == Some(t);
        if i < n { assert running[..n][i] == Some(t); }
      }
    }
  }

  lemma {:induction false} BagCountsTwice(queues: seq<seq<Task>>, i: nat, j: nat, t: Task)
    requires i < j < |queues| && t in queues[i] && t in queues[j]
    ensures Bag(queues)[t] >= 2
    decreases |queues|
  {
    var n := |queues| - 1;
    if j == n {
      BagHolds(queues[..n], t);
      assert t in queues[..n][i];
      assert Bag(queues[..n])[t] >= 1 && multiset(queues[n])[t] >= 1;
    } else {
      BagCountsTwice(queues[..n], i, j, t);
    }
  }

  lemma {:induction false} BusyCountsTwice(running: seq<Option<Task>>, i: nat, j: nat, t: Task)
    requires i < j < |running| && running[i] == Some(t) && running[j] == Some(t)
    ensures Busy(running)[t] >= 2
    decreases |running|
  {
    var n := |running| - 1;
    if j == n {
      BusyHolds(running[..n], t);
      assert running[..n][i] == Some(t);
      assert Busy(running[..n])[t] >= 1;
    } else {
      BusyCountsTwice(running[..n], i, j, t);
    }
  }

  datatype Place = InInjector(i: nat) | InDeque(i: nat) | Running(i: nat) | Done

  predicate At(t: Task, p: Place, injectors: seq<seq<Task>>, deques: seq<seq<Task>>,
               running: seq<Option<Task>>, done: multiset<Task>) {
    match p
    case InInjector(i) => i < |injectors| && t in injectors[i]
    case InDeque(i) => i < |deques| && t in deques[i]
    case Running(i) => i < |running| && running[i] == Some(t)
    case Done => t in done
  }

  /** A task held once in all is in exactly one place. */
  lemma OnePlace(t: Task, injectors: seq<seq<Task>>, deques: seq<seq<Task>>, running: seq<Option<Task>>,
                 done: multiset<Task>)
    requires Total(t, injectors, deques, running, done) == 1
    ensures exists p :: At(t, p, injectors, deques, running, done)
    ensures forall p, q ::
              At(t, p, injectors, deques, running, done) && At(t, q, injectors, deques, running, done) ==> p == q
  {
    BagHolds(injectors, t);
    BagHolds(deques, t);
    BusyHolds(running, t);
    if t in Bag(injectors) {
      var i :| 0 <= i < |injectors| && t in injectors[i];
      assert At(t, InInjector(i), injectors, deques, running, done);
    } else if t in Bag(deques) {
      var i :| 0 <= i < |deques| && t in deques[i];
      assert At(t, InDeque(i), injectors, deques, running, done);
    } else if t in Busy(running) {
      var i :| 0 <= i < |running| && running[i] == Some(t);
      assert At(t, Running(i), injectors, deques, running, done);
    } else {
      assert At(t, Done, injectors, deques, running, done);
    }
    forall p, q | At(t, p, injectors, deques, running, done) && At(t, q, injectors, deques, running, done)
      ensures p == q
    {
      if p.InInjector? && q.InInjector? && p != q {
        BagCountsTwice(injectors, if p.i < q.i then p.i else q.i, if p.i < q.i then q.i else p.i, t);
      } else if p.InDeque? && q.InDeque? && p != q {
        BagCountsTwice(deques, if p.i < q.i then p.i else q.i, if p.i < q.i then q.i else p.i, t);
      } else if p.Running? && q.Running? && p != q {
        BusyCountsTwice(running, if p.i < q.i then p.i else q.i, if p.i < q.i then q.i else p.i, t);
      }
    }
  }

  // ---------------------------------------------------------------- every peer

  /** Going around from any start visits every peer. */
  lemma RoundVisits(start: nat, n: nat, peer: nat)
    requires start < n && peer < n
    ensures exists offset :: 0 <= offset < n && Peer(start, offset, n) == peer
  {
    var offset := if peer >= start then peer - start else peer + n - start;
    if peer >= start {
      assert Peer(start, offset, n) == peer;
    } else {
      assert start + offset == peer + n;
      WrapsOnce(peer, n);
      assert Peer(start, offset, n) == peer;
    }
  }

  /** The peer that a sweep from `start` looks at after `offset` others. */
  function Peer(start: nat, offset: nat, n: nat): (peer: nat)
    requires n > 0
    ensures peer < n
  {
    (start + offset) % n
  }

  /** A sweep goes up from its start and around once. */
  lemma PeerIs(start: nat, offset: nat, n: nat)
    requires start < n && offset < n
    ensures Peer(start, offset, n) == if start + offset < n then start + offset else start + offset - n
  {
    if start + offset >= n { WrapsOnce(start + offset - n, n); }
  }

  /** The first peer with something in its queue, in the order of a sweep from `start`. */
  predicate FirstPeer(queues: seq<seq<Task>>, i: nat, start: nat, peer: nat) {
    && peer < |queues| && peer != i && queues[peer] != []
    && exists offset: nat :: offset < |queues| && Peer(start, offset, |queues|) == peer
         && forall k: nat :: k < offset ==>
              Peer(start, k, |queues|) == i || queues[Peer(start, k, |queues|)] == []
  }

  predicate NoPeer(queues: seq<seq<Task>>, i: nat) { forall p :: 0 <= p < |queues| && p != i ==> queues[p] == [] }

  predicate HasFirst(queues: seq<seq<Task>>, i: nat, start: nat, t: Task) {
    exists p: nat :: p < |queues| && FirstPeer(queues, i, start, p) && t == queues[p][0]
  }

  /** Tasks submitted meanwhile, from number `n` on, stand behind those already there. */
  predicate Grown(before: seq<seq<Task>>, after: seq<seq<Task>>, n: nat) {
    |before| == |after| && forall p :: 0 <= p < |before| ==> GrownQueue(before[p], after[p], n)
  }

  predicate GrownQueue(before: seq<Task>, after: seq<Task>, n: nat) {
    before <= after && forall k :: |before| <= k < |after| ==> after[k] >= n
  }

  predicate PeersGrown(before: seq<seq<Task>>, after: seq<seq<Task>>, i: nat, n: nat) {
    |before| == |after| && forall p :: 0 <= p < |before| && p != i ==> GrownQueue(before[p], after[p], n)
  }

  /** The head of a peer's queue, or a task with a number from `n` on. */
  predicate HeadOrNew(queues: seq<seq<Task>>, i: nat, n: nat, t: Task) {
    t >= n || exists p: nat :: p < |queues| && p != i && queues[p] != [] && t == queues[p][0]
  }

  /** The first peer's first task, in queues that have grown. */
  lemma FirstOfGrown(before: seq<seq<Task>>, after: seq<seq<Task>>, n: nat, i: nat, start: nat, t: Task)
    requires PeersGrown(before, after, i, n) && HasFirst(after, i, start, t)
    ensures HeadOrNew(before, i, n, t)
  {
    var p: nat :| p < |after| && FirstPeer(after, i, start, p) && t == after[p][0];
    assert GrownQueue(before[p], after[p], n);
  }

  lemma NoPeerBefore(before: seq<seq<Task>>, after: seq<seq<Task>>, i: nat, n: nat)
    requires PeersGrown(before, after, i, n) && NoPeer(after, i)
    ensures NoPeer(before, i)
  {
    forall p | 0 <= p < |before| && p != i ensures before[p] == [] {
      assert GrownQueue(before[p], after[p], n) && after[p] == [];
    }
  }

  lemma WrapsOnce(x: nat, n: nat)
    requires x < n
    ensures (x + n) % n == x
  {
    assert (x + n) / n == 1;
  }

  // ---------------------------------------------------------------- the queues

  class WorkStealingQueue {
    const workers: nat
    var injectors: seq<seq<Task>>
    var deques: seq<seq<Task>>
    var running: seq<Option<Task>>
    var done: multiset<Task>
    var nextWorker: nat
    /** Tasks are numbered as they are submitted. */
    var submitted: nat

    ghost predicate Valid()
      reads this
    {
      && workers > 0 && |injectors| == |deques| == |running| == workers
      && forall t: Task :: Total(t, injectors, deques, running, done) == if t < submitted then 1 else 0
    }

    /** No task is lost or run twice: each submitted task is in exactly one place. */
    lemma EveryTaskInOnePlace(t: Task)
      requires Valid() && t < submitted
      ensures exists p :: At(t, p, injectors, deques, running, done)
      ensures forall p, q ::
                At(t, p, injectors, deques, running, done) && At(t, q, injectors, deques, running, done) ==> p == q
    {
      OnePlace(t, injectors, deques, running, done);
    }

    constructor (workers: nat)
      requires workers > 0
      ensures Valid() && this.workers == workers && submitted == 0 && nextWorker == 0
      ensures forall i :: 0 <= i < workers ==> injectors[i] == [] && deques[i] == [] && running[i].None?
    {
      this.workers := workers;
      injectors, deques := seq(workers, _ => []), seq(workers, _ => []);
      running := seq(workers, _ => None);
      done, nextWorker, submitted := multiset{}, 0, 0;
      new;
      EmptyBag(injectors);
      EmptyBag(deques);
      EmptyBusy(running);
    }

    method Inject(idx: nat) returns (t: Task)
      requires Valid() && idx < workers
      modifies this`injectors, this`submitted
      ensures Valid() && t == old(submitted) && submitted == t + 1
      ensures injectors == old(injectors)[idx := old(injectors)[idx] + [t]]
    {
      t := submitted;
      hide Total;
      forall x: Task { InjectTotal(x, t, idx, injectors, deques, running, done); }
      injectors := injectors[idx := injectors[idx] + [t]];
      submitted := submitted + 1;
      assert forall x: Task :: Total(x, injectors, deques, running, done)
                               == old(Total(x, injectors, deques, running, done)) + (if x == t then 1 else 0);
    }

    /** Submitted tasks go round the workers. */
    method Submit() returns (t: Task)
      requires Valid()
      modifies this`injectors, this`submitted, this`nextWorker
      ensures Valid() && t == old(submitted) && submitted == t + 1
      ensures nextWorker == (old(nextWorker) + 1) % Integers.WORD
      ensures var idx := old(nextWorker) % workers; injectors == old(injectors)[idx := old(injectors)[idx] + [t]]
    {
      var idx := nextWorker % workers;
      nextWorker := (nextWorker + 1) % Integers.WORD;
      t := Inject(idx);
    }

    method SubmitPinned(worker: nat) returns (t: Task)
      requires Valid()
      modifies this`injectors, this`submitted
      ensures Valid() && t == old(submitted) && submitted == t + 1
      ensures var idx := worker % workers; injectors == old(injectors)[idx := old(injectors)[idx] + [t]]
    {
      t := Inject(worker % workers);
    }

    /** A worker takes the oldest task of its own deque. */
    method PopLocal(i: nat) returns (t: Option<Task>)
      requires Valid() && i < workers && running[i].None?
      modifies this`deques, this`running
      ensures Valid() && (t.None? <==> old(deques)[i] == [])
      ensures t.None? ==> deques == old(deques) && running == old(running)
      ensures t.Some? ==>
                && t.value == old(deques)[i][0] && deques == old(deques)[i := old(deques)[i][1..]]
                && running == old(running)[i := t]
    {
      if deques[i] == [] { return None; }
      t := Some(deques[i][0]);
      hide Total;
      forall x: Task { PopTotal(x, i, injectors, deques, running, done); }
      deques := deques[i := deques[i][1..]];
      running := running[i := t];
      assert forall x: Task :: Total(x, injectors, deques, running, done) ==
               old(Total(x, injectors, deques, running, done));
    }

    /** A worker moves some tasks, at least one, from an injector to its own deque and takes the
        first of them. */
    method StealFromInjector(i: nat, from: nat) returns (t: Option<Task>, moved: nat)
      requires Valid() && i < workers && from < workers && running[i].None?
      modifies this`injectors, this`deques, this`running
      ensures Valid() && (t.None? <==> old(injectors)[from] == [])
      ensures t.None? ==> injectors == old(injectors) && deques == old(deques) && running == old(running)
      ensures t.Some? ==> running == old(running)[i := t] && t.value == old(injectors)[from][0]
      ensures t.Some? ==>
                && 1 <= moved <= |old(injectors)[from]|
                && injectors == old(injectors)[from := old(injectors)[from][moved..]]
                && deques == old(deques)[i := old(deques)[i] + old(injectors)[from][1..moved]]
    {
      var q := injectors[from];
      if q == [] { return None, 0; }
      moved :| 1 <= moved <= |q|;
      t := Some(q[0]);
      hide Total;
      forall x: Task { StealTotal(x, i, from, moved, injectors, deques, running, done); }
      injectors := injectors[from := q[moved..]];
      deques := deques[i := deques[i] + q[1..moved]];
      running := running[i := t];
      assert forall x: Task :: Total(x, injectors, deques, running, done) ==
               old(Total(x, injectors, deques, running, done));
    }

    /** The same from another worker's deque. */
    method StealFromPeer(i: nat, peer: nat) returns (t: Option<Task>, moved: nat)
      requires Valid() && i < workers && peer < workers && peer != i && running[i].None?
      modifies this`deques, this`running
      ensures Valid() && (t.None? <==> old(deques)[peer] == [])
      ensures t.None? ==> deques == old(deques) && running == old(running)
      ensures t.Some? ==> running == old(running)[i := t] && t.value == old(deques)[peer][0]
      ensures t.Some? ==>
                && 1 <= moved <= |old(deques)[peer]|
                && deques == old(deques)[peer := old(deques)[peer][moved..]]
                                        [i := old(deques)[i] + old(deques)[peer][1..moved]]
    {
      var q := deques[peer];
      if q == [] { return None, 0; }
      moved :| 1 <= moved <= |q|;
      t := Some(q[0]);
      hide Total;
      forall x: Task { StealPeerTotal(x, i, peer, moved, injectors, deques, running, done); }
      deques := deques[peer := q[moved..]][i := deques[i] + q[1..moved]];
      running := running[i := t];
      assert forall x: Task :: Total(x, injectors, deques, running, done) ==
               old(Total(x, injectors, deques, running, done));
    }

    method Finish(i: nat)
      requires Valid() && i < workers && running[i].Some?
      modifies this`running, this`done
      ensures Valid() && running == old(running)[i := None] && done == old(done) + multiset{old(running)[i].value}
    {
      hide Total;
      forall x: Task { FinishTotal(x, i, injectors, deques, running, done); }
      done := done + multiset{running[i].value};
      running := running[i := None];
      assert forall x: Task :: Total(x, injectors, deques, running, done) ==
               old(Total(x, injectors, deques, running, done));
    }

    // -------------------------------------------------------------- a worker's pass

    predicate HasWork()
      reads this
    {
      (exists i :: 0 <= i < |injectors| && injectors[i] != []) || (exists i :: 0 <= i < |deques| && deques[i] != [])
    }

    /** Runs a task, which may submit others. */
    method Execute(i: nat, spawns: nat) returns (t: Task)
      requires Valid() && i < workers && running[i].Some?
      modifies this`injectors, this`submitted, this`nextWorker, this`running, this`done
      ensures Valid() && old(running)[i] == Some(t) && running == old(running)[i := None]
      ensures done == old(done) + multiset{t} && Grown(old(injectors), injectors, old(submitted))
      ensures submitted >= old(submitted)
    {
      hide Total;
      t := running[i].value;
      var n := 0;
      while n < spawns
        invariant Valid() && running == old(running) && done == old(done) && submitted >= old(submitted)
        invariant Grown(old(injectors), injectors, old(submitted))
      {
        var spawned := Submit();
        n := n + 1;
      }
      Finish(i);
    }

    /** One round of the worker's loop with nothing else going on and no retries. The worker runs
        the oldest task of its own deque. If that is empty it runs the oldest of its own injector
        and then the next of those it has moved along; it looks at the peers, from `start` on,
        first at their deques and then at their injectors, only if its own deque is empty. So it
        runs a task exactly when any queue holds one. */
    method WorkerPass(i: nat, start: nat, spawns: nat) returns (tasks: seq<Task>)
      requires Valid() && i < workers && start < workers && running[i].None?
      modifies this
      ensures Valid() && running == old(running) && done == old(done) + multiset(tasks)
      ensures tasks != [] <==> old(HasWork())
      ensures old(deques)[i] != [] ==> tasks == [old(deques)[i][0]]
      ensures old(deques)[i] == [] && old(injectors)[i] != [] ==>
                1 <= |tasks| <= 2 && tasks[0] == old(injectors)[i][0]
      ensures old(deques)[i] == [] && old(injectors)[i] != [] && |tasks| == 2 ==>
                || (|old(injectors)[i]| > 1 && tasks[1] == old(injectors)[i][1])
                || HasFirst(old(deques), i, start, tasks[1])
                || (NoPeer(old(deques), i) && HeadOrNew(old(injectors), i, old(submitted), tasks[1]))
      ensures old(deques)[i] == [] && old(injectors)[i] != [] && |tasks| == 1 ==>
                NoPeer(old(deques), i) && NoPeer(old(injectors), i)
      ensures old(deques)[i] == [] && old(injectors)[i] == [] ==>
                |tasks| <= 1 && (tasks != [] ==>
                  if NoPeer(old(deques), i) then HasFirst(old(injectors), i, start, tasks[0])
                  else HasFirst(old(deques), i, start, tasks[0]))
    {
      hide Valid, FirstPeer, HasFirst, NoPeer, Grown, PeersGrown, HeadOrNew;
      Sizes();
      WorkIs(i);
      var t := PopLocal(i);
      if t.Some? {
        var ran := Execute(i, spawns);
        return [ran];
      }
      tasks := RunOwn(i, spawns);
      if |tasks| == 2 { return; }
      if workers > 1 {
        ghost var own, later := tasks, injectors;
        t := StealAround(i, start, spawns);
        if t.Some? {
          if NoPeer(old(deques), i) && old(injectors)[i] != [] {
            FirstOfGrown(old(injectors), later, old(submitted), i, start, t.value);
          }
          tasks := tasks + [t.value];
          assert multiset(tasks) == multiset(own) + multiset{t.value};
        } else {
          NoPeerBefore(old(injectors), later, i, old(submitted));
        }
      }
    }

    /** Takes from the peers' deques, and if they are empty from their injectors. */
    method StealAround(i: nat, start: nat, spawns: nat) returns (t: Option<Task>)
      requires Valid() && i < workers && start < workers && running[i].None?
      modifies this
      ensures Valid() && running == old(running) && done == old(done) + Slot(t)
      ensures t.None? <==> NoPeer(old(deques), i) && NoPeer(old(injectors), i)
      ensures t.Some? ==> if NoPeer(old(deques), i) then HasFirst(old(injectors), i, start, t.value)
                          else HasFirst(old(deques), i, start, t.value)
    {
      hide Valid, HasFirst, NoPeer;
      Sizes();
      t := SweepPeers(i, start, spawns);
      if t.None? { t := SweepInjectors(i, start, spawns); }
    }

    /** A worker whose deque is empty moves tasks along from its own injector, runs the first, and
        then the next of those it has moved. */
    method RunOwn(i: nat, spawns: nat) returns (tasks: seq<Task>)
      requires Valid() && i < workers && running[i].None? && deques[i] == []
      modifies this
      ensures Valid() && running == old(running) && done == old(done) + multiset(tasks)
      ensures old(injectors)[i] == [] ==> tasks == [] && injectors == old(injectors) && deques == old(deques)
      ensures old(injectors)[i] != [] ==> 1 <= |tasks| <= 2 && tasks[0] == old(injectors)[i][0]
      ensures |tasks| == 2 ==> |old(injectors)[i]| > 1 && tasks[1] == old(injectors)[i][1]
      ensures |tasks| <= 1 ==> deques == old(deques) && PeersGrown(old(injectors), injectors, i, old(submitted))
    {
      hide Valid;
      Sizes();
      tasks := [];
      var t, moved := StealFromInjector(i, i);
      if t.Some? {
        var ran := Execute(i, spawns);
        tasks := [ran];
      }
      t := PopLocal(i);
      if t.Some? {
        var ran := Execute(i, spawns);
        tasks := tasks + [ran];
      }
    }

    /** Takes from the first peer whose deque holds a task. */
    method SweepPeers(i: nat, start: nat, spawns: nat) returns (t: Option<Task>)
      requires Valid() && i < workers && start < workers && running[i].None?
      modifies this
      ensures Valid() && running == old(running) && done == old(done) + Slot(t)
      ensures t.None? <==> NoPeer(old(deques), i)
      ensures t.None? ==> deques == old(deques) && injectors == old(injectors) && submitted == old(submitted)
      ensures t.Some? ==> HasFirst(old(deques), i, start, t.value)
    {
      hide Peer, Total, Valid, Grown;
      Sizes();
      var offset := 0;
      while offset < workers
        invariant offset <= workers && Valid() && running == old(running) && done == old(done)
        invariant deques == old(deques) && injectors == old(injectors) && submitted == old(submitted)
        invariant forall k :: 0 <= k < offset && Peer(start, k, workers) != i ==> deques[Peer(start, k, workers)] == []
      {
        var peer := Peer(start, offset, workers);
        if peer != i {
          var moved;
          t, moved := StealFromPeer(i, peer);
          if t.Some? {
            assert FirstPeer(old(deques), i, start, peer);
            var ran := Execute(i, spawns);
            return;
          }
        }
        offset := offset + 1;
      }
      forall peer | 0 <= peer < workers && peer != i ensures deques[peer] == [] {
        RoundVisits(start, workers, peer);
      }
      t := None;
    }

    lemma WorkIs(i: nat)
      requires Valid() && i < workers
      ensures HasWork() <==> deques[i] != [] || injectors[i] != [] || !NoPeer(deques, i) || !NoPeer(injectors, i)
      ensures workers == 1 ==> NoPeer(deques, i) && NoPeer(injectors, i)
    {
    }

    lemma Sizes()
      requires Valid()
      ensures |injectors| == |deques| == |running| == workers > 0
    {
    }

    /** Takes from the first peer whose injector holds a task. */
    method SweepInjectors(i: nat, start: nat, spawns: nat) returns (t: Option<Task>)
      requires Valid() && i < workers && start < workers && running[i].None?
      modifies this
      ensures Valid() && running == old(running) && done == old(done) + Slot(t)
      ensures t.None? <==> NoPeer(old(injectors), i)
      ensures t.None? ==> deques == old(deques) && injectors == old(injectors) && submitted == old(submitted)
      ensures t.Some? ==> HasFirst(old(injectors), i, start, t.value)
    {
      hide Peer, Total, Valid, Grown;
      Sizes();
      var offset := 0;
      while offset < workers
        invariant offset <= workers && Valid() && running == old(running) && done == old(done)
        invariant deques == old(deques) && injectors == old(injectors) && submitted == old(submitted)
        invariant forall k :: 0 <= k < offset && Peer(start, k, workers) != i ==>
                    injectors[Peer(start, k, workers)] == []
      {
        var peer := Peer(start, offset, workers);
        if peer != i {
          var moved;
          t, moved := StealFromInjector(i, peer);
          if t.Some? {
            assert FirstPeer(old(injectors), i, start, peer);
            var ran := Execute(i, spawns);
            return;
          }
        }
        offset := offset + 1;
      }
      forall peer | 0 <= peer < workers && peer != i ensures injectors[peer] == [] {
        RoundVisits(start, workers, peer);
      }
      t := None;
    }
  }
}

/** The three kinds of lock of the relay and the goroutines that take them: clientsMu
    (relayer/start.go), listenersMutex (relayer/listener.go), one mutex for each socket
    (relayer/websocket.go). */
module Locks {
  import opened Prelude

  type Socket = nat

  datatype Lock = ClientsMu | ListenersMutex | SocketMutex(ws: Socket)

  /** Work stands for anything done between lock operations. */
  datatype Op = Acquire(l: Lock) | Release(l: Lock) | Work

  type Program = seq<Op>

  // ---------- what each goroutine does with the locks ----------

  function Locked(l: Lock, body: Program): Program
  {
    [Acquire(l)] + body + [Release(l)]
  }

  /** WriteJSON and WriteMessage. */
  function Write(ws: Socket): Program
  {
    Locked(SocketMutex(ws), [Work])
  }

  function Writes(sockets: seq<Socket>): Program
  {
    if sockets == [] then [] else Write(sockets[0]) + Writes(sockets[1..])
  }

  function Repeat(ws: Socket, n: nat): seq<Socket>
  {
    seq(n, _ => ws)
  }

  /** setListener, removeListenerId, removeListener and GetListeningFilters. */
  function Registry(): Program
  {
    Locked(ListenersMutex, [Work])
  }

  /** notifyListeners: which sockets it writes to depends on the registry. */
  function Notify(sockets: seq<Socket>): Program
  {
    Locked(ListenersMutex, Writes(sockets))
  }

  function Notifies(batches: seq<seq<Socket>>): Program
  {
    if batches == [] then [] else Notify(batches[0]) + Notifies(batches[1..])
  }

  /** Loops are unrolled any number of times, and each branch is a role of its own. */
  datatype Role =
    | Connect                                              // handleWebsocket's own body
    | Reader(ws: Socket, writes: nat, known: bool)         // AUTH and pongs, then the cleanup
    | Writer(ws: Socket, pings: nat)
    | EventMessage(ws: Socket, targets: Option<seq<Socket>>)  // notify if stored, then OK
    | ReqMessage(ws: Socket, writes: nat, registers: bool) // stored events and EOSE, or a notice
    | CloseMessage(ws: Socket)
    | Injector(batches: seq<seq<Socket>>)
    | Shutdown(clients: nat)

  function ProgramOf(r: Role): Program
  {
    match r
    case Connect => Locked(ClientsMu, [Work])
    case Reader(ws, writes, known) =>
      Writes(Repeat(ws, writes)) + Locked(ClientsMu, if known then Registry() else [])
    case Writer(ws, pings) => Writes(Repeat(ws, pings))
    case EventMessage(ws, targets) =>
      (match targets case None => [] case Some(sockets) => Notify(sockets)) + Write(ws)
    case ReqMessage(ws, writes, registers) =>
      Writes(Repeat(ws, writes)) + if registers then Registry() else []
    case CloseMessage(ws) => Registry()
    case Injector(batches) => Notifies(batches)
    case Shutdown(clients) => Locked(ClientsMu, seq(clients, _ => Work))
  }

  // ---------- the order clientsMu, listenersMutex, socket ----------

  function Rank(l: Lock): nat
  {
    match l
    case ClientsMu => 0
    case ListenersMutex => 1
    case SocketMutex(_) => 2
  }

  /** The locks held after a program that starts with `held`; None when it takes a lock that
      does not rank above all it holds, or gives back one it does not hold. */
  function Held(held: set<Lock>, p: Program): Option<set<Lock>>
    decreases p
  {
    if p == [] then Some(held)
    else match p[0]
      case Acquire(l) =>
        if forall h :: h in held ==> Rank(h) < Rank(l) then Held(held + {l}, p[1..]) else None
      case Release(l) => if l in held then Held(held - {l}, p[1..]) else None
      case Work => Held(held, p[1..])
  }

  /** From `held` in order and back to `held`. */
  predicate Orderly(held: set<Lock>, p: Program)
  {
    Held(held, p) == Some(held)
  }

  lemma {:induction false} HeldConcat(held: set<Lock>, p: Program, q: Program)
    ensures Held(held, p + q) == match Held(held, p) case None => None case Some(h) => Held(h, q)
    decreases p
  {
    if p == [] {
      assert p + q == q;
    } else {
      assert (p + q)[1..] == p[1..] + q;
      match p[0]
      case Acquire(l) => HeldConcat(held + {l}, p[1..], q);
      case Release(l) => HeldConcat(held - {l}, p[1..], q);
      case Work => HeldConcat(held, p[1..], q);
    }
  }

  predicate Above(held: set<Lock>, l: Lock)
  {
    forall h :: h in held ==> Rank(h) < Rank(l)
  }

  lemma LockedOrderly(held: set<Lock>, l: Lock, body: Program)
    requires Above(held, l) && Orderly(held + {l}, body)
    ensures Orderly(held, Locked(l, body))
  {
    HeldConcat(held, [Acquire(l)] + body, [Release(l)]);
    HeldConcat(held, [Acquire(l)], body);
    assert held + {l} - {l} == held;
  }

  lemma {:induction false} WorkOrderly(held: set<Lock>, p: Program)
    requires forall op :: op in p ==> op == Work
    ensures Orderly(held, p)
  {
    if p != [] {
      assert p[0] in p && forall op :: op in p[1..] ==> op in p;
      WorkOrderly(held, p[1..]);
    }
  }

  lemma {:induction false} WritesOrderly(held: set<Lock>, sockets: seq<Socket>)
    requires forall h :: h in held ==> Rank(h) < 2
    ensures Orderly(held, Writes(sockets))
  {
    if sockets != [] {
      WorkOrderly(held + {SocketMutex(sockets[0])}, [Work]);
      LockedOrderly(held, SocketMutex(sockets[0]), [Work]);
      WritesOrderly(held, sockets[1..]);
      HeldConcat(held, Write(sockets[0]), Writes(sockets[1..]));
    }
  }

  lemma RegistryOrderly(held: set<Lock>)
    requires forall h :: h in held ==> Rank(h) < 1
    ensures Orderly(held, Registry())
  {
  }

  lemma NotifyOrderly(sockets: seq<Socket>)
    ensures Orderly({}, Notify(sockets))
  {
    WritesOrderly({} + {ListenersMutex}, sockets);
    LockedOrderly({}, ListenersMutex, Writes(sockets));
  }

  lemma {:induction false} NotifiesOrderly(batches: seq<seq<Socket>>)
    ensures Orderly({}, Notifies(batches))
  {
    if batches != [] {
      NotifyOrderly(batches[0]);
      NotifiesOrderly(batches[1..]);
      HeldConcat({}, Notify(batches[0]), Notifies(batches[1..]));
    }
  }

  /** Every goroutine of the relay takes its locks in the one order and returns them all. */
  lemma EveryRoleIsOrderly(r: Role)
    ensures Orderly({}, ProgramOf(r))
  {
    match r
    case Connect =>
      WorkOrderly({} + {ClientsMu}, [Work]);
      LockedOrderly({}, ClientsMu, [Work]);
    case Reader(ws, writes, known) =>
      var body := if known then Registry() else [];
      if known {
        RegistryOrderly({} + {ClientsMu});
      }
      LockedOrderly({}, ClientsMu, body);
      WritesOrderly({}, Repeat(ws, writes));
      HeldConcat({}, Writes(Repeat(ws, writes)), Locked(ClientsMu, body));
    case Writer(ws, pings) => WritesOrderly({}, Repeat(ws, pings));
    case EventMessage(ws, targets) =>
      WritesOrderly({}, [ws]);
      assert Writes([ws]) == Write(ws) + [] == Write(ws);
      if targets.Some? {
        NotifyOrderly(targets.value);
        HeldConcat({}, Notify(targets.value), Write(ws));
      } else {
        assert ProgramOf(r) == Write(ws);
      }
    case ReqMessage(ws, writes, registers) =>
      WritesOrderly({}, Repeat(ws, writes));
      RegistryOrderly({});
      HeldConcat({}, Writes(Repeat(ws, writes)), if registers then Registry() else []);
    case CloseMessage(ws) => RegistryOrderly({});
    case Injector(batches) => NotifiesOrderly(batches);
    case Shutdown(clients) =>
      WorkOrderly({} + {ClientsMu}, seq(clients, _ => Work));
      LockedOrderly({}, ClientsMu, seq(clients, _ => Work));
  }

  // ---------- running them together ----------

  /** What each goroutine has still to do, and who has which lock. */
  datatype State = State(threads: seq<Program>, owner: map<Lock, nat>)

  datatype Step = Spawn(r: Role) | Advance(t: nat)

  predicate Unfinished(s: State, t: nat)
  {
    t < |s.threads| && s.threads[t] != []
  }

  /** The goroutine has something to do and the lock it wants, if any, is free. */
  predicate Enabled(s: State, t: nat)
  {
    Unfinished(s, t) && (s.threads[t][0].Acquire? ==> s.threads[t][0].l !in s.owner)
  }

  function Next(s: State, step: Step): State
  {
    match step
    case Spawn(r) => s.(threads := s.threads + [ProgramOf(r)])
    case Advance(t) =>
      if !Enabled(s, t) then s
      else
        var threads := s.threads[t := s.threads[t][1..]];
        match s.threads[t][0]
        case Acquire(l) => State(threads, s.owner[l := t])
        case Release(l) => State(threads, s.owner - {l})
        case Work => State(threads, s.owner)
  }

  function Run(steps: seq<Step>): State
  {
    if steps == [] then State([], map[]) else Next(Run(steps[..|steps| - 1]), steps[|steps| - 1])
  }

  function Holds(s: State, t: nat): set<Lock>
  {
    set l | l in s.owner && s.owner[l] == t
  }

  ghost predicate Inv(s: State)
  {
    && (forall l :: l in s.owner ==> s.owner[l] < |s.threads|)
    && (forall t: nat :: t < |s.threads| ==> Held(Holds(s, t), s.threads[t]) == Some({}))
  }

  lemma AdvanceKeepsInv(s: State, t: nat)
    requires Inv(s) && Enabled(s, t)
    ensures Inv(Next(s, Advance(t)))
  {
    var s' := Next(s, Advance(t));
    assert Held(Holds(s, t), s.threads[t]) == Some({});
    match s.threads[t][0] {
      case Acquire(l) => assert Holds(s', t) == Holds(s, t) + {l};
      case Release(l) => assert Holds(s', t) == Holds(s, t) - {l};
      case Work => assert Holds(s', t) == Holds(s, t);
    }
    forall u: nat | u < |s'.threads| && u != t ensures Holds(s', u) == Holds(s, u) {
    }
  }

  lemma {:induction false} InvHolds(steps: seq<Step>)
    ensures Inv(Run(steps))
  {
    if steps != [] {
      var s, step := Run(steps[..|steps| - 1]), steps[|steps| - 1];
      InvHolds(steps[..|steps| - 1]);
      match step
      case Spawn(r) =>
        EveryRoleIsOrderly(r);
        var s' := Next(s, step);
        forall t: nat | t < |s'.threads| ensures Held(Holds(s', t), s'.threads[t]) == Some({}) {
          assert Holds(s', t) == Holds(s, t);
          if t == |s.threads| {
            assert Holds(s, t) == {};
          }
        }
      case Advance(t) =>
        if Enabled(s, t) {
          AdvanceKeepsInv(s, t);
        }
    }
  }

  /** In every reachable state, whoever is about to take a lock holds only locks that come
      before it in the order. */
  lemma LocksAreTakenInOrder(steps: seq<Step>, t: nat, l: Lock)
    requires Unfinished(Run(steps), t) && Run(steps).threads[t][0] == Acquire(l)
    ensures forall h :: h in Run(steps).owner && Run(steps).owner[h] == t ==> Rank(h) < Rank(l)
  {
    InvHolds(steps);
    var s := Run(steps);
    assert Held(Holds(s, t), s.threads[t]) == Some({});
    forall h | h in s.owner && s.owner[h] == t ensures Rank(h) < Rank(l) {
      assert h in Holds(s, t);
    }
  }

  /** u is at the end of the chain of n goroutines, each waiting for a lock of the next. */
  predicate LeadsTo(s: State, t: nat, u: nat, n: nat)
    decreases n
  {
    if n == 0 then t == u
    else
      && Unfinished(s, t) && s.threads[t][0].Acquire? && s.threads[t][0].l in s.owner
      && LeadsTo(s, s.owner[s.threads[t][0].l], u, n - 1)
  }

  lemma {:induction false} ChainEnds(s: State, t: nat, rank: nat) returns (u: nat, n: nat)
    requires Inv(s) && Unfinished(s, t)
    requires rank <= 3
    requires s.threads[t][0].Acquire? && s.threads[t][0].l in s.owner ==> Rank(s.threads[t][0].l) >= rank
    ensures Enabled(s, u) && LeadsTo(s, t, u, n) && n <= 3 - rank
    decreases 3 - rank
  {
    if Enabled(s, t) {
      u, n := t, 0;
    } else {
      var l := s.threads[t][0].l;
      var v := s.owner[l];
      assert l in Holds(s, v) && Held(Holds(s, v), s.threads[v]) == Some({});
      assert s.threads[v] != [];
      u, n := ChainEnds(s, v, rank + 1);
      n := n + 1;
    }
  }

  /** No reachable state is deadlocked: whoever is not finished can either step or waits,
      through at most three locks, for a goroutine that can. */
  lemma DeadlockFree(steps: seq<Step>, t: nat)
    requires Unfinished(Run(steps), t)
    ensures exists u: nat, n: nat :: n <= 3 && Enabled(Run(steps), u) && LeadsTo(Run(steps), t, u, n)
  {
    InvHolds(steps);
    var u, n := ChainEnds(Run(steps), t, 0);
  }

  // ---------- nobody is left behind ----------

  function Remaining(threads: seq<Program>): nat
  {
    if threads == [] then 0 else |threads[0]| + Remaining(threads[1..])
  }

  lemma {:induction false} RemainingAdvance(threads: seq<Program>, t: nat)
    requires t < |threads| && threads[t] != []
    ensures Remaining(threads[t := threads[t][1..]]) + 1 == Remaining(threads)
  {
    var after := threads[t := threads[t][1..]];
    if t == 0 {
      assert after[1..] == threads[1..];
    } else {
      assert after[1..] == threads[1..][t - 1 := threads[1..][t - 1][1..]];
      RemainingAdvance(threads[1..], t - 1);
    }
  }

  function RunFrom(s: State, schedule: seq<nat>): State
    decreases schedule
  {
    if schedule == [] then s else RunFrom(Next(s, Advance(schedule[0])), schedule[1..])
  }

  lemma {:induction false} Finishes(s: State) returns (schedule: seq<nat>)
    requires Inv(s)
    ensures RunFrom(s, schedule).owner == map[]
    ensures forall t :: !Unfinished(RunFrom(s, schedule), t)
    ensures |schedule| == Remaining(s.threads)
    decreases Remaining(s.threads)
  {
    if t: nat :| t < |s.threads| && s.threads[t] != [] {
      var u, n := ChainEnds(s, t, 0);
      AdvanceKeepsInv(s, u);
      RemainingAdvance(s.threads, u);
      var more := Finishes(Next(s, Advance(u)));
      schedule := [u] + more;
    } else {
      schedule := [];
      NothingRemains(s.threads);
      forall t: nat | t < |s.threads| ensures Holds(s, t) == {} {
        assert Held(Holds(s, t), s.threads[t]) == Some({});
      }
      assert forall l :: l in s.owner ==> l in Holds(s, s.owner[l]);
    }
  }

  lemma {:induction false} NothingRemains(threads: seq<Program>)
    requires forall t :: 0 <= t < |threads| ==> threads[t] == []
    ensures Remaining(threads) == 0
  {
    if threads != [] {
      NothingRemains(threads[1..]);
    }
  }

  /** From every reachable state the goroutines there can all run to their end, in as many
      steps as they have operations left, and no lock is held then. */
  lemma EveryoneCanFinish(steps: seq<Step>)
    ensures exists schedule ::
      && |schedule| == Remaining(Run(steps).threads)
      && RunFrom(Run(steps), schedule).owner == map[]
      && forall t :: !Unfinished(RunFrom(Run(steps), schedule), t)
  {
    InvHolds(steps);
    var schedule := Finishes(Run(steps));
  }
}

/** One relay process over time: the EVENT goroutines of relayer/add-event.go and
    relayer/send-event.go, statement by statement on the tables, beside the goroutines of
    Subscriptions. It schedules StoreRuns and Subscriptions and adds what ties them together. */
module LiveRuns {
  import opened Prelude
  import opened Nostr
  import opened PostgresStore
  import opened EventIdentity
  import opened Listener
  import opened Network
  import StoreRuns
  import Subscriptions

  /** Who saves: AddEvent and SendEvent of this process, or a goroutine that this process's
      listeners never hear of, on the bridge or in another process. */
  datatype Origin = OwnPort | ThroughHub(reached: bool) | Elsewhere(prunes: bool)

  /** Ready: notifyListeners comes next. Silent: saved, and nobody here is told. */
  datatype Stage = Refused | Saving | Inserted | Duplicated | Broken | Ready | Heard(found: set<Pair>) | Silent

  /** An event that was rewritten and got to the question of acceptance. Its number is that of
      its goroutine. */
  datatype Receipt = Receipt(origin: Origin, address: string, e: Event, stage: Stage)

  /** The statements each table has executed, and the steps of the client goroutines. */
  datatype State = State(receipts: seq<Receipt>, tables: map<string, seq<StoreRuns.Step>>,
                         clients: seq<Subscriptions.Step>)

  datatype Step =
    | Receive(origin: Origin, address: string, h: Hub, e: Event, uploads: seq<Option<string>>, accept: bool,
              clearOk: bool)
    | Insert(t: nat, ok: bool)
    | Finish(t: nat, ok: bool)               // AfterSave, or the way back over the bridge
    | Notify(t: nat)
    | Delete(address: string, id: string, pubkey: string)
    | Purge(address: string, cutoff: int)
    | Client(x: Subscriptions.Step)

  const EMPTY := State([], map[], [])

  function History(s: State, a: string): seq<StoreRuns.Step>
  {
    if a in s.tables then s.tables[a] else []
  }

  function Table(s: State, a: string): StoreRuns.State
  {
    StoreRuns.Run(History(s, a))
  }

  function Rows(s: State, a: string): set<Event>
  {
    Table(s, a).rows
  }

  function Clients(matches: Matcher, s: State): Subscriptions.State
  {
    Subscriptions.Run(matches, s.clients)
  }

  function Execute(s: State, a: string, x: StoreRuns.Step): State
  {
    s.(tables := s.tables[a := History(s, a) + [x]])
  }

  function Added(s: State, r: Receipt): State
  {
    s.(receipts := s.receipts + [r])
  }

  function Moved(s: State, t: nat, stage: Stage): State
    requires t < |s.receipts|
  {
    s.(receipts := s.receipts[t := s.receipts[t].(stage := stage)])
  }

  predicate Stands(s: State, t: nat, stage: Stage)
  {
    t < |s.receipts| && s.receipts[t].stage == stage
  }

  function Begun(s: State, origin: Origin, a: string, evt: Event, accept: bool, clearOk: bool): State
  {
    if !accept then Added(s, Receipt(origin, a, evt, Refused))
    else if origin == ThroughHub(false) then Added(s, Receipt(origin, a, evt, Broken))
    else Execute(Added(s, Receipt(origin, a, evt, Saving)), a, StoreRuns.Begin(|s.receipts|, evt, clearOk))
  }

  /** The DELETEs of a deletion event are steps of their own. */
  function Received(s: State, origin: Origin, a: string, evt: Event, action: Action, accept: bool, clearOk: bool): State
  {
    match action
    case DeleteByTags(_, _) => s
    case NotifyOnly =>
      Added(s, Receipt(origin, a, evt, if !accept then Refused else if origin.Elsewhere? then Silent else Ready))
    case Save(evt) => Begun(s, origin, a, evt, accept, clearOk)
  }

  function SavedBy(s: State, t: nat, ok: bool): State
    requires t < |s.receipts|
  {
    var r := s.receipts[t];
    var stage := if !ok then Broken else if HasId(Rows(s, r.address), r.e.id) then Duplicated else Inserted;
    Execute(Moved(s, t, stage), r.address, StoreRuns.Insert(t, ok))
  }

  /** What comes after the INSERT: AfterSave or not, and who is told. */
  function FinishedBy(s: State, t: nat, ok: bool): State
    requires t < |s.receipts|
  {
    var r := s.receipts[t];
    var stage := if r.origin.OwnPort? || (r.origin.ThroughHub? && ok) then Ready else Silent;
    var pruned := ok && (r.origin.OwnPort? || (r.origin.Elsewhere? && r.origin.prunes));
    Execute(Moved(s, t, stage), r.address, StoreRuns.Prune(t, pruned))
  }

  function NotifiedBy(matches: Matcher, s: State, t: nat): State
    requires t < |s.receipts|
  {
    var e := s.receipts[t].e;
    Moved(s.(clients := s.clients + [Subscriptions.StartNotify(e)]), t,
          Heard(Targets(Clients(matches, s).listeners, matches, e)))
  }

  /** One step; a step that is not possible changes nothing. */
  function Next(matches: Matcher, s: State, step: Step): State
  {
    match step
    case Receive(origin, a, h, e, uploads, accept, clearOk) =>
      if |uploads| != |e.tags| then s
      else Received(s, origin, a, Rewritten(h, e, uploads), ActionOf(h, e, uploads), accept, clearOk)
    case Insert(t, ok) => if Stands(s, t, Saving) then SavedBy(s, t, ok) else s
    case Finish(t, ok) => if Stands(s, t, Inserted) then FinishedBy(s, t, ok) else s
    case Notify(t) => if Stands(s, t, Ready) && Clients(matches, s).notifier.Idle? then NotifiedBy(matches, s, t) else s
    case Delete(a, id, pubkey) => Execute(s, a, StoreRuns.Delete(id, pubkey))
    case Purge(a, cutoff) => Execute(s, a, StoreRuns.Purge(cutoff))
    case Client(x) => if x.StartNotify? then s else s.(clients := s.clients + [x])
  }

  function Run(matches: Matcher, steps: seq<Step>): State
  {
    if steps == [] then EMPTY
    else Next(matches, Run(matches, steps[..|steps| - 1]), steps[|steps| - 1])
  }

  lemma TableAfter(s: State, a: string, x: StoreRuns.Step)
    ensures Table(Execute(s, a, x), a) == StoreRuns.Next(Table(s, a), x)
    ensures forall b :: b != a ==> Table(Execute(s, a, x), b) == Table(s, b)
  {
    StoreRuns.RunSnoc(History(s, a), x);
  }

  // ---------- goroutines and statements ----------

  predicate Active(r: Receipt)
  {
    r.stage.Saving? || r.stage.Inserted?
  }

  function PhaseOf(r: Receipt): StoreRuns.Phase
  {
    if r.stage.Saving? then StoreRuns.Cleared(r.e) else StoreRuns.Inserted(r.e)
  }

  predicate UnderWay(s: State, a: string, t: nat)
  {
    t < |s.receipts| && s.receipts[t].address == a && Active(s.receipts[t])
  }

  /** Each table's goroutines are the receipts under way there, at the point where they stand. */
  ghost predicate ThreadInv(s: State)
  {
    forall a, t: nat ::
      && (t in Table(s, a).threads <==> UnderWay(s, a, t))
      && (t in Table(s, a).threads ==> Table(s, a).threads[t] == PhaseOf(s.receipts[t]))
  }

  /** One goroutine moved, and its table knows. */
  lemma ThreadMoved(s: State, s': State, t: nat)
    requires ThreadInv(s) && t < |s.receipts|
    requires var r' := s'.receipts; |r'| == |s.receipts| && r' == s.receipts[t := s.receipts[t].(stage := r'[t].stage)]
    requires var a, r' := s.receipts[t].address, s'.receipts[t];
             && (forall b :: b != a ==> Table(s', b).threads == Table(s, b).threads)
             && Table(s', a).threads ==
                if Active(r') then Table(s, a).threads[t := PhaseOf(r')] else Table(s, a).threads - {t}
    ensures ThreadInv(s')
  {
    forall b, u: nat
      ensures u in Table(s', b).threads <==> UnderWay(s', b, u)
      ensures u in Table(s', b).threads ==> Table(s', b).threads[u] == PhaseOf(s'.receipts[u])
    {
      assert u in Table(s, b).threads <==> UnderWay(s, b, u);
      assert u in Table(s, b).threads ==> Table(s, b).threads[u] == PhaseOf(s.receipts[u]);
    }
  }

  /** Nothing that concerns the goroutines of saves. */
  lemma ThreadFrame(s: State, s': State)
    requires ThreadInv(s)
    requires |s'.receipts| >= |s.receipts| && forall i: nat :: i < |s'.receipts| ==>
      if i < |s.receipts| && Active(s.receipts[i]) then s'.receipts[i] == s.receipts[i] else !Active(s'.receipts[i])
    requires forall a :: Table(s', a).threads == Table(s, a).threads
    ensures ThreadInv(s')
  {
    forall a, t: nat
      ensures t in Table(s', a).threads <==> UnderWay(s', a, t)
      ensures t in Table(s', a).threads ==> Table(s', a).threads[t] == PhaseOf(s'.receipts[t])
    {
      assert Table(s', a).threads == Table(s, a).threads;
      assert t in Table(s, a).threads <==> UnderWay(s, a, t);
    }
  }

  /** A goroutine came in, and its table knows. */
  lemma ThreadAdded(s: State, s': State, r: Receipt)
    requires ThreadInv(s) && Active(r) && s'.receipts == s.receipts + [r]
    requires forall b :: b != r.address ==> Table(s', b).threads == Table(s, b).threads
    requires Table(s', r.address).threads == Table(s, r.address).threads[|s.receipts| := PhaseOf(r)]
    ensures ThreadInv(s')
  {
    forall b, t: nat
      ensures t in Table(s', b).threads <==> UnderWay(s', b, t)
      ensures t in Table(s', b).threads ==> Table(s', b).threads[t] == PhaseOf(s'.receipts[t])
    {
      assert t in Table(s, b).threads <==> UnderWay(s, b, t);
      assert UnderWay(s', b, t) <==> UnderWay(s, b, t) || (b == r.address && t == |s.receipts|);
    }
  }

  lemma ThreadBegun(s: State, origin: Origin, a: string, evt: Event, accept: bool, clearOk: bool)
    requires ThreadInv(s)
    ensures ThreadInv(Begun(s, origin, a, evt, accept, clearOk))
  {
    var s' := Begun(s, origin, a, evt, accept, clearOk);
    var r := Receipt(origin, a, evt, Saving);
    if accept && origin != ThroughHub(false) {
      TableAfter(Added(s, r), a, StoreRuns.Begin(|s.receipts|, evt, clearOk));
      assert forall b :: Table(Added(s, r), b) == Table(s, b);
      assert !UnderWay(s, a, |s.receipts|);
      ThreadAdded(s, s', r);
    } else {
      assert forall b :: Table(s', b) == Table(s, b);
      ThreadFrame(s, s');
    }
  }

  lemma MovedAndExecuted(s: State, t: nat, stage: Stage, a: string, x: StoreRuns.Step)
    requires t < |s.receipts|
    ensures var s' := Execute(Moved(s, t, stage), a, x);
            && Table(s', a) == StoreRuns.Next(Table(s, a), x)
            && (forall b :: b != a ==> Table(s', b) == Table(s, b))
            && s'.receipts == s.receipts[t := s.receipts[t].(stage := stage)]
  {
    TableAfter(Moved(s, t, stage), a, x);
    assert forall b :: Table(Moved(s, t, stage), b) == Table(s, b);
  }

  lemma ThreadSaved(s: State, t: nat, ok: bool)
    requires ThreadInv(s) && Stands(s, t, Saving)
    ensures ThreadInv(SavedBy(s, t, ok))
  {
    var s', r := SavedBy(s, t, ok), s.receipts[t];
    MovedAndExecuted(s, t, s'.receipts[t].stage, r.address, StoreRuns.Insert(t, ok));
    assert UnderWay(s, r.address, t);
    ThreadMoved(s, s', t);
  }

  lemma ThreadFinished(s: State, t: nat, ok: bool)
    requires ThreadInv(s) && Stands(s, t, Inserted)
    ensures ThreadInv(FinishedBy(s, t, ok))
  {
    var s', r := FinishedBy(s, t, ok), s.receipts[t];
    var pruned := ok && (r.origin.OwnPort? || (r.origin.Elsewhere? && r.origin.prunes));
    MovedAndExecuted(s, t, s'.receipts[t].stage, r.address, StoreRuns.Prune(t, pruned));
    assert UnderWay(s, r.address, t);
    ThreadMoved(s, s', t);
  }

  lemma ThreadReceived(s: State, origin: Origin, a: string, evt: Event, action: Action, accept: bool, clearOk: bool)
    requires ThreadInv(s)
    ensures ThreadInv(Received(s, origin, a, evt, action, accept, clearOk))
  {
    match action
    case Save(e) => ThreadBegun(s, origin, a, e, accept, clearOk);
    case NotifyOnly =>
      var s' := Received(s, origin, a, evt, action, accept, clearOk);
      assert forall b :: Table(s', b) == Table(s, b);
      ThreadFrame(s, s');
    case DeleteByTags(_, _) =>
  }

  lemma ThreadNotified(matches: Matcher, s: State, t: nat)
    requires ThreadInv(s) && Stands(s, t, Ready)
    ensures ThreadInv(NotifiedBy(matches, s, t))
  {
    var s' := NotifiedBy(matches, s, t);
    assert forall b :: Table(s', b) == Table(s, b);
    ThreadFrame(s, s');
  }

  lemma ThreadExecuted(s: State, a: string, x: StoreRuns.Step)
    requires ThreadInv(s) && (x.Delete? || x.Purge?)
    ensures ThreadInv(Execute(s, a, x))
  {
    var s' := Execute(s, a, x);
    TableAfter(s, a, x);
    forall b ensures Table(s', b).threads == Table(s, b).threads {
      assert b != a ==> Table(s', b) == Table(s, b);
    }
    ThreadFrame(s, s');
  }

  lemma ThreadStep(matches: Matcher, s: State, step: Step)
    requires ThreadInv(s)
    ensures ThreadInv(Next(matches, s, step))
  {
    match step
    case Receive(origin, a, h, e, uploads, accept, clearOk) =>
      if |uploads| == |e.tags| {
        ThreadReceived(s, origin, a, Rewritten(h, e, uploads), ActionOf(h, e, uploads), accept, clearOk);
      }
    case Insert(t, ok) =>
      if Stands(s, t, Saving) {
        ThreadSaved(s, t, ok);
      }
    case Finish(t, ok) =>
      if Stands(s, t, Inserted) {
        ThreadFinished(s, t, ok);
      }
    case Notify(t) =>
      if Stands(s, t, Ready) {
        ThreadNotified(matches, s, t);
      }
    case Delete(a, id, pubkey) => ThreadExecuted(s, a, StoreRuns.Delete(id, pubkey));
    case Purge(a, cutoff) => ThreadExecuted(s, a, StoreRuns.Purge(cutoff));
    case Client(x) =>
      var s' := Next(matches, s, step);
      assert forall b :: Table(s', b) == Table(s, b);
      ThreadFrame(s, s');
  }

  lemma {:induction false} ThreadsHold(matches: Matcher, steps: seq<Step>)
    ensures ThreadInv(Run(matches, steps))
  {
    if steps != [] {
      ThreadsHold(matches, steps[..|steps| - 1]);
      ThreadStep(matches, Run(matches, steps[..|steps| - 1]), steps[|steps| - 1]);
    }
  }

  /** In any reachable state the INSERT of a waiting goroutine meets the table as it is then. */
  lemma SavedNow(s: State, t: nat, ok: bool)
    requires ThreadInv(s) && Stands(s, t, Saving)
    ensures var r, s' := s.receipts[t], SavedBy(s, t, ok);
            && Rows(s', r.address) == (if ok then InsertOrIgnore(Rows(s, r.address), r.e) else Rows(s, r.address))
            && s'.receipts == s.receipts[t := r.(stage := s'.receipts[t].stage)]
            && s'.receipts[t].stage ==
               (if !ok then Broken else if HasId(Rows(s, r.address), r.e.id) then Duplicated else Inserted)
  {
    var r, s' := s.receipts[t], SavedBy(s, t, ok);
    MovedAndExecuted(s, t, s'.receipts[t].stage, r.address, StoreRuns.Insert(t, ok));
    assert UnderWay(s, r.address, t);
  }

  /** And AfterSave likewise. */
  lemma FinishedNow(s: State, t: nat, ok: bool)
    requires ThreadInv(s) && Stands(s, t, Inserted) && s.receipts[t].origin == OwnPort
    ensures var r, s' := s.receipts[t], FinishedBy(s, t, ok);
            && Rows(s', r.address) ==
               (if ok then Pruned(Rows(s, r.address), r.e.pubkey, r.e.kind) else Rows(s, r.address))
            && s'.receipts == s.receipts[t := r.(stage := Ready)]
  {
    var r := s.receipts[t];
    MovedAndExecuted(s, t, Ready, r.address, StoreRuns.Prune(t, ok));
    assert UnderWay(s, r.address, t);
  }

  lemma BegunNow(s: State, origin: Origin, a: string, evt: Event, clearOk: bool)
    requires ThreadInv(s) && origin != ThroughHub(false)
    ensures var s' := Begun(s, origin, a, evt, true, clearOk);
            && Rows(s', a) == (if clearOk then DeleteSuperseded(Rows(s, a), evt) else Rows(s, a))
            && s'.receipts == s.receipts + [Receipt(origin, a, evt, Saving)]
  {
    var added := Added(s, Receipt(origin, a, evt, Saving));
    assert Table(added, a) == Table(s, a) && !UnderWay(s, a, |s.receipts|);
    TableAfter(added, a, StoreRuns.Begin(|s.receipts|, evt, clearOk));
  }

  function StageOf(outcome: SaveResult): Stage
  {
    match outcome
    case Stored => Inserted
    case Duplicate => Duplicated
    case Failed => Broken
  }

  /** SaveEvent when nobody interrupts it. */
  lemma AloneIsSave(s: State, origin: Origin, a: string, evt: Event, f: Faults)
    requires ThreadInv(s) && origin != ThroughHub(false)
    ensures var s1 := Begun(s, origin, a, evt, true, !f.deleteFails);
            && Stands(s1, |s.receipts|, Saving)
            && var s2 := SavedBy(s1, |s.receipts|, !f.insertFails);
               && ThreadInv(s2) && Rows(s2, a) == RowsAfterSave(Rows(s, a), evt, f)
               && s2.receipts == s.receipts + [Receipt(origin, a, evt, StageOf(SaveOutcome(Rows(s, a), evt, f)))]
  {
    var s1 := Begun(s, origin, a, evt, true, !f.deleteFails);
    BegunNow(s, origin, a, evt, !f.deleteFails);
    ThreadBegun(s, origin, a, evt, true, !f.deleteFails);
    SavedNow(s1, |s.receipts|, !f.insertFails);
    ThreadSaved(s1, |s.receipts|, !f.insertFails);
  }

  /** A save that nobody interrupts is AddEvent: the machine takes the table and the receipt
      where the method's contract says. */
  lemma AloneIsAddEvent(s: State, a: string, evt: Event, f: Faults)
    requires ThreadInv(s)
    ensures var t := |s.receipts|;
            var s2 := SavedBy(Begun(s, OwnPort, a, evt, true, !f.deleteFails), t, !f.insertFails);
            var s3 := if Stands(s2, t, Inserted) then FinishedBy(s2, t, !f.pruneFails) else s2;
            && Rows(s3, a) == RowsAfterAddEvent(Rows(s, a), evt, f)
            && (Stands(s3, t, Ready) <==> SaveOutcome(Rows(s, a), evt, f) == Stored)
  {
    var t := |s.receipts|;
    AloneIsSave(s, OwnPort, a, evt, f);
    var s2 := SavedBy(Begun(s, OwnPort, a, evt, true, !f.deleteFails), t, !f.insertFails);
    if Stands(s2, t, Inserted) {
      FinishedNow(s2, t, !f.pruneFails);
    }
  }

  /** And a save over the bridge that nobody interrupts is SendEvent, for a peer that is reached:
      the same table, without retention, and listeners to be told exactly of a new row whose
      reply comes back. */
  lemma AloneIsSendEvent(s: State, a: string, evt: Event, f: Faults, replied: bool)
    requires ThreadInv(s)
    ensures var t := |s.receipts|;
            var s2 := SavedBy(Begun(s, ThroughHub(true), a, evt, true, !f.deleteFails), t, !f.insertFails);
            var s3 := if Stands(s2, t, Inserted) then FinishedBy(s2, t, replied) else s2;
            && Rows(s3, a) == RowsAfterSave(Rows(s, a), evt, f)
            && (Stands(s3, t, Ready) <==> SaveOutcome(Rows(s, a), evt, f) == Stored && replied)
  {
    var t := |s.receipts|;
    AloneIsSave(s, ThroughHub(true), a, evt, f);
    var s2 := SavedBy(Begun(s, ThroughHub(true), a, evt, true, !f.deleteFails), t, !f.insertFails);
    if Stands(s2, t, Inserted) {
      var stage := if replied then Ready else Silent;
      MovedAndExecuted(s2, t, stage, a, StoreRuns.Prune(t, false));
      assert UnderWay(s2, a, t);
    }
  }

  /** A refused event, or one whose peer is not reached, leaves every table as it is and is not
      told of. */
  lemma RefusedLeavesTables(s: State, origin: Origin, a: string, evt: Event, accept: bool, clearOk: bool)
    requires !accept || origin == ThroughHub(false)
    ensures var s' := Begun(s, origin, a, evt, accept, clearOk);
            && s'.tables == s.tables && s'.clients == s.clients
            && s'.receipts == s.receipts + [Receipt(origin, a, evt, if accept then Broken else Refused)]
  {
  }

  // ---------- one message for each new event ----------

  predicate Finds(r: Receipt, p: Pair, e: Event)
  {
    r.e == e && r.stage.Heard? && p in r.stage.found
  }

  /** The receipts of an event that were let through to the listeners and found the pair
      registered and matching. */
  function Found(receipts: seq<Receipt>, p: Pair, e: Event): nat
  {
    if receipts == [] then 0
    else Found(receipts[..|receipts| - 1], p, e) + if Finds(receipts[|receipts| - 1], p, e) then 1 else 0
  }

  lemma FoundAdded(receipts: seq<Receipt>, r: Receipt, p: Pair, e: Event)
    ensures Found(receipts + [r], p, e) == Found(receipts, p, e) + if Finds(r, p, e) then 1 else 0
  {
    assert (receipts + [r])[..|receipts|] == receipts;
  }

  lemma {:induction false} FoundMoved(receipts: seq<Receipt>, t: nat, r: Receipt, p: Pair, e: Event)
    requires t < |receipts|
    ensures Found(receipts[t := r], p, e) + (if Finds(receipts[t], p, e) then 1 else 0) ==
            Found(receipts, p, e) + if Finds(r, p, e) then 1 else 0
  {
    var n := |receipts| - 1;
    if t == n {
      assert receipts[t := r][..n] == receipts[..n];
    } else {
      assert receipts[t := r][..n] == receipts[..n][t := r];
      FoundMoved(receipts[..n], t, r, p, e);
    }
  }

  ghost predicate HeardInv(matches: Matcher, s: State)
  {
    forall p, e :: Found(s.receipts, p, e) == Subscriptions.Hits(Clients(matches, s).notices, p, e)
  }

  lemma HeardByClients(matches: Matcher, s: State, x: Subscriptions.Step)
    requires !x.StartNotify?
    ensures Clients(matches, s.(clients := s.clients + [x])).notices == Clients(matches, s).notices
  {
    Subscriptions.RunSnoc(matches, s.clients, x);
  }

  lemma HeardByNotify(matches: Matcher, s: State, t: nat)
    requires HeardInv(matches, s)
    requires Stands(s, t, Ready) && Clients(matches, s).notifier.Idle?
    ensures HeardInv(matches, NotifiedBy(matches, s, t))
  {
    var s', c, r := NotifiedBy(matches, s, t), Clients(matches, s), s.receipts[t];
    var n := Subscriptions.Notice(r.e, Targets(c.listeners, matches, r.e));
    Subscriptions.RunSnoc(matches, s.clients, Subscriptions.StartNotify(r.e));
    forall p, e ensures Found(s'.receipts, p, e) == Subscriptions.Hits(Clients(matches, s').notices, p, e) {
      HeardByOne(s.receipts, c.notices, t, n, p, e);
    }
  }

  /** The notice and the receipt that begot it count alike. */
  lemma HeardByOne(receipts: seq<Receipt>, notices: seq<Subscriptions.Notice>, t: nat, n: Subscriptions.Notice,
                   p: Pair, e: Event)
    requires t < |receipts| && receipts[t].stage == Ready && receipts[t].e == n.e
    requires Found(receipts, p, e) == Subscriptions.Hits(notices, p, e)
    ensures Found(receipts[t := receipts[t].(stage := Heard(n.targets))], p, e)
         == Subscriptions.Hits(notices + [n], p, e)
  {
    Subscriptions.AppendHits(notices, n);
    FoundMoved(receipts, t, receipts[t].(stage := Heard(n.targets)), p, e);
  }

  /** No receipt became heard. */
  ghost predicate NobodyHeard(before: seq<Receipt>, after: seq<Receipt>)
  {
    || after == before
    || (exists r :: after == before + [r] && !r.stage.Heard?)
    || (exists t: nat, r :: t < |before| && after == before[t := r] && !before[t].stage.Heard? && !r.stage.Heard?)
  }

  lemma FoundFrame(before: seq<Receipt>, after: seq<Receipt>, p: Pair, e: Event)
    requires NobodyHeard(before, after)
    ensures Found(after, p, e) == Found(before, p, e)
  {
    if after != before {
      if r :| after == before + [r] && !r.stage.Heard? {
        FoundAdded(before, r, p, e);
      } else {
        var t: nat, r :| t < |before| && after == before[t := r] && !before[t].stage.Heard? && !r.stage.Heard?;
        FoundMoved(before, t, r, p, e);
      }
    }
  }

  lemma NobodyHeardBy(matches: Matcher, s: State, step: Step)
    requires !step.Notify?
    ensures NobodyHeard(s.receipts, Next(matches, s, step).receipts)
  {
    var s' := Next(matches, s, step);
    if step.Receive? && s' != s {
      assert s'.receipts == s.receipts + [s'.receipts[|s.receipts|]];
    }
  }

  /** A step that tells no listener. */
  lemma HeardFrame(matches: Matcher, s: State, s': State)
    requires HeardInv(matches, s) && Clients(matches, s').notices == Clients(matches, s).notices
    requires NobodyHeard(s.receipts, s'.receipts)
    ensures HeardInv(matches, s')
  {
    forall p, e ensures Found(s'.receipts, p, e) == Found(s.receipts, p, e) {
      FoundFrame(s.receipts, s'.receipts, p, e);
    }
  }

  lemma HeardStep(matches: Matcher, s: State, step: Step)
    requires HeardInv(matches, s)
    ensures HeardInv(matches, Next(matches, s, step))
  {
    var s' := Next(matches, s, step);
    if step.Notify? {
      if s' != s {
        HeardByNotify(matches, s, step.t);
      }
    } else {
      if step.Client? && s' != s {
        HeardByClients(matches, s, step.x);
      }
      NobodyHeardBy(matches, s, step);
      HeardFrame(matches, s, s');
    }
  }

  lemma {:induction false} HeardHolds(matches: Matcher, steps: seq<Step>)
    ensures HeardInv(matches, Run(matches, steps))
  {
    if steps == [] {
      assert Clients(matches, EMPTY) == Subscriptions.EMPTY;
    } else {
      HeardHolds(matches, steps[..|steps| - 1]);
      HeardStep(matches, Run(matches, steps[..|steps| - 1]), steps[|steps| - 1]);
    }
  }

  /** The steps of a run at which listeners were told of the event while the pair listened: its
      last word was the registration of a REQ whose filters match. */
  ghost function Told(matches: Matcher, steps: seq<Step>, p: Pair, e: Event): nat
  {
    if steps == [] then 0
    else
      var s, step := Run(matches, steps[..|steps| - 1]), steps[|steps| - 1];
      Told(matches, steps[..|steps| - 1], p, e) + if Tells(matches, s, step, p, e) then 1 else 0
  }

  ghost predicate Tells(matches: Matcher, s: State, step: Step, p: Pair, e: Event)
  {
    && step.Notify? && Stands(s, step.t, Ready) && s.receipts[step.t].e == e
    && Clients(matches, s).notifier.Idle? && Subscriptions.Listens(matches, Clients(matches, s), p, e)
  }

  lemma FoundByNotify(matches: Matcher, s: State, t: nat, p: Pair, e: Event)
    requires Stands(s, t, Ready) && Clients(matches, s).notifier.Idle?
    ensures Found(NotifiedBy(matches, s, t).receipts, p, e) ==
            Found(s.receipts, p, e) + if Tells(matches, s, Notify(t), p, e) then 1 else 0
  {
    FoundMoved(s.receipts, t, NotifiedBy(matches, s, t).receipts[t], p, e);
    Subscriptions.TargetsListen(matches, s.clients, p, e);
  }

  lemma {:induction false} FoundIsTold(matches: Matcher, steps: seq<Step>, p: Pair, e: Event)
    ensures Found(Run(matches, steps).receipts, p, e) == Told(matches, steps, p, e)
  {
    if steps != [] {
      var s, step := Run(matches, steps[..|steps| - 1]), steps[|steps| - 1];
      FoundIsTold(matches, steps[..|steps| - 1], p, e);
      if !step.Notify? {
        NobodyHeardBy(matches, s, step);
        FoundFrame(s.receipts, Next(matches, s, step).receipts, p, e);
      } else if Stands(s, step.t, Ready) && Clients(matches, s).notifier.Idle? {
        FoundByNotify(matches, s, step.t, p, e);
      }
    }
  }

  /** Over any run: while nobody is writing, the live messages of an event to a pair are as
      many as the receipts of that event that were accepted, were not duplicates, and found the
      pair listening; at other times they are no more. */
  lemma PushedAsReceived(matches: Matcher, steps: seq<Step>, p: Pair, e: Event)
    ensures var s := Run(matches, steps);
            var c := Clients(matches, s);
            && Subscriptions.Messages(c.log, p, e) <= Found(s.receipts, p, e) == Told(matches, steps, p, e)
            && (c.notifier.Idle? ==> Subscriptions.Messages(c.log, p, e) == Told(matches, steps, p, e))
  {
    var s := Run(matches, steps);
    HeardHolds(matches, steps);
    FoundIsTold(matches, steps, p, e);
    Subscriptions.InvHolds(matches, s.clients);
  }

  // ---------- where receipts come from ----------

  /** At step j the receipt came in, under its number. */
  ghost predicate CameIn(matches: Matcher, steps: seq<Step>, j: nat, t: nat, r: Receipt)
    requires j < |steps|
  {
    && steps[j].Receive? && |Run(matches, steps[..j]).receipts| == t
    && steps[j].origin == r.origin && steps[j].address == r.address && |steps[j].uploads| == |steps[j].e.tags|
    && RewrittenAs(steps[j].h, steps[j].e, steps[j].uploads, r.e) && r.e.kind != 5
    && (steps[j].accept <==> r.stage != Refused)
  }

  lemma CameInLater(matches: Matcher, steps: seq<Step>, j: nat, t: nat, r: Receipt, stage: Stage)
    requires steps != [] && j < |steps| - 1 && CameIn(matches, steps[..|steps| - 1], j, t, r)
    requires r.stage == Refused <==> stage == Refused
    ensures CameIn(matches, steps, j, t, r.(stage := stage))
  {
    assert steps[..|steps| - 1][..j] == steps[..j];
  }

  /** A refused receipt stays refused, and no other becomes so. */
  lemma RefusalStays(matches: Matcher, s: State, step: Step, t: nat)
    requires t < |s.receipts|
    ensures var r, s' := s.receipts[t], Next(matches, s, step);
            && t < |s'.receipts| && s'.receipts[t] == r.(stage := s'.receipts[t].stage)
            && (s'.receipts[t].stage == Refused <==> r.stage == Refused)
  {
    match step
    case Receive(_, _, _, _, _, _, _) =>
    case Insert(_, _) =>
    case Finish(_, _) =>
    case Notify(_) =>
    case Delete(_, _, _) =>
    case Purge(_, _) =>
    case Client(_) => assert Next(matches, s, step).receipts == s.receipts;
  }

  /** Every receipt came in with a message, is what the EVENT branch makes of it, and is
      refused, for good, exactly when the relay did not accept it. */
  lemma {:induction false} ReceiptsCameIn(matches: Matcher, steps: seq<Step>, t: nat) returns (j: nat)
    requires t < |Run(matches, steps).receipts|
    ensures j < |steps| && CameIn(matches, steps, j, t, Run(matches, steps).receipts[t])
  {
    var n := |steps| - 1;
    var s := Run(matches, steps[..n]);
    if t < |s.receipts| {
      j := ReceiptsCameIn(matches, steps[..n], t);
      RefusalStays(matches, s, steps[n], t);
      CameInLater(matches, steps, j, t, s.receipts[t], Run(matches, steps).receipts[t].stage);
    } else {
      j := n;
      ReceivedNow(matches, s, steps[n], t);
    }
  }

  lemma ReceivedNow(matches: Matcher, s: State, step: Step, t: nat)
    requires |s.receipts| <= t < |Next(matches, s, step).receipts|
    ensures step.Receive? && t == |s.receipts| && |step.uploads| == |step.e.tags|
    ensures var r := Next(matches, s, step).receipts[t];
            && step.origin == r.origin && step.address == r.address
            && RewrittenAs(step.h, step.e, step.uploads, r.e) && r.e.kind != 5
            && (step.accept <==> r.stage != Refused)
  {
    if step.Receive? {
      RewrittenIsAs(step.h, step.e, step.uploads);
      RewrittenIsConsistent(step.h, step.e, step.uploads);
    }
  }

  ghost predicate NoneSkipped(s: State)
  {
    forall i :: 0 <= i < |s.receipts| && s.receipts[i].origin.OwnPort? ==> !s.receipts[i].stage.Silent?
  }

  /** And no new event is passed over: on its own port, a receipt that has come to its end was
      heard unless it was refused, a duplicate or a failure. */
  lemma {:induction false} OwnPortIsHeard(matches: Matcher, steps: seq<Step>)
    ensures NoneSkipped(Run(matches, steps))
  {
    if steps != [] {
      OwnPortIsHeard(matches, steps[..|steps| - 1]);
      var s, step := Run(matches, steps[..|steps| - 1]), steps[|steps| - 1];
      assert step.Delete? || step.Purge? || step.Client? ==> Next(matches, s, step).receipts == s.receipts;
    }
  }

  lemma SilentNow(matches: Matcher, s: State, step: Step, t: nat)
    requires t < |Next(matches, s, step).receipts|
    requires var r' := Next(matches, s, step).receipts[t]; r'.origin.ThroughHub? && r'.stage.Silent?
    ensures || step == Finish(t, false)
            || (t < |s.receipts| && s.receipts[t].origin.ThroughHub? && s.receipts[t].stage.Silent?)
  {
    match step
    case Receive(_, _, _, _, _, _, _) =>
    case Insert(_, _) =>
    case Finish(_, _) =>
    case Notify(_) =>
    case Delete(_, _, _) =>
    case Purge(_, _) =>
    case Client(_) => assert Next(matches, s, step).receipts == s.receipts;
  }

  /** On the hub a new event is passed over only if the peer's reply got lost. */
  lemma {:induction false} HubIsHeard(matches: Matcher, steps: seq<Step>, t: nat)
    requires t < |Run(matches, steps).receipts|
    requires var r := Run(matches, steps).receipts[t]; r.origin.ThroughHub? && r.stage.Silent?
    ensures exists i :: 0 <= i < |steps| && steps[i] == Finish(t, false)
  {
    var n := |steps| - 1;
    if steps[n] != Finish(t, false) {
      SilentNow(matches, Run(matches, steps[..n]), steps[n], t);
      HubIsHeard(matches, steps[..n], t);
      var i :| 0 <= i < n && steps[..n][i] == Finish(t, false);
      assert steps[i] == Finish(t, false);
    }
  }

  // ---------- at most one message for an id that stays ----------

  /** A row with this id went in here. */
  predicate WentIn(r: Receipt, a: string, id: string)
  {
    r.address == a && r.e.id == id && !Ephemeral(r.e.kind) && PastInsert(r)
  }

  predicate PastInsert(r: Receipt)
  {
    r.stage.Inserted? || r.stage.Ready? || r.stage.Heard? || r.stage.Silent?
  }

  /** Both went in here. */
  predicate BothWentIn(receipts: seq<Receipt>, i: nat, j: nat, a: string, id: string)
  {
    i < |receipts| && j < |receipts| && WentIn(receipts[i], a, id) && WentIn(receipts[j], a, id)
  }

  ghost predicate OnceInv(s: State, a: string, id: string)
  {
    && (forall i, j :: BothWentIn(s.receipts, i, j, a, id) ==> i == j)
    && (forall i :: 0 <= i < |s.receipts| && WentIn(s.receipts[i], a, id) ==> HasId(Rows(s, a), id))
  }

  /** Step i leaves the table with a row of this id if it had one. */
  ghost predicate Keeps(matches: Matcher, steps: seq<Step>, i: nat, a: string, id: string)
    requires i < |steps|
  {
    HasId(Rows(Run(matches, steps[..i]), a), id) ==> HasId(Rows(Run(matches, steps[..i + 1]), a), id)
  }

  ghost predicate NeverLost(matches: Matcher, steps: seq<Step>, a: string, id: string)
  {
    forall i: nat :: i < |steps| ==> Keeps(matches, steps, i, a, id)
  }

  lemma NeverLostBefore(matches: Matcher, steps: seq<Step>, n: nat, a: string, id: string)
    requires n <= |steps| && NeverLost(matches, steps, a, id)
    ensures NeverLost(matches, steps[..n], a, id)
  {
    forall i: nat | i < n ensures Keeps(matches, steps[..n], i, a, id) {
      assert Keeps(matches, steps, i, a, id);
      assert steps[..n][..i] == steps[..i] && steps[..n][..i + 1] == steps[..i + 1];
    }
  }

  /** Every step but an INSERT leaves each receipt on its side of the INSERT. */
  lemma SidesKept(matches: Matcher, s: State, step: Step)
    requires !(step.Insert? && Stands(s, step.t, Saving))
    ensures var s' := Next(matches, s, step);
            && |s'.receipts| >= |s.receipts|
            && (forall i :: 0 <= i < |s.receipts| ==>
                  && s'.receipts[i].address == s.receipts[i].address && s'.receipts[i].e == s.receipts[i].e
                  && PastInsert(s'.receipts[i]) == PastInsert(s.receipts[i]))
            && (forall i :: |s.receipts| <= i < |s'.receipts| ==>
                  PastInsert(s'.receipts[i]) ==> Ephemeral(s'.receipts[i].e.kind))
  {
    if step.Receive? {
    } else if step.Finish? {
    } else if step.Notify? {
    } else {
      assert Next(matches, s, step).receipts == s.receipts;
    }
  }

  /** Only the INSERT lets a row in, and it does so only when the table has no row of the id. */
  lemma OnceStep(matches: Matcher, s: State, step: Step, a: string, id: string)
    requires ThreadInv(s) && OnceInv(s, a, id)
    requires var s' := Next(matches, s, step); HasId(Rows(s, a), id) ==> HasId(Rows(s', a), id)
    ensures OnceInv(Next(matches, s, step), a, id)
  {
    var s' := Next(matches, s, step);
    if step.Insert? && Stands(s, step.t, Saving) {
      SavedNow(s, step.t, step.ok);
      var t := step.t;
      assert forall i :: 0 <= i < |s.receipts| && i != t ==> s'.receipts[i] == s.receipts[i];
      assert forall i: nat, j: nat :: i != t && j != t && BothWentIn(s'.receipts, i, j, a, id) ==>
          BothWentIn(s.receipts, i, j, a, id);
    } else {
      SidesKept(matches, s, step);
      forall i: nat, j: nat | BothWentIn(s'.receipts, i, j, a, id) ensures i == j {
        assert BothWentIn(s.receipts, i, j, a, id);
      }
    }
  }

  lemma {:induction false} OnceHolds(matches: Matcher, steps: seq<Step>, a: string, id: string)
    requires NeverLost(matches, steps, a, id)
    ensures OnceInv(Run(matches, steps), a, id)
  {
    if steps != [] {
      var n := |steps| - 1;
      NeverLostBefore(matches, steps, n, a, id);
      OnceHolds(matches, steps[..n], a, id);
      ThreadsHold(matches, steps[..n]);
      assert Keeps(matches, steps, n, a, id) && steps[..n + 1] == steps;
      OnceStep(matches, Run(matches, steps[..n]), steps[n], a, id);
    }
  }

  lemma {:induction false} FoundOnce(receipts: seq<Receipt>, a: string, id: string, p: Pair, e: Event, e': Event)
    requires e.id == id && e'.id == id && e != e'
    requires forall i, j :: BothWentIn(receipts, i, j, a, id) ==> i == j
    requires forall r :: r in receipts && r.e.id == id && r.stage.Heard? ==> WentIn(r, a, id)
    ensures Found(receipts, p, e) + Found(receipts, p, e') <= 1
    ensures (forall r :: r in receipts ==> !WentIn(r, a, id)) ==> Found(receipts, p, e) + Found(receipts, p, e') == 0
  {
    if receipts != [] {
      var n := |receipts| - 1;
      var front := receipts[..n];
      assert forall i :: 0 <= i < n ==> front[i] == receipts[i];
      forall i: nat, j: nat | BothWentIn(front, i, j, a, id) ensures i == j {
        assert BothWentIn(receipts, i, j, a, id);
      }
      FoundOnce(front, a, id, p, e, e');
      assert receipts[n] in receipts;
      if WentIn(receipts[n], a, id) {
        forall r | r in front ensures !WentIn(r, a, id) {
          var i :| 0 <= i < n && front[i] == r;
          assert BothWentIn(receipts, i, n, a, id) ==> i == n;
        }
      }
    }
  }

  /** An id whose row the table never loses is pushed at most once to each pair, whatever
      arrives, at one table and not ephemeral: no second message of the same event, and none of
      another event under that id. */
  lemma AtMostOnePush(matches: Matcher, steps: seq<Step>, a: string, id: string, p: Pair, e: Event, e': Event)
    requires NeverLost(matches, steps, a, id)
    requires forall r :: r in Run(matches, steps).receipts && r.e.id == id && r.stage.Heard? ==>
               r.address == a && !Ephemeral(r.e.kind)
    requires e.id == id && e'.id == id
    ensures var log := Clients(matches, Run(matches, steps)).log;
            && Subscriptions.Messages(log, p, e) <= 1
            && (e != e' ==> Subscriptions.Messages(log, p, e) + Subscriptions.Messages(log, p, e') <= 1)
  {
    var other := if e != e' then e' else e.(kind := e.kind + 1);
    OnceHolds(matches, steps, a, id);
    FoundOnce(Run(matches, steps).receipts, a, id, p, e, other);
    PushedAsReceived(matches, steps, p, e);
    PushedAsReceived(matches, steps, p, other);
  }

  // ---------- what a message tells about the table ----------

  /** At step i the INSERT of receipt t put its event into a table that had no row of the id. */
  ghost predicate BroughtNewRow(matches: Matcher, steps: seq<Step>, i: nat, t: nat, r: Receipt)
    requires i < |steps|
  {
    && steps[i] == Insert(t, true)
    && !HasId(Rows(Run(matches, steps[..i]), r.address), r.e.id)
    && r.e in Rows(Run(matches, steps[..i + 1]), r.address)
  }

  ghost predicate WasNew(matches: Matcher, steps: seq<Step>, t: nat, r: Receipt)
  {
    exists i: nat :: i < |steps| && BroughtNewRow(matches, steps, i, t, r)
  }

  lemma WasNewLater(matches: Matcher, steps: seq<Step>, t: nat, r: Receipt, stage: Stage)
    requires steps != [] && WasNew(matches, steps[..|steps| - 1], t, r)
    ensures WasNew(matches, steps, t, r.(stage := stage))
  {
    var n := |steps| - 1;
    var i: nat :| i < n && BroughtNewRow(matches, steps[..n], i, t, r);
    assert steps[..n][..i] == steps[..i] && steps[..n][..i + 1] == steps[..i + 1];
    assert BroughtNewRow(matches, steps, i, t, r.(stage := stage));
  }

  lemma WasNewNow(matches: Matcher, steps: seq<Step>, t: nat)
    requires steps != [] && steps[|steps| - 1].Insert? && steps[|steps| - 1].t == t
    requires Stands(Run(matches, steps[..|steps| - 1]), t, Saving) && Stands(Run(matches, steps), t, Inserted)
    ensures WasNew(matches, steps, t, Run(matches, steps).receipts[t])
  {
    var n := |steps| - 1;
    ThreadsHold(matches, steps[..n]);
    SavedNow(Run(matches, steps[..n]), t, steps[n].ok);
    assert steps[..n + 1] == steps;
    assert BroughtNewRow(matches, steps, n, t, Run(matches, steps).receipts[t]);
  }

  /** What a receipt past the INSERT was one step earlier. */
  lemma PastBefore(matches: Matcher, s: State, step: Step, t: nat)
    requires t < |Next(matches, s, step).receipts| && PastInsert(Next(matches, s, step).receipts[t])
    requires !Ephemeral(Next(matches, s, step).receipts[t].e.kind)
    requires !(step.Insert? && step.t == t && Stands(s, t, Saving))
    ensures t < |s.receipts| && PastInsert(s.receipts[t])
    ensures var r' := Next(matches, s, step).receipts[t]; r' == s.receipts[t].(stage := r'.stage)
  {
    if step.Receive? {
    } else if step.Finish? {
    } else if step.Notify? {
    } else if step.Insert? {
    } else {
      assert Next(matches, s, step).receipts == s.receipts;
    }
  }

  /** Whoever is past the INSERT brought a new row. */
  lemma {:induction false} PastInsertWasNew(matches: Matcher, steps: seq<Step>, t: nat)
    requires t < |Run(matches, steps).receipts|
    requires var r := Run(matches, steps).receipts[t]; PastInsert(r) && !Ephemeral(r.e.kind)
    ensures WasNew(matches, steps, t, Run(matches, steps).receipts[t])
  {
    var n := |steps| - 1;
    var s := Run(matches, steps[..n]);
    if steps[n].Insert? && steps[n].t == t && Stands(s, t, Saving) {
      WasNewNow(matches, steps, t);
    } else {
      PastBefore(matches, s, steps[n], t);
      PastInsertWasNew(matches, steps[..n], t);
      WasNewLater(matches, steps, t, s.receipts[t], Run(matches, steps).receipts[t].stage);
    }
  }

  /** The whole story of a live message: it goes out for an event that is ephemeral, or that
      its own INSERT put into a table without a row of that id. */
  lemma HeardWasNew(matches: Matcher, steps: seq<Step>, p: Pair, e: Event)
    requires Subscriptions.Messages(Clients(matches, Run(matches, steps)).log, p, e) > 0
    ensures exists t: nat :: t < |Run(matches, steps).receipts| && Finds(Run(matches, steps).receipts[t], p, e)
              && (Ephemeral(e.kind) || WasNew(matches, steps, t, Run(matches, steps).receipts[t]))
  {
    var s := Run(matches, steps);
    PushedAsReceived(matches, steps, p, e);
    var t := FoundSomewhere(s.receipts, p, e);
    if !Ephemeral(e.kind) {
      PastInsertWasNew(matches, steps, t);
    }
  }

  lemma {:induction false} FoundSomewhere(receipts: seq<Receipt>, p: Pair, e: Event) returns (t: nat)
    requires Found(receipts, p, e) > 0
    ensures t < |receipts| && Finds(receipts[t], p, e)
  {
    t := |receipts| - 1;
    if !Finds(receipts[t], p, e) {
      t := FoundSomewhere(receipts[..t], p, e);
    }
  }

  // ---------- the tables ----------

  ghost predicate BeginsStorable(h: seq<StoreRuns.Step>)
  {
    forall i :: 0 <= i < |h| && h[i].Begin? ==> !Ephemeral(h[i].e.kind) && h[i].e.kind != KIND_DELETION
  }

  lemma StorableStep(matches: Matcher, s: State, step: Step, a: string)
    requires BeginsStorable(History(s, a))
    ensures BeginsStorable(History(Next(matches, s, step), a))
  {
    var s' := Next(matches, s, step);
    if step.Receive? && |step.uploads| == |step.e.tags| {
      RewrittenIsConsistent(step.h, step.e, step.uploads);
      assert History(s', a) == History(s, a) || (ActionOf(step.h, step.e, step.uploads).Save? && History(s', a) ==
        History(s, a) + [StoreRuns.Begin(|s.receipts|, Rewritten(step.h, step.e, step.uploads), step.clearOk)]);
    } else {
      assert History(s', a) == History(s, a) ||
             exists x: StoreRuns.Step :: !x.Begin? && History(s', a) == History(s, a) + [x];
    }
  }

  lemma {:induction false} StorableHolds(matches: Matcher, steps: seq<Step>, a: string)
    ensures BeginsStorable(History(Run(matches, steps), a))
  {
    if steps != [] {
      StorableHolds(matches, steps[..|steps| - 1], a);
      StorableStep(matches, Run(matches, steps[..|steps| - 1]), steps[|steps| - 1], a);
    }
  }

  /** Statement by statement, too, no table ever holds an ephemeral event or a deletion event,
      and its ids are unique. */
  lemma TablesStayRegular(matches: Matcher, steps: seq<Step>, a: string, r: Event)
    requires r in Rows(Run(matches, steps), a)
    ensures !(20000 <= r.kind < 30000) && r.kind != 5
    ensures UniqueIds(Rows(Run(matches, steps), a))
  {
    var h := History(Run(matches, steps), a);
    StorableHolds(matches, steps, a);
    StoreRuns.RowsWereSaved(h, r);
    StoreRuns.IdsStayUnique(h);
  }
}

/** The REQ, CLOSE, disconnect and notification goroutines of relayer/handlers.go and
    relayer/listener.go, interleaved. A step is one socket write, or what one goroutine does
    under listenersMutex up to its next socket write. */
module Subscriptions {
  import opened Prelude
  import opened Nostr
  import opened Listener

  /** What happened so far. Each REQ goroutine and each notification has a number of its own. */
  datatype Entry =
    | Stored(req: nat, ws: Socket, id: string, e: Event)
    | Eose(req: nat, ws: Socket, id: string)
    | Registration(req: nat, ws: Socket, id: string)
    | Close(ws: Socket, id: string)
    | Gone(ws: Socket)
    | Pushed(notice: nat, ws: Socket, id: string, e: Event)

  datatype Request = Request(ws: Socket, id: string, filters: seq<Filter>, answers: seq<Event>)

  datatype Thread =
    | Answering(rest: seq<Event>)            // still writing the stored events
    | Answered                               // EOSE written, not registered yet

  /** notifyListeners at work: it holds listenersMutex and has these pairs still to serve. */
  datatype Notifier = Idle | Notifying(notice: nat, todo: set<Pair>)

  datatype Notice = Notice(e: Event, targets: set<Pair>)

  /** requests and notices only grow: they are the history of who was started. */
  datatype State = State(listeners: Listeners, notifier: Notifier, threads: map<nat, Thread>,
                         requests: seq<Request>, notices: seq<Notice>, log: seq<Entry>)

  datatype Step =
    | StartReq(r: Request)
    | SendStored(req: nat)
    | SendEose(req: nat)
    | Register(req: nat)
    | Abort(req: nat)                        // a later filter does not decode
    | CloseId(ws: Socket, id: string)
    | Disconnect(ws: Socket)
    | StartNotify(e: Event)
    | Push(p: Pair)
    | EndNotify

  const EMPTY := State(map[], Idle, map[], [], [], [])

  function Logged(s: State, x: Entry): State
  {
    s.(log := s.log + [x])
  }

  /** One step; a step that is not possible, because its goroutine is elsewhere or
      listenersMutex is taken, changes nothing. */
  function Next(matches: Matcher, s: State, step: Step): State
  {
    match step
    case StartReq(r) =>
      s.(requests := s.requests + [r], threads := s.threads[|s.requests| := Answering(r.answers)])
    case SendStored(t) =>
      if t < |s.requests| && t in s.threads && s.threads[t].Answering? && s.threads[t].rest != [] then
        var r, rest := s.requests[t], s.threads[t].rest;
        Logged(s.(threads := s.threads[t := Answering(rest[1..])]), Stored(t, r.ws, r.id, rest[0]))
      else s
    case SendEose(t) =>
      if t < |s.requests| && t in s.threads && s.threads[t] == Answering([]) then
        Logged(s.(threads := s.threads[t := Answered]), Eose(t, s.requests[t].ws, s.requests[t].id))
      else s
    case Register(t) =>
      if t < |s.requests| && t in s.threads && s.threads[t].Answered? && s.notifier.Idle? then
        var r := s.requests[t];
        Logged(s.(threads := s.threads - {t}, listeners := WithListener(s.listeners, r.ws, r.id, r.filters)),
               Registration(t, r.ws, r.id))
      else s
    case Abort(t) =>
      if t in s.threads && s.threads[t].Answering? then s.(threads := s.threads - {t}) else s
    case CloseId(ws, id) =>
      if s.notifier.Idle? then Logged(s.(listeners := WithoutId(s.listeners, ws, id)), Close(ws, id)) else s
    case Disconnect(ws) =>
      if s.notifier.Idle? then Logged(s.(listeners := WithoutSocket(s.listeners, ws)), Gone(ws)) else s
    case StartNotify(e) =>
      if s.notifier.Idle? then
        var targets := Targets(s.listeners, matches, e);
        s.(notifier := Notifying(|s.notices|, targets), notices := s.notices + [Notice(e, targets)])
      else s
    case Push(p) =>
      if s.notifier.Notifying? && p in s.notifier.todo && s.notifier.notice < |s.notices| then
        var n := s.notifier.notice;
        Logged(s.(notifier := Notifying(n, s.notifier.todo - {p})), Pushed(n, p.ws, p.id, s.notices[n].e))
      else s
    case EndNotify =>
      if s.notifier.Notifying? && s.notifier.todo == {} then s.(notifier := Idle) else s
  }

  function Run(matches: Matcher, steps: seq<Step>): State
  {
    if steps == [] then EMPTY
    else Next(matches, Run(matches, steps[..|steps| - 1]), steps[|steps| - 1])
  }

  // ---------- reading the log ----------

  predicate Closes(x: Entry, p: Pair)
  {
    (x.Close? && Pair(x.ws, x.id) == p) || (x.Gone? && x.ws == p.ws)
  }

  predicate Opens(x: Entry, p: Pair)
  {
    x.Registration? && Pair(x.ws, x.id) == p
  }

  /** The pair's last word is a registration. */
  predicate Open(log: seq<Entry>, p: Pair)
  {
    log != [] &&
    var x := log[|log| - 1];
    Opens(x, p) || (!Closes(x, p) && Open(log[..|log| - 1], p))
  }

  /** The stored events one REQ has written, in order. */
  function StoredBy(log: seq<Entry>, t: nat): seq<Event>
  {
    if log == [] then []
    else
      var x := log[|log| - 1];
      StoredBy(log[..|log| - 1], t) + if x.Stored? && x.req == t then [x.e] else []
  }

  function Pushes(log: seq<Entry>, n: nat, p: Pair): nat
  {
    if log == [] then 0
    else
      var x := log[|log| - 1];
      Pushes(log[..|log| - 1], n, p) + if x.Pushed? && x.notice == n && Pair(x.ws, x.id) == p then 1 else 0
  }

  /** The live messages of one event to one pair. */
  function Messages(log: seq<Entry>, p: Pair, e: Event): nat
  {
    if log == [] then 0
    else
      var x := log[|log| - 1];
      Messages(log[..|log| - 1], p, e) + if x.Pushed? && Pair(x.ws, x.id) == p && x.e == e then 1 else 0
  }

  /** The notifications of the event that found the pair registered and matching. */
  function Hits(notices: seq<Notice>, p: Pair, e: Event): nat
  {
    if notices == [] then 0
    else
      var n := notices[|notices| - 1];
      Hits(notices[..|notices| - 1], p, e) + if n.e == e && p in n.targets then 1 else 0
  }

  predicate HasEose(log: seq<Entry>, t: nat)
  {
    exists x :: x in log && x.Eose? && x.req == t
  }

  /** What must have gone before an entry. */
  predicate Justified(log: seq<Entry>, x: Entry, requests: seq<Request>)
  {
    match x
    case Pushed(_, ws, id, _) => Open(log, Pair(ws, id))
    case Registration(t, ws, id) => Eose(t, ws, id) in log
    case Eose(t, ws, id) =>
      && t < |requests| && requests[t].ws == ws && requests[t].id == id
      && StoredBy(log, t) == requests[t].answers && !HasEose(log, t)
    case Stored(t, ws, id, _) =>
      t < |requests| && requests[t].ws == ws && requests[t].id == id && !HasEose(log, t)
    case _ => true
  }

  ghost predicate AllJustified(log: seq<Entry>, requests: seq<Request>)
  {
    forall i :: 0 <= i < |log| ==> Justified(log[..i], log[i], requests)
  }

  lemma AppendJustified(log: seq<Entry>, x: Entry, requests: seq<Request>)
    requires AllJustified(log, requests) && Justified(log, x, requests)
    ensures AllJustified(log + [x], requests)
  {
    forall i | 0 <= i < |log + [x]| ensures Justified((log + [x])[..i], (log + [x])[i], requests) {
      assert (log + [x])[..i] == log[..i];
      if i == |log| {
        assert log[..i] == log;
      }
    }
  }

  lemma AppendStored(log: seq<Entry>, x: Entry)
    ensures forall t :: StoredBy(log + [x], t) == StoredBy(log, t) + if x.Stored? && x.req == t then [x.e] else []
    ensures forall t :: HasEose(log + [x], t) <==> HasEose(log, t) || (x.Eose? && x.req == t)
  {
    assert (log + [x])[..|log|] == log;
  }

  lemma AppendPushes(log: seq<Entry>, x: Entry)
    ensures forall n, p :: Pushes(log + [x], n, p) ==
              Pushes(log, n, p) + if x.Pushed? && x.notice == n && Pair(x.ws, x.id) == p then 1 else 0
  {
    assert (log + [x])[..|log|] == log;
  }

  lemma AppendMessages(log: seq<Entry>, x: Entry)
    ensures forall p, e :: Messages(log + [x], p, e) ==
              Messages(log, p, e) + if x.Pushed? && Pair(x.ws, x.id) == p && x.e == e then 1 else 0
  {
    assert (log + [x])[..|log|] == log;
  }

  lemma AppendHits(notices: seq<Notice>, n: Notice)
    ensures forall p, e :: Hits(notices + [n], p, e) ==
              Hits(notices, p, e) + if n.e == e && p in n.targets then 1 else 0
  {
    assert (notices + [n])[..|notices|] == notices;
  }

  // ---------- the invariant ----------

  /** The registry is what the log says, whoever holds the mutex serves registered pairs. */
  ghost predicate RegistryInv(s: State)
  {
    && (forall p :: Open(s.log, p) <==> Has(s.listeners, p))
    && (s.notifier.Notifying? ==> forall p :: p in s.notifier.todo ==> Has(s.listeners, p))
  }

  /** Goroutine t has written as much of its answers as the log says. */
  predicate RequestOk(s: State, t: nat)
  {
    && (t in s.threads ==> t < |s.requests|)
    && (t in s.threads && s.threads[t].Answering? ==>
          StoredBy(s.log, t) + s.threads[t].rest == s.requests[t].answers && !HasEose(s.log, t))
    && (t in s.threads && s.threads[t].Answered? ==> Eose(t, s.requests[t].ws, s.requests[t].id) in s.log)
    && (t >= |s.requests| ==> StoredBy(s.log, t) == [] && !HasEose(s.log, t))
  }

  ghost predicate RequestInv(s: State)
  {
    forall t: nat :: RequestOk(s, t)
  }

  predicate Pending(s: State, n: nat, p: Pair)
  {
    s.notifier.Notifying? && s.notifier.notice == n && p in s.notifier.todo
  }

  ghost predicate NoticeInv(s: State)
  {
    && (s.notifier.Notifying? ==> s.notifier.notice < |s.notices|)
    && (forall n: nat, p :: n < |s.notices| ==>
          Pushes(s.log, n, p) + (if Pending(s, n, p) then 1 else 0) == if p in s.notices[n].targets then 1 else 0)
    && (forall n: nat, p :: n >= |s.notices| ==> Pushes(s.log, n, p) == 0)
    && (forall x :: x in s.log && x.Pushed? ==> x.notice < |s.notices| && s.notices[x.notice].e == x.e)
  }

  predicate Owed(s: State, p: Pair, e: Event)
  {
    && s.notifier.Notifying? && p in s.notifier.todo
    && s.notifier.notice < |s.notices| && s.notices[s.notifier.notice].e == e
  }

  ghost predicate MessageInv(s: State)
  {
    && (s.notifier.Notifying? ==> s.notifier.notice < |s.notices|)
    && forall p, e :: Messages(s.log, p, e) + (if Owed(s, p, e) then 1 else 0) == Hits(s.notices, p, e)
  }

  ghost predicate Inv(s: State)
  {
    RegistryInv(s) && RequestInv(s) && NoticeInv(s) && MessageInv(s) && AllJustified(s.log, s.requests)
  }

  /** What the registry's operations do to its pairs. */
  lemma PairsAfter(ls: Listeners, ws: Socket, id: string, filters: seq<Filter>)
    ensures forall p :: Has(WithListener(ls, ws, id, filters), p) <==> p == Pair(ws, id) || Has(ls, p)
    ensures forall p :: Has(WithoutId(ls, ws, id), p) <==> p != Pair(ws, id) && Has(ls, p)
    ensures forall p :: Has(WithoutSocket(ls, ws), p) <==> p.ws != ws && Has(ls, p)
  {
    forall p ensures Has(WithoutId(ls, ws, id), p) <==> p != Pair(ws, id) && Has(ls, p) {
      if ws in ls && p.ws == ws && p.id in ls[ws] && p.id != id {
        assert p.id in ls[ws] - {id};
      }
    }
  }

  /** An entry that says about each pair what happened to it in the registry keeps the two together. */
  lemma RegistryLogged(s: State, s': State, x: Entry)
    requires RegistryInv(s) && s'.log == s.log + [x]
    requires forall p :: Has(s'.listeners, p) <==> Opens(x, p) || (!Closes(x, p) && Has(s.listeners, p))
    requires s'.notifier.Notifying? ==>
      s.notifier.Notifying? && s'.notifier.todo <= s.notifier.todo && s'.listeners == s.listeners
    ensures RegistryInv(s')
  {
    assert s'.log[..|s.log|] == s.log;
  }

  /** Entries that say nothing about a pair, with the registry as it was. */
  lemma RegistryQuiet(s: State, s': State)
    requires RegistryInv(s) && s'.listeners == s.listeners
    requires s'.log == s.log || exists x: Entry :: s'.log == s.log + [x] && (x.Stored? || x.Eose? || x.Pushed?)
    requires s'.notifier.Notifying? ==>
      (forall p :: p in s'.notifier.todo ==> Has(s.listeners, p))
    ensures RegistryInv(s')
  {
    if s'.log != s.log {
      var x: Entry :| s'.log == s.log + [x] && (x.Stored? || x.Eose? || x.Pushed?);
      assert s'.log[..|s.log|] == s.log;
      assert forall p :: Open(s'.log, p) <==> Open(s.log, p);
    }
  }

  lemma RegistryRegister(s: State, s': State, t: nat, r: Request)
    requires RegistryInv(s) && s.notifier.Idle? && s'.notifier.Idle?
    requires s'.listeners == WithListener(s.listeners, r.ws, r.id, r.filters)
    requires s'.log == s.log + [Registration(t, r.ws, r.id)]
    ensures RegistryInv(s')
  {
    PairsAfter(s.listeners, r.ws, r.id, r.filters);
    RegistryLogged(s, s', Registration(t, r.ws, r.id));
  }

  lemma RegistryClose(s: State, s': State, ws: Socket, id: string)
    requires RegistryInv(s) && s.notifier.Idle? && s'.notifier.Idle?
    requires s'.listeners == WithoutId(s.listeners, ws, id) && s'.log == s.log + [Close(ws, id)]
    ensures RegistryInv(s')
  {
    PairsAfter(s.listeners, ws, id, []);
    RegistryLogged(s, s', Close(ws, id));
  }

  lemma RegistryGone(s: State, s': State, ws: Socket)
    requires RegistryInv(s) && s.notifier.Idle? && s'.notifier.Idle?
    requires s'.listeners == WithoutSocket(s.listeners, ws) && s'.log == s.log + [Gone(ws)]
    ensures RegistryInv(s')
  {
    PairsAfter(s.listeners, ws, "", []);
    RegistryLogged(s, s', Gone(ws));
  }

  lemma RegistryStep(matches: Matcher, s: State, step: Step)
    requires RegistryInv(s)
    ensures RegistryInv(Next(matches, s, step))
  {
    var s' := Next(matches, s, step);
    if s' != s {
      if step.Register? {
        RegistryRegister(s, s', step.req, s.requests[step.req]);
      } else if step.CloseId? {
        RegistryClose(s, s', step.ws, step.id);
      } else if step.Disconnect? {
        RegistryGone(s, s', step.ws);
      } else {
        RegistryQuiet(s, s');
      }
    }
  }

  /** An entry about another goroutine, or about none. */
  lemma RequestElsewhere(s: State, s': State, x: Entry, t: nat)
    requires RequestOk(s, t) && s'.requests == s.requests && s'.log == s.log + [x]
    requires (x.Stored? || x.Eose?) ==> x.req != t
    requires t in s'.threads ==> t in s.threads && s'.threads[t] == s.threads[t]
    ensures RequestOk(s', t)
  {
    AppendStored(s.log, x);
    assert StoredBy(s.log, t) + [] == StoredBy(s.log, t);
  }

  lemma RequestWrote(s: State, s': State, t: nat)
    requires RequestOk(s, t) && t in s.threads && s.threads[t].Answering? && s.threads[t].rest != []
    requires var r, rest := s.requests[t], s.threads[t].rest;
             && s'.requests == s.requests && s'.threads == s.threads[t := Answering(rest[1..])]
             && s'.log == s.log + [Stored(t, r.ws, r.id, rest[0])]
    ensures RequestOk(s', t)
  {
    var rest := s.threads[t].rest;
    AppendStored(s.log, Stored(t, s.requests[t].ws, s.requests[t].id, rest[0]));
    assert StoredBy(s.log, t) + [rest[0]] + rest[1..] == StoredBy(s.log, t) + rest;
  }

  lemma RequestSendStored(matches: Matcher, s: State, t: nat)
    requires RequestInv(s)
    requires t in s.threads && s.threads[t].Answering? && s.threads[t].rest != []
    ensures RequestInv(Next(matches, s, SendStored(t)))
  {
    var s' := Next(matches, s, SendStored(t));
    assert RequestOk(s, t);
    forall u: nat ensures RequestOk(s', u) {
      assert RequestOk(s, u);
      if u == t {
        RequestWrote(s, s', t);
      } else {
        RequestElsewhere(s, s', Stored(t, s.requests[t].ws, s.requests[t].id, s.threads[t].rest[0]), u);
      }
    }
  }

  lemma RequestSendEose(matches: Matcher, s: State, t: nat)
    requires RequestInv(s)
    requires t in s.threads && s.threads[t] == Answering([])
    ensures RequestInv(Next(matches, s, SendEose(t)))
  {
    var s' := Next(matches, s, SendEose(t));
    assert RequestOk(s, t);
    var x := Eose(t, s.requests[t].ws, s.requests[t].id);
    forall u: nat ensures RequestOk(s', u) {
      assert RequestOk(s, u);
      if u == t {
        assert s'.log[|s.log|] == x;
      } else {
        RequestElsewhere(s, s', x, u);
      }
    }
  }

  /** Other goroutines' entries do not matter, and goroutines may end. */
  lemma RequestFrame(s: State, s': State)
    requires RequestInv(s)
    requires s'.requests == s.requests
    requires forall t :: t in s'.threads ==> t in s.threads && s'.threads[t] == s.threads[t]
    requires s'.log == s.log || exists x: Entry :: s'.log == s.log + [x] && !x.Stored? && !x.Eose?
    ensures RequestInv(s')
  {
    forall t: nat ensures RequestOk(s', t) {
      assert RequestOk(s, t);
      if s'.log != s.log {
        var x: Entry :| s'.log == s.log + [x] && !x.Stored? && !x.Eose?;
        RequestElsewhere(s, s', x, t);
      }
    }
  }

  lemma RequestStart(matches: Matcher, s: State, r: Request)
    requires RequestInv(s)
    ensures RequestInv(Next(matches, s, StartReq(r)))
  {
    var s' := Next(matches, s, StartReq(r));
    forall t: nat ensures RequestOk(s', t) {
      assert RequestOk(s, t);
      if t == |s.requests| {
        assert StoredBy(s.log, t) + r.answers == r.answers;
      }
    }
  }

  lemma RequestStep(matches: Matcher, s: State, step: Step)
    requires RequestInv(s)
    ensures RequestInv(Next(matches, s, step))
  {
    var s' := Next(matches, s, step);
    match step
    case StartReq(r) => RequestStart(matches, s, r);
    case SendStored(t) =>
      if s' != s {
        RequestSendStored(matches, s, t);
      }
    case SendEose(t) =>
      if s' != s {
        RequestSendEose(matches, s, t);
      }
    case _ => RequestFrame(s, s');
  }

  lemma NoticePush(matches: Matcher, s: State, p: Pair)
    requires NoticeInv(s)
    requires s.notifier.Notifying? && p in s.notifier.todo
    ensures NoticeInv(Next(matches, s, Push(p)))
  {
    var s' := Next(matches, s, Push(p));
    var n := s.notifier.notice;
    var x := Pushed(n, p.ws, p.id, s.notices[n].e);
    assert s'.log == s.log + [x];
    AppendPushes(s.log, x);
    forall m, q ensures Pending(s', m, q) <==> Pending(s, m, q) && !(m == n && q == p) {
    }
  }

  /** Entries that push nothing do not matter, and a notifier that is done can go. */
  lemma NoticeFrame(s: State, s': State)
    requires NoticeInv(s)
    requires s'.notices == s.notices
    requires s'.notifier == s.notifier || (s'.notifier.Idle? && s.notifier.Notifying? && s.notifier.todo == {})
    requires s'.log == s.log || exists x: Entry :: s'.log == s.log + [x] && !x.Pushed?
    ensures NoticeInv(s')
  {
    if s'.log != s.log {
      var x :| s'.log == s.log + [x] && !x.Pushed?;
      AppendPushes(s.log, x);
    }
  }

  lemma NoticeStep(matches: Matcher, s: State, step: Step)
    requires NoticeInv(s)
    ensures NoticeInv(Next(matches, s, step))
  {
    var s' := Next(matches, s, step);
    if step.Push? {
      if s' != s {
        NoticePush(matches, s, step.p);
      }
    } else if !step.StartNotify? {
      NoticeFrame(s, s');
    }
  }

  /** Starting a notification owes one message to each pair it found, */
  lemma MessageNotify(s: State, s': State, n: Notice)
    requires MessageInv(s) && s.notifier.Idle?
    requires s'.log == s.log && s'.notices == s.notices + [n] && s'.notifier == Notifying(|s.notices|, n.targets)
    ensures MessageInv(s')
  {
    AppendHits(s.notices, n);
    assert s'.notices[|s.notices|] == n;
  }

  /** a write pays one, */
  lemma MessagePush(s: State, s': State, p: Pair)
    requires MessageInv(s) && s.notifier.Notifying? && p in s.notifier.todo && s.notifier.notice < |s.notices|
    requires s'.notices == s.notices && s'.notifier == s.notifier.(todo := s.notifier.todo - {p})
    requires s'.log == s.log + [Pushed(s.notifier.notice, p.ws, p.id, s.notices[s.notifier.notice].e)]
    ensures MessageInv(s')
  {
    var x := s'.log[|s.log|];
    AppendMessages(s.log, x);
    forall q, e ensures Owed(s', q, e) <==> Owed(s, q, e) && !(q == p && e == x.e) {
    }
  }

  /** and every other step changes neither. */
  lemma MessageFrame(s: State, s': State)
    requires MessageInv(s) && s'.notices == s.notices
    requires s'.notifier == s.notifier || (s'.notifier.Idle? && s.notifier.Notifying? && s.notifier.todo == {})
    requires s'.log == s.log || exists x: Entry :: s'.log == s.log + [x] && !x.Pushed?
    ensures MessageInv(s')
  {
    if s'.log != s.log {
      var x :| s'.log == s.log + [x] && !x.Pushed?;
      AppendMessages(s.log, x);
    }
    assert forall p, e :: Owed(s', p, e) <==> Owed(s, p, e);
  }

  lemma MessageStep(matches: Matcher, s: State, step: Step)
    requires MessageInv(s)
    ensures MessageInv(Next(matches, s, step))
  {
    var s' := Next(matches, s, step);
    if step.StartNotify? && s.notifier.Idle? {
      MessageNotify(s, s', Notice(step.e, Targets(s.listeners, matches, step.e)));
    } else if step.Push? && s' != s {
      MessagePush(s, s', step.p);
    } else {
      MessageFrame(s, s');
    }
  }

  lemma JustifiedStep(matches: Matcher, s: State, step: Step)
    requires Inv(s)
    ensures var s' := Next(matches, s, step); AllJustified(s'.log, s'.requests)
  {
    var s' := Next(matches, s, step);
    if s'.log != s.log {
      var x := s'.log[|s.log|];
      assert s'.log == s.log + [x];
      if step.SendStored? || step.SendEose? || step.Register? {
        assert RequestOk(s, step.req);
      }
      assert Justified(s.log, x, s.requests);
      AppendJustified(s.log, x, s.requests);
    } else {
      forall i | 0 <= i < |s.log| ensures Justified(s.log[..i], s.log[i], s'.requests) {
        assert Justified(s.log[..i], s.log[i], s.requests);
      }
    }
  }

  lemma {:induction false} InvHolds(matches: Matcher, steps: seq<Step>)
    ensures Inv(Run(matches, steps))
  {
    if steps != [] {
      var s, step := Run(matches, steps[..|steps| - 1]), steps[|steps| - 1];
      InvHolds(matches, steps[..|steps| - 1]);
      RegistryStep(matches, s, step);
      RequestStep(matches, s, step);
      NoticeStep(matches, s, step);
      MessageStep(matches, s, step);
      JustifiedStep(matches, s, step);
    }
  }

  // ---------- which filters a pair is served by ----------

  /** The REQ whose registration is the pair's last word. */
  function Holder(log: seq<Entry>, p: Pair): Option<nat>
  {
    if log == [] then None
    else
      var x := log[|log| - 1];
      if Opens(x, p) then Some(x.req) else if Closes(x, p) then None else Holder(log[..|log| - 1], p)
  }

  /** The registered pairs are those with a holder, and each has its holder's filters. */
  predicate HeldRightly(s: State, p: Pair)
  {
    && (Has(s.listeners, p) <==> Holder(s.log, p).Some?)
    && (Has(s.listeners, p) ==>
          && Holder(s.log, p).value < |s.requests|
          && s.listeners[p.ws][p.id] == s.requests[Holder(s.log, p).value].filters)
  }

  ghost predicate FilterInv(s: State)
  {
    forall p :: HeldRightly(s, p)
  }

  /** A live message goes to a pair whose holder's filters match. */
  predicate WellPushed(matches: Matcher, log: seq<Entry>, x: Entry, requests: seq<Request>)
  {
    x.Pushed? ==>
      var holder := Holder(log, Pair(x.ws, x.id));
      holder.Some? && holder.value < |requests| && matches(requests[holder.value].filters, x.e)
  }

  ghost predicate PushInv(matches: Matcher, s: State)
  {
    && (s.notifier.Notifying? ==>
          && s.notifier.notice < |s.notices|
          && forall p :: p in s.notifier.todo ==>
               Has(s.listeners, p) && matches(s.listeners[p.ws][p.id], s.notices[s.notifier.notice].e))
    && forall i :: 0 <= i < |s.log| ==> WellPushed(matches, s.log[..i], s.log[i], s.requests)
  }

  lemma FiltersAfter(ls: Listeners, ws: Socket, id: string, filters: seq<Filter>, p: Pair)
    ensures Has(WithListener(ls, ws, id, filters), p) ==>
      WithListener(ls, ws, id, filters)[p.ws][p.id] == if p == Pair(ws, id) then filters else ls[p.ws][p.id]
    ensures Has(WithoutId(ls, ws, id), p) ==> WithoutId(ls, ws, id)[p.ws][p.id] == ls[p.ws][p.id]
    ensures Has(WithoutSocket(ls, ws), p) ==> WithoutSocket(ls, ws)[p.ws][p.id] == ls[p.ws][p.id]
  {
    PairsAfter(ls, ws, id, filters);
  }

  lemma HolderAfter(log: seq<Entry>, x: Entry, p: Pair)
    ensures Holder(log + [x], p) == if Opens(x, p) then Some(x.req) else if Closes(x, p) then None else Holder(log, p)
  {
    assert (log + [x])[..|log|] == log;
  }

  lemma FilterStep(matches: Matcher, s: State, step: Step)
    requires FilterInv(s)
    ensures FilterInv(Next(matches, s, step))
  {
    var s' := Next(matches, s, step);
    if s'.log != s.log {
      var x := s'.log[|s.log|];
      assert s'.log == s.log + [x];
      forall p ensures HeldRightly(s', p) {
        assert HeldRightly(s, p);
        HolderAfter(s.log, x, p);
        match step
        case Register(t) =>
          PairsAfter(s.listeners, x.ws, x.id, s.requests[t].filters);
          FiltersAfter(s.listeners, x.ws, x.id, s.requests[t].filters, p);
        case CloseId(ws, id) =>
          PairsAfter(s.listeners, ws, id, []);
          FiltersAfter(s.listeners, ws, id, [], p);
        case Disconnect(ws) =>
          PairsAfter(s.listeners, ws, "", []);
          FiltersAfter(s.listeners, ws, "", [], p);
        case _ =>
      }
    } else {
      forall p ensures HeldRightly(s', p) {
        assert HeldRightly(s, p);
      }
    }
  }

  lemma PushStep(matches: Matcher, s: State, step: Step)
    requires FilterInv(s) && PushInv(matches, s)
    ensures PushInv(matches, Next(matches, s, step))
  {
    var s' := Next(matches, s, step);
    forall i | 0 <= i < |s'.log| ensures WellPushed(matches, s'.log[..i], s'.log[i], s'.requests) {
      if i < |s.log| {
        assert s'.log[..i] == s.log[..i] && WellPushed(matches, s.log[..i], s.log[i], s.requests);
      } else if step.Push? {
        assert s'.log[..i] == s.log && HeldRightly(s, step.p);
      }
    }
  }

  lemma {:induction false} FiltersHold(matches: Matcher, steps: seq<Step>)
    ensures FilterInv(Run(matches, steps)) && PushInv(matches, Run(matches, steps))
  {
    if steps != [] {
      var s, step := Run(matches, steps[..|steps| - 1]), steps[|steps| - 1];
      FiltersHold(matches, steps[..|steps| - 1]);
      FilterStep(matches, s, step);
      PushStep(matches, s, step);
    }
  }

  // ---------- what a client can rely on ----------

  /** Entry k registers the pair, and nothing after it is about the pair. */
  ghost predicate LastWord(log: seq<Entry>, p: Pair, k: nat)
  {
    k < |log| && Opens(log[k], p) && forall m :: k < m < |log| ==> !Opens(log[m], p) && !Closes(log[m], p)
  }

  lemma {:induction false} HolderIsLast(log: seq<Entry>, p: Pair) returns (k: nat)
    requires Holder(log, p).Some?
    ensures LastWord(log, p, k) && log[k].req == Holder(log, p).value
  {
    var n := |log| - 1;
    if Opens(log[n], p) {
      k := n;
    } else {
      k := HolderIsLast(log[..n], p);
      assert forall m :: k < m < n ==> log[m] == log[..n][m];
    }
  }

  lemma {:induction false} LastIsHolder(log: seq<Entry>, p: Pair, k: nat)
    requires LastWord(log, p, k)
    ensures Holder(log, p) == Some(log[k].req)
  {
    var n := |log| - 1;
    if k < n {
      assert !Opens(log[n], p) && !Closes(log[n], p);
      assert forall m :: k < m < n ==> log[m] == log[..n][m];
      LastIsHolder(log[..n], p, k);
    }
  }

  /** In every reachable state a pair whose last word is the registration of REQ t has exactly
      the filters of that REQ. */
  lemma RegisteredFilters(matches: Matcher, steps: seq<Step>, p: Pair, k: nat)
    requires LastWord(Run(matches, steps).log, p, k)
    ensures var s := Run(matches, steps);
            && Has(s.listeners, p) && s.log[k].req < |s.requests|
            && s.listeners[p.ws][p.id] == s.requests[s.log[k].req].filters
  {
    FiltersHold(matches, steps);
    LastIsHolder(Run(matches, steps).log, p, k);
    assert HeldRightly(Run(matches, steps), p);
  }

  /** The pair's last word is a registration, and the filters of its REQ match the event. */
  ghost predicate Listens(matches: Matcher, s: State, p: Pair, e: Event)
  {
    exists k: nat :: LastWord(s.log, p, k) && s.log[k].req < |s.requests|
                     && matches(s.requests[s.log[k].req].filters, e)
  }

  /** A notification begun in any reachable state goes to exactly the pairs that listen. */
  lemma TargetsListen(matches: Matcher, steps: seq<Step>, p: Pair, e: Event)
    ensures p in Targets(Run(matches, steps).listeners, matches, e) <==> Listens(matches, Run(matches, steps), p, e)
  {
    var s := Run(matches, steps);
    FiltersHold(matches, steps);
    assert HeldRightly(s, p);
    if Has(s.listeners, p) {
      var k := HolderIsLast(s.log, p);
    }
    if k: nat :| LastWord(s.log, p, k) && s.log[k].req < |s.requests| && matches(s.requests[s.log[k].req].filters, e) {
      LastIsHolder(s.log, p, k);
    }
  }

  lemma {:induction false} OpenSince(log: seq<Entry>, p: Pair) returns (k: nat)
    requires Open(log, p)
    ensures k < |log| && Opens(log[k], p)
    ensures forall m :: k < m < |log| ==> !Closes(log[m], p) && !Opens(log[m], p)
  {
    var n := |log| - 1;
    if Opens(log[n], p) {
      k := n;
    } else {
      k := OpenSince(log[..n], p);
      assert forall m :: k < m < n ==> log[m] == log[..n][m];
    }
  }

  /** Entry k is the pair's last word, and a registration. */
  ghost predicate OpenFrom(log: seq<Entry>, p: Pair, k: nat)
  {
    k < |log| && Opens(log[k], p) && forall m :: k < m < |log| ==> !Closes(log[m], p)
  }

  lemma {:induction false} OpenIsLast(log: seq<Entry>, p: Pair)
    ensures Open(log, p) <==> exists k :: OpenFrom(log, p, k)
  {
    if Open(log, p) {
      var k := OpenSince(log, p);
      assert OpenFrom(log, p, k);
    }
    if k: nat :| OpenFrom(log, p, k) {
      OpenUntil(log, p, k, |log|);
      assert log[..|log|] == log;
    }
  }

  lemma {:induction false} OpenUntil(log: seq<Entry>, p: Pair, k: nat, n: nat)
    requires OpenFrom(log, p, k) && k < n <= |log|
    ensures Open(log[..n], p)
  {
    assert log[..n][..n - 1] == log[..n - 1];
    if n > k + 1 {
      OpenUntil(log, p, k, n - 1);
    }
  }

  /** In every reachable state a pair is registered exactly when some registration of it has
      been followed by no CLOSE of the pair and no disconnect of its socket. */
  lemma RegisteredIsOpen(matches: Matcher, steps: seq<Step>, p: Pair)
    ensures var s := Run(matches, steps); Has(s.listeners, p) <==> exists k :: OpenFrom(s.log, p, k)
  {
    var s := Run(matches, steps);
    InvHolds(matches, steps);
    OpenIsLast(s.log, p);
    assert Open(s.log, p) <==> Has(s.listeners, p);
  }

  /** So a subscription outlives its client exactly when a REQ registers after the disconnect
      and no CLOSE of it follows: i is the last disconnect of the socket. */
  lemma OutlivesClient(matches: Matcher, steps: seq<Step>, p: Pair, i: nat)
    requires var log := Run(matches, steps).log;
             i < |log| && log[i] == Gone(p.ws) && forall m :: i < m < |log| ==> log[m] != Gone(p.ws)
    ensures var s := Run(matches, steps);
            Has(s.listeners, p) <==>
            exists k: nat :: i < k < |s.log| && Opens(s.log[k], p)
                             && forall m :: k < m < |s.log| ==> s.log[m] != Close(p.ws, p.id)
  {
    var log := Run(matches, steps).log;
    RegisteredIsOpen(matches, steps, p);
    if k: nat :| OpenFrom(log, p, k) {
      assert Closes(log[i], p);
      assert i < k && forall m :: k < m < |log| ==> log[m] != Close(p.ws, p.id);
    }
    if k: nat :| i < k < |log| && Opens(log[k], p) && forall m :: k < m < |log| ==> log[m] != Close(p.ws, p.id) {
      assert OpenFrom(log, p, k);
    }
  }

  /** A live EVENT for (socket, id) comes after a registration of that pair with no CLOSE of it,
      no disconnect and no other registration in between, and that registration after its own
      REQ's EOSE; and the filters of that REQ match the event. */
  lemma LiveNeedsOpenSubscription(matches: Matcher, steps: seq<Step>, i: nat)
    requires i < |Run(matches, steps).log| && Run(matches, steps).log[i].Pushed?
    ensures var s := Run(matches, steps);
            var log, p := s.log, Pair(s.log[i].ws, s.log[i].id);
            exists j: nat, k: nat ::
              && j < k < i && log[j].Eose? && log[k] == Registration(log[j].req, p.ws, p.id)
              && log[j] == Eose(log[j].req, p.ws, p.id)
              && (forall m :: k < m < i ==> !Closes(log[m], p) && !Opens(log[m], p))
              && log[k].req < |s.requests| && matches(s.requests[log[k].req].filters, log[i].e)
  {
    var s := Run(matches, steps);
    var log := s.log;
    InvHolds(matches, steps);
    FiltersHold(matches, steps);
    var p := Pair(log[i].ws, log[i].id);
    assert Justified(log[..i], log[i], s.requests) && WellPushed(matches, log[..i], log[i], s.requests);
    var k := HolderIsLast(log[..i], p);
    assert log[..i][k] == log[k] && Justified(log[..k], log[k], s.requests);
    var eose := Eose(log[k].req, p.ws, p.id);
    assert eose in log[..k];
    var j :| 0 <= j < k && log[..k][j] == eose;
    assert forall m :: k < m < i ==> log[..i][m] == log[m];
    assert log[j] == eose;
  }

  /** When a REQ's EOSE goes out, exactly its answers have gone out before, in order, on the
      same socket under the same id. */
  lemma EoseFollowsAnswers(matches: Matcher, steps: seq<Step>, i: nat)
    requires i < |Run(matches, steps).log| && Run(matches, steps).log[i].Eose?
    ensures var s := Run(matches, steps);
            var t := s.log[i].req;
            && t < |s.requests| && s.log[i] == Eose(t, s.requests[t].ws, s.requests[t].id)
            && StoredBy(s.log[..i], t) == s.requests[t].answers
  {
    var s := Run(matches, steps);
    InvHolds(matches, steps);
    assert Justified(s.log[..i], s.log[i], s.requests);
  }

  /** After its EOSE a REQ sends no stored event and no second EOSE. */
  lemma NothingAfterEose(matches: Matcher, steps: seq<Step>, i: nat, j: nat)
    requires var log := Run(matches, steps).log; i < j < |log| && log[i].Eose?
    ensures var log := Run(matches, steps).log;
            (log[j].Stored? || log[j].Eose?) ==> log[j].req != log[i].req
  {
    var s := Run(matches, steps);
    InvHolds(matches, steps);
    assert Justified(s.log[..j], s.log[j], s.requests);
    assert s.log[..j][i] == s.log[i] && s.log[i] in s.log[..j];
  }

  /** Each notification that is over has written one message for each pair that matched when
      it began, with its own event, and none for any other pair. */
  lemma PushedExactlyOnce(matches: Matcher, steps: seq<Step>, n: nat, p: Pair)
    requires n < |Run(matches, steps).notices|
    requires !Pending(Run(matches, steps), n, p)
    ensures var s := Run(matches, steps);
            Pushes(s.log, n, p) == if p in s.notices[n].targets then 1 else 0
  {
    InvHolds(matches, steps);
  }

  /** Over a whole run: while nobody is writing, the messages of an event to a pair are as
      many as the notifications of that event that found the pair registered and matching. */
  lemma TotalsAgree(matches: Matcher, steps: seq<Step>, p: Pair, e: Event)
    requires Run(matches, steps).notifier.Idle?
    ensures var s := Run(matches, steps); Messages(s.log, p, e) == Hits(s.notices, p, e)
  {
    InvHolds(matches, steps);
  }

  /** A subscription can outlive its client: a REQ still under way registers after the
      disconnect has removed the socket, and is then served. */
  lemma RegistrationAfterDisconnect(matches: Matcher, r: Request)
    requires r.answers == []
    ensures var s := Run(matches, [StartReq(r), SendEose(0), Disconnect(r.ws), Register(0)]);
            Has(s.listeners, Pair(r.ws, r.id))
  {
    var steps := [StartReq(r), SendEose(0), Disconnect(r.ws), Register(0)];
    var s1 := Next(matches, EMPTY, steps[0]);
    var s2 := Next(matches, s1, steps[1]);
    var s3 := Next(matches, s2, steps[2]);
    RunSnoc(matches, [], steps[0]);
    RunSnoc(matches, [steps[0]], steps[1]);
    RunSnoc(matches, [steps[0], steps[1]], steps[2]);
    RunSnoc(matches, [steps[0], steps[1], steps[2]], steps[3]);
    assert s1.threads[0] == Answering([]) && s1.requests == [r];
    assert s2.threads[0] == Answered;
    assert s3.threads[0] == Answered && s3.requests == [r];
    PairsAfter(s3.listeners, r.ws, r.id, r.filters);
    assert [] + [steps[0]] == [steps[0]];
    assert [steps[0]] + [steps[1]] == [steps[0], steps[1]];
    assert [steps[0], steps[1]] + [steps[2]] == [steps[0], steps[1], steps[2]];
    assert [steps[0], steps[1], steps[2]] + [steps[3]] == steps;
  }

  lemma RunSnoc(matches: Matcher, steps: seq<Step>, step: Step)
    ensures Run(matches, steps + [step]) == Next(matches, Run(matches, steps), step)
  {
    assert (steps + [step])[..|steps|] == steps;
  }
}

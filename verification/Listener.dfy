/** relayer/listener.go: the subscription registry, a map of maps, and its operations. */
module Listener {
  import opened Prelude
  import opened Nostr

  type Socket = nat
  type Listeners = map<Socket, map<string, seq<Filter>>>

  /** A live EVENT message on a socket. */
  datatype Live = Live(ws: Socket, id: string, e: Event)

  // ---------- the operations on the map of maps ----------

  function WithListener(ls: Listeners, ws: Socket, id: string, filters: seq<Filter>): Listeners
  {
    var subs := if ws in ls then ls[ws] else map[];
    ls[ws := subs[id := filters]]
  }

  function WithoutId(ls: Listeners, ws: Socket, id: string): Listeners
  {
    if ws !in ls then ls
    else
      var subs := ls[ws] - {id};
      if |subs| == 0 then ls - {ws} else ls[ws := subs]
  }

  function WithoutSocket(ls: Listeners, ws: Socket): Listeners
  {
    if ws in ls then ls - {ws} else ls
  }

  // ---------- the flat map it stands for ----------

  datatype Pair = Pair(ws: Socket, id: string)

  type Flat = map<Pair, seq<Filter>>

  predicate Has(ls: Listeners, p: Pair)
  {
    p.ws in ls && p.id in ls[p.ws]
  }

  ghost predicate NoEmptySocket(ls: Listeners)
  {
    forall ws :: ws in ls ==> ls[ws] != map[]
  }

  /** The same subscriptions with the same filters, and no socket without subscriptions. */
  ghost predicate Refines(ls: Listeners, flat: Flat)
  {
    && NoEmptySocket(ls)
    && (forall p :: p in flat <==> Has(ls, p))
    && (forall p :: p in flat ==> flat[p] == ls[p.ws][p.id])
  }

  function FlatWithoutSocket(flat: Flat, ws: Socket): Flat
  {
    map p | p in flat && p.ws != ws :: flat[p]
  }

  /** Registering is one update of the flat map. */
  lemma WithListenerRefines(ls: Listeners, flat: Flat, ws: Socket, id: string, filters: seq<Filter>)
    requires Refines(ls, flat)
    ensures Refines(WithListener(ls, ws, id, filters), flat[Pair(ws, id) := filters])
  {
    assert id in WithListener(ls, ws, id, filters)[ws];
  }

  /** CLOSE removes the one pair, and the socket's entry with its last pair. */
  lemma WithoutIdRefines(ls: Listeners, flat: Flat, ws: Socket, id: string)
    requires Refines(ls, flat)
    ensures Refines(WithoutId(ls, ws, id), flat - {Pair(ws, id)})
  {
    var after := WithoutId(ls, ws, id);
    forall p ensures p in flat - {Pair(ws, id)} <==> Has(after, p) {
      assert p != Pair(ws, id) <==> p.ws != ws || p.id != id;
      if ws in ls && p.ws == ws && p.id in ls[ws] && p.id != id {
        assert p.id in ls[ws] - {id};
      }
    }
  }

  /** A disconnect removes every pair of the socket and no other. */
  lemma WithoutSocketRefines(ls: Listeners, flat: Flat, ws: Socket)
    requires Refines(ls, flat)
    ensures Refines(WithoutSocket(ls, ws), FlatWithoutSocket(flat, ws))
  {
  }

  // ---------- notification ----------

  /** go-nostr's Filters.Match, whatever it computes. */
  type Matcher = (seq<Filter>, Event) -> bool

  /** The subscriptions an event goes to. */
  function Targets(ls: Listeners, matches: Matcher, e: Event): set<Pair>
  {
    set ws, id | ws in ls && id in ls[ws] && matches(ls[ws][id], e) :: Pair(ws, id)
  }

  /** One message to each target, and no other message. */
  ghost predicate OneEach(sent: seq<Live>, targets: set<Pair>, e: Event)
  {
    && (forall i :: 0 <= i < |sent| ==> sent[i].e == e && Pair(sent[i].ws, sent[i].id) in targets)
    && (forall i, j :: 0 <= i < j < |sent| ==> sent[i] != sent[j])
    && (forall p :: p in targets ==> Live(p.ws, p.id, e) in sent)
  }

  /** Therefore as many messages as targets. */
  lemma {:induction false} OneEachCount(sent: seq<Live>, targets: set<Pair>, e: Event)
    requires OneEach(sent, targets, e)
    ensures |sent| == |targets|
  {
    if sent == [] {
      assert targets == {};
    } else {
      var p := Pair(sent[0].ws, sent[0].id);
      var rest := sent[1..];
      forall q | q in targets - {p} ensures Live(q.ws, q.id, e) in rest {
        assert Live(q.ws, q.id, e) in sent && Live(q.ws, q.id, e) != sent[0];
      }
      forall i | 0 <= i < |rest| ensures Pair(rest[i].ws, rest[i].id) in targets - {p} {
        assert sent[0] != sent[i + 1];
      }
      OneEachCount(rest, targets - {p}, e);
    }
  }

  // ---------- distinct filters ----------

  /** go-nostr's FilterEqual; the loops rely on it being an equivalence. */
  type Equal = (Filter, Filter) -> bool

  ghost predicate Equivalence(eq: Equal)
  {
    && (forall a :: eq(a, a))
    && (forall a, b :: eq(a, b) ==> eq(b, a))
    && (forall a, b, c :: eq(a, b) && eq(b, c) ==> eq(a, c))
  }

  ghost predicate NoTwoEqual(eq: Equal, fs: seq<Filter>)
  {
    forall i, j :: 0 <= i < j < |fs| ==> !eq(fs[i], fs[j])
  }

  ghost predicate Covers(eq: Equal, fs: seq<Filter>, f: Filter)
  {
    exists i :: 0 <= i < |fs| && eq(f, fs[i])
  }

  predicate Registered(ls: Listeners, f: Filter)
  {
    exists ws, id :: ws in ls && id in ls[ws] && f in ls[ws][id]
  }

  /** One registered filter of each equivalence class. */
  ghost predicate Representatives(eq: Equal, ls: Listeners, fs: seq<Filter>)
  {
    && NoTwoEqual(eq, fs)
    && (forall f :: f in fs ==> Registered(ls, f))
    && (forall f :: Registered(ls, f) ==> Covers(eq, fs, f))
  }

  lemma {:induction false} CoveredIsNoLonger(eq: Equal, a: seq<Filter>, b: seq<Filter>)
    requires Equivalence(eq) && NoTwoEqual(eq, a)
    requires forall i :: 0 <= i < |a| ==> Covers(eq, b, a[i])
    ensures |a| <= |b|
  {
    if a != [] {
      assert Covers(eq, b, a[0]);
      var j :| 0 <= j < |b| && eq(a[0], b[j]);
      var rest := b[..j] + b[j + 1..];
      forall i | 0 <= i < |a[1..]| ensures Covers(eq, rest, a[1..][i]) {
        assert Covers(eq, b, a[i + 1]);
        var m :| 0 <= m < |b| && eq(a[i + 1], b[m]);
        assert eq(b[m], a[i + 1]);
        assert !eq(a[0], a[i + 1]);
        assert m != j;
        assert rest[if m < j then m else m - 1] == b[m];
      }
      CoveredIsNoLonger(eq, a[1..], rest);
    }
  }

  /** How many representatives there are depends on the registry alone, not on the order in
      which the two maps are visited: it is the number of equivalence classes. */
  lemma RepresentativesAgree(eq: Equal, ls: Listeners, a: seq<Filter>, b: seq<Filter>)
    requires Equivalence(eq) && Representatives(eq, ls, a) && Representatives(eq, ls, b)
    ensures |a| == |b|
    ensures forall f :: f in a ==> Covers(eq, b, f)
  {
    CoveredIsNoLonger(eq, a, b);
    CoveredIsNoLonger(eq, b, a);
  }

  // ---------- the registry ----------

  class Registry {
    var listeners: Listeners
    /** Live messages written so far, over all sockets. */
    var written: seq<Live>

    ghost predicate Valid()
      reads this
    {
      NoEmptySocket(listeners)
    }

    constructor ()
      ensures Valid() && listeners == map[] && written == []
    {
      listeners, written := map[], [];
    }

    method SetListener(id: string, ws: Socket, filters: seq<Filter>)
      requires Valid()
      modifies this`listeners
      ensures Valid() && listeners == WithListener(old(listeners), ws, id, filters)
    {
      if ws !in listeners {
        listeners := listeners[ws := map[]];
      }
      listeners := listeners[ws := listeners[ws][id := filters]];
      assert id in listeners[ws];
    }

    method RemoveListenerId(ws: Socket, id: string)
      requires Valid()
      modifies this`listeners
      ensures Valid() && listeners == WithoutId(old(listeners), ws, id)
    {
      if ws in listeners {
        listeners := listeners[ws := listeners[ws] - {id}];
        if |listeners[ws]| == 0 {
          listeners := listeners - {ws};
        }
      }
      assert listeners == WithoutId(old(listeners), ws, id);
    }

    method RemoveListener(ws: Socket)
      requires Valid()
      modifies this`listeners
      ensures Valid() && listeners == WithoutSocket(old(listeners), ws)
    {
      if ws in listeners {
        listeners := listeners - {ws};
      }
    }

    /** Both maps are visited in any order. */
    method NotifyListeners(matches: Matcher, e: Event) returns (sent: seq<Live>)
      modifies this`written
      ensures written == old(written) + sent
      ensures OneEach(sent, Targets(listeners, matches, e), e)
    {
      sent := [];
      var sockets := listeners.Keys;
      while sockets != {}
        invariant sockets <= listeners.Keys
        invariant written == old(written) + sent
        invariant OneEach(sent, set ws, id | ws in listeners && ws !in sockets && id in listeners[ws]
                                            && matches(listeners[ws][id], e) :: Pair(ws, id), e)
        decreases |sockets|
      {
        var ws :| ws in sockets;
        var more := NotifySocket(matches, e, ws);
        sockets := sockets - {ws};
        sent := sent + more;
      }
      assert Targets(listeners, matches, e) ==
        set ws, id | ws in listeners && ws !in sockets && id in listeners[ws] && matches(listeners[ws][id], e)
          :: Pair(ws, id);
    }

    method NotifySocket(matches: Matcher, e: Event, ws: Socket) returns (sent: seq<Live>)
      requires ws in listeners
      modifies this`written
      ensures written == old(written) + sent
      ensures OneEach(sent, set id | id in listeners[ws] && matches(listeners[ws][id], e) :: Pair(ws, id), e)
    {
      sent := [];
      var ids := listeners[ws].Keys;
      while ids != {}
        invariant ids <= listeners[ws].Keys
        invariant written == old(written) + sent
        invariant OneEach(sent,
          set id | id in listeners[ws] && id !in ids && matches(listeners[ws][id], e) :: Pair(ws, id), e)
        decreases |ids|
      {
        var id :| id in ids;
        ids := ids - {id};
        if !matches(listeners[ws][id], e) {
          continue;
        }
        written := written + [Live(ws, id, e)];
        sent := sent + [Live(ws, id, e)];
      }
    }

    /** The two loops over one listener's filters, with the jump past the append. */
    method AddDistinct(eq: Equal, found: seq<Filter>, filters: seq<Filter>) returns (respfilters: seq<Filter>)
      requires Equivalence(eq) && NoTwoEqual(eq, found)
      ensures found <= respfilters && NoTwoEqual(eq, respfilters)
      ensures forall f :: f in respfilters ==> f in found || f in filters
      ensures forall f :: f in filters ==> Covers(eq, respfilters, f)
    {
      respfilters := found;
      for i := 0 to |filters|
        invariant found <= respfilters && NoTwoEqual(eq, respfilters)
        invariant forall f :: f in respfilters ==> f in found || f in filters
        invariant forall f :: f in filters[..i] ==> Covers(eq, respfilters, f)
      {
        var listenerfilter := filters[i];
        var present := false;
        for j := 0 to |respfilters|
          invariant !present ==> forall k :: 0 <= k < j ==> !eq(listenerfilter, respfilters[k])
          invariant present ==> Covers(eq, respfilters, listenerfilter)
        {
          if eq(listenerfilter, respfilters[j]) {
            present := true;
            break;
          }
        }
        ghost var before := respfilters;
        if !present {
          respfilters := respfilters + [listenerfilter];
          assert respfilters[|before|] == listenerfilter;
        }
        forall f | f in filters[..i + 1] ensures Covers(eq, respfilters, f) {
          if f in filters[..i] {
            assert Covers(eq, before, f);
            var k :| 0 <= k < |before| && eq(f, before[k]);
            assert eq(f, respfilters[k]);
          }
        }
      }
      assert filters[..|filters|] == filters;
    }

    method AddSocket(eq: Equal, found: seq<Filter>, subs: map<string, seq<Filter>>) returns (respfilters: seq<Filter>)
      requires Equivalence(eq) && NoTwoEqual(eq, found)
      ensures found <= respfilters && NoTwoEqual(eq, respfilters)
      ensures forall f :: f in respfilters ==> f in found || exists id :: id in subs && f in subs[id]
      ensures forall id, f :: id in subs && f in subs[id] ==> Covers(eq, respfilters, f)
    {
      respfilters := found;
      var ids := subs.Keys;
      while ids != {}
        invariant ids <= subs.Keys
        invariant found <= respfilters && NoTwoEqual(eq, respfilters)
        invariant forall f :: f in respfilters ==> f in found || exists id :: id in subs && f in subs[id]
        invariant forall id, f :: id in subs && id !in ids && f in subs[id] ==> Covers(eq, respfilters, f)
        decreases |ids|
      {
        var id :| id in ids;
        ghost var before := respfilters;
        respfilters := AddDistinct(eq, respfilters, subs[id]);
        LongerCovers(eq, before, respfilters);
        ids := ids - {id};
      }
    }

    lemma LongerCovers(eq: Equal, a: seq<Filter>, b: seq<Filter>)
      requires a <= b
      ensures forall f :: Covers(eq, a, f) ==> Covers(eq, b, f)
    {
    }

    method GetListeningFilters(eq: Equal) returns (respfilters: seq<Filter>)
      requires Equivalence(eq)
      ensures Representatives(eq, listeners, respfilters)
    {
      respfilters := [];
      var sockets := listeners.Keys;
      while sockets != {}
        invariant sockets <= listeners.Keys
        invariant NoTwoEqual(eq, respfilters)
        invariant forall f :: f in respfilters ==> Registered(listeners, f)
        invariant forall ws, id, f ::
          ws in listeners && ws !in sockets && id in listeners[ws] && f in listeners[ws][id] ==>
                    Covers(eq, respfilters, f)
        decreases |sockets|
      {
        var ws :| ws in sockets;
        ghost var before := respfilters;
        respfilters := AddSocket(eq, respfilters, listeners[ws]);
        LongerCovers(eq, before, respfilters);
        sockets := sockets - {ws};
      }
    }
  }
}

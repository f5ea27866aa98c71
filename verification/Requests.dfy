/** The REQ branch of relayer/handlers.go on the hub: fetch from a peer (relayer/fetch-event.go),
    cut, verify and send the stored events of each filter, then EOSE, then register. */
module Requests {
  import opened Prelude
  import opened Nostr
  import opened SqlMeaning
  import opened PostgresQuery
  import opened PostgresStore
  import opened HashUtil
  import opened EventIdentity
  import opened Listener
  import opened Network

  datatype Wire = StoredEvent(id: string, e: Event) | EndOfStored(id: string) | Notice

  /** Whose peer is asked: the first author, else the first "p" value. */
  function AskedPubkey(f: Filter): string
  {
    if f.authors.Some? && |f.authors.value| != 0 then f.authors.value[0]
    else if "p" in f.tags && |f.tags["p"]| != 0 then f.tags["p"][0]
    else ""
  }

  /** The tags of a decoded event, each in an array of its own. */
  method LoadTags(tags: seq<Tag>) returns (a: seq<array<string>>)
    ensures fresh(a) && Distinct(a) && View(a) == tags
  {
    a := [];
    for i := 0 to |tags|
      invariant |a| == i && fresh(a) && Distinct(a)
      invariant forall j :: 0 <= j < i ==> a[j][..] == tags[j]
    {
      var tag := new string[|tags[i]|](k requires 0 <= k < |tags[i]| => tags[i][k]);
      assert tag[..] == tags[i];
      a := a + [tag];
    }
  }

  function AllDelivered(h: Hub, events: seq<Event>): seq<Event>
  {
    Map(e => Delivered(h, e), events)
  }

  predicate Deliverable(h: Hub, e: Event)
  {
    Examined(h, e) ==> !AnyPanics(h.crypto, e.content, e.tags)
  }

  predicate AllDeliverable(h: Hub, events: seq<Event>)
  {
    forall e :: e in events ==> Deliverable(h, e)
  }

  /** A possible answer to one filter: what the peer named for it finds, newest first and no more
      than the clamped limit; nothing when the call fails or the filter is refused. */
  ghost predicate AnswerTo(directory: map<string, PeerInfo>, tables: Snapshot, f: Filter,
                           callFails: bool, events: seq<Event>)
  {
    exists address :: MayAnswer(directory, AskedPubkey(f), address) &&
      if address in tables && !callFails && !Refused(f)
      then NewestOf(events, Matching(tables[address], f), ClampedLimit(f.limit))
      else events == []
  }

  /** FetchEvent and Ql's queryEvents, with the handler's own cut. */
  method FetchEvent(hub: PostgresBackend, peers: map<string, PostgresBackend>, f: Filter, n: nat, callFails: bool)
    returns (events: seq<Event>)
    requires hub.peers != map[] ==> n < |hub.peers|
    ensures AnswerTo(hub.peers, Tables(peers), f, callFails, events)
    ensures forall pubkey :: Names(f, pubkey) && pubkey in hub.peers && hub.peers[pubkey].address != ""
                             && hub.peers[pubkey].address in peers && !callFails && !Refused(f) ==>
              NewestOf(events, Matching(peers[hub.peers[pubkey].address].event, f),
                       if 1 <= f.limit <= 100 then f.limit else 100)
  {
    var address := hub.GetPeer(AskedPubkey(f), n);
    events := [];
    if address in peers && !callFails {
      var ok;
      ok, events := peers[address].QueryEvents(Some(f), false);
      if !Refused(f) {
        TruncationIsIdle(f, Matching(peers[address].event, f), events);
      }
      events := Truncated(f, events);
    }
  }

  method SendOne(h: Hub, event: Event) returns (panicked: bool, sent: Event)
    ensures panicked <==> !Deliverable(h, event)
    ensures !panicked ==> sent == Delivered(h, event)
  {
    var tags := LoadTags(event.tags);
    var id;
    panicked, id := DeliverEvent(h, event, tags);
    var now := Contents(tags);
    sent := event.(id := id, tags := now);
  }

  /** The loop over the events of one filter. */
  method SendStored(h: Hub, events: seq<Event>) returns (panicked: bool, out: seq<Event>)
    ensures panicked <==> !AllDeliverable(h, events)
    ensures !panicked ==> out == AllDelivered(h, events)
  {
    out, panicked := [], false;
    for i := 0 to |events|
      invariant forall j :: 0 <= j < i ==> Deliverable(h, events[j])
      invariant out == AllDelivered(h, events[..i])
    {
      var died, sent := SendOne(h, events[i]);
      if died {
        return true, out;
      }
      out := out + [sent];
      assert events[..i + 1] == events[..i] + [events[i]];
    }
    assert events[..|events|] == events;
  }

  function Wired(id: string, events: seq<Event>): seq<Wire>
  {
    Map(e => StoredEvent(id, e), events)
  }

  function AllWired(h: Hub, id: string, answers: seq<seq<Event>>): seq<Wire>
  {
    if answers == [] then []
    else AllWired(h, id, answers[..|answers| - 1]) + Wired(id, AllDelivered(h, answers[|answers| - 1]))
  }

  lemma WiredStep(h: Hub, id: string, answers: seq<seq<Event>>, events: seq<Event>)
    ensures AllWired(h, id, answers + [events]) == AllWired(h, id, answers) + Wired(id, AllDelivered(h, events))
  {
    assert (answers + [events])[..|answers|] == answers;
  }

  method AnswerFilter(h: Hub, hub: PostgresBackend, peers: map<string, PostgresBackend>, id: string,
                      f: Filter, n: nat, callFails: bool)
    returns (panicked: bool, out: seq<Wire>, ghost events: seq<Event>)
    requires hub.peers != map[] ==> n < |hub.peers|
    ensures AnswerTo(hub.peers, Tables(peers), f, callFails, events)
    ensures panicked <==> !AllDeliverable(h, events)
    ensures !panicked ==> out == Wired(id, AllDelivered(h, events))
  {
    var found := FetchEvent(hub, peers, f, n, callFails);
    events := found;
    var sent;
    panicked, sent := SendStored(h, found);
    out := Wired(id, sent);
  }

  /** An answer to each of the first filters, as many as there are answers. */
  ghost predicate Answers(directory: map<string, PeerInfo>, tables: Snapshot, filters: seq<Filter>,
                          callFails: seq<bool>, answers: seq<seq<Event>>)
    requires |callFails| == |filters|
  {
    |answers| <= |filters| &&
    forall k :: 0 <= k < |answers| ==> AnswerTo(directory, tables, filters[k], callFails[k], answers[k])
  }

  ghost predicate Survives(h: Hub, answers: seq<seq<Event>>)
  {
    forall k :: 0 <= k < |answers| ==> AllDeliverable(h, answers[k])
  }

  lemma OneMore(h: Hub, directory: map<string, PeerInfo>, tables: Snapshot, filters: seq<Filter>,
                callFails: seq<bool>, answers: seq<seq<Event>>, events: seq<Event>)
    requires |callFails| == |filters| && |answers| < |filters|
    requires Answers(directory, tables, filters, callFails, answers)
    requires AnswerTo(directory, tables, filters[|answers|], callFails[|answers|], events)
    ensures Answers(directory, tables, filters, callFails, answers + [events])
    ensures Survives(h, answers + [events]) <==> Survives(h, answers) && AllDeliverable(h, events)
  {
  }

  /** The loop over the filters. */
  method AnswerFilters(h: Hub, hub: PostgresBackend, peers: map<string, PostgresBackend>, id: string,
                       filters: seq<Filter>, picks: seq<nat>, callFails: seq<bool>)
    returns (panicked: bool, out: seq<Wire>, ghost answers: seq<seq<Event>>)
    requires |picks| == |filters| == |callFails|
    requires hub.peers != map[] ==> forall i :: 0 <= i < |picks| ==> picks[i] < |hub.peers|
    ensures Answers(hub.peers, Tables(peers), filters, callFails, answers)
    ensures panicked <==> !Survives(h, answers)
    ensures !panicked ==> |answers| == |filters| && out == AllWired(h, id, answers)
  {
    out, panicked, answers := [], false, [];
    ghost var tables := Tables(peers);
    for k := 0 to |filters|
      invariant Tables(peers) == tables
      invariant |answers| == k && out == AllWired(h, id, answers)
      invariant Answers(hub.peers, tables, filters, callFails, answers) && Survives(h, answers)
    {
      var died, sent, events := AnswerFilter(h, hub, peers, id, filters[k], picks[k], callFails[k]);
      WiredStep(h, id, answers, events);
      OneMore(h, hub.peers, tables, filters, callFails, answers, events);
      answers := answers + [events];
      if died {
        return true, out, answers;
      }
      out := out + sent;
    }
  }

  /** The messages of a REQ that ran to its end. */
  ghost predicate Transcript(h: Hub, directory: map<string, PeerInfo>, tables: Snapshot, id: string,
                             filters: seq<Filter>, callFails: seq<bool>, out: seq<Wire>)
    requires |callFails| == |filters|
  {
    exists answers: seq<seq<Event>> ::
      && |answers| == |filters| && Answers(directory, tables, filters, callFails, answers) && Survives(h, answers)
      && out == AllWired(h, id, answers) + [EndOfStored(id)]
  }

  /** A whole REQ. Unless there is a panic, the messages are an answer to each filter in turn,
      as the verification leaves its events, and then one EOSE; the subscription is registered
      after that, with all its filters. A panic, which ends the process, comes exactly from an
      answer with a tag the verification cannot index, and nothing is registered then. */
  method HandleReq(h: Hub, hub: PostgresBackend, peers: map<string, PostgresBackend>, registry: Registry, ws: Socket,
                   id: string, filters: seq<Filter>, picks: seq<nat>, callFails: seq<bool>)
    returns (panicked: bool, out: seq<Wire>)
    requires registry.Valid() && |picks| == |filters| == |callFails|
    requires hub.peers != map[] ==> forall i :: 0 <= i < |picks| ==> picks[i] < |hub.peers|
    modifies registry`listeners
    ensures registry.Valid()
    ensures id == "" ==> !panicked && out == [Notice]
    ensures registry.listeners ==
      if id == "" || panicked then old(registry.listeners) else WithListener(old(registry.listeners), ws, id, filters)
    ensures id != "" && !panicked ==> Transcript(h, hub.peers, Tables(peers), id, filters, callFails, out)
    ensures panicked ==>
      exists answers :: Answers(hub.peers, Tables(peers), filters, callFails, answers) && !Survives(h, answers)
  {
    if id == "" {
      return false, [Notice];
    }
    ghost var answers;
    panicked, out, answers := AnswerFilters(h, hub, peers, id, filters, picks, callFails);
    if !panicked {
      out := out + [EndOfStored(id)];
      registry.SetListener(id, ws, filters);
    }
  }

  // ---------- there and back ----------

  /** A row is in a cut answer if the rows at least as new fit under the limit. */
  lemma NotCut(xs: seq<Event>, all: set<Event>, n: nat, r: Event)
    requires NewestOf(xs, all, n) && r in all && |AtLeast(all, r.createdAt)| <= n
    ensures r in xs
  {
    var found := set x | x in xs;
    DistinctCount(xs, found);
    if r !in xs {
      SubsetCount(found, AtLeast(all, r.createdAt) - {r});
      SubsetCount(found, all - {r});
    }
  }

  lemma {:induction false} WiredAnswer(h: Hub, id: string, answers: seq<seq<Event>>, k: nat, e: Event)
    requires k < |answers| && e in answers[k]
    ensures StoredEvent(id, Delivered(h, e)) in AllWired(h, id, answers)
  {
    var n := |answers| - 1;
    if k < n {
      WiredAnswer(h, id, answers[..n], k, e);
    } else {
      var i :| 0 <= i < |answers[k]| && answers[k][i] == e;
      assert Wired(id, AllDelivered(h, answers[n]))[i] == StoredEvent(id, Delivered(h, e));
    }
  }

  /** Whose peer must answer a filter: the first author's, else that of the first "p" value. */
  predicate Names(f: Filter, pubkey: string)
  {
    if f.authors.Some? && f.authors.value != [] then pubkey == f.authors.value[0]
    else "p" in f.tags && f.tags["p"] != [] && pubkey == f.tags["p"][0]
  }

  /** A filter that names a pubkey whose peer is known and can be called is answered from that
      peer's table, and no other. */
  lemma NamedPeerAnswers(directory: map<string, PeerInfo>, tables: Snapshot, f: Filter, callFails: bool,
                         events: seq<Event>, pubkey: string)
    requires AnswerTo(directory, tables, f, callFails, events) && Names(f, pubkey)
    requires pubkey in directory && directory[pubkey].address != "" && directory[pubkey].address in tables
    requires !callFails && !Refused(f)
    ensures NewestOf(events, Matching(tables[directory[pubkey].address], f),
                     if 1 <= f.limit <= 100 then f.limit else 100)
  {
  }

  /** A refused filter and a failed call are answered with nothing. */
  lemma NothingIsAnswered(directory: map<string, PeerInfo>, tables: Snapshot, f: Filter, callFails: bool,
                          events: seq<Event>)
    requires AnswerTo(directory, tables, f, callFails, events) && (callFails || Refused(f))
    ensures events == []
  {
  }

  // ---------- the order on the wire ----------

  /** Where the answer to filter k begins. */
  function Offset(answers: seq<seq<Event>>, k: nat): nat
    requires k <= |answers|
  {
    if k == 0 then 0 else Offset(answers, k - 1) + |answers[k - 1]|
  }

  /** One message for each event, the answers in the order of the filters and the events in the
      order of their answer, each as the verification leaves it. */
  ghost predicate InOrder(h: Hub, id: string, answers: seq<seq<Event>>, out: seq<Wire>)
  {
    && |out| == Offset(answers, |answers|)
    && forall k: nat, i: nat :: Placed(h, id, answers, out, k, i)
  }

  ghost predicate Placed(h: Hub, id: string, answers: seq<seq<Event>>, out: seq<Wire>, k: nat, i: nat)
  {
    k < |answers| && i < |answers[k]| ==>
      Offset(answers, k) + i < |out| && Carries(h, id, answers[k][i], out[Offset(answers, k) + i])
  }

  ghost predicate Carries(h: Hub, id: string, e: Event, m: Wire)
  {
    m.StoredEvent? && m.id == id && SentAs(h, e, m.e)
  }

  lemma {:induction false} OffsetOfPrefix(answers: seq<seq<Event>>, n: nat, k: nat)
    requires k <= n <= |answers|
    ensures Offset(answers[..n], k) == Offset(answers, k) <= Offset(answers, n)
    decreases n + k
  {
    if k < n {
      OffsetOfPrefix(answers, n - 1, k);
    }
    if k > 0 {
      OffsetOfPrefix(answers, n, k - 1);
    }
  }

  lemma {:induction false} WiredInOrder(h: Hub, id: string, answers: seq<seq<Event>>)
    requires Survives(h, answers)
    ensures InOrder(h, id, answers, AllWired(h, id, answers))
  {
    if answers != [] {
      var n := |answers| - 1;
      var front, last, out := answers[..n], answers[n], AllWired(h, id, answers);
      assert Survives(h, front) by {
        forall k | 0 <= k < n ensures AllDeliverable(h, front[k]) {
          assert front[k] == answers[k];
        }
      }
      WiredInOrder(h, id, front);
      var before := AllWired(h, id, front);
      OffsetOfPrefix(answers, n, n);
      assert out == before + Wired(id, AllDelivered(h, last));
      forall k: nat, i: nat ensures Placed(h, id, answers, out, k, i) {
        if k == n && i < |last| {
          assert last[i] in last && AllDeliverable(h, answers[n]);
          DeliveredIsSentAs(h, last[i]);
          assert out[Offset(answers, n) + i] == StoredEvent(id, Delivered(h, last[i]));
        } else if k < n && i < |answers[k]| {
          OffsetOfPrefix(answers, n, k);
          assert front[k] == answers[k] && Placed(h, id, front, before, k, i);
        }
      }
    }
  }

  /** The messages of a REQ that ran to its end: its answers in order, and one EOSE last. */
  lemma TranscriptInOrder(h: Hub, directory: map<string, PeerInfo>, tables: Snapshot, id: string,
                          filters: seq<Filter>, fails: seq<bool>, out: seq<Wire>)
    requires |fails| == |filters| && Transcript(h, directory, tables, id, filters, fails, out)
    ensures out != [] && out[|out| - 1] == EndOfStored(id)
    ensures exists answers: seq<seq<Event>> ::
              && |answers| == |filters| && Answers(directory, tables, filters, fails, answers)
              && InOrder(h, id, answers, out[..|out| - 1])
  {
    var answers: seq<seq<Event>> :|
      && |answers| == |filters| && Answers(directory, tables, filters, fails, answers) && Survives(h, answers)
      && out == AllWired(h, id, answers) + [EndOfStored(id)];
    WiredInOrder(h, id, answers);
    assert out[..|out| - 1] == AllWired(h, id, answers);
  }

  // ---------- there and back, to the end ----------

  /** The round trip. The hub replies OK true to a text note it tagged: then the peer's table
      holds the rewritten note. Whenever later a REQ comes to its end, one of whose filters
      wants the note and asks the peer that still has it, and the limit does not cut it off,
      then the note is among the messages exactly as it was stored, acknowledged and pushed,
      its hash tag saying "true" and its id that of the OK reply. */
  lemma AskedThenSent(h: Hub, directory: map<string, PeerInfo>, before: Snapshot, after: Snapshot, ls: Listeners,
                             matches: Matcher, e: Event, uploads: seq<Option<string>>, accept: bool, callFails: bool,
                             f: Faults, address: string, reply: Reply, sent: seq<Live>,
                             directory': map<string, PeerInfo>, tables: Snapshot, id: string, filters: seq<Filter>,
                             fails: seq<bool>, out: seq<Wire>, k: nat)
    requires Sound(h.crypto)
    requires |uploads| == |e.tags| && NoHashTag(e.tags) && HubTags(h, e, uploads)
    requires HubOutcome(h, directory, before, after, ls, matches, e, uploads, accept, callFails, f, address, reply,
                        sent)
    requires reply.accepted
    requires k < |filters| == |fails| && Transcript(h, directory', tables, id, filters, fails, out)
    requires forall a :: MayAnswer(directory', AskedPubkey(filters[k]), a) ==> a == address
    requires address in tables && Rewritten(h, e, uploads) in tables[address]
    requires var evt, all := Rewritten(h, e, uploads), Matching(tables[address], filters[k]);
             && !fails[k] && !Refused(filters[k]) && Wanted(filters[k], evt)
             && |AtLeast(all, evt.createdAt)| <= ClampedLimit(filters[k].limit)
    ensures var evt := Rewritten(h, e, uploads);
            && address in after && evt in after[address]
            && StoredEvent(id, evt) in out
            && evt.id == reply.id == IdOf(h.crypto, evt)
            && evt.tags == MediaTags(h, e, uploads) + [["hash", GetSing(h.crypto, e.content).value, "true"]]
            && OneEach(sent, Targets(ls, matches, evt), evt)
  {
    var evt, all := Rewritten(h, e, uploads), Matching(tables[address], filters[k]);
    IdentityRoundTrip(h, e, uploads);
    AcknowledgedIsThere(before[address], evt, f);
    var answers: seq<seq<Event>> :|
      && |answers| == |filters| && Answers(directory', tables, filters, fails, answers) && Survives(h, answers)
      && out == AllWired(h, id, answers) + [EndOfStored(id)];
    assert AnswerTo(directory', tables, filters[k], fails[k], answers[k]);
    NotCut(answers[k], all, ClampedLimit(filters[k].limit), evt);
    WiredAnswer(h, id, answers, k, evt);
  }

  /** In particular when the REQ's filter names the note's author first and the directory still
      has the author where the note was saved. */
  lemma AcknowledgedThenSent(h: Hub, directory: map<string, PeerInfo>, before: Snapshot, after: Snapshot, ls: Listeners,
                             matches: Matcher, e: Event, uploads: seq<Option<string>>, accept: bool, callFails: bool,
                             f: Faults, address: string, reply: Reply, sent: seq<Live>,
                             directory': map<string, PeerInfo>, tables: Snapshot, id: string, filters: seq<Filter>,
                             fails: seq<bool>, out: seq<Wire>, k: nat)
    requires Sound(h.crypto)
    requires |uploads| == |e.tags| && NoHashTag(e.tags) && HubTags(h, e, uploads)
    requires HubOutcome(h, directory, before, after, ls, matches, e, uploads, accept, callFails, f, address, reply,
                        sent)
    requires reply.accepted
    requires k < |filters| == |fails| && Transcript(h, directory', tables, id, filters, fails, out)
    requires Names(filters[k], e.pubkey)
    requires e.pubkey in directory' && directory'[e.pubkey].address == address && address != ""
    requires address in tables && Rewritten(h, e, uploads) in tables[address]
    requires var evt, all := Rewritten(h, e, uploads), Matching(tables[address], filters[k]);
             && !fails[k] && !Refused(filters[k]) && Wanted(filters[k], evt)
             && |AtLeast(all, evt.createdAt)| <= ClampedLimit(filters[k].limit)
    ensures var evt := Rewritten(h, e, uploads);
            && RewrittenAs(h, e, uploads, evt)
            && address in after && evt in after[address]
            && StoredEvent(id, evt) in out
            && evt.id == reply.id == IdOf(h.crypto, evt)
            && evt.tags == MediaTags(h, e, uploads) + [["hash", GetSing(h.crypto, e.content).value, "true"]]
            && OneEach(sent, Targets(ls, matches, evt), evt)
  {
    RewrittenIsAs(h, e, uploads);
    AskedThenSent(h, directory, before, after, ls, matches, e, uploads, accept, callFails, f, address, reply, sent,
                  directory', tables, id, filters, fails, out, k);
  }
}

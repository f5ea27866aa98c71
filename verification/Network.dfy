/** How events reach the tables: relayer/add-event.go (a peer's own port), relayer/send-event.go
    and peer/bridge/bridge.go (through the hub), and the NIP-09 branch of relayer/handlers.go. */
module Network {
  import opened Prelude
  import opened Nostr
  import opened PostgresQuery
  import opened PostgresStore
  import opened HashUtil
  import opened EventIdentity
  import opened Listener

  datatype Message = Empty | Blocked | DuplicateEvent | SaveFailed | SendFailed

  predicate Stores(e: Event)
  {
    !Ephemeral(e.kind)
  }

  /** What the database does on one save: which of its statements fail. */
  datatype Faults = Faults(deleteFails: bool, insertFails: bool, pruneFails: bool)

  function RowsAfterSave(rows: set<Event>, e: Event, f: Faults): set<Event>
  {
    var left := if f.deleteFails then rows else DeleteSuperseded(rows, e);
    if f.insertFails then left else InsertOrIgnore(left, e)
  }

  function SaveOutcome(rows: set<Event>, e: Event, f: Faults): SaveResult
  {
    var left := if f.deleteFails then rows else DeleteSuperseded(rows, e);
    if f.insertFails then Failed else if HasId(left, e.id) then Duplicate else Stored
  }

  /** The table after AddEvent let an event through: retention runs only after a row went in. */
  function RowsAfterAddEvent(rows: set<Event>, e: Event, f: Faults): set<Event>
  {
    var saved := RowsAfterSave(rows, e, f);
    if SaveOutcome(rows, e, f) == Stored && !f.pruneFails then Pruned(saved, e.pubkey, e.kind) else saved
  }

  /** AddEvent. Listeners hear of exactly the accepted events that are new to the table or are
      not stored at all, once each. */
  method AddEvent(store: PostgresBackend, registry: Registry, matches: Matcher, e: Event, accept: bool, f: Faults)
    returns (accepted: bool, message: Message, sent: seq<Live>)
    modifies store`event, registry`written
    ensures var outcome := SaveOutcome(old(store.event), e, f);
            && store.event ==
               (if !accept || !Stores(e) then old(store.event) else RowsAfterAddEvent(old(store.event), e, f))
            && (accepted <==> accept && (!Stores(e) || outcome != Failed))
            && message == (if !accept then Blocked else if !Stores(e) then Empty
                           else match outcome
                                case Stored => Empty
                                case Duplicate => DuplicateEvent
                                case Failed => SaveFailed)
            && registry.written == old(registry.written) + sent
            && (if accept && (!Stores(e) || outcome == Stored)
                then OneEach(sent, Targets(registry.listeners, matches, e), e) else sent == [])
  {
    sent := [];
    if !accept {
      return false, Blocked, sent;
    }
    if 20000 <= e.kind && e.kind < 30000 {
    } else {
      var r := store.SaveEvent(e, f.deleteFails, f.insertFails);
      match r {
        case Duplicate => return true, DuplicateEvent, sent;
        case Failed => return false, SaveFailed, sent;
        case Stored =>
      }
      store.AfterSave(e, f.pruneFails);
    }
    sent := registry.NotifyListeners(matches, e);
    return true, Empty, sent;
  }

  /** Ql's saveEvent on a peer: the save, and no retention. Any failure, the duplicate
      included, goes back as an error. */
  method QlSaveEvent(peer: PostgresBackend, e: Event, f: Faults) returns (ok: bool)
    modifies peer`event
    ensures peer.event == RowsAfterSave(old(peer.event), e, f)
    ensures ok <==> SaveOutcome(old(peer.event), e, f) == Stored
  {
    var r := peer.SaveEvent(e, f.deleteFails, f.insertFails);
    ok := r == Stored;
  }

  /** What sending an event into the network does to the peers' tables, and who hears of it.
      Two addresses can lead to one peer, so a table that changes under another address than
      the one used is that same table. */
  ghost predicate SendOutcome(directory: map<string, PeerInfo>, before: Snapshot, after: Snapshot, ls: Listeners,
                              matches: Matcher, e: Event, accept: bool, callFails: bool, f: Faults, address: string,
                              accepted: bool, sent: seq<Live>)
  {
    var reached := accept && Stores(e) && address in before && !callFails;
    && (accept && Stores(e) ==> MayAnswer(directory, e.pubkey, address))
    && after.Keys == before.Keys
    && (reached ==> after[address] == RowsAfterSave(before[address], e, f))
    && (forall a :: a in before ==>
          after[a] == before[a] || (reached && before[a] == before[address] && after[a] == after[address]))
    && (accepted <==> accept && (!Stores(e) || (reached && SaveOutcome(before[address], e, f) == Stored)))
    && (if accepted then OneEach(sent, Targets(ls, matches, e), e) else sent == [])
  }

  /** SendEvent. The event goes to the one peer the directory names; listeners hear of it only
      when that peer reports a new row (or when it is ephemeral and goes nowhere). */
  method SendEvent(hub: PostgresBackend, peers: map<string, PostgresBackend>, registry: Registry, matches: Matcher,
                   e: Event, accept: bool, n: nat, callFails: bool, f: Faults)
    returns (accepted: bool, message: Message, address: string, sent: seq<Live>)
    requires hub.peers != map[] ==> n < |hub.peers|
    modifies (set a | a in peers :: peers[a])`event, registry`written
    ensures SendOutcome(hub.peers, old(Tables(peers)), Tables(peers), registry.listeners, matches, e, accept, callFails,
                        f, address, accepted, sent)
    ensures var reached := accept && Stores(e) && address in peers && !callFails;
            forall a :: a in peers && !(reached && peers[a] == peers[address]) ==> peers[a].event == old(peers[a].event)
    ensures message == if !accept then Blocked else if accepted then Empty else SendFailed
    ensures registry.written == old(registry.written) + sent
  {
    sent, address := [], "";
    if !accept {
      return false, Blocked, address, sent;
    }
    if 20000 <= e.kind && e.kind < 30000 {
    } else {
      address := hub.GetPeer(e.pubkey, n);
      if address !in peers || callFails {
        return false, SendFailed, address, sent;
      }
      var ok := QlSaveEvent(peers[address], e, f);
      if !ok {
        return false, SendFailed, address, sent;
      }
    }
    sent := registry.NotifyListeners(matches, e);
    return true, Empty, address, sent;
  }

  /** A save that is acknowledged has put its event into the table, and ids stay unique. */
  lemma AcknowledgedIsThere(rows: set<Event>, e: Event, f: Faults)
    requires SaveOutcome(rows, e, f) == Stored
    ensures e in RowsAfterSave(rows, e, f)
    ensures UniqueIds(rows) ==> UniqueIds(RowsAfterSave(rows, e, f))
  {
  }

  /** What a save answers: a failure exactly when the INSERT fails, otherwise a duplicate exactly
      when a row of the id is not among those the save replaces. */
  lemma OutcomeMeans(rows: set<Event>, e: Event, f: Faults)
    ensures SaveOutcome(rows, e, f) == Failed <==> f.insertFails
    ensures SaveOutcome(rows, e, f) == Duplicate <==>
      && !f.insertFails
      && exists r :: r in rows && r.id == e.id && (f.deleteFails || KeyOf(e).None? || KeyOf(r) != KeyOf(e))
    ensures SaveOutcome(rows, e, f) != Stored ==> RowsAfterSave(rows, e, f) <= rows
  {
    var left := if f.deleteFails then rows else DeleteSuperseded(rows, e);
    forall r | r in rows ensures r in left <==> f.deleteFails || KeyOf(e).None? || KeyOf(r) != KeyOf(e) {
      SupersededIsSameKey(rows, e, r);
    }
  }

  /** But on a peer's own port it can be gone again when OK true goes out: AfterSave takes away
      the row just saved exactly when the pubkey has more than a hundred newer ones. */
  lemma AcknowledgedStays(rows: set<Event>, e: Event, f: Faults)
    requires SaveOutcome(rows, e, f) == Stored
    ensures var left := if f.deleteFails then rows else DeleteSuperseded(rows, e);
            e in RowsAfterAddEvent(rows, e, f) <==>
            f.pruneFails || |Newer(Own(left, e.pubkey), e.createdAt)| <= RETAINED
  {
    var left := if f.deleteFails then rows else DeleteSuperseded(rows, e);
    assert Newer(Own(RowsAfterSave(rows, e, f), e.pubkey), e.createdAt) == Newer(Own(left, e.pubkey), e.createdAt);
  }

  // ---------- NIP-09 ----------

  predicate IsETag(tag: Tag)
  {
    |tag| >= 2 && tag[0] == "e"
  }

  /** Exactly the rows of that pubkey whose id stands in an "e" tag go. */
  function RemoveTagged(rows: set<Event>, pubkey: string, tags: seq<Tag>): set<Event>
  {
    set r | r in rows && !(r.pubkey == pubkey && exists t :: t in tags && IsETag(t) && t[1] == r.id)
  }

  /** The outcome for each tag of the calls it may cause. */
  datatype Calls = Calls(deleteFails: seq<bool>, ipfsFails: seq<bool>)

  predicate Aligned(tags: seq<Tag>, calls: Calls)
  {
    |calls.deleteFails| == |tags| && |calls.ipfsFails| == |tags|
  }

  /** A URL of five chunks names a pinned file. */
  predicate NamesFile(url: string)
  {
    Count(url, '/') == 4
  }

  lemma FiveChunks(chunks: seq<string>)
    requires chunks != [] && forall x :: x in chunks ==> '/' !in x
    ensures NamesFile(Join(chunks, "/")) <==> |chunks| == 5
  {
    CountBetween(chunks, '/');
    assert "/" == ['/'];
  }

  /** Indexing past the end of a tag panics; nothing recovers it, so the process ends. */
  predicate OutOfRange(tag: Tag, hasIpfs: bool)
  {
    tag == [] || (tag == ["audio"] && hasIpfs)
  }

  predicate CallFails(tag: Tag, hasIpfs: bool, deleteFails: bool, ipfsFails: bool)
  {
    || (IsETag(tag) && deleteFails)
    || (hasIpfs && |tag| >= 2 && tag[0] == "audio" && NamesFile(tag[1]) && ipfsFails)
  }

  predicate Stops(tags: seq<Tag>, hasIpfs: bool, calls: Calls, i: nat)
    requires Aligned(tags, calls) && i < |tags|
  {
    OutOfRange(tags[i], hasIpfs) || CallFails(tags[i], hasIpfs, calls.deleteFails[i], calls.ipfsFails[i])
  }

  /** The deletion loop on a relay with its own store. It handles the tags up to the first one
      that stops it, and all of them if none does; the table loses exactly what those name. */
  method DeleteTagged(store: PostgresBackend, e: Event, hasIpfs: bool, calls: Calls) returns (handled: nat)
    requires Aligned(e.tags, calls)
    modifies store`event
    ensures handled <= |e.tags|
    ensures forall i :: 0 <= i < handled ==> !Stops(e.tags, hasIpfs, calls, i)
    ensures handled < |e.tags| ==> Stops(e.tags, hasIpfs, calls, handled)
    ensures store.event == RemoveTagged(old(store.event), e.pubkey, e.tags[..handled])
  {
    for k := 0 to |e.tags|
      invariant forall i :: 0 <= i < k ==> !Stops(e.tags, hasIpfs, calls, i)
      invariant store.event == RemoveTagged(old(store.event), e.pubkey, e.tags[..k])
    {
      var tag := e.tags[k];
      assert e.tags[..k + 1] == e.tags[..k] + [tag];
      if |tag| >= 2 && tag[0] == "e" {
        var ok := store.DeleteEvent(tag[1], e.pubkey, calls.deleteFails[k]);
        if !ok {
          return k;
        }
      }
      if |tag| == 0 {
        return k;
      }
      if tag[0] == "audio" && hasIpfs {
        if |tag| < 2 {
          assert tag == ["audio"];
          return k;
        }
        if NamesFile(tag[1]) && calls.ipfsFails[k] {
          return k;
        }
      }
    }
    assert e.tags[..|e.tags|] == e.tags;
    return |e.tags|;
  }

  /** The author's own peer is known and can be called. */
  ghost predicate OwnPeerKnown(directory: map<string, PeerInfo>, addresses: set<string>, pubkey: string)
  {
    pubkey in directory && directory[pubkey].address != "" && directory[pubkey].address in addresses
  }

  lemma RemoveTaggedTwice(rows: set<Event>, pubkey: string, tags: seq<Tag>, more: seq<Tag>)
    ensures RemoveTagged(RemoveTagged(rows, pubkey, tags), pubkey, more) == RemoveTagged(rows, pubkey, tags + more)
  {
  }

  /** No table loses a row that the tags do not name, and none gets a new one. */
  ghost predicate Loses(before: Snapshot, after: Snapshot, pubkey: string, tags: seq<Tag>)
  {
    && after.Keys == before.Keys
    && forall a :: a in before ==> RemoveTagged(before[a], pubkey, tags) <= after[a] <= before[a]
  }

  lemma LosesMore(before: Snapshot, now: Snapshot, after: Snapshot, pubkey: string, tags: seq<Tag>, more: seq<Tag>)
    requires Loses(before, now, pubkey, tags) && Loses(now, after, pubkey, more)
    ensures Loses(before, after, pubkey, tags + more)
  {
    forall a | a in before ensures RemoveTagged(before[a], pubkey, tags + more) <= after[a] <= before[a] {
      RemoveTaggedTwice(before[a], pubkey, tags, more);
      assert RemoveTagged(RemoveTagged(before[a], pubkey, tags), pubkey, more) <= RemoveTagged(now[a], pubkey, more);
    }
  }

  /** The peer at this address, and no other, loses exactly the rows the tags name. */
  ghost predicate OwnLoses(peers: map<string, PostgresBackend>, address: string, before: Snapshot, after: Snapshot,
                           pubkey: string, tags: seq<Tag>)
  {
    && after.Keys == before.Keys == peers.Keys && address in peers
    && after[address] == RemoveTagged(before[address], pubkey, tags)
    && forall a :: a in peers && peers[a] != peers[address] ==> after[a] == before[a]
  }

  lemma OwnLosesMore(peers: map<string, PostgresBackend>, address: string, before: Snapshot, now: Snapshot,
                     after: Snapshot, pubkey: string, tags: seq<Tag>, more: seq<Tag>)
    requires OwnLoses(peers, address, before, now, pubkey, tags) && OwnLoses(peers, address, now, after, pubkey, more)
    ensures OwnLoses(peers, address, before, after, pubkey, tags + more)
  {
    RemoveTaggedTwice(before[address], pubkey, tags, more);
  }

  /** Where the loop on the hub stands after i tags. */
  ghost predicate HandledOnHub(directory: map<string, PeerInfo>, peers: map<string, PostgresBackend>, before: Snapshot,
                               after: Snapshot, pubkey: string, tags: seq<Tag>)
  {
    && Loses(before, after, pubkey, tags)
    && (OwnPeerKnown(directory, peers.Keys, pubkey) ==>
          OwnLoses(peers, directory[pubkey].address, before, after, pubkey, tags))
  }

  lemma NothingHandled(directory: map<string, PeerInfo>, peers: map<string, PostgresBackend>, now: Snapshot,
                       pubkey: string, tags: seq<Tag>)
    requires now.Keys == peers.Keys
    ensures HandledOnHub(directory, peers, now, now, pubkey, tags[..0])
  {
    forall rows ensures RemoveTagged(rows, pubkey, tags[..0]) == rows {
    }
  }

  lemma HandledMore(directory: map<string, PeerInfo>, peers: map<string, PostgresBackend>, before: Snapshot,
                    now: Snapshot, after: Snapshot, pubkey: string, tags: seq<Tag>, more: seq<Tag>)
    requires HandledOnHub(directory, peers, before, now, pubkey, tags)
    requires HandledOnHub(directory, peers, now, after, pubkey, more)
    ensures HandledOnHub(directory, peers, before, after, pubkey, tags + more)
  {
    LosesMore(before, now, after, pubkey, tags, more);
    if OwnPeerKnown(directory, peers.Keys, pubkey) {
      OwnLosesMore(peers, directory[pubkey].address, before, now, after, pubkey, tags, more);
    }
  }

  /** One turn of the loop on the hub: the deletion is a call to the peer the directory names
      at that moment. */
  method DeleteTagThroughHub(hub: PostgresBackend, peers: map<string, PostgresBackend>, pubkey: string, tag: Tag,
                             hasIpfs: bool, deleteFails: bool, ipfsFails: bool, pick: nat) returns (stopped: bool)
    requires hub.peers != map[] ==> pick < |hub.peers|
    modifies (set a | a in peers :: peers[a])`event
    ensures !stopped ==> !OutOfRange(tag, hasIpfs) && !CallFails(tag, hasIpfs, deleteFails, ipfsFails)
    ensures stopped && OwnPeerKnown(hub.peers, peers.Keys, pubkey) ==>
              OutOfRange(tag, hasIpfs) || CallFails(tag, hasIpfs, deleteFails, ipfsFails)
    ensures HandledOnHub(hub.peers, peers, old(Tables(peers)), Tables(peers), pubkey, if stopped then [] else [tag])
  {
    if |tag| >= 2 && tag[0] == "e" {
      var address := hub.GetPeer(pubkey, pick);
      if address !in peers {
        return true;
      }
      var ok := peers[address].DeleteEvent(tag[1], pubkey, deleteFails);
      if !ok {
        return true;
      }
    }
    if |tag| == 0 {
      return true;
    }
    if tag[0] == "audio" && hasIpfs {
      if |tag| < 2 {
        assert tag == ["audio"];
        return true;
      }
      if NamesFile(tag[1]) && ipfsFails {
        return true;
      }
    }
    return false;
  }

  /** The turn of the k-th tag. */
  method HubTurn(hub: PostgresBackend, peers: map<string, PostgresBackend>, e: Event, hasIpfs: bool, calls: Calls,
                 pick: nat, k: nat, ghost before: Snapshot) returns (stopped: bool)
    requires Aligned(e.tags, calls) && k < |e.tags|
    requires hub.peers != map[] ==> pick < |hub.peers|
    requires HandledOnHub(hub.peers, peers, before, Tables(peers), e.pubkey, e.tags[..k])
    modifies (set a | a in peers :: peers[a])`event
    ensures !stopped ==> !Stops(e.tags, hasIpfs, calls, k)
    ensures stopped && OwnPeerKnown(hub.peers, peers.Keys, e.pubkey) ==> Stops(e.tags, hasIpfs, calls, k)
    ensures HandledOnHub(hub.peers, peers, before, Tables(peers), e.pubkey, e.tags[..if stopped then k else k + 1])
  {
    ghost var now := Tables(peers);
    stopped := DeleteTagThroughHub(hub, peers, e.pubkey, e.tags[k], hasIpfs, calls.deleteFails[k], calls.ipfsFails[k],
                                   pick);
    HandledMore(hub.peers, peers, before, now, Tables(peers), e.pubkey, e.tags[..k],
                if stopped then [] else [e.tags[k]]);
    assert e.tags[..k] + [] == e.tags[..k] && e.tags[..k] + [e.tags[k]] == e.tags[..k + 1];
  }

  /** The same loop on the hub. No table ever loses a row that the event does not name, and when
      the author's own peer is known and reachable, that peer alone loses exactly the rows named. */
  method DeleteThroughHub(hub: PostgresBackend, peers: map<string, PostgresBackend>, e: Event, hasIpfs: bool,
                          calls: Calls, picks: seq<nat>) returns (handled: nat)
    requires Aligned(e.tags, calls) && |picks| == |e.tags|
    requires forall i :: 0 <= i < |picks| ==> hub.peers != map[] ==> picks[i] < |hub.peers|
    modifies (set a | a in peers :: peers[a])`event
    ensures handled <= |e.tags|
    ensures forall i :: 0 <= i < handled ==> !Stops(e.tags, hasIpfs, calls, i)
    ensures HandledOnHub(hub.peers, peers, old(Tables(peers)), Tables(peers), e.pubkey, e.tags[..handled])
    ensures OwnPeerKnown(hub.peers, peers.Keys, e.pubkey) && handled < |e.tags| ==>
              Stops(e.tags, hasIpfs, calls, handled)
  {
    ghost var before := Tables(peers);
    NothingHandled(hub.peers, peers, before, e.pubkey, e.tags);
    handled := 0;
    while handled < |e.tags|
      invariant handled <= |e.tags|
      invariant forall i :: 0 <= i < handled ==> !Stops(e.tags, hasIpfs, calls, i)
      invariant HandledOnHub(hub.peers, peers, before, Tables(peers), e.pubkey, e.tags[..handled])
    {
      var stopped := HubTurn(hub, peers, e, hasIpfs, calls, picks[handled], handled, before);
      if stopped {
        break;
      }
      handled := handled + 1;
    }
  }

  /** With non-empty tags, none of them audio, and no failing call, a deletion event is handled
      to the end: the table loses the named rows and nothing else. The order and the number of
      times a tag is repeated do not matter. */
  lemma DeletionIsComplete(e: Event, hasIpfs: bool, calls: Calls, handled: nat)
    requires Aligned(e.tags, calls) && handled <= |e.tags|
    requires forall t :: t in e.tags ==> t != [] && t[0] != "audio"
    requires forall i :: 0 <= i < |e.tags| ==> !calls.deleteFails[i]
    requires handled < |e.tags| ==> Stops(e.tags, hasIpfs, calls, handled)
    ensures handled == |e.tags|
  {
    forall i | 0 <= i < |e.tags| ensures !Stops(e.tags, hasIpfs, calls, i) {
      assert e.tags[i] in e.tags;
    }
  }

  // ---------- the hub's EVENT branch ----------

  datatype SignatureCheck = CheckFailed | Valid | Invalid

  /** Stopped: an error reply or a panic in the middle of a deletion. */
  datatype Reply = NoReply | Stopped | Ok(id: string, accepted: bool)

  /** What a deletion event does to its author's table: the tags up to the first that stops the
      loop are handled, and there is no reply exactly when none does. */
  ghost predicate DeletionOutcome(before: set<Event>, after: set<Event>, e: Event, hasIpfs: bool, calls: Calls,
                                  reply: Reply)
    requires Aligned(e.tags, calls)
  {
    exists k: nat ::
      && k <= |e.tags| && reply == (if k == |e.tags| then NoReply else Stopped)
      && (forall i :: 0 <= i < k ==> !Stops(e.tags, hasIpfs, calls, i))
      && (k < |e.tags| ==> Stops(e.tags, hasIpfs, calls, k))
      && after == RemoveTagged(before, e.pubkey, e.tags[..k])
  }

  /** A deletion that nothing stops is complete: no reply, and the named rows are gone. */
  lemma UnstoppedIsComplete(before: set<Event>, after: set<Event>, e: Event, hasIpfs: bool, calls: Calls, reply: Reply)
    requires Aligned(e.tags, calls) && DeletionOutcome(before, after, e, hasIpfs, calls, reply)
    requires forall t :: t in e.tags ==> t != [] && t[0] != "audio"
    requires forall i :: 0 <= i < |e.tags| ==> !calls.deleteFails[i]
    ensures reply == NoReply && after == RemoveTagged(before, e.pubkey, e.tags)
  {
    var k: nat :| k <= |e.tags| && reply == (if k == |e.tags| then NoReply else Stopped)
      && (k < |e.tags| ==> Stops(e.tags, hasIpfs, calls, k)) && after == RemoveTagged(before, e.pubkey, e.tags[..k]);
    DeletionIsComplete(e, hasIpfs, calls, k);
    assert e.tags[..k] == e.tags;
  }

  /** A row that goes is the author's own, and an "e" tag names it. */
  lemma OnlyNamedRowsGo(before: set<Event>, after: set<Event>, e: Event, hasIpfs: bool, calls: Calls, reply: Reply,
                        r: Event)
    requires Aligned(e.tags, calls) && DeletionOutcome(before, after, e, hasIpfs, calls, reply)
    requires r in before && r !in after
    ensures r.pubkey == e.pubkey && exists t :: t in e.tags && |t| >= 2 && t[0] == "e" && t[1] == r.id
    ensures after <= before
  {
    var k: nat :| k <= |e.tags| && after == RemoveTagged(before, e.pubkey, e.tags[..k]);
    var front := e.tags[..k];
    assert r !in RemoveTagged(before, e.pubkey, front);
    var t: Tag :| t in front && IsETag(t) && t[1] == r.id;
    assert t in e.tags;
  }

  /** The signature plays no part in a deletion. For each row of a table there is an event that
      takes it away, and only it, and the pubkey in that event is all it has of the author's. */
  lemma NamedRowGoes(rows: set<Event>, after: set<Event>, r: Event, e: Event, hasIpfs: bool, calls: Calls, reply: Reply)
    requires UniqueIds(rows) && r in rows
    requires e.kind == KIND_DELETION && e.pubkey == r.pubkey && e.tags == [["e", r.id]]
    requires Aligned(e.tags, calls) && !calls.deleteFails[0]
    requires DeletionOutcome(rows, after, e, hasIpfs, calls, reply)
    ensures after == rows - {r}
  {
    UnstoppedIsComplete(rows, after, e, hasIpfs, calls, reply);
    assert IsETag(e.tags[0]) && e.tags[0] in e.tags && e.tags[0][1] == r.id;
  }

  /** A tag that names a row and is reached. */
  predicate Reached(e: Event, hasIpfs: bool, calls: Calls, i: nat)
    requires Aligned(e.tags, calls)
  {
    i < |e.tags| && IsETag(e.tags[i]) && forall j :: 0 <= j <= i ==> !Stops(e.tags, hasIpfs, calls, j)
  }

  lemma {:induction false} FirstStop(e: Event, hasIpfs: bool, calls: Calls, from: nat) returns (k: nat)
    requires Aligned(e.tags, calls) && from <= |e.tags|
    requires forall j :: 0 <= j < from ==> !Stops(e.tags, hasIpfs, calls, j)
    ensures from <= k <= |e.tags| && (forall j :: 0 <= j < k ==> !Stops(e.tags, hasIpfs, calls, j))
    ensures k < |e.tags| ==> Stops(e.tags, hasIpfs, calls, k)
    decreases |e.tags| - from
  {
    if from == |e.tags| || Stops(e.tags, hasIpfs, calls, from) {
      k := from;
    } else {
      k := FirstStop(e, hasIpfs, calls, from + 1);
    }
  }

  /** So an unsigned deletion event leaves every table as it is exactly when it reaches no tag
      that names a row; other unsigned events always do. */
  lemma UnsignedIsHarmless(e: Event, hasIpfs: bool, calls: Calls)
    requires Aligned(e.tags, calls)
    ensures (forall rows, after, reply :: DeletionOutcome(rows, after, e, hasIpfs, calls, reply) ==> after == rows) <==>
            (forall i: nat :: !Reached(e, hasIpfs, calls, i))
  {
    if i: nat :| Reached(e, hasIpfs, calls, i) {
      var k := FirstStop(e, hasIpfs, calls, i + 1);
      var r := Event(e.tags[i][1], e.pubkey, 0, KIND_TEXT_NOTE, [], "", "");
      var after := RemoveTagged({r}, e.pubkey, e.tags[..k]);
      assert e.tags[i] in e.tags[..k];
      assert DeletionOutcome({r}, after, e, hasIpfs, calls, if k == |e.tags| then NoReply else Stopped);
      assert r !in after;
    } else {
      forall rows, after, reply | DeletionOutcome(rows, after, e, hasIpfs, calls, reply) ensures after == rows {
        var k: nat :| k <= |e.tags| && (forall j :: 0 <= j < k ==> !Stops(e.tags, hasIpfs, calls, j))
                      && after == RemoveTagged(rows, e.pubkey, e.tags[..k]);
        forall t | t in e.tags[..k] ensures !IsETag(t) {
          var i :| 0 <= i < k && e.tags[i] == t;
          assert !Reached(e, hasIpfs, calls, i);
        }
        assert RemoveTagged(rows, e.pubkey, e.tags[..k]) == rows;
      }
    }
  }

  /** What the EVENT branch does with a message once the signature check is over. */
  datatype Action = DeleteByTags(pubkey: string, tags: seq<Tag>) | NotifyOnly | Save(e: Event)

  function ActionOf(h: Hub, e: Event, uploads: seq<Option<string>>): Action
    requires |uploads| == |e.tags|
  {
    if e.kind == KIND_DELETION then DeleteByTags(e.pubkey, e.tags)
    else
      var evt := Rewritten(h, e, uploads);
      if Stores(evt) then Save(evt) else NotifyOnly
  }

  /** The changes to one table that an action may cause. */
  ghost predicate Allowed(action: Action, before: set<Event>, after: set<Event>)
  {
    match action
    case DeleteByTags(pubkey, tags) => RemoveTagged(before, pubkey, tags) <= after <= before
    case NotifyOnly => after == before
    case Save(e) =>
      || after == before
      || exists f :: after == RowsAfterSave(before, e, f) || after == RowsAfterAddEvent(before, e, f)
  }

  /** What the hub does with a message that is not a deletion: the id in OK, the event handed to
      the peer and the events pushed to listeners are those of the rewritten event. */
  ghost predicate HubOutcome(h: Hub, directory: map<string, PeerInfo>, before: Snapshot, after: Snapshot, ls: Listeners,
                             matches: Matcher, e: Event, uploads: seq<Option<string>>, accept: bool, callFails: bool,
                             f: Faults, address: string, reply: Reply, sent: seq<Live>)
    requires |uploads| == |e.tags|
  {
    var evt := Rewritten(h, e, uploads);
    && reply.Ok? && reply.id == evt.id
    && SendOutcome(directory, before, after, ls, matches, evt, accept, callFails, f, address, reply.accepted, sent)
  }

  /** The hub's EVENT branch, from the signature check to the reply. A deletion event gets no
      reply when all goes well, is never stored and never pushed; any other event is rewritten
      and sent. No table changes but as the event's action allows. */
  method HubEvent(h: Hub, hub: PostgresBackend, peers: map<string, PostgresBackend>, registry: Registry,
                  matches: Matcher, e: Event, uploads: seq<Option<string>>, check: SignatureCheck, accept: bool,
                  picks: seq<nat>, n: nat, callFails: bool, f: Faults, calls: Calls)
    returns (reply: Reply, address: string, sent: seq<Live>)
    requires |uploads| == |e.tags| == |picks| && Aligned(e.tags, calls)
    requires hub.peers != map[] ==> n < |hub.peers| && forall i :: 0 <= i < |picks| ==> picks[i] < |hub.peers|
    modifies (set a | a in peers :: peers[a])`event, registry`written
    ensures registry.written == old(registry.written) + sent
    ensures forall i :: 0 <= i < |sent| ==> sent[i].e == Rewritten(h, e, uploads)
    ensures forall a :: a in peers ==> Allowed(ActionOf(h, e, uploads), old(peers[a].event), peers[a].event)
    ensures check.CheckFailed? || (check.Invalid? && e.kind != KIND_DELETION) ==>
      reply == Ok(e.id, false) && sent == [] && Tables(peers) == old(Tables(peers))
    ensures !check.CheckFailed? && e.kind == KIND_DELETION ==>
      && (reply == NoReply || reply == Stopped) && sent == []
      && (OwnPeerKnown(hub.peers, peers.Keys, e.pubkey) ==>
          var own := peers[hub.peers[e.pubkey].address];
          && DeletionOutcome(old(own.event), own.event, e, true, calls, reply)
          && forall a :: a in peers && peers[a] != own ==> peers[a].event == old(peers[a].event))
    ensures check.Valid? && e.kind != KIND_DELETION ==>
      var evt := Rewritten(h, e, uploads);
      var reached := accept && Stores(evt) && address in peers && !callFails;
      && HubOutcome(h, hub.peers, old(Tables(peers)), Tables(peers), registry.listeners, matches, e, uploads, accept,
                    callFails, f, address, reply, sent)
      && forall a :: a in peers && !(reached && peers[a] == peers[address]) ==> peers[a].event == old(peers[a].event)
  {
    sent, address := [], "";
    if check.CheckFailed? {
      return Ok(e.id, false), address, sent;
    } else if check.Invalid? && e.kind != KIND_DELETION {
      return Ok(e.id, false), address, sent;
    }
    if e.kind == KIND_DELETION {
      ghost var before := Tables(peers);
      var handled := DeleteThroughHub(hub, peers, e, true, calls, picks);
      RemoveTaggedPrefix(e.pubkey, e.tags, handled);
      forall a | a in peers
        ensures Allowed(DeleteByTags(e.pubkey, e.tags), before[a], peers[a].event)
        ensures OwnPeerKnown(hub.peers, peers.Keys, e.pubkey) && peers[a] != peers[hub.peers[e.pubkey].address] ==>
                  peers[a].event == before[a]
      {
        assert Tables(peers)[a] == peers[a].event;
      }
      assert e.tags[..|e.tags|] == e.tags;
      return if handled == |e.tags| then NoReply else Stopped, address, sent;
    }
    var evt := RewriteEvent(h, e, uploads);
    var accepted, message;
    RewrittenIsConsistent(h, e, uploads);
    ghost var before := Tables(peers);
    accepted, message, address, sent := SendEvent(hub, peers, registry, matches, evt, accept, n, callFails, f);
    forall a | a in peers ensures Allowed(ActionOf(h, e, uploads), before[a], peers[a].event) {
      assert Tables(peers)[a] == peers[a].event;
    }
    return Ok(evt.id, accepted), address, sent;
  }

  lemma RemoveTaggedPrefix(pubkey: string, tags: seq<Tag>, k: nat)
    requires k <= |tags|
    ensures forall rows :: RemoveTagged(rows, pubkey, tags) <= RemoveTagged(rows, pubkey, tags[..k])
  {
  }

  /** The EVENT branch on a peer's own port. A deletion event is handled on the peer's table up
      to the first tag that stops it. */
  method PeerEvent(h: Hub, store: PostgresBackend, registry: Registry, matches: Matcher, e: Event,
                   uploads: seq<Option<string>>, check: SignatureCheck, accept: bool, hasIpfs: bool, calls: Calls,
                   f: Faults)
    returns (reply: Reply, sent: seq<Live>)
    requires |uploads| == |e.tags| && Aligned(e.tags, calls)
    modifies store`event, registry`written
    ensures registry.written == old(registry.written) + sent
    ensures Allowed(ActionOf(h, e, uploads), old(store.event), store.event)
    ensures check.CheckFailed? || (check.Invalid? && e.kind != KIND_DELETION) ==>
      reply == Ok(e.id, false) && sent == [] && store.event == old(store.event)
    ensures !check.CheckFailed? && e.kind == KIND_DELETION ==>
      sent == [] && DeletionOutcome(old(store.event), store.event, e, hasIpfs, calls, reply)
    ensures check.Valid? && e.kind != KIND_DELETION ==>
      var evt, outcome := Rewritten(h, e, uploads), SaveOutcome(old(store.event), Rewritten(h, e, uploads), f);
      && store.event ==
         (if accept && Stores(evt) then RowsAfterAddEvent(old(store.event), evt, f) else old(store.event))
      && reply == Ok(evt.id, accept && (!Stores(evt) || outcome != Failed))
      && if accept && (!Stores(evt) || outcome == Stored)
         then OneEach(sent, Targets(registry.listeners, matches, evt), evt) else sent == []
  {
    sent := [];
    if check.CheckFailed? || (check.Invalid? && e.kind != KIND_DELETION) {
      return Ok(e.id, false), sent;
    }
    if e.kind == KIND_DELETION {
      var handled := DeleteTagged(store, e, hasIpfs, calls);
      RemoveTaggedPrefix(e.pubkey, e.tags, handled);
      return if handled == |e.tags| then NoReply else Stopped, sent;
    }
    var evt := RewriteEvent(h, e, uploads);
    RewrittenIsConsistent(h, e, uploads);
    var accepted, message;
    accepted, message, sent := AddEvent(store, registry, matches, evt, accept, f);
    return Ok(evt.id, accepted), sent;
  }

 // ---------- what the tables can hold ----------

  /** A message handled somewhere in the network, by the hub or on a peer's own port, or the
      hourly DELETE of old rows. */
  datatype Step = Received(h: Hub, e: Event, uploads: seq<Option<string>>) | Expiry(cutoff: int)

  /** What HubEvent and PeerEvent guarantee of every table. */
  ghost predicate Follows(before: Snapshot, step: Step, after: Snapshot)
  {
    after.Keys == before.Keys &&
    match step
    case Received(h, e, uploads) =>
      |uploads| == |e.tags| && forall a :: a in before ==> Allowed(ActionOf(h, e, uploads), before[a], after[a])
    case Expiry(cutoff) => forall a :: a in before ==> after[a] == before[a] || after[a] == Purged(before[a], cutoff)
  }

  /** The tables after each step, from empty ones. */
  ghost predicate IsRun(tables: seq<Snapshot>, steps: seq<Step>)
  {
    && |tables| == |steps| + 1
    && (forall a :: a in tables[0] ==> tables[0][a] == {})
    && forall i :: 0 <= i < |steps| ==> Follows(tables[i], steps[i], tables[i + 1])
  }

  predicate Brings(step: Step, r: Event)
  {
    step.Received? && |step.uploads| == |step.e.tags| && ActionOf(step.h, step.e, step.uploads) == Save(r)
  }

  lemma OnlyMessagesBring(before: Snapshot, step: Step, after: Snapshot, a: string, r: Event)
    requires Follows(before, step, after) && a in after && r in after[a]
    ensures r in before[a] || Brings(step, r)
  {
  }

  /** Every row of every table is what the EVENT branch made of a message that arrived earlier. */
  lemma {:induction false} RowsWereRewritten(tables: seq<Snapshot>, steps: seq<Step>, i: nat, a: string, r: Event)
    requires IsRun(tables, steps) && i <= |steps| && a in tables[i] && r in tables[i][a]
    ensures exists j :: 0 <= j < i && Brings(steps[j], r)
  {
    if i > 0 {
      OnlyMessagesBring(tables[i - 1], steps[i - 1], tables[i], a, r);
      if r in tables[i - 1][a] {
        RowsWereRewritten(tables, steps, i - 1, a, r);
      }
    }
  }

  /** What becomes of a message, by the kind its client gave it. */
  lemma ActionByKind(h: Hub, e: Event, uploads: seq<Option<string>>)
    requires |uploads| == |e.tags|
    ensures ActionOf(h, e, uploads).DeleteByTags? <==> e.kind == 5
    ensures ActionOf(h, e, uploads).NotifyOnly? <==> 20000 <= e.kind < 30000
    ensures ActionOf(h, e, uploads).Save? ==> RewrittenAs(h, e, uploads, ActionOf(h, e, uploads).e)
  {
    RewrittenIsConsistent(h, e, uploads);
    RewrittenIsAs(h, e, uploads);
  }

  /** So no table at any point of any run holds an ephemeral event or a deletion event, and
      the id of each row is the one its client signed or the hash of what the row shows. */
  lemma NoEphemeralNoDeletionRows(tables: seq<Snapshot>, steps: seq<Step>, i: nat, a: string, r: Event)
    requires IsRun(tables, steps) && i <= |steps| && a in tables[i] && r in tables[i][a]
    ensures !(20000 <= r.kind < 30000) && r.kind != 5
    ensures exists j :: 0 <= j < i && Brings(steps[j], r) && (r == steps[j].e || r.id == IdOf(steps[j].h.crypto, r))
  {
    RowsWereRewritten(tables, steps, i, a, r);
    var j :| 0 <= j < i && Brings(steps[j], r);
    RewrittenIsConsistent(steps[j].h, steps[j].e, steps[j].uploads);
  }
}

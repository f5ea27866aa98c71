/** The hub's map of peers over time: pings (hub/ping/ping.go), the sweep every five seconds
    (hub/main.go) and the lookup (relayer/storage/postgresql/get.go). Times are nanoseconds. */
module PeerDirectory {
  import opened Prelude
  import opened PostgresStore

  const SECOND := 1_000_000_000
  const EXPIRY := 5 * SECOND

  type Peers = map<string, PeerInfo>

  /** The sweep's effect: what is older than five seconds goes. */
  function Swept(peers: Peers, now: int): Peers
  {
    map k | k in peers && now - peers[k].lastUpdate <= EXPIRY :: peers[k]
  }

  /** One tick of the loop in Init: it deletes entries of the map it ranges over. */
  method Sweep(backend: PostgresBackend, now: int)
    modifies backend`peers
    ensures backend.peers == Swept(old(backend.peers), now)
  {
    var rest := backend.peers.Keys;
    while rest != {}
      invariant rest <= old(backend.peers).Keys
      invariant forall k :: k in backend.peers <==>
                  k in old(backend.peers) && (k in rest || now - old(backend.peers)[k].lastUpdate <= EXPIRY)
      invariant forall k :: k in backend.peers ==> backend.peers[k] == old(backend.peers)[k]
      decreases |rest|
    {
      var k :| k in rest;
      rest := rest - {k};
      var ts := now - backend.peers[k].lastUpdate;
      if ts > EXPIRY {
        backend.peers := backend.peers - {k};
      }
    }
  }

  // ---------- timed runs ----------

  datatype Step = Ping(pubkey: string, address: string) | Tick | Pass(d: nat)

  datatype State = State(now: int, peers: Peers, lastSweep: int)

  function Next(s: State, step: Step): State
  {
    match step
    case Ping(pubkey, address) => s.(peers := s.peers[pubkey := PeerInfo(address, s.now)])
    case Tick => s.(peers := Swept(s.peers, s.now), lastSweep := s.now)
    case Pass(d) => s.(now := s.now + d)
  }

  /** A step on the backend: the Ping service saves the peer, the ticker sweeps. */
  method Take(backend: PostgresBackend, step: Step, now: int, ghost lastSweep: int)
    modifies backend`peers
    ensures backend.peers == Next(State(now, old(backend.peers), lastSweep), step).peers
  {
    match step {
      case Ping(pubkey, address) => backend.SavePeer(address, pubkey, now);
      case Tick => Sweep(backend, now);
      case Pass(_) =>
    }
  }

  /** The run starts at time 0 with an empty map. */
  function Run(steps: seq<Step>): State
  {
    if steps == [] then State(0, map[], 0) else Next(Run(steps[..|steps| - 1]), steps[|steps| - 1])
  }

  /** The peer's latest ping: its address and time. */
  function LatestPing(steps: seq<Step>, pubkey: string): Option<PeerInfo>
  {
    if steps == [] then None
    else
      var last := steps[|steps| - 1];
      if last.Ping? && last.pubkey == pubkey then Some(PeerInfo(last.address, Run(steps[..|steps| - 1]).now))
      else LatestPing(steps[..|steps| - 1], pubkey)
  }

  /** An entry is always the peer's latest ping; it can only be missing because of a sweep that
      came more than five seconds after that ping. */
  lemma {:induction false} EntryIsLatestPing(steps: seq<Step>, pubkey: string)
    ensures pubkey in Run(steps).peers ==> LatestPing(steps, pubkey) == Some(Run(steps).peers[pubkey])
    ensures pubkey !in Run(steps).peers && LatestPing(steps, pubkey).Some? ==>
              Run(steps).lastSweep - LatestPing(steps, pubkey).value.lastUpdate > EXPIRY
  {
    if steps != [] {
      EntryIsLatestPing(steps[..|steps| - 1], pubkey);
      SweepIsPast(steps[..|steps| - 1]);
    }
  }

  lemma {:induction false} SweepIsPast(steps: seq<Step>)
    ensures Run(steps).lastSweep <= Run(steps).now
    ensures forall k :: k in Run(steps).peers ==> Run(steps).peers[k].lastUpdate <= Run(steps).now
  {
    if steps != [] {
      SweepIsPast(steps[..|steps| - 1]);
    }
  }

  /** As long as its latest ping is at most five seconds back, a peer is in the map, and the
      lookup answers the address of that ping. So a peer that pings at gaps of at most five
      seconds is never swept, wherever the sweeps fall. */
  lemma PunctualPeerIsFound(steps: seq<Step>, pubkey: string, answer: string)
    requires LatestPing(steps, pubkey).Some? && LatestPing(steps, pubkey).value.address != ""
    requires Run(steps).now - LatestPing(steps, pubkey).value.lastUpdate <= 5_000_000_000
    requires MayAnswer(Run(steps).peers, pubkey, answer)
    ensures pubkey in Run(steps).peers
    ensures answer == LatestPing(steps, pubkey).value.address
  {
    EntryIsLatestPing(steps, pubkey);
    SweepIsPast(steps);
  }

  /** A peer that pings late: with gaps of up to five seconds and d, whenever it is absent its
      next ping is less than d away. */
  lemma LatePeerIsAbsentBriefly(steps: seq<Step>, more: seq<Step>, pubkey: string, d: int)
    requires LatestPing(steps, pubkey).Some? && pubkey !in Run(steps).peers
    requires Run(steps + more).now <= LatestPing(steps, pubkey).value.lastUpdate + EXPIRY + d
    ensures Run(steps + more).now - Run(steps).now < d
  {
    EntryIsLatestPing(steps, pubkey);
    SweepIsPast(steps);
  }

  /** And it is absent that long: swept just after its five seconds, it stays away until it
      pings again. */
  lemma LatePeerIsAbsent(pubkey: string, address: string, d: nat)
    requires d > 0
    ensures var steps := [Ping(pubkey, address), Pass(EXPIRY + 1), Tick];
            && pubkey !in Run(steps).peers
            && pubkey !in Run(steps + [Pass(d - 1)]).peers
            && Run(steps + [Pass(d - 1)]).now == EXPIRY + d
  {
    var steps := [Ping(pubkey, address), Pass(EXPIRY + 1), Tick];
    RunSnoc([], steps[0]);
    RunSnoc([steps[0]], steps[1]);
    RunSnoc([steps[0], steps[1]], steps[2]);
    RunSnoc(steps, Pass(d - 1));
    assert [] + [steps[0]] == [steps[0]];
    assert [steps[0]] + [steps[1]] == [steps[0], steps[1]];
    assert [steps[0], steps[1]] + [steps[2]] == steps;
  }

  /** As long as the last sweep is at most five seconds back, no entry is more than ten seconds old. */
  lemma NoEntryOlderThanTen(steps: seq<Step>, k: string)
    requires Run(steps).now - Run(steps).lastSweep <= 5_000_000_000
    requires k in Run(steps).peers
    ensures Run(steps).now - Run(steps).peers[k].lastUpdate <= 10_000_000_000
  {
    SinceSweep(steps, k);
  }

  /** Ten seconds is reached: a ping just after a sweep is still there ten seconds later,
      right before the sweep that removes it. */
  lemma TenIsReached(pubkey: string, address: string)
    ensures var s := Run([Ping(pubkey, address), Pass(EXPIRY), Tick, Pass(EXPIRY)]);
            && pubkey in s.peers && s.now - s.peers[pubkey].lastUpdate == 2 * EXPIRY && s.now - s.lastSweep == EXPIRY
            && pubkey !in Next(s, Tick).peers
  {
    var steps := [Ping(pubkey, address), Pass(EXPIRY), Tick, Pass(EXPIRY)];
    RunSnoc([], steps[0]);
    RunSnoc([steps[0]], steps[1]);
    RunSnoc([steps[0], steps[1]], steps[2]);
    RunSnoc([steps[0], steps[1], steps[2]], steps[3]);
    assert [] + [steps[0]] == [steps[0]];
    assert [steps[0]] + [steps[1]] == [steps[0], steps[1]];
    assert [steps[0], steps[1]] + [steps[2]] == [steps[0], steps[1], steps[2]];
    assert [steps[0], steps[1], steps[2]] + [steps[3]] == steps;
  }

  lemma RunSnoc(steps: seq<Step>, step: Step)
    ensures Run(steps + [step]) == Next(Run(steps), step)
  {
    assert (steps + [step])[..|steps|] == steps;
  }

  lemma {:induction false} SinceSweep(steps: seq<Step>, k: string)
    requires k in Run(steps).peers
    ensures Run(steps).lastSweep - Run(steps).peers[k].lastUpdate <= EXPIRY
  {
    if steps != [] {
      var before := steps[..|steps| - 1];
      SweepIsPast(before);
      if k in Run(before).peers {
        SinceSweep(before, k);
      }
    }
  }

  ghost predicate PingsHaveAddresses(steps: seq<Step>)
  {
    forall i :: 0 <= i < |steps| && steps[i].Ping? ==> steps[i].address != ""
  }

  lemma {:induction false} AddressesAreNotEmpty(steps: seq<Step>)
    requires PingsHaveAddresses(steps)
    ensures forall k :: k in Run(steps).peers ==> Run(steps).peers[k].address != ""
  {
    if steps != [] {
      var before := steps[..|steps| - 1];
      assert forall i :: 0 <= i < |before| ==> before[i] == steps[i];
      AddressesAreNotEmpty(before);
    }
  }

  /** When every ping names an address, the lookup always answers the address of some entry,
      the pubkey's own if it has one, and "" exactly when the map is empty. */
  lemma LookupAnswersAnEntry(steps: seq<Step>, pubkey: string, answer: string)
    requires PingsHaveAddresses(steps)
    requires MayAnswer(Run(steps).peers, pubkey, answer)
    ensures answer == "" <==> Run(steps).peers == map[]
    ensures answer != "" ==> exists k :: k in Run(steps).peers && Run(steps).peers[k].address == answer
    ensures pubkey in Run(steps).peers ==> answer == Run(steps).peers[pubkey].address
  {
    AddressesAreNotEmpty(steps);
  }
}

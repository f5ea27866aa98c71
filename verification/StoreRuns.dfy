/** Runs of the event table under concurrent goroutines. SaveEvent is two statements and
    AddEvent a third, so other goroutines' statements come in between. */
module StoreRuns {
  import opened Prelude
  import opened Nostr
  import opened PostgresStore

  /** Where a saving goroutine stands: past the DELETE, or past the INSERT. */
  datatype Phase = Cleared(e: Event) | Inserted(e: Event)

  /** unpruned holds rows whose AfterSave never ran, because it failed or because the save
      came over the bridge, which does not call it. */
  datatype State = State(rows: set<Event>, threads: map<nat, Phase>, unpruned: set<Event>)

  datatype Step =
    | Begin(t: nat, e: Event, ok: bool)      // SaveEvent's first statement; its error is ignored
    | Insert(t: nat, ok: bool)               // SaveEvent's INSERT, or a failure that ends the save
    | Prune(t: nat, ok: bool)                // AfterSave, or the end of a save without it
    | Delete(id: string, pubkey: string)
    | Purge(cutoff: int)

  const EMPTY := State({}, map[], {})

  /** One atomic statement; a step its goroutine is not ready for changes nothing. */
  function Next(s: State, step: Step): State
  {
    match step
    case Begin(t, e, ok) =>
      if t in s.threads then s
      else State(if ok then DeleteSuperseded(s.rows, e) else s.rows, s.threads[t := Cleared(e)], s.unpruned)
    case Insert(t, ok) =>
      if t !in s.threads || !s.threads[t].Cleared? then s
      else
        var e := s.threads[t].e;
        if ok && !HasId(s.rows, e.id) then State(s.rows + {e}, s.threads[t := Inserted(e)], s.unpruned)
        else s.(threads := s.threads - {t})
    case Prune(t, ok) =>
      if t !in s.threads || !s.threads[t].Inserted? then s
      else
        var e := s.threads[t].e;
        if ok then State(Pruned(s.rows, e.pubkey, e.kind), s.threads - {t},
                         set r | r in s.unpruned && !(r.pubkey == e.pubkey && r.kind == e.kind))
        else State(s.rows, s.threads - {t}, s.unpruned + {e})
    case Delete(id, pubkey) => s.(rows := Deleted(s.rows, id, pubkey))
    case Purge(cutoff) => s.(rows := Purged(s.rows, cutoff))
  }

  /** The state after a run from an empty table. */
  function Run(steps: seq<Step>): State
  {
    if steps == [] then EMPTY else Next(Run(steps[..|steps| - 1]), steps[|steps| - 1])
  }

  // ---------- ids ----------

  lemma {:induction false} IdsStayUnique(steps: seq<Step>)
    ensures UniqueIds(Run(steps).rows)
  {
    if steps != [] {
      IdsStayUnique(steps[..|steps| - 1]);
    }
  }

  // ---------- replaceable events ----------

  /** Goroutines between the two statements of a save with this key. */
  function Between(s: State, k: Key): set<nat>
  {
    set t | t in s.threads && s.threads[t].Cleared? && KeyOf(s.threads[t].e) == Some(k)
  }

  /** Saves of the key whose DELETE failed. */
  function FailedClears(steps: seq<Step>, k: Key): nat
  {
    if steps == [] then 0
    else
      var last := steps[|steps| - 1];
      FailedClears(steps[..|steps| - 1], k)
      + if last.Begin? && !last.ok && KeyOf(last.e) == Some(k) then 1 else 0
  }

  ghost predicate OverlapAtMost(steps: seq<Step>, k: Key, c: nat)
  {
    forall i :: 0 <= i <= |steps| ==> |Between(Run(steps[..i]), k)| <= c
  }

  lemma BeginKeepsBound(s: State, t: nat, e: Event, ok: bool, k: Key, bound: nat)
    requires |RowsOf(s.rows, k)| + |Between(s, k)| <= bound
    requires var s' := Next(s, Begin(t, e, ok)); |Between(s', k)| <= bound
    ensures var s' := Next(s, Begin(t, e, ok));
            |RowsOf(s'.rows, k)| + |Between(s', k)| <= bound + if !ok && KeyOf(e) == Some(k) then 1 else 0
  {
    var s' := Next(s, Begin(t, e, ok));
    if t !in s.threads {
      if KeyOf(e) == Some(k) {
        assert Between(s', k) == Between(s, k) + {t};
        if ok {
          assert RowsOf(s'.rows, k) == {};
        }
      } else {
        assert Between(s', k) == Between(s, k);
        SubsetCount(RowsOf(s'.rows, k), RowsOf(s.rows, k));
      }
    }
  }

  lemma InsertMovesOne(s: State, t: nat, ok: bool, k: Key)
    requires t in s.threads && s.threads[t].Cleared?
    ensures Between(Next(s, Insert(t, ok)), k) == Between(s, k) - {t}
    ensures t in Between(s, k) <==> KeyOf(s.threads[t].e) == Some(k)
  {
  }

  lemma InsertKeepsBound(s: State, t: nat, ok: bool, k: Key)
    ensures var s' := Next(s, Insert(t, ok));
            |RowsOf(s'.rows, k)| + |Between(s', k)| <= |RowsOf(s.rows, k)| + |Between(s, k)|
  {
    var s' := Next(s, Insert(t, ok));
    if t in s.threads && s.threads[t].Cleared? {
      var e := s.threads[t].e;
      InsertMovesOne(s, t, ok, k);
      if KeyOf(e) == Some(k) && s'.rows != s.rows {
        assert RowsOf(s'.rows, k) == RowsOf(s.rows, k) + {e};
      } else {
        assert RowsOf(s'.rows, k) == RowsOf(s.rows, k);
      }
    }
  }

  lemma OthersKeepBound(s: State, step: Step, k: Key)
    requires step.Prune? || step.Delete? || step.Purge?
    ensures var s' := Next(s, step);
            |RowsOf(s'.rows, k)| + |Between(s', k)| <= |RowsOf(s.rows, k)| + |Between(s, k)|
  {
    var s' := Next(s, step);
    assert Between(s', k) == Between(s, k);
    SubsetCount(RowsOf(s'.rows, k), RowsOf(s.rows, k));
  }

  /** With at most c saves of a key ever between their two statements, rows and such saves
      together never exceed c, plus one for each save whose DELETE failed. */
  lemma {:induction false} ReplaceableBound(steps: seq<Step>, k: Key, c: nat)
    requires OverlapAtMost(steps, k, c)
    ensures |RowsOf(Run(steps).rows, k)| + |Between(Run(steps), k)| <= c + FailedClears(steps, k)
  {
    if steps == [] {
      assert RowsOf({}, k) == {} && Between(EMPTY, k) == {};
    } else {
      var n := |steps| - 1;
      var before := steps[..n];
      forall i | 0 <= i <= n ensures |Between(Run(before[..i]), k)| <= c {
        assert before[..i] == steps[..i];
      }
      ReplaceableBound(before, k, c);
      assert steps[..|steps|] == steps;
      match steps[n] {
        case Begin(t, e, ok) => BeginKeepsBound(Run(before), t, e, ok, k, c + FailedClears(before, k));
        case Insert(t, ok) => InsertKeepsBound(Run(before), t, ok, k);
        case _ => OthersKeepBound(Run(before), steps[n], k);
      }
    }
  }

  /** NIP-16's promise: saves of a key that never overlap, none of whose DELETEs fails, leave
      at most one row of it, whatever the other goroutines do. */
  lemma AtMostOneWithoutOverlap(steps: seq<Step>, k: Key)
    requires OverlapAtMost(steps, k, 1)
    requires FailedClears(steps, k) == 0
    ensures |RowsOf(Run(steps).rows, k)| <= 1
  {
    ReplaceableBound(steps, k, 1);
  }

  /** The DELETEs of all the saves es, then all their INSERTs. */
  function Begins(es: seq<Event>): seq<Step>
  {
    seq(|es|, i requires 0 <= i < |es| => Begin(i, es[i], true))
  }

  function Inserts(n: nat): seq<Step>
  {
    seq(n, i requires 0 <= i < n => Insert(i, true))
  }

  lemma RunSnoc(steps: seq<Step>, step: Step)
    ensures Run(steps + [step]) == Next(Run(steps), step)
  {
    assert (steps + [step])[..|steps|] == steps;
  }

  lemma {:induction false} AfterBegins(es: seq<Event>)
    ensures var s := Run(Begins(es)); s.rows == {} && s.threads == map t: nat | t < |es| :: Cleared(es[t])
  {
    if es != [] {
      var n := |es| - 1;
      AfterBegins(es[..n]);
      assert Begins(es) == Begins(es[..n]) + [Begin(n, es[n], true)];
      RunSnoc(Begins(es[..n]), Begin(n, es[n], true));
    }
  }

  lemma InsertNew(s: State, t: nat, es: seq<Event>, n: nat)
    requires n < |es| && forall i, j :: 0 <= i < j < |es| ==> es[i].id != es[j].id
    requires s.rows == Elements(es[..n]) && t in s.threads && s.threads[t] == Cleared(es[n])
    ensures Next(s, Insert(t, true)) == s.(rows := Elements(es[..n + 1]), threads := s.threads[t := Inserted(es[n])])
  {
    assert es[..n + 1] == es[..n] + [es[n]];
    assert Elements(es[..n + 1]) == Elements(es[..n]) + {es[n]};
    forall r | r in s.rows ensures r.id != es[n].id {
      var i :| 0 <= i < n && es[i] == r;
    }
  }

  lemma InsertsSnoc(es: seq<Event>, n: nat)
    requires n > 0
    ensures Begins(es) + Inserts(n) == Begins(es) + Inserts(n - 1) + [Insert(n - 1, true)]
  {
    assert Inserts(n) == Inserts(n - 1) + [Insert(n - 1, true)];
  }

  lemma {:induction false} AfterInserts(es: seq<Event>, n: nat)
    requires n <= |es| && forall i, j :: 0 <= i < j < |es| ==> es[i].id != es[j].id
    ensures var s := Run(Begins(es) + Inserts(n));
            && s.rows == Elements(es[..n])
            && forall t: nat :: n <= t < |es| ==> t in s.threads && s.threads[t] == Cleared(es[t])
  {
    if n == 0 {
      AfterBegins(es);
      assert Begins(es) + Inserts(0) == Begins(es);
    } else {
      var before := Begins(es) + Inserts(n - 1);
      var s := Run(before);
      AfterInserts(es, n - 1);
      InsertsSnoc(es, n);
      RunSnoc(before, Insert(n - 1, true));
      InsertNew(s, n - 1, es, n - 1);
      assert Run(Begins(es) + Inserts(n)) == Next(s, Insert(n - 1, true));
    }
  }

  /** And it needs that: however many saves of a key overlap, all their rows can stay, so the
      bound is reached for every c. */
  lemma OverlapLeavesAll(es: seq<Event>, k: Key)
    requires forall i, j :: 0 <= i < j < |es| ==> es[i].id != es[j].id
    requires forall e :: e in es ==> KeyOf(e) == Some(k)
    ensures RowsOf(Run(Begins(es) + Inserts(|es|)).rows, k) == Elements(es)
    ensures |Elements(es)| == |es|
  {
    AfterInserts(es, |es|);
    assert es[..|es|] == es;
    assert forall i, j :: 0 <= i < j < |es| ==> es[i] != es[j];
    DistinctCount(es, Elements(es));
  }

  // ---------- retention ----------

  /** Inserted rows that no AfterSave has followed yet. */
  function Unsettled(s: State): set<Event>
  {
    s.unpruned + set t | t in s.threads && s.threads[t].Inserted? :: s.threads[t].e
  }

  function Settled(s: State, pubkey: string, kind: int): set<Event>
  {
    Group(s.rows, pubkey, kind) - Unsettled(s)
  }

  /** At most a hundred rows of the group are strictly newer than any one of its rows, the
      oldest included. */
  ghost predicate Retained(group: set<Event>)
  {
    forall o :: o in group ==> |Newer(group, o.createdAt)| <= 100
  }

  lemma RetainedSubset(a: set<Event>, b: set<Event>)
    requires a <= b && Retained(b)
    ensures Retained(a)
  {
    forall o | o in a ensures |Newer(a, o.createdAt)| <= RETAINED {
      SubsetCount(Newer(a, o.createdAt), Newer(b, o.createdAt));
    }
  }

  lemma PruneRetains(rows: set<Event>, pubkey: string, kind: int)
    ensures Retained(Group(Pruned(rows, pubkey, kind), pubkey, kind))
  {
    var group := Group(Pruned(rows, pubkey, kind), pubkey, kind);
    forall o | o in group ensures |Newer(group, o.createdAt)| <= RETAINED {
      SubsetCount(Newer(group, o.createdAt), Newer(Own(rows, pubkey), o.createdAt));
    }
  }

  ghost predicate PrunesGroup(s: State, step: Step, pubkey: string, kind: int)
  {
    && step.Prune? && step.ok && step.t in s.threads && s.threads[step.t].Inserted?
    && s.threads[step.t].e.pubkey == pubkey && s.threads[step.t].e.kind == kind
  }

  lemma UnsettledStays(s: State, step: Step, pubkey: string, kind: int, r: Event)
    requires !PrunesGroup(s, step, pubkey, kind)
    requires r in Unsettled(s) && r.pubkey == pubkey && r.kind == kind
    ensures r in Unsettled(Next(s, step))
  {
    var s' := Next(s, step);
    if r !in s.unpruned {
      var t :| t in s.threads && s.threads[t].Inserted? && s.threads[t].e == r;
      assert r in s'.unpruned || (t in s'.threads && s'.threads[t] == s.threads[t]);
    }
  }

  /** Only a successful AfterSave of the group can add to its settled rows. */
  lemma SettledGrowsOnlyByPrune(s: State, step: Step, pubkey: string, kind: int)
    requires !PrunesGroup(s, step, pubkey, kind)
    ensures Settled(Next(s, step), pubkey, kind) <= Settled(s, pubkey, kind)
  {
    var s' := Next(s, step);
    forall r | r in s'.rows && r !in s.rows ensures r in Unsettled(s') {
      assert s'.threads[step.t] == Inserted(r);
    }
    forall r | r in Unsettled(s) && r.pubkey == pubkey && r.kind == kind ensures r in Unsettled(s') {
      UnsettledStays(s, step, pubkey, kind, r);
    }
  }

  /** In every reachable state of every interleaving, each (pubkey, kind) has at most a
      hundred settled rows newer than its oldest settled row. */
  lemma {:induction false} RetentionHolds(steps: seq<Step>, pubkey: string, kind: int)
    ensures Retained(Settled(Run(steps), pubkey, kind))
  {
    if steps != [] {
      var n := |steps| - 1;
      var s := Run(steps[..n]);
      RetentionHolds(steps[..n], pubkey, kind);
      if !PrunesGroup(s, steps[n], pubkey, kind) {
        SettledGrowsOnlyByPrune(s, steps[n], pubkey, kind);
        RetainedSubset(Settled(Run(steps), pubkey, kind), Settled(s, pubkey, kind));
      } else {
        PruneRetains(s.rows, pubkey, kind);
        RetainedSubset(Settled(Run(steps), pubkey, kind), Group(Run(steps).rows, pubkey, kind));
      }
    }
  }

  lemma RetainedAndDistinct(group: set<Event>)
    requires Retained(group) && DistinctTimes(group)
    ensures |group| <= RETAINED + 1
  {
    if group != {} {
      var o := Oldest(group);
      assert group == Newer(group, o.createdAt) + {o};
    }
  }

  /** If no two settled rows of a group share a timestamp, the group has at most 101 rows
      besides those that no AfterSave has followed. */
  lemma AtMost101(steps: seq<Step>, pubkey: string, kind: int)
    requires DistinctTimes(Settled(Run(steps), pubkey, kind))
    ensures var s := Run(steps);
            var group := Group(s.rows, pubkey, kind);
            |group| <= 101 + |group * Unsettled(s)|
  {
    var s := Run(steps);
    var group := Group(s.rows, pubkey, kind);
    RetentionHolds(steps, pubkey, kind);
    RetainedAndDistinct(Settled(s, pubkey, kind));
    assert group == Settled(s, pubkey, kind) + group * Unsettled(s);
  }

  /** Saves over the bridge, one after another: two statements and no AfterSave. */
  function BridgeSaves(es: seq<Event>): seq<Step>
  {
    if es == [] then []
    else
      var n := |es| - 1;
      BridgeSaves(es[..n]) + [Begin(n, es[n], true)] + [Insert(n, true)] + [Prune(n, false)]
  }

  lemma BridgeSavesOne(rows: set<Event>, n: nat, e: Event)
    requires !HasId(rows, e.id) && KeyOf(e).None?
    ensures Next(Next(Next(State(rows, map[], rows), Begin(n, e, true)), Insert(n, true)), Prune(n, false)) ==
            State(rows + {e}, map[], rows + {e})
  {
    var s1, s2 := State(rows, map[n := Cleared(e)], rows), State(rows + {e}, map[n := Inserted(e)], rows);
    assert Next(State(rows, map[], rows), Begin(n, e, true)) == s1;
    assert Next(s1, Insert(n, true)) == s2;
  }

  /** None of them is ever pruned away. */
  lemma {:induction false} BridgeKeepsAll(es: seq<Event>)
    requires forall i, j :: 0 <= i < j < |es| ==> es[i].id != es[j].id
    requires forall e :: e in es ==> KeyOf(e).None?
    ensures Run(BridgeSaves(es)) == State(Elements(es), map[], Elements(es))
  {
    if es != [] {
      var n := |es| - 1;
      var before, e, rows := BridgeSaves(es[..n]), es[n], Elements(es[..n]);
      BridgeKeepsAll(es[..n]);
      RunSnoc(before, Begin(n, e, true));
      RunSnoc(before + [Begin(n, e, true)], Insert(n, true));
      RunSnoc(before + [Begin(n, e, true)] + [Insert(n, true)], Prune(n, false));
      BridgeSavesOne(rows, n, e);
      assert rows + {e} == Elements(es);
    }
  }

  /** So the bound does not hold for them: a group can have any number of rows. */
  lemma BridgeIsUnbounded(pubkey: string, kind: int, n: nat)
    requires !Replaceable(kind) && kind != KIND_RECOMMEND_SERVER
    ensures exists steps :: |Group(Run(steps).rows, pubkey, kind)| == n
  {
    var es := Series(pubkey, kind, n);
    SeriesCount(pubkey, kind, n);
    BridgeKeepsAll(es);
    assert Group(Elements(es), pubkey, kind) == Elements(es);
    assert |Group(Run(BridgeSaves(es)).rows, pubkey, kind)| == n;
  }

  lemma {:induction false} Oldest(all: set<Event>) returns (o: Event)
    requires all != {}
    ensures o in all && forall r :: r in all ==> o.createdAt <= r.createdAt
    decreases |all|
  {
    o :| o in all;
    if all - {o} != {} {
      var best := Oldest(all - {o});
      if best.createdAt < o.createdAt {
        o := best;
      }
    }
  }

  // ---------- where rows come from ----------

  predicate Holds(s: State, r: Event)
  {
    r in s.rows || exists t :: t in s.threads && s.threads[t].e == r
  }

  lemma OnlyBeginBrings(s: State, step: Step, r: Event)
    requires Holds(Next(s, step), r)
    ensures Holds(s, r) || (step.Begin? && step.e == r)
  {
  }

  /** Every row was handed to a save, so whatever holds of all saved events holds of all rows. */
  lemma {:induction false} RowsWereSaved(steps: seq<Step>, r: Event)
    requires Holds(Run(steps), r)
    ensures exists i :: 0 <= i < |steps| && steps[i].Begin? && steps[i].e == r
  {
    if steps != [] {
      var n := |steps| - 1;
      OnlyBeginBrings(Run(steps[..n]), steps[n], r);
      if Holds(Run(steps[..n]), r) {
        RowsWereSaved(steps[..n], r);
        var i :| 0 <= i < n && steps[..n][i].Begin? && steps[..n][i].e == r;
        assert steps[i].e == r;
      }
    }
  }
}

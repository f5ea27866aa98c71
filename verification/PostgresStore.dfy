/** relayer/storage/postgresql: the event table and the peer map behind PostgresBackend.
    The functions say what each statement does to the set of rows, the class runs them. */
module PostgresStore {
  import opened Prelude
  import opened Nostr
  import opened SqlText
  import opened SqlMeaning
  import opened PostgresQuery

  const RETAINED := 100

  // ---------- what the statements mean ----------

  predicate Replaceable(kind: int)
  {
    kind == KIND_SET_METADATA || kind == KIND_CONTACT_LIST || 10000 <= kind < 20000
  }

  /** The DELETE in front of the INSERT. */
  function DeleteSuperseded(rows: set<Event>, e: Event): set<Event>
  {
    if Replaceable(e.kind) then
      set r | r in rows && !(r.pubkey == e.pubkey && r.kind == e.kind)
    else if e.kind == KIND_RECOMMEND_SERVER then
      set r | r in rows && !(r.pubkey == e.pubkey && r.kind == e.kind && r.content == e.content)
    else rows
  }

  predicate HasId(rows: set<Event>, id: string)
  {
    exists r :: r in rows && r.id == id
  }

  /** INSERT ... ON CONFLICT (id) DO NOTHING. */
  function InsertOrIgnore(rows: set<Event>, e: Event): set<Event>
  {
    if HasId(rows, e.id) then rows else rows + {e}
  }

  function Saved(rows: set<Event>, e: Event): set<Event>
  {
    InsertOrIgnore(DeleteSuperseded(rows, e), e)
  }

  function Deleted(rows: set<Event>, id: string, pubkey: string): set<Event>
  {
    set r | r in rows && !(r.id == id && r.pubkey == pubkey)
  }

  function Purged(rows: set<Event>, cutoff: int): set<Event>
  {
    set r | r in rows && r.createdAt >= cutoff
  }

  function Own(rows: set<Event>, pubkey: string): set<Event>
  {
    set r | r in rows && r.pubkey == pubkey
  }

  function Group(rows: set<Event>, pubkey: string, kind: int): set<Event>
  {
    set r | r in rows && r.pubkey == pubkey && r.kind == kind
  }

  function Newer(rows: set<Event>, t: int): set<Event>
  {
    set r | r in rows && r.createdAt > t
  }

  function AtLeast(rows: set<Event>, t: int): set<Event>
  {
    set r | r in rows && r.createdAt >= t
  }

  /** A row of the (pubkey, kind) with more than a hundred strictly newer rows of the same
      pubkey, of whatever kind. */
  predicate Stale(rows: set<Event>, pubkey: string, kind: int, r: Event)
  {
    r.pubkey == pubkey && r.kind == kind && |Newer(Own(rows, pubkey), r.createdAt)| > 100
  }

  /** The retention rule, said by counting instead of by an OFFSET. */
  function Pruned(rows: set<Event>, pubkey: string, kind: int): set<Event>
  {
    set r | r in rows && !Stale(rows, pubkey, kind, r)
  }

  ghost predicate UniqueIds(rows: set<Event>)
  {
    forall r1, r2 :: r1 in rows && r2 in rows && r1.id == r2.id ==> r1 == r2
  }

  // ---------- ORDER BY created_at DESC LIMIT n ----------

  method SelectNewest(all: set<Event>, n: nat) returns (xs: seq<Event>)
    ensures NewestOf(xs, all, n)
  {
    xs := SelectRows(all, n, Descending);
    DescendingIsNewest(xs, all, n);
  }

  lemma NewestExists(all: set<Event>) returns (m: Event)
    requires all != {}
    ensures m in all && forall r :: r in all ==> r.createdAt <= m.createdAt
  {
    m := FirstExists(all, Descending);
    forall r | r in all ensures r.createdAt <= m.createdAt {
      assert Rank(Descending, r) <= Rank(Descending, m);
    }
  }

  // ---------- counting ----------

  lemma SubsetCount<T>(a: set<T>, b: set<T>)
    requires a <= b
    ensures |a| <= |b|
  {
    assert |b| == |a| + |b - a| by {
      assert b == a + (b - a);
    }
  }

  lemma {:induction false} DistinctCount(xs: seq<Event>, s: set<Event>)
    requires forall i, j :: 0 <= i < j < |xs| ==> xs[i] != xs[j]
    requires forall r :: r in s <==> r in xs
    ensures |s| == |xs|
  {
    if xs == [] {
      assert s == {};
    } else {
      assert xs[0] in s;
      DistinctCount(xs[1..], s - {xs[0]});
    }
  }

  lemma NewerComeBefore(xs: seq<Event>, all: set<Event>, k: nat)
    requires NewestOf(xs, all, k + 1) && |xs| == k + 1
    ensures |Newer(all, xs[k].createdAt)| <= k
  {
    var front := set r | r in xs[..k];
    DistinctCount(xs[..k], front);
    forall r | r in Newer(all, xs[k].createdAt) ensures r in front {
      assert r in xs;
      var i :| 0 <= i < |xs| && xs[i] == r;
      assert xs[..k][i] == r;
    }
    SubsetCount(Newer(all, xs[k].createdAt), front);
  }

  /** Where `OFFSET k LIMIT 1` lands: at most k rows are strictly newer than the k-th (from
      zero) newest, and more than k are at least as new. */
  lemma RankOfOffset(xs: seq<Event>, all: set<Event>, k: nat)
    requires NewestOf(xs, all, k + 1) && |xs| == k + 1
    ensures |Newer(all, xs[k].createdAt)| <= k < |AtLeast(all, xs[k].createdAt)|
  {
    NewerComeBefore(xs, all, k);
    var whole := set r | r in xs;
    DistinctCount(xs, whole);
    forall r | r in whole ensures r in AtLeast(all, xs[k].createdAt) {
      var i :| 0 <= i < |xs| && xs[i] == r;
    }
    SubsetCount(whole, AtLeast(all, xs[k].createdAt));
  }

  /** That pair of bounds fixes the timestamp. */
  lemma RankIsUnique(all: set<Event>, k: nat, t: int, u: int)
    requires |Newer(all, t)| <= k < |AtLeast(all, t)|
    requires |Newer(all, u)| <= k < |AtLeast(all, u)|
    ensures t == u
  {
    if t < u {
      SubsetCount(AtLeast(all, u), Newer(all, t));
    } else if u < t {
      SubsetCount(AtLeast(all, t), Newer(all, u));
    }
  }

  /** A row is older than the (k+1)-st newest exactly when more than k rows are newer than it. */
  lemma OlderThanRank(all: set<Event>, k: nat, t: int, r: Event)
    requires |Newer(all, t)| <= k < |AtLeast(all, t)|
    ensures r.createdAt < t <==> |Newer(all, r.createdAt)| > k
  {
    if r.createdAt < t {
      SubsetCount(AtLeast(all, t), Newer(all, r.createdAt));
    } else {
      SubsetCount(Newer(all, r.createdAt), Newer(all, t));
    }
  }

  // ---------- the retention rule ----------

  /** Pruning twice is pruning once. */
  lemma PruneIsIdempotent(rows: set<Event>, pubkey: string, kind: int)
    ensures Pruned(Pruned(rows, pubkey, kind), pubkey, kind) == Pruned(rows, pubkey, kind)
  {
    var once := Pruned(rows, pubkey, kind);
    forall r | r in once ensures !Stale(once, pubkey, kind, r) {
      SubsetCount(Newer(Own(once, pubkey), r.createdAt), Newer(Own(rows, pubkey), r.createdAt));
    }
  }

  /** Whichever way the database breaks ties, the pubkey's 101st newest timestamp is the
      same before and after pruning; a pubkey with at most a hundred rows loses none. */
  lemma PruneKeepsRank(rows: set<Event>, pubkey: string, kind: int, xs: seq<Event>, ys: seq<Event>)
    requires NewestOf(xs, Own(rows, pubkey), RETAINED + 1)
    requires NewestOf(ys, Own(Pruned(rows, pubkey, kind), pubkey), RETAINED + 1)
    ensures |ys| == |xs|
    ensures |xs| == RETAINED + 1 ==> ys[RETAINED].createdAt == xs[RETAINED].createdAt
    ensures |xs| <= RETAINED ==> Pruned(rows, pubkey, kind) == rows
  {
    var own, kept := Own(rows, pubkey), Own(Pruned(rows, pubkey, kind), pubkey);
    if |xs| <= RETAINED {
      forall r | r in rows ensures !Stale(rows, pubkey, kind, r) {
        SubsetCount(Newer(own, r.createdAt), own);
      }
      assert Pruned(rows, pubkey, kind) == rows;
    } else {
      var t := xs[RETAINED].createdAt;
      RankOfOffset(xs, own, RETAINED);
      forall r | r in own && r.createdAt >= t ensures r in kept {
        OlderThanRank(own, RETAINED, t, r);
      }
      assert AtLeast(kept, t) == AtLeast(own, t) && Newer(kept, t) == Newer(own, t);
      SubsetCount(AtLeast(kept, t), kept);
      RankOfOffset(ys, kept, RETAINED);
      RankIsUnique(kept, RETAINED, t, ys[RETAINED].createdAt);
    }
  }

  /** Only stale rows of the one (pubkey, kind) go; every other row stays, and each stale row
      really has its hundred and one newer rows left in the table. */
  lemma PruneRemovesOnlyStale(rows: set<Event>, pubkey: string, kind: int, r: Event)
    requires r in rows && r !in Pruned(rows, pubkey, kind)
    ensures r.pubkey == pubkey && r.kind == kind
    ensures |Newer(Own(Pruned(rows, pubkey, kind), pubkey), r.createdAt)| > RETAINED
  {
    KeptNewer(rows, pubkey, kind, r);
  }

  lemma KeptNewer(rows: set<Event>, pubkey: string, kind: int, r: Event)
    requires Stale(rows, pubkey, kind, r)
    ensures |Newer(Own(Pruned(rows, pubkey, kind), pubkey), r.createdAt)| > RETAINED
  {
    var own := Own(rows, pubkey);
    SubsetCount(Newer(own, r.createdAt), own);
    var xs := SomeNewest(own, RETAINED + 1);
    var t := xs[RETAINED].createdAt;
    RankOfOffset(xs, own, RETAINED);
    OlderThanRank(own, RETAINED, t, r);
    forall x | x in AtLeast(own, t) ensures x in Newer(Own(Pruned(rows, pubkey, kind), pubkey), r.createdAt) {
      OlderThanRank(own, RETAINED, t, x);
    }
    SubsetCount(AtLeast(own, t), Newer(Own(Pruned(rows, pubkey, kind), pubkey), r.createdAt));
  }

  lemma {:induction false} SomeNewest(all: set<Event>, n: nat) returns (xs: seq<Event>)
    ensures NewestOf(xs, all, n)
    decreases n
  {
    if n == 0 || all == {} {
      xs := [];
    } else {
      var m := NewestExists(all);
      var more := SomeNewest(all - {m}, n - 1);
      xs := [m] + more;
    }
  }

  // ---------- against the comment: the 100 most recent of each key ----------

  /** The pubkey's rows of the other kinds. */
  function Others(rows: set<Event>, pubkey: string, kind: int): set<Event>
  {
    set r | r in rows && r.pubkey == pubkey && r.kind != kind
  }

  /** Of the rows of the key exactly those stay that have fewer than a hundred newer rows of
      the same key. */
  ghost predicate KeepsHundred(rows: set<Event>, pubkey: string, kind: int)
  {
    var group := Group(rows, pubkey, kind);
    forall r :: r in group ==> (r in Pruned(rows, pubkey, kind) <==> |Newer(group, r.createdAt)| < 100)
  }

  lemma NewerSplits(rows: set<Event>, pubkey: string, kind: int, t: int)
    ensures |Newer(Own(rows, pubkey), t)| ==
            |Newer(Group(rows, pubkey, kind), t)| + |Newer(Others(rows, pubkey, kind), t)|
  {
    var group, others := Newer(Group(rows, pubkey, kind), t), Newer(Others(rows, pubkey, kind), t);
    assert Newer(Own(rows, pubkey), t) == group + others;
    assert group !! others;
  }

  /** The last place among the hundred, or the last one taken. */
  function LastPlace(xs: seq<Event>): nat
    requires xs != []
  {
    if |xs| < RETAINED then |xs| - 1 else RETAINED - 1
  }

  lemma NewestPrefix(xs: seq<Event>, all: set<Event>, n: nat, k: nat)
    requires NewestOf(xs, all, n) && k <= |xs|
    ensures NewestOf(xs[..k], all, k)
  {
    var front := xs[..k];
    assert forall j :: 0 <= j < k ==> front[j] == xs[j];
    forall i, r | 0 <= i < k && r in all && r !in front ensures r.createdAt <= front[i].createdAt {
      if r in xs {
        var j :| 0 <= j < |xs| && xs[j] == r;
        assert j >= k;
      }
    }
  }

  lemma AllOfThem(xs: seq<Event>, all: set<Event>, n: nat, r: Event)
    requires NewestOf(xs, all, n) && |xs| < n && r in all
    ensures r in xs
  {
    var found := set x | x in xs;
    DistinctCount(xs, found);
    if r !in xs {
      SubsetCount(found, all - {r});
    }
  }

  /** The rows with fewer than a hundred newer ones are those as new as the last place. */
  lemma AmongHundred(xs: seq<Event>, group: set<Event>, r: Event)
    requires NewestOf(xs, group, RETAINED + 1) && r in group && xs != []
    ensures |Newer(group, r.createdAt)| < RETAINED <==> r.createdAt >= xs[LastPlace(xs)].createdAt
  {
    var last := LastPlace(xs);
    if |xs| < RETAINED {
      AllOfThem(xs, group, RETAINED + 1, r);
      SubsetCount(Newer(group, r.createdAt), group);
    } else {
      NewestPrefix(xs, group, RETAINED + 1, RETAINED);
      RankOfOffset(xs[..RETAINED], group, RETAINED - 1);
      OlderThanRank(group, RETAINED - 1, xs[last].createdAt, r);
    }
  }

  /** A row with exactly a hundred newer ones is as old as the 101st. */
  lemma ExactlyHundred(xs: seq<Event>, group: set<Event>, r: Event)
    requires NewestOf(xs, group, RETAINED + 1) && r in group && |Newer(group, r.createdAt)| == RETAINED
    ensures |xs| == RETAINED + 1 && xs[RETAINED].createdAt == r.createdAt < xs[RETAINED - 1].createdAt
  {
    SubsetCount(Newer(group, r.createdAt), group - {r});
    AmongHundred(xs, group, r);
    RankOfOffset(xs, group, RETAINED);
    OlderThanRank(group, RETAINED, xs[RETAINED].createdAt, r);
    assert forall i :: 0 <= i < RETAINED ==> xs[i].createdAt >= xs[RETAINED - 1].createdAt;
    if r in xs {
      var i :| 0 <= i < |xs| && xs[i] == r;
    }
  }

  /** When the statement does what its comment says, for every table and with ties in any
      order: exactly when the pubkey has at most a hundred rows, of all kinds, newer than the
      last place of the key, and, if a row of the key comes after that place, some row of
      another kind is newer than it. */
  lemma WhenHundredAreKept(rows: set<Event>, pubkey: string, kind: int, xs: seq<Event>)
    requires NewestOf(xs, Group(rows, pubkey, kind), RETAINED + 1) && xs != []
    ensures KeepsHundred(rows, pubkey, kind) <==>
      && |Newer(Others(rows, pubkey, kind), xs[LastPlace(xs)].createdAt)|
           <= RETAINED - |Newer(Group(rows, pubkey, kind), xs[LastPlace(xs)].createdAt)|
      && (|xs| > RETAINED && xs[RETAINED].createdAt < xs[RETAINED - 1].createdAt ==>
            Newer(Others(rows, pubkey, kind), xs[RETAINED].createdAt) != {})
  {
    var group, others := Group(rows, pubkey, kind), Others(rows, pubkey, kind);
    var own, last := Own(rows, pubkey), LastPlace(xs);
    var t := xs[last].createdAt;
    NewerSplits(rows, pubkey, kind, t);
    if KeepsHundred(rows, pubkey, kind) {
      AmongHundred(xs, group, xs[last]);
      assert xs[last] in Pruned(rows, pubkey, kind);
      if |xs| > RETAINED && xs[RETAINED].createdAt < t {
        AmongHundred(xs, group, xs[RETAINED]);
        assert xs[RETAINED] !in Pruned(rows, pubkey, kind);
        RankOfOffset(xs, group, RETAINED);
        NewerSplits(rows, pubkey, kind, xs[RETAINED].createdAt);
      }
    } else {
      var r :| r in group && !(r in Pruned(rows, pubkey, kind) <==> |Newer(group, r.createdAt)| < RETAINED);
      AmongHundred(xs, group, r);
      NewerSplits(rows, pubkey, kind, r.createdAt);
      if r.createdAt >= t {
        SubsetCount(Newer(own, r.createdAt), Newer(own, t));
      } else {
        ExactlyHundred(xs, group, r);
      }
    }
  }

  ghost predicate DistinctTimes(rows: set<Event>)
  {
    forall a, b :: a in rows && b in rows && a.createdAt == b.createdAt ==> a == b
  }

  lemma OneAsNew(rows: set<Event>, r: Event)
    requires DistinctTimes(rows) && r in rows
    ensures |AtLeast(rows, r.createdAt)| == |Newer(rows, r.createdAt)| + 1
  {
    assert AtLeast(rows, r.createdAt) == Newer(rows, r.createdAt) + {r};
  }

  /** With distinct times a place has as many newer rows as its number says. */
  lemma PlaceIsRank(rows: set<Event>, xs: seq<Event>, n: nat, k: nat)
    requires NewestOf(xs, rows, n) && k < |xs| && DistinctTimes(rows)
    ensures |Newer(rows, xs[k].createdAt)| == k
  {
    NewestPrefix(xs, rows, n, k + 1);
    var front := xs[..k + 1];
    assert front[k] == xs[k];
    RankOfOffset(front, rows, k);
    OneAsNew(rows, xs[k]);
  }

  /** So with distinct times: at most 100 - last rows of other kinds may be newer than the last
      place, and a 101st row of the key needs a newer row of another kind. */
  lemma WhenHundredAreKeptDistinct(rows: set<Event>, pubkey: string, kind: int, xs: seq<Event>)
    requires NewestOf(xs, Group(rows, pubkey, kind), RETAINED + 1) && xs != []
    requires DistinctTimes(Group(rows, pubkey, kind))
    ensures KeepsHundred(rows, pubkey, kind) <==>
      && |Newer(Others(rows, pubkey, kind), xs[LastPlace(xs)].createdAt)| <= RETAINED - LastPlace(xs)
      && (|xs| > RETAINED ==> Newer(Others(rows, pubkey, kind), xs[RETAINED].createdAt) != {})
  {
    WhenHundredAreKept(rows, pubkey, kind, xs);
    PlaceIsRank(Group(rows, pubkey, kind), xs, RETAINED + 1, LastPlace(xs));
    if |xs| > RETAINED {
      assert xs[RETAINED] != xs[RETAINED - 1];
    }
  }

  function Elements(es: seq<Event>): set<Event>
  {
    set e | e in es
  }

  /** n events of a pubkey and kind, one second apart. */
  function Series(pubkey: string, kind: int, n: nat): seq<Event>
  {
    seq(n, i requires 0 <= i < n => Event(seq(i, _ => '0'), pubkey, i + 1, kind, [], "", ""))
  }

  lemma SeriesCount(pubkey: string, kind: int, n: nat)
    ensures |Elements(Series(pubkey, kind, n))| == n
    ensures forall e :: e in Series(pubkey, kind, n) ==> e.pubkey == pubkey && e.kind == kind && e.createdAt > 0
    ensures forall i, j :: 0 <= i < j < n ==> Series(pubkey, kind, n)[i].id != Series(pubkey, kind, n)[j].id
  {
    var es := Series(pubkey, kind, n);
    forall i, j | 0 <= i < j < n ensures es[i].id != es[j].id {
      assert |es[i].id| == i && |es[j].id| == j;
    }
    assert forall i, j :: 0 <= i < j < n ==> es[i] != es[j];
    DistinctCount(es, Elements(es));
  }

  /** One way to miss the comment: the only row of its key goes, because the pubkey has 101
      newer rows of another kind. */
  lemma OnlyRowIsLost(e: Event, kind: int)
    requires e.kind != kind && e.createdAt <= 0
    ensures var rows := {e} + Elements(Series(e.pubkey, kind, 101));
            && Group(rows, e.pubkey, e.kind) == {e} && e !in Pruned(rows, e.pubkey, e.kind)
            && !KeepsHundred(rows, e.pubkey, e.kind)
  {
    var es := Series(e.pubkey, kind, RETAINED + 1);
    var rows := {e} + Elements(es);
    SeriesCount(e.pubkey, kind, RETAINED + 1);
    assert Newer(Own(rows, e.pubkey), e.createdAt) == Elements(es);
    assert Group(rows, e.pubkey, e.kind) == {e};
    assert Newer(Group(rows, e.pubkey, e.kind), e.createdAt) == {};
  }

  lemma FewRowsStay(rows: set<Event>, pubkey: string, kind: int)
    requires |Own(rows, pubkey)| <= RETAINED + 1
    ensures Pruned(rows, pubkey, kind) == rows
  {
    var own := Own(rows, pubkey);
    forall r | r in rows && r.pubkey == pubkey ensures |Newer(own, r.createdAt)| <= RETAINED {
      SubsetCount(Newer(own, r.createdAt), own - {r});
    }
  }

  lemma SeriesOldest(pubkey: string, kind: int, n: nat)
    requires n > 0
    ensures var es := Series(pubkey, kind, n); Newer(Elements(es), es[0].createdAt) == Elements(es) - {es[0]}
  {
    var es := Series(pubkey, kind, n);
    assert es[0].createdAt == 1;
    forall r | r in Elements(es) && r != es[0] ensures r.createdAt > 1 {
      var i :| 0 <= i < |es| && es[i] == r;
    }
  }

  /** The other: a pubkey with rows of one kind only keeps 101 of them. */
  lemma HundredAndOneStay(pubkey: string, kind: int)
    ensures var rows := Elements(Series(pubkey, kind, 101));
            && |Group(rows, pubkey, kind)| == 101 && Pruned(rows, pubkey, kind) == rows
            && !KeepsHundred(rows, pubkey, kind)
  {
    var es := Series(pubkey, kind, RETAINED + 1);
    var rows, oldest := Elements(es), es[0];
    SeriesCount(pubkey, kind, RETAINED + 1);
    assert Group(rows, pubkey, kind) == rows == Own(rows, pubkey);
    FewRowsStay(rows, pubkey, kind);
    SeriesOldest(pubkey, kind, RETAINED + 1);
    assert oldest in rows && |rows - {oldest}| == RETAINED;
  }

  // ---------- replacement ----------

  /** What a save replaces: the rows of the same (pubkey, kind), or for kind 2 of the same
      (pubkey, content). */
  datatype Key = ByKind(pubkey: string, kind: int) | ByContent(pubkey: string, content: string)

  function KeyOf(e: Event): Option<Key>
  {
    if Replaceable(e.kind) then Some(ByKind(e.pubkey, e.kind))
    else if e.kind == KIND_RECOMMEND_SERVER then Some(ByContent(e.pubkey, e.content))
    else None
  }

  function RowsOf(rows: set<Event>, k: Key): set<Event>
  {
    set r | r in rows && KeyOf(r) == Some(k)
  }

  /** The two DELETE statements remove exactly the rows that share the event's key. */
  lemma SupersededIsSameKey(rows: set<Event>, e: Event, r: Event)
    requires r in rows
    ensures r in DeleteSuperseded(rows, e) <==> KeyOf(e).None? || KeyOf(r) != KeyOf(e)
  {
  }

  /** Which rows an event's DELETE takes away: for kinds 0, 3 and 10000 to 19999 those of its
      pubkey and kind, for kind 2 those of its pubkey, kind and content, for all others none. */
  lemma WhatIsReplaced(rows: set<Event>, e: Event, r: Event)
    requires r in rows
    ensures r !in DeleteSuperseded(rows, e) <==>
      && r.pubkey == e.pubkey && r.kind == e.kind
      && (e.kind == 0 || e.kind == 3 || 10000 <= e.kind < 20000 || (e.kind == 2 && r.content == e.content))
    ensures KeyOf(r) == KeyOf(e) && KeyOf(e).Some? <==>
      && r.pubkey == e.pubkey && r.kind == e.kind
      && (e.kind == 0 || e.kind == 3 || 10000 <= e.kind < 20000 || (e.kind == 2 && r.content == e.content))
  {
  }

  /** A save that runs alone replaces by order of arrival, whatever the timestamps say: the
      new event is the only row of its key, unless its id is taken by a row of another key,
      and then the key is left without any row. */
  lemma LastArrivalWins(rows: set<Event>, e: Event, k: Key)
    requires KeyOf(e) == Some(k)
    ensures RowsOf(Saved(rows, e), k) ==
            if exists r :: r in rows && r.id == e.id && KeyOf(r) != Some(k) then {} else {e}
  {
  }

  /** NIP-16: among the event and the rows of its key, the newest stays. */
  ghost predicate NewestStays(rows: set<Event>, e: Event, k: Key)
  {
    forall r :: r == e || r in RowsOf(rows, k) ==>
      exists s :: s in RowsOf(Saved(rows, e), k) && s.createdAt >= r.createdAt
  }

  /** A save that runs alone meets it exactly when the event's id is free of other keys and no
      old row of the key is newer. */
  lemma WhenNewestStays(rows: set<Event>, e: Event, k: Key)
    requires KeyOf(e) == Some(k)
    ensures NewestStays(rows, e, k) <==>
      && (forall r :: r in rows && r.id == e.id ==> KeyOf(r) == Some(k))
      && (forall r :: r in RowsOf(rows, k) ==> r.createdAt <= e.createdAt)
  {
    LastArrivalWins(rows, e, k);
    if (forall r :: r in rows && r.id == e.id ==> KeyOf(r) == Some(k))
       && (forall r :: r in RowsOf(rows, k) ==> r.createdAt <= e.createdAt)
    {
      assert e in RowsOf(Saved(rows, e), k);
    }
  }

  /** An older event that arrives later takes the place of a newer one. */
  lemma OlderReplacesNewer(newer: Event, older: Event)
    requires KeyOf(newer).Some? && KeyOf(older) == KeyOf(newer) && older.createdAt < newer.createdAt
    ensures Saved({newer}, older) == {older} && !NewestStays({newer}, older, KeyOf(newer).value)
  {
    SupersededIsSameKey({newer}, older, newer);
    WhenNewestStays({newer}, older, KeyOf(newer).value);
    assert newer in RowsOf({newer}, KeyOf(newer).value);
  }

  // ---------- the backend ----------

  datatype SaveResult = Stored | Duplicate | Failed

  datatype PeerInfo = PeerInfo(address: string, lastUpdate: int)

  /** An address the lookup may answer when it knows none for the pubkey itself. */
  ghost predicate MayAnswer(peers: map<string, PeerInfo>, pubkey: string, address: string)
  {
    if pubkey in peers && peers[pubkey].address != "" then address == peers[pubkey].address
    else if peers == map[] then address == ""
    else exists k :: k in peers && address == peers[k].address
  }

  class PostgresBackend {
    var event: set<Event>
    var peers: map<string, PeerInfo>

    constructor ()
      ensures event == {} && peers == map[]
    {
      event, peers := {}, map[];
    }

    /** Two statements; the outcome of the first one is not looked at. The flags say which of
        them the database fails. */
    method SaveEvent(e: Event, deleteFails: bool, insertFails: bool) returns (r: SaveResult)
      modifies this`event
      ensures var left := if deleteFails then old(event) else DeleteSuperseded(old(event), e);
              && event == (if insertFails then left else InsertOrIgnore(left, e))
              && r == (if insertFails then Failed else if HasId(left, e.id) then Duplicate else Stored)
    {
      if e.kind == KIND_SET_METADATA || e.kind == KIND_CONTACT_LIST || (10000 <= e.kind && e.kind < 20000) {
        if !deleteFails {
          event := set r | r in event && !(r.pubkey == e.pubkey && r.kind == e.kind);
        }
      } else if e.kind == KIND_RECOMMEND_SERVER {
        if !deleteFails {
          event := set r | r in event && !(r.pubkey == e.pubkey && r.kind == e.kind && r.content == e.content);
        }
      }
      if insertFails {
        return Failed;
      }
      if exists r :: r in event && r.id == e.id {
        return Duplicate;
      }
      event := event + {e};
      return Stored;
    }

    /** The DELETE with the OFFSET 100 LIMIT 1 subquery: it removes the stale rows, no more
        and no fewer. With no 101st row the subquery is NULL and the comparison never holds. */
    method AfterSave(e: Event, fails: bool)
      modifies this`event
      ensures event == if fails then old(event) else Pruned(old(event), e.pubkey, e.kind)
    {
      if fails {
        return;
      }
      var own := set r | r in event && r.pubkey == e.pubkey;
      assert own == Own(event, e.pubkey);
      var newest := SelectNewest(own, RETAINED + 1);
      if |newest| == RETAINED + 1 {
        var t := newest[RETAINED].createdAt;
        RankOfOffset(newest, own, RETAINED);
        forall r | r in event ensures r.createdAt < t <==> |Newer(own, r.createdAt)| > RETAINED {
          OlderThanRank(own, RETAINED, t, r);
        }
        event := set r | r in event && !(r.pubkey == e.pubkey && r.kind == e.kind && r.createdAt < t);
      } else {
        forall r | r in event ensures |Newer(own, r.createdAt)| <= RETAINED {
          SubsetCount(Newer(own, r.createdAt), own);
        }
      }
    }

    method DeleteEvent(id: string, pubkey: string, fails: bool) returns (ok: bool)
      modifies this`event
      ensures ok == !fails
      ensures event == if fails then old(event) else Deleted(old(event), id, pubkey)
      ensures forall r :: r in event <==> r in old(event) && (fails || r.id != id || r.pubkey != pubkey)
    {
      if !fails {
        event := set r | r in event && !(r.id == id && r.pubkey == pubkey);
      }
      ok := !fails;
    }

    method PurgeOld(cutoff: int)
      modifies this`event
      ensures event == Purged(old(event), cutoff)
      ensures forall r :: r in event <==> r in old(event) && !(r.createdAt < cutoff)
    {
      event := set r | r in event && !(r.createdAt < cutoff);
    }

    /** The newest matching rows, no more than the clamped limit, newest first; a refused
        filter is an empty answer and a missing filter an error. */
    method QueryEvents(filter: Option<Filter>, fails: bool) returns (ok: bool, events: seq<Event>)
      ensures ok <==> filter.Some? && (Refused(filter.value) || !fails)
      ensures filter.Some? && Refused(filter.value) ==> events == []
      ensures ok && !Refused(filter.value) ==>
        NewestOf(events, Matching(event, filter.value), ClampedLimit(filter.value.limit))
    {
      if filter.None? {
        return false, [];
      }
      var outcome := BuildQuery(filter.value);
      match outcome {
        case Nothing => return true, [];
        case Query(text, params) =>
          if fails {
            return false, [];
          }
          assert Answers(text, params, {}, []);
          events := Select(text, params, event);
          ok := true;
      }
    }

    method SavePeer(address: string, pubkey: string, now: int)
      modifies this`peers
      ensures peers == old(peers)[pubkey := PeerInfo(address, now)]
    {
      peers := peers[pubkey := PeerInfo(address, now)];
    }

    /** n is the random number; the walk visits the map in any order. */
    method GetPeer(pubkey: string, n: nat) returns (address: string)
      requires peers != map[] ==> n < |peers|
      ensures MayAnswer(peers, pubkey, address)
    {
      address := if pubkey in peers then peers[pubkey].address else "";
      if address == "" {
        if |peers| == 0 {
          return "";
        }
        var i := 0;
        var rest := peers.Keys;
        while rest != {}
          invariant rest <= peers.Keys && |rest| + i == |peers| && i <= n
          decreases |rest|
        {
          var k :| k in rest;
          if i == n {
            return peers[k].address;
          }
          rest := rest - {k};
          i := i + 1;
        }
      }
    }
  }

  /** The tables behind some backends, by address. */
  type Snapshot = map<string, set<Event>>

  ghost function Tables(peers: map<string, PostgresBackend>): Snapshot
    reads set a | a in peers :: peers[a]
  {
    map a | a in peers :: peers[a].event
  }

  /** REQ cuts an answer down to the filter's own limit. */
  function Truncated(f: Filter, events: seq<Event>): seq<Event>
  {
    if f.limit > 0 && |events| > f.limit then events[..f.limit] else events
  }

  /** The cut never bites on what this backend answers. */
  lemma TruncationIsIdle(f: Filter, all: set<Event>, events: seq<Event>)
    requires NewestOf(events, all, ClampedLimit(f.limit))
    ensures Truncated(f, events) == events
  {
  }
}

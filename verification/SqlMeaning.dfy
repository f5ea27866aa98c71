/** What the database makes of a statement: LIKE patterns, the generated tagvalues
    column, NULLs, and the binding of the k-th `?` to the k-th parameter. */
module SqlMeaning {
  import opened Prelude
  import opened Nostr
  import opened SqlText

  /** SQL's three truth values; WHERE keeps a row only on Yes. */
  datatype Truth = Yes | No | Unknown

  function And(a: Truth, b: Truth): Truth
  {
    if a == No || b == No then No else if a == Yes && b == Yes then Yes else Unknown
  }

  function Of(b: bool): Truth
  {
    if b then Yes else No
  }

  datatype Param = Text(text: string) | Number(number: int)

  /** SQL LIKE with `%`, `_` and the backslash escape. */
  predicate LikeMatches(pattern: string, s: string)
    decreases |pattern| + |s|
  {
    if pattern == "" then s == ""
    else if pattern[0] == '%' then
      LikeMatches(pattern[1..], s) || (s != "" && LikeMatches(pattern, s[1..]))
    else if pattern[0] == '\\' && |pattern| > 1 then
      s != "" && s[0] == pattern[1] && LikeMatches(pattern[2..], s[1..])
    else s != "" && (pattern[0] == '_' || pattern[0] == s[0]) && LikeMatches(pattern[1..], s[1..])
  }

  /** No character of the text is special inside a LIKE pattern. */
  predicate Literal(p: string)
  {
    '%' !in p && '_' !in p && '\\' !in p
  }

  lemma {:induction false} PercentMatchesAll(s: string)
    ensures LikeMatches("%", s)
  {
    if s != "" {
      PercentMatchesAll(s[1..]);
    } else {
      assert LikeMatches("%"[1..], s);
    }
  }

  /** A literal text followed by `%` matches exactly what starts with that text. */
  lemma {:induction false} LiteralThenPercentIsPrefix(p: string, s: string)
    requires Literal(p)
    ensures LikeMatches(p + "%", s) <==> p <= s
  {
    if p == "" {
      assert p + "%" == "%";
      PercentMatchesAll(s);
    } else {
      assert (p + "%")[1..] == p[1..] + "%";
      assert (p + "%")[0] == p[0];
      if s != "" {
        LiteralThenPercentIsPrefix(p[1..], s[1..]);
        assert p <= s <==> p[0] == s[0] && p[1..] <= s[1..] by {
          if p[0] == s[0] && p[1..] <= s[1..] {
            assert p == [p[0]] + p[1..] && s == [s[0]] + s[1..];
          }
        }
      }
    }
  }

  /** The rows under array_agg in tags_to_tagvalues: the second element (NULL when there is
      none) of each tag whose first element has length one. */
  function Aggregated(tags: seq<Tag>): seq<Option<string>>
  {
    if tags == [] then []
    else
      var t := tags[0];
      (if |t| >= 1 && |t[0]| == 1 then [if |t| >= 2 then Some(t[1]) else None] else [])
      + Aggregated(tags[1..])
  }

  /** tags_to_tagvalues: array_agg over no rows is NULL, not an empty array. */
  function TagValues(tags: seq<Tag>): Option<seq<Option<string>>>
  {
    if Aggregated(tags) == [] then None else Some(Aggregated(tags))
  }

  /** The && operator: NULL on a NULL array, and NULL elements never match. */
  function Overlap(stored: Option<seq<Option<string>>>, wanted: seq<string>): Truth
  {
    if stored.None? then Unknown
    else Of(exists v :: v in wanted && Some(v) in stored.value)
  }

  predicate HasTagValue(tags: seq<Tag>, v: string)
  {
    exists t :: t in tags && |t| >= 2 && |t[0]| == 1 && t[1] == v
  }

  lemma {:induction false} AggregatedHoldsTagValues(tags: seq<Tag>, v: string)
    ensures Some(v) in Aggregated(tags) <==> HasTagValue(tags, v)
  {
    if tags != [] {
      AggregatedHoldsTagValues(tags[1..], v);
      var t := tags[0];
      assert tags == [t] + tags[1..];
    }
  }

  /** The overlap test keeps a row exactly when one of the values sits behind a
      single-character tag name, whichever name that is. */
  lemma OverlapKeepsTagValues(tags: seq<Tag>, wanted: seq<string>)
    ensures Overlap(TagValues(tags), wanted) == Yes <==> exists v :: v in wanted && HasTagValue(tags, v)
  {
    forall v: string ensures Some(v) in Aggregated(tags) <==> HasTagValue(tags, v) {
      AggregatedHoldsTagValues(tags, v);
    }
    if v :| v in wanted && HasTagValue(tags, v) {
      assert Some(v) in Aggregated(tags);
    }
  }

  function Field(column: Column, row: Event): string
  {
    if column.Id? then row.id else row.pubkey
  }

  function Texts(ps: seq<Param>): seq<string>
  {
    seq(|ps|, i requires 0 <= i < |ps| => if ps[i].Text? then ps[i].text else "")
  }

  predicate AnyLikeMatches(likes: seq<Like>, row: Event)
  {
    exists l :: l in likes && LikeMatches(l.pattern, Field(l.column, row))
  }

  predicate AllTexts(ps: seq<Param>)
  {
    forall p :: p in ps ==> p.Text?
  }

  /** One condition under its own parameters; a parameter of the wrong type is an error,
      which keeps no row. */
  function Eval(c: Cond, ps: seq<Param>, row: Event): Truth
    requires |ps| == Holes(c)
  {
    match c
    case AnyLike(likes) => Of(AnyLikeMatches(likes, row))
    case KindIn(kinds) => Of(row.kind in kinds)
    case TagsOverlap(n) =>
      if AllTexts(ps) then Overlap(TagValues(row.tags), Texts(ps)) else Unknown
    case CreatedAfter => if ps[0].Number? then Of(row.createdAt > ps[0].number) else Unknown
    case CreatedBefore => if ps[0].Number? then Of(row.createdAt < ps[0].number) else Unknown
    case Always => Yes
  }

  lemma {:induction false} AllHolesAppend(cs: seq<Cond>, c: Cond)
    ensures AllHoles(cs + [c]) == AllHoles(cs) + Holes(c)
  {
    if cs != [] {
      assert (cs + [c])[1..] == cs[1..] + [c];
      AllHolesAppend(cs[1..], c);
    } else {
      assert cs + [c] == [c];
    }
  }

  lemma AllHolesSplit(cs: seq<Cond>)
    requires cs != []
    ensures AllHoles(cs) == AllHoles(cs[..|cs| - 1]) + Holes(cs[|cs| - 1])
  {
    AllHolesAppend(cs[..|cs| - 1], cs[|cs| - 1]);
    assert cs == cs[..|cs| - 1] + [cs[|cs| - 1]];
  }

  /** The conjunction, each condition with its own stretch of the parameters, in order. */
  function EvalAll(cs: seq<Cond>, ps: seq<Param>, row: Event): Truth
    requires |ps| == AllHoles(cs)
  {
    if cs == [] then Yes
    else
      AllHolesSplit(cs);
      var n := |cs| - 1;
      var k := |ps| - Holes(cs[n]);
      And(EvalAll(cs[..n], ps[..k], row), Eval(cs[n], ps[k..], row))
  }

  /** A statement with its parameters keeps a row: the text parses, there is one parameter
      for each `?`, the last one is the limit, and the conjunction is true. */
  predicate Keeps(text: string, ps: seq<Param>, row: Event)
  {
    match Parse(text)
    case None => false
    case Some(st) =>
      |ps| == AllHoles(st.conds) + 1 && EvalAll(st.conds, ps[..|ps| - 1], row) == Yes
  }

  /** Adding a condition and its parameters at the end adds a conjunct. */
  lemma EvalAppend(cs: seq<Cond>, ps: seq<Param>, c: Cond, qs: seq<Param>, row: Event)
    requires |ps| == AllHoles(cs) && |qs| == Holes(c)
    ensures AllHoles(cs + [c]) == |ps + qs|
    ensures EvalAll(cs + [c], ps + qs, row) == And(EvalAll(cs, ps, row), Eval(c, qs, row))
  {
    AllHolesAppend(cs, c);
    var all, bound := cs + [c], ps + qs;
    var n, k := |all| - 1, |bound| - Holes(c);
    assert all[..n] == cs && all[n] == c;
    assert k == |ps| && bound[..k] == ps && bound[k..] == qs;
    calc {
      EvalAll(all, bound, row);
      { AllHolesSplit(all); }
      And(EvalAll(all[..n], bound[..k], row), Eval(all[n], bound[k..], row));
      And(EvalAll(cs, ps, row), Eval(c, qs, row));
    }
  }

  // ---------- what a statement answers ----------

  /** What ORDER BY created_at sorts by, the greatest first. */
  function Rank(d: Direction, r: Event): int
  {
    match d
    case Descending => r.createdAt
    case Ascending => -r.createdAt
  }

  /** A possible answer over the rows `all`, sorted and cut at n: ties may come in any order. */
  ghost predicate Selection(xs: seq<Event>, all: set<Event>, n: nat, d: Direction)
  {
    && |xs| == (if |all| < n then |all| else n)
    && (forall i :: 0 <= i < |xs| ==> xs[i] in all)
    && (forall i, j :: 0 <= i < j < |xs| ==> xs[i] != xs[j])
    && (forall i, j :: 0 <= i < j < |xs| ==> Rank(d, xs[i]) >= Rank(d, xs[j]))
    && (forall i, r :: 0 <= i < |xs| && r in all && r !in xs ==> Rank(d, r) <= Rank(d, xs[i]))
  }

  /** The n newest rows, newest first, said without a direction. */
  ghost predicate NewestOf(xs: seq<Event>, all: set<Event>, n: nat)
  {
    && |xs| == (if |all| < n then |all| else n)
    && (forall i :: 0 <= i < |xs| ==> xs[i] in all)
    && (forall i, j :: 0 <= i < j < |xs| ==> xs[i] != xs[j])
    && (forall i, j :: 0 <= i < j < |xs| ==> xs[i].createdAt >= xs[j].createdAt)
    && (forall i, r :: 0 <= i < |xs| && r in all && r !in xs ==> r.createdAt <= xs[i].createdAt)
  }

  lemma DescendingIsNewest(xs: seq<Event>, all: set<Event>, n: nat)
    ensures Selection(xs, all, n, Descending) <==> NewestOf(xs, all, n)
  {
    if NewestOf(xs, all, n) {
      forall i, r | 0 <= i < |xs| && r in all && r !in xs ensures Rank(Descending, r) <= Rank(Descending, xs[i]) {
        assert r.createdAt <= xs[i].createdAt;
      }
    }
    if Selection(xs, all, n, Descending) {
      forall i, j | 0 <= i < j < |xs| ensures xs[i].createdAt >= xs[j].createdAt {
        assert Rank(Descending, xs[i]) >= Rank(Descending, xs[j]);
      }
      forall i, r | 0 <= i < |xs| && r in all && r !in xs ensures r.createdAt <= xs[i].createdAt {
        assert Rank(Descending, r) <= Rank(Descending, xs[i]);
      }
    }
  }

  /** The database can run it: the event table with the columns that make up an event, sorted
      by time, one parameter for each `?`, and a number of rows for the last one. */
  predicate Runnable(text: string, ps: seq<Param>)
  {
    match Parse(text)
    case None => false
    case Some(st) =>
      && st.table == "event" && st.columns == "id, pubkey, created_at, " + "kind, tags, content, sig"
      && st.orderBy == "created_at"
      && |ps| == AllHoles(st.conds) + 1 && ps[|ps| - 1].Number? && ps[|ps| - 1].number >= 0
  }

  function KeptRows(text: string, ps: seq<Param>, rows: set<Event>): set<Event>
  {
    set r | r in rows && Keeps(text, ps, r)
  }

  /** What a statement with its parameters may answer on a table: the rows it keeps, sorted as
      the text says, cut at the number bound to the last `?`. */
  ghost predicate Answers(text: string, ps: seq<Param>, rows: set<Event>, xs: seq<Event>)
  {
    Runnable(text, ps) &&
    Selection(xs, KeptRows(text, ps, rows), ps[|ps| - 1].number, Parse(text).value.direction)
  }

  lemma {:induction false} FirstExists(all: set<Event>, d: Direction) returns (m: Event)
    requires all != {}
    ensures m in all && forall r :: r in all ==> Rank(d, r) <= Rank(d, m)
    decreases |all|
  {
    m :| m in all;
    var others := all - {m};
    if others != {} {
      var best := FirstExists(others, d);
      if Rank(d, best) > Rank(d, m) {
        m := best;
      }
    }
  }

  /** The rows xs are picked, in order, and the rows `rest` are what is left of `all`. */
  ghost predicate Picked(xs: seq<Event>, all: set<Event>, rest: set<Event>, d: Direction)
  {
    && rest <= all && |xs| + |rest| == |all|
    && (forall r :: r in all <==> r in rest || r in xs)
    && (forall i :: 0 <= i < |xs| ==> xs[i] !in rest)
    && (forall i, j :: 0 <= i < j < |xs| ==> xs[i] != xs[j])
    && (forall i, j :: 0 <= i < j < |xs| ==> Rank(d, xs[i]) >= Rank(d, xs[j]))
    && (forall i, r :: 0 <= i < |xs| && r in rest ==> Rank(d, r) <= Rank(d, xs[i]))
  }

  lemma PickFirst(xs: seq<Event>, all: set<Event>, rest: set<Event>, d: Direction, m: Event)
    requires Picked(xs, all, rest, d)
    requires m in rest && forall r :: r in rest ==> Rank(d, r) <= Rank(d, m)
    ensures Picked(xs + [m], all, rest - {m}, d)
  {
  }

  lemma PickedIsSelection(xs: seq<Event>, all: set<Event>, rest: set<Event>, n: nat, d: Direction)
    requires Picked(xs, all, rest, d)
    requires |xs| <= n && (|xs| == n || rest == {})
    ensures Selection(xs, all, n, d)
  {
  }

  method SelectRows(all: set<Event>, n: nat, d: Direction) returns (xs: seq<Event>)
    ensures Selection(xs, all, n, d)
  {
    xs := [];
    var rest := all;
    while |xs| < n && rest != {}
      invariant Picked(xs, all, rest, d) && |xs| <= n
      decreases |rest|
    {
      ghost var first := FirstExists(rest, d);
      var m :| m in rest && forall r :: r in rest ==> Rank(d, r) <= Rank(d, m);
      PickFirst(xs, all, rest, d, m);
      xs := xs + [m];
      rest := rest - {m};
    }
    PickedIsSelection(xs, all, rest, n, d);
  }

  /** The database at work on a statement. */
  method Select(text: string, ps: seq<Param>, rows: set<Event>) returns (xs: seq<Event>)
    requires Runnable(text, ps)
    ensures Answers(text, ps, rows, xs)
  {
    xs := SelectRows(KeptRows(text, ps, rows), ps[|ps| - 1].number, Parse(text).value.direction);
  }
}

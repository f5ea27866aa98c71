/** relayer/storage/postgresql/query.go: a filter becomes WHERE text plus a parameter list.
    BuildQuery follows the source's loops and early returns; its contract says what the text
    means once the database has parsed it and bound the parameters. */
module PostgresQuery {
  import opened Prelude
  import opened Decimal
  import opened Hex
  import opened Nostr
  import opened SqlText
  import opened SqlMeaning

  const MAX_IDS := 500
  const MAX_KINDS := 10
  const MAX_TAG_VALUES := 10
  const MAX_LIMIT := 100

  /** Nothing: the source returns no events and no error without asking the database. */
  datatype Outcome = Nothing | Query(text: string, params: seq<Param>)

  predicate ValidHex32(s: string)
  {
    |s| == 64 && IsHex(s)
  }

  predicate NoneValid(values: seq<string>)
  {
    forall x :: x in values ==> !ValidHex32(x)
  }

  /** How many values a tag map asks for, whatever the order of its entries. */
  ghost function TotalValues(tags: map<string, seq<string>>): nat
  {
    if tags == map[] then 0
    else
      var name :| name in tags;
      |tags[name]| + TotalValues(tags - {name})
  }

  // ---------- what a filter asks for, said without SQL ----------

  predicate StartsWithOne(values: seq<string>, field: string)
  {
    exists x :: x in values && ValidHex32(x) && Lower(x) <= field
  }

  ghost predicate TagWanted(tags: map<string, seq<string>>, row: Event)
  {
    tags != map[] ==> exists name, v :: name in tags && v in tags[name] && HasTagValue(row.tags, v)
  }

  ghost predicate Wanted(f: Filter, row: Event)
  {
    && (f.ids.Some? ==> StartsWithOne(f.ids.value, row.id))
    && (f.authors.Some? ==> StartsWithOne(f.authors.value, row.pubkey))
    && (f.kinds.Some? ==> row.kind in f.kinds.value)
    && TagWanted(f.tags, row)
    && (f.since.Some? ==> row.createdAt > f.since.value)
    && (f.until.Some? ==> row.createdAt < f.until.value)
  }

  predicate RefusedHex(values: Option<seq<string>>)
  {
    values.Some? && (|values.value| > 500 || NoneValid(values.value))
  }

  ghost predicate RefusedTags(tags: map<string, seq<string>>)
  {
    (exists name :: name in tags && tags[name] == []) || TotalValues(tags) > 10
  }

  ghost predicate Refused(f: Filter)
  {
    || RefusedHex(f.ids)
    || RefusedHex(f.authors)
    || (f.kinds.Some? && (|f.kinds.value| > 10 || f.kinds.value == []))
    || RefusedTags(f.tags)
  }

  function ClampedLimit(limit: int): (n: int)
    ensures 1 <= n <= 100
    ensures 1 <= limit <= 100 ==> n == limit
  {
    if limit < 1 || limit > 100 then 100 else limit
  }

  // ---------- the pieces ----------

  lemma MapAppend<A, B>(f: A -> B, xs: seq<A>, x: A)
    ensures Map(f, xs + [x]) == Map(f, xs) + [f(x)]
  {
  }

  function HexLike(column: Column, x: string): Like
  {
    Like(column, Lower(x) + "%")
  }

  lemma {:induction false} LowerHexIsPlain(x: string)
    requires IsHex(x)
    ensures Literal(Lower(x)) && PlainPattern(Lower(x))
    ensures |Lower(x)| == |x|
  {
    if x != "" {
      LowerHexIsPlain(x[1..]);
      LowerIsDigitOfValue(x[0]);
    }
  }

  lemma HexLikeMatches(column: Column, x: string, row: Event)
    requires ValidHex32(x)
    ensures LikeMatches(HexLike(column, x).pattern, Field(column, row)) <==> Lower(x) <= Field(column, row)
  {
    LowerHexIsPlain(x);
    LiteralThenPercentIsPrefix(Lower(x), Field(column, row));
  }

  /** The loop that turns ids (or authors) into LIKE terms, skipping what is not 32 bytes of hex. */
  method LikeAny(column: Column, values: seq<string>) returns (likes: seq<string>, ghost terms: seq<Like>)
    ensures likes == [] <==> NoneValid(values)
    ensures likes == Map(PrintLike, terms)
    ensures forall l :: l in terms ==> PlainPattern(l.pattern)
    ensures forall row :: AnyLikeMatches(terms, row) <==> StartsWithOne(values, Field(column, row))
  {
    likes, terms := [], [];
    for k := 0 to |values|
      invariant likes == Map(PrintLike, terms)
      invariant forall l :: l in terms ==> exists x :: x in values[..k] && ValidHex32(x) && l == HexLike(column, x)
      invariant forall x :: x in values[..k] && ValidHex32(x) ==> HexLike(column, x) in terms
    {
      var id := values[k];
      var parsed := Decode(id);
      DecodeThenEncode(id);
      assert values[..k + 1] == values[..k] + [id];
      if parsed.None? || |parsed.value| != 32 {
        assert !ValidHex32(id);
        continue;
      }
      likes := likes + [ColumnName(column) + " LIKE '" + (Encode(parsed.value) + "%") + "'"];
      MapAppend(PrintLike, terms, HexLike(column, id));
      terms := terms + [HexLike(column, id)];
    }
    assert values[..|values|] == values;
    LikesMean(column, values, terms);
    if !NoneValid(values) {
      var x :| x in values && ValidHex32(x);
      assert HexLike(column, x) in terms;
    }
    if likes != [] {
      assert terms[0] in terms;
    }
  }

  lemma LikesMean(column: Column, values: seq<string>, terms: seq<Like>)
    requires forall l :: l in terms ==> exists x :: x in values && ValidHex32(x) && l == HexLike(column, x)
    requires forall x :: x in values && ValidHex32(x) ==> HexLike(column, x) in terms
    ensures forall l :: l in terms ==> PlainPattern(l.pattern)
    ensures forall row :: AnyLikeMatches(terms, row) <==> StartsWithOne(values, Field(column, row))
  {
    forall l | l in terms ensures PlainPattern(l.pattern) {
      var x :| x in values && ValidHex32(x) && l == HexLike(column, x);
      LowerHexIsPlain(x);
    }
    forall row ensures AnyLikeMatches(terms, row) <==> StartsWithOne(values, Field(column, row)) {
      if AnyLikeMatches(terms, row) {
        var l :| l in terms && LikeMatches(l.pattern, Field(l.column, row));
        var x :| x in values && ValidHex32(x) && l == HexLike(column, x);
        HexLikeMatches(column, x, row);
      }
      if StartsWithOne(values, Field(column, row)) {
        var x :| x in values && ValidHex32(x) && Lower(x) <= Field(column, row);
        HexLikeMatches(column, x, row);
        assert HexLike(column, x) in terms;
      }
    }
  }

  method KindList(kinds: seq<int>) returns (inkinds: array<string>)
    ensures inkinds[..] == Map(Itoa, kinds)
  {
    inkinds := new string[|kinds|];
    for i := 0 to |kinds|
      invariant forall j :: 0 <= j < i ==> inkinds[j] == Itoa(kinds[j])
    {
      inkinds[i] := Itoa(kinds[i]);
    }
  }

  lemma {:induction false} TotalValuesRemove(tags: map<string, seq<string>>, name: string)
    requires name in tags
    ensures TotalValues(tags) == |tags[name]| + TotalValues(tags - {name})
    decreases tags.Keys
  {
    var first :| first in tags && TotalValues(tags) == |tags[first]| + TotalValues(tags - {first});
    if first != name {
      TotalValuesRemove(tags - {first}, name);
      TotalValuesRemove(tags - {name}, first);
      assert tags - {first} - {name} == tags - {name} - {first};
    }
  }

  /** The loop over the tag map, which Go visits in any order; ok is false on either early
      return. Neither that verdict nor the set of values depends on the order. */
  method TagQuery(tags: map<string, seq<string>>) returns (ok: bool, tagQuery: seq<string>)
    ensures ok <==> !RefusedTags(tags)
    ensures ok ==> forall v :: v in tagQuery <==> exists name :: name in tags && v in tags[name]
    ensures ok ==> (tagQuery == [] <==> tags == map[])
  {
    tagQuery := [];
    var rest := tags;
    while rest != map[]
      invariant rest.Keys <= tags.Keys && forall name :: name in rest ==> rest[name] == tags[name]
      invariant TotalValues(tags) == |tagQuery| + TotalValues(rest)
      invariant |tagQuery| <= MAX_TAG_VALUES
      invariant forall name :: name in tags && name !in rest ==> tags[name] != []
      invariant forall v :: v in tagQuery <==> exists name :: name in tags && name !in rest && v in tags[name]
      invariant tagQuery == [] ==> rest == tags
      decreases |rest|
    {
      var name :| name in rest;
      var values := rest[name];
      if |values| == 0 {
        return false, [];
      }
      TotalValuesRemove(rest, name);
      tagQuery := tagQuery + values;
      rest := rest - {name};
      if |tagQuery| > MAX_TAG_VALUES {
        return false, [];
      }
    }
    ok := true;
  }

  /** The loop that writes one `?` and one parameter for each value. */
  method ArrayBuild(tagQuery: seq<string>) returns (arrayBuild: array<string>, params: seq<Param>)
    ensures arrayBuild[..] == seq(|tagQuery|, _ => "?")
    ensures params == Map(v => Text(v), tagQuery)
  {
    arrayBuild := new string[|tagQuery|];
    params := [];
    for i := 0 to |tagQuery|
      invariant forall j :: 0 <= j < i ==> arrayBuild[j] == "?"
      invariant params == Map(v => Text(v), tagQuery[..i])
    {
      arrayBuild[i] := "?";
      params := params + [Text(tagQuery[i])];
      assert tagQuery[..i + 1] == tagQuery[..i] + [tagQuery[i]];
    }
    assert tagQuery[..|tagQuery|] == tagQuery;
  }

  lemma TagsMean(tags: map<string, seq<string>>, tagQuery: seq<string>, row: Event)
    requires forall v :: v in tagQuery <==> exists name :: name in tags && v in tags[name]
    requires tagQuery != []
    ensures Eval(TagsOverlap(|tagQuery|), Map(v => Text(v), tagQuery), row) == Yes <==> TagWanted(tags, row)
  {
    var ps := Map(v => Text(v), tagQuery);
    assert Texts(ps) == tagQuery && AllTexts(ps);
    OverlapKeepsTagValues(row.tags, tagQuery);
    assert tagQuery[0] in tagQuery;
    if v :| v in tagQuery && HasTagValue(row.tags, v) {
      var name :| name in tags && v in tags[name];
    }
  }

  // ---------- the conditions built so far, and what they mean ----------

  ghost predicate Built(conditions: seq<string>, params: seq<Param>, cs: seq<Cond>)
  {
    && conditions == Map(PrintCond, cs)
    && |params| == AllHoles(cs)
    && forall c :: c in cs ==> Printable(c)
  }

  lemma ExtendBuilt(conditions: seq<string>, params: seq<Param>, cs: seq<Cond>, c: Cond, qs: seq<Param>)
    requires Built(conditions, params, cs)
    requires Printable(c) && |qs| == Holes(c)
    ensures Built(conditions + [PrintCond(c)], params + qs, cs + [c])
  {
    MapAppend(PrintCond, cs, c);
    AllHolesAppend(cs, c);
  }

  /** One more condition at the end is one more conjunct, for every row. */
  lemma Extend(conditions: seq<string>, params: seq<Param>, cs: seq<Cond>, c: Cond, qs: seq<Param>)
    requires Built(conditions, params, cs)
    requires Printable(c) && |qs| == Holes(c)
    ensures Built(conditions + [PrintCond(c)], params + qs, cs + [c])
    ensures forall row :: EvalAll(cs + [c], params + qs, row) == Yes
                     <==> EvalAll(cs, params, row) == Yes && Eval(c, qs, row) == Yes
  {
    ExtendBuilt(conditions, params, cs, c, qs);
    var longer, more := cs + [c], params + qs;
    forall row ensures EvalAll(longer, more, row) == And(EvalAll(cs, params, row), Eval(c, qs, row)) {
      EvalAppend(cs, params, c, qs, row);
    }
  }

  lemma ExtendPlain(conditions: seq<string>, cs: seq<Cond>, c: Cond)
    requires Built(conditions, [], cs)
    requires Printable(c) && Holes(c) == 0
    ensures Built(conditions + [PrintCond(c)], [], cs + [c])
    ensures forall row :: EvalAll(cs + [c], [], row) == Yes <==> EvalAll(cs, [], row) == Yes && Eval(c, [], row) == Yes
  {
    var none: seq<Param> := [];
    assert none + none == none;
    Extend(conditions, none, cs, c, none);
  }

  /** The ids and authors blocks, which are the same code twice. */
  method AddHex(column: Column, values: Option<seq<string>>, conditions: seq<string>, ghost cs: seq<Cond>)
    returns (refused: bool, conditions': seq<string>, ghost cs': seq<Cond>)
    requires Built(conditions, [], cs)
    ensures refused <==> RefusedHex(values)
    ensures !refused ==> Built(conditions', [], cs')
    ensures !refused ==> forall row :: EvalAll(cs', [], row) == Yes <==>
      EvalAll(cs, [], row) == Yes && (values.Some? ==> StartsWithOne(values.value, Field(column, row)))
    ensures !refused && values.Some? ==> conditions' != []
    ensures values.None? ==> conditions' == conditions
  {
    if values.None? {
      return false, conditions, cs;
    }
    if |values.value| > MAX_IDS {
      return true, conditions, cs;
    }
    var likes, terms := LikeAny(column, values.value);
    if |likes| == 0 {
      return true, conditions, cs;
    }
    refused := false;
    conditions' := conditions + ["(" + Join(likes, " OR ") + ")"];
    cs' := cs + [AnyLike(terms)];
    ExtendPlain(conditions, cs, AnyLike(terms));
  }

  method AddKinds(kinds: Option<seq<int>>, conditions: seq<string>, ghost cs: seq<Cond>)
    returns (refused: bool, conditions': seq<string>, ghost cs': seq<Cond>)
    requires Built(conditions, [], cs)
    ensures refused <==> kinds.Some? && (|kinds.value| > MAX_KINDS || kinds.value == [])
    ensures !refused ==> Built(conditions', [], cs')
    ensures !refused ==> forall row :: EvalAll(cs', [], row) == Yes <==>
      EvalAll(cs, [], row) == Yes && (kinds.Some? ==> row.kind in kinds.value)
    ensures !refused && kinds.Some? ==> conditions' != []
    ensures kinds.None? ==> conditions' == conditions
  {
    if kinds.None? {
      return false, conditions, cs;
    }
    if |kinds.value| > MAX_KINDS {
      return true, conditions, cs;
    }
    if |kinds.value| == 0 {
      return true, conditions, cs;
    }
    var inkinds := KindList(kinds.value);
    refused := false;
    conditions' := conditions + ["kind IN (" + Join(inkinds[..], ",") + ")"];
    cs' := cs + [KindIn(kinds.value)];
    ExtendPlain(conditions, cs, KindIn(kinds.value));
  }

  method AddTags(tags: map<string, seq<string>>, conditions: seq<string>, ghost cs: seq<Cond>)
    returns (refused: bool, conditions': seq<string>, params: seq<Param>, ghost cs': seq<Cond>)
    requires Built(conditions, [], cs)
    ensures refused <==> RefusedTags(tags)
    ensures !refused ==> Built(conditions', params, cs')
    ensures !refused ==> forall row :: EvalAll(cs', params, row) == Yes <==>
      EvalAll(cs, [], row) == Yes && TagWanted(tags, row)
    ensures !refused && conditions' == [] ==> conditions == [] && tags == map[]
  {
    conditions', params, cs' := conditions, [], cs;
    var ok, tagQuery := TagQuery(tags);
    refused := !ok;
    if ok && |tagQuery| > 0 {
      var arrayBuild, values := ArrayBuild(tagQuery);
      conditions' := conditions + ["tagvalues && ARRAY[" + Join(arrayBuild[..], ",") + "]"];
      params := params + values;
      cs' := cs + [TagsOverlap(|tagQuery|)];
      Extend(conditions, [], cs, TagsOverlap(|tagQuery|), values);
      forall row ensures Eval(TagsOverlap(|tagQuery|), values, row) == Yes <==> TagWanted(tags, row) {
        TagsMean(tags, tagQuery, row);
      }
    }
  }

  method AddTimes(f: Filter, conditions: seq<string>, params: seq<Param>, ghost cs: seq<Cond>)
    returns (conditions': seq<string>, params': seq<Param>, ghost cs': seq<Cond>)
    requires Built(conditions, params, cs)
    ensures Built(conditions', params', cs')
    ensures forall row :: EvalAll(cs', params', row) == Yes <==>
      && EvalAll(cs, params, row) == Yes
      && (f.since.Some? ==> row.createdAt > f.since.value)
      && (f.until.Some? ==> row.createdAt < f.until.value)
  {
    conditions', params', cs' := conditions, params, cs;
    if f.since.Some? {
      Extend(conditions', params', cs', CreatedAfter, [Number(f.since.value)]);
      conditions' := conditions' + ["created_at > ?"];
      params' := params' + [Number(f.since.value)];
      cs' := cs' + [CreatedAfter];
    }
    if f.until.Some? {
      Extend(conditions', params', cs', CreatedBefore, [Number(f.until.value)]);
      conditions' := conditions' + ["created_at < ?"];
      params' := params' + [Number(f.until.value)];
      cs' := cs' + [CreatedBefore];
    }
  }

  lemma StatementMeans(conditions: seq<string>, params: seq<Param>, cs: seq<Cond>, limit: Param)
    requires Built(conditions, params, cs) && conditions != []
    ensures var text, all := HEAD + Join(conditions, " AND ") + TAIL, params + [limit];
            && Count(text, '?') == |all|
            && forall row :: Keeps(text, all, row) <==> EvalAll(cs, params, row) == Yes
  {
    ParseInvertsPrint(cs);
    CountPrint(cs);
    var all := params + [limit];
    assert all[..|all| - 1] == params;
  }

  /** All the conditions, with `true` standing in when the filter asks for nothing. */
  method BuildConditions(f: Filter)
    returns (refused: bool, conditions: seq<string>, params: seq<Param>, ghost cs: seq<Cond>)
    ensures refused <==> Refused(f)
    ensures !refused ==> Built(conditions, params, cs) && conditions != []
    ensures !refused ==> forall row :: EvalAll(cs, params, row) == Yes <==> Wanted(f, row)
  {
    conditions, params, cs := [], [], [];
    refused, conditions, cs := AddHex(Id, f.ids, conditions, cs);
    if refused {
      return;
    }
    refused, conditions, cs := AddHex(Pubkey, f.authors, conditions, cs);
    if refused {
      return;
    }
    refused, conditions, cs := AddKinds(f.kinds, conditions, cs);
    if refused {
      return;
    }
    refused, conditions, params, cs := AddTags(f.tags, conditions, cs);
    if refused {
      return;
    }
    conditions, params, cs := AddTimes(f, conditions, params, cs);
    if |conditions| == 0 {
      conditions, cs := AddFallback(conditions, params, cs);
    }
  }

  method AddFallback(conditions: seq<string>, ghost params: seq<Param>, ghost cs: seq<Cond>)
    returns (conditions': seq<string>, ghost cs': seq<Cond>)
    requires Built(conditions, params, cs)
    ensures Built(conditions', params, cs') && conditions' != []
    ensures forall row :: EvalAll(cs', params, row) == Yes <==> EvalAll(cs, params, row) == Yes
  {
    assert params + [] == params;
    Extend(conditions, params, cs, Always, []);
    conditions' := conditions + ["true"];
    cs' := cs + [Always];
  }

  ghost function Matching(rows: set<Event>, f: Filter): set<Event>
  {
    set r | r in rows && Wanted(f, r)
  }

  /** The statement is runnable, its order is that of the newest first, and its rows are what
      the conditions keep. */
  lemma StatementAnswers(conditions: seq<string>, params: seq<Param>, cs: seq<Cond>, n: nat, f: Filter)
    requires Built(conditions, params, cs) && conditions != []
    requires forall row :: EvalAll(cs, params, row) == Yes <==> Wanted(f, row)
    ensures var text, all := HEAD + Join(conditions, " AND ") + TAIL, params + [Number(n)];
            forall rows, xs :: Answers(text, all, rows, xs) <==> NewestOf(xs, Matching(rows, f), n)
  {
    var text, all := HEAD + Join(conditions, " AND ") + TAIL, params + [Number(n)];
    StatementMeans(conditions, params, cs, Number(n));
    ParseInvertsPrint(cs);
    forall rows, xs ensures Answers(text, all, rows, xs) <==> NewestOf(xs, Matching(rows, f), n) {
      assert KeptRows(text, all, rows) == Matching(rows, f);
      DescendingIsNewest(xs, Matching(rows, f), n);
    }
  }

  /** The whole translation. A filter is answered with nothing exactly when Refused says so;
      otherwise the text has one `?` for each parameter, the last parameter is the clamped
      limit, and what the text with its parameters answers on a table is the wanted rows, newest
      first and no more than that limit. */
  method BuildQuery(f: Filter) returns (o: Outcome)
    ensures o.Nothing? <==> Refused(f)
    ensures o.Query? ==> Count(o.text, '?') == |o.params|
    ensures o.Query? ==> |o.params| > 0
    ensures o.Query? ==> o.params[|o.params| - 1] == Number(if 1 <= f.limit <= 100 then f.limit else 100)
    ensures o.Query? ==> forall row :: Keeps(o.text, o.params, row) <==> Wanted(f, row)
    ensures o.Query? ==> forall rows, xs ::
              Answers(o.text, o.params, rows, xs) <==> NewestOf(xs, Matching(rows, f), ClampedLimit(f.limit))
  {
    var refused, conditions, params, cs := BuildConditions(f);
    if refused {
      return Nothing;
    }
    var limit := Number(if f.limit < 1 || f.limit > MAX_LIMIT then MAX_LIMIT else f.limit);
    StatementMeans(conditions, params, cs, limit);
    StatementAnswers(conditions, params, cs, limit.number, f);
    return Query(HEAD + Join(conditions, " AND ") + TAIL, params + [limit]);
  }

  // ---------- against NIP-01: each tag name has values of its own ----------

  predicate HasNamedValue(tags: seq<Tag>, name: string, v: string)
  {
    exists t :: t in tags && |t| >= 2 && t[0] == name && t[1] == v
  }

  /** NIP-01: for every name of the filter, one of its values behind that name. */
  ghost predicate NamedTagsWanted(tags: map<string, seq<string>>, row: Event)
  {
    forall name :: name in tags ==> exists v :: v in tags[name] && HasNamedValue(row.tags, name, v)
  }

  /** A value behind a name that was not asked for: the statement keeps the row, NIP-01 does not. */
  lemma ForeignNameIsKept(tags: map<string, seq<string>>, name: string, row: Event)
    requires name in tags && tags[name] != []
    requires row.tags == [[if name == "a" then "b" else "a", tags[name][0]]]
    ensures TagWanted(tags, row) && !NamedTagsWanted(tags, row)
  {
    var v, t := tags[name][0], row.tags[0];
    assert |t[0]| == 1 && t[1] == v && t in row.tags;
    assert v in tags[name] && HasTagValue(row.tags, v);
    assert forall w :: !HasNamedValue(row.tags, name, w);
  }

  /** A filter that is not refused reads its tags as NIP-01 does, on all rows, exactly when it
      has none. */
  lemma TagsReadAsNamed(tags: map<string, seq<string>>)
    requires !RefusedTags(tags)
    ensures (forall row :: TagWanted(tags, row) <==> NamedTagsWanted(tags, row)) <==> tags == map[]
  {
    if tags != map[] {
      var name :| name in tags;
      var row := Event("", "", 0, 0, [[if name == "a" then "b" else "a", tags[name][0]]], "", "");
      ForeignNameIsKept(tags, name, row);
    }
  }

  /** A row that NIP-01 wants is kept when the filter has a name of one character. */
  lemma NamedIsKept(tags: map<string, seq<string>>, row: Event, name: string)
    requires name in tags && |name| == 1 && NamedTagsWanted(tags, row)
    ensures TagWanted(tags, row)
  {
    var v :| v in tags[name] && HasNamedValue(row.tags, name, v);
    assert HasTagValue(row.tags, v);
  }
}

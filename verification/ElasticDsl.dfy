/** relayer/storage/elasticsearch/query.go: buildDsl turns a filter into a boolean query
    tree; the lemmas say which documents the tree selects and compare it with PostgresQuery. */
module ElasticDsl {
  import opened Prelude
  import opened Hex
  import opened Nostr
  import opened SqlMeaning
  import opened PostgresQuery

  // ---------- query trees and their standard meaning ----------

  datatype Field = FieldId | FieldPubkey | FieldKind | FieldTags | FieldCreatedAt

  /** An Instant is a date field's value, in milliseconds since 1970. */
  datatype Value = Keyword(s: string) | Integer(n: int) | Instant(millis: int)

  datatype Q =
    | Bool(must: seq<Q>, should: seq<Q>)
    | Prefix(field: Field, prefix: string)
    | Term(field: Field, term: Value)
    | Terms(field: Field, terms: seq<Value>)
    | Range(field: Field, gte: Option<int>, lte: Option<int>)

  /** The values indexed for a document; tags are a flattened keyword field, names included.
      An event carries its time as a number of seconds, and the mapping's plain date type
      reads a number as milliseconds. */
  function Indexed(doc: Event, f: Field): set<Value>
  {
    match f
    case FieldId => {Keyword(doc.id)}
    case FieldPubkey => {Keyword(doc.pubkey)}
    case FieldKind => {Integer(doc.kind)}
    case FieldTags => set t, s | t in doc.tags && s in t :: Keyword(s)
    case FieldCreatedAt => {Instant(doc.createdAt)}
  }

  predicate InRange(v: Value, gte: Option<int>, lte: Option<int>)
  {
    v.Instant? && (gte.Some? ==> gte.value <= v.millis) && (lte.Some? ==> v.millis <= lte.value)
  }

  /** bool: every must, and one should unless a must makes the shoulds optional or there is none. */
  predicate Matches(q: Q, doc: Event)
  {
    match q
    case Bool(must, should) =>
      && (forall x :: x in must ==> Matches(x, doc))
      && (must == [] && should != [] ==> exists x :: x in should && Matches(x, doc))
    case Prefix(f, p) => exists v :: v in Indexed(doc, f) && v.Keyword? && p <= v.s
    case Term(f, t) => t in Indexed(doc, f)
    case Terms(f, ts) => exists t :: t in ts && t in Indexed(doc, f)
    case Range(f, gte, lte) => exists v :: v in Indexed(doc, f) && InRange(v, gte, lte)
  }

  // ---------- buildDsl ----------

  /** len of a Go string: its UTF-8 bytes. */
  function ByteLen(s: string): nat
  {
    if s == "" then 0
    else (var c := s[0] as int; if c < 0x80 then 1 else if c < 0x800 then 2 else if c < 0x10000 then 3 else 4)
         + ByteLen(s[1..])
  }

  predicate Ascii(s: string)
  {
    forall c :: c in s ==> c as int < 0x80
  }

  /** A byte for each character exactly when the text is plain, and never fewer. */
  lemma {:induction false} PlainByteLen(s: string)
    ensures ByteLen(s) >= |s|
    ensures ByteLen(s) == |s| <==> Ascii(s)
  {
    if s != "" {
      PlainByteLen(s[1..]);
      assert s == [s[0]] + s[1..];
      assert s[0] in s && forall c :: c in s <==> c == s[0] || c in s[1..];
      if Ascii(s[1..]) && s[0] as int < 0x80 {
        forall c | c in s ensures c as int < 0x80 {
          assert c == s[0] || c in s[1..];
        }
      }
    }
  }

  function Values(o: Option<seq<string>>): seq<string>
  {
    if o.Some? then o.value else []
  }

  function PrefixOrTerm(f: Field, v: string): Q
  {
    if ByteLen(v) < 64 then Prefix(f, v) else Term(f, Keyword(v))
  }

  /** prefixFilter; None when it adds nothing. */
  method PrefixFilter(f: Field, values: seq<string>) returns (q: Option<Q>)
    ensures q == if values == [] then None else Some(Bool([], Map(v => PrefixOrTerm(f, v), values)))
  {
    if |values| == 0 {
      return None;
    }
    var should := [];
    for i := 0 to |values|
      invariant should == Map(v => PrefixOrTerm(f, v), values[..i])
    {
      assert values[..i + 1] == values[..i] + [values[i]];
      if ByteLen(values[i]) < 64 {
        should := should + [Prefix(f, values[i])];
      } else {
        should := should + [Term(f, Keyword(values[i]))];
      }
    }
    assert values[..|values|] == values;
    return Some(Bool([], should));
  }

  function Keywords(values: seq<string>): seq<Value>
  {
    Map(s => Keyword(s), values)
  }

  /** The tag clauses; Go visits the tag map in any order. The name goes in with the values. */
  method TagShould(tags: map<string, seq<string>>) returns (should: seq<Q>)
    ensures should == [] <==> tags == map[]
    ensures forall x :: x in should <==>
              exists name :: name in tags && x == Terms(FieldTags, Keywords(tags[name] + [name]))
  {
    should := [];
    var rest := tags.Keys;
    while rest != {}
      invariant rest <= tags.Keys
      invariant should == [] <==> rest == tags.Keys
      invariant forall x :: x in should <==>
                  exists name :: name in tags && name !in rest && x == Terms(FieldTags, Keywords(tags[name] + [name]))
      decreases |rest|
    {
      var name :| name in rest;
      rest := rest - {name};
      should := should + [Terms(FieldTags, Keywords(tags[name] + [name]))];
    }
  }

  predicate PrefixedBy(values: seq<string>, field: string)
  {
    values != [] ==> exists v :: v in values && if ByteLen(v) < 64 then v <= field else v == field
  }

  ghost predicate MentionsTag(tags: map<string, seq<string>>, doc: Event)
  {
    tags != map[] ==> exists name, s :: name in tags && (s == name || s in tags[name]) && InTags(doc, s)
  }

  predicate InTags(doc: Event, s: string)
  {
    exists t :: t in doc.tags && s in t
  }

  /** A bound goes into the query as a date, not as a number. */
  function Millis(seconds: int): int
  {
    1000 * seconds
  }

  predicate InIndexTime(f: Filter, createdAt: int)
  {
    && (f.since.Some? ==> Millis(f.since.value) <= createdAt)
    && (f.until.Some? ==> createdAt <= Millis(f.until.value))
  }

  /** For plain values: shorter than 64 characters is a prefix test, any other the value itself. */
  lemma PlainPrefixedBy(values: seq<string>, field: string)
    requires forall v :: v in values ==> Ascii(v)
    ensures PrefixedBy(values, field) <==>
            values == [] || exists v :: v in values && if |v| < 64 then v <= field else v == field
  {
    forall v | v in values ensures ByteLen(v) == |v| {
      PlainByteLen(v);
    }
  }

  /** What a filter asks of the index, said without the tree. */
  ghost predicate Asked(f: Filter, doc: Event)
  {
    && PrefixedBy(Values(f.ids), doc.id)
    && PrefixedBy(Values(f.authors), doc.pubkey)
    && (f.kinds.Some? && f.kinds.value != [] ==> doc.kind in f.kinds.value)
    && MentionsTag(f.tags, doc)
    && InIndexTime(f, doc.createdAt)
  }

  lemma PrefixOrTermMeans(field: Field, v: string, doc: Event)
    requires field.FieldId? || field.FieldPubkey?
    ensures var text := if field.FieldId? then doc.id else doc.pubkey;
            Matches(PrefixOrTerm(field, v), doc) <==> if ByteLen(v) < 64 then v <= text else v == text
  {
    var text := if field.FieldId? then doc.id else doc.pubkey;
    assert Indexed(doc, field) == {Keyword(text)} && Keyword(text) in Indexed(doc, field);
  }

  lemma PrefixFilterMeans(field: Field, values: seq<string>, doc: Event)
    requires values != [] && (field.FieldId? || field.FieldPubkey?)
    ensures Matches(Bool([], Map(v => PrefixOrTerm(field, v), values)), doc) <==>
            PrefixedBy(values, if field.FieldId? then doc.id else doc.pubkey)
  {
    var should := Map(v => PrefixOrTerm(field, v), values);
    var text := if field.FieldId? then doc.id else doc.pubkey;
    forall i | 0 <= i < |values|
      ensures Matches(should[i], doc) <==> if ByteLen(values[i]) < 64 then values[i] <= text else values[i] == text
    {
      PrefixOrTermMeans(field, values[i], doc);
    }
    if PrefixedBy(values, text) {
      var v :| v in values && if ByteLen(v) < 64 then v <= text else v == text;
      var i :| 0 <= i < |values| && values[i] == v;
      assert should[i] in should;
    }
    if x :| x in should && Matches(x, doc) {
      var i :| 0 <= i < |should| && should[i] == x;
      assert values[i] in values;
    }
  }

  lemma TermsMeans(values: seq<string>, doc: Event)
    ensures Matches(Terms(FieldTags, Keywords(values)), doc) <==> exists s :: s in values && InTags(doc, s)
  {
    var ts := Keywords(values);
    if s :| s in values && InTags(doc, s) {
      var i :| 0 <= i < |values| && values[i] == s;
      assert ts[i] == Keyword(s) && ts[i] in Indexed(doc, FieldTags);
    }
    if t :| t in ts && t in Indexed(doc, FieldTags) {
      var i :| 0 <= i < |ts| && ts[i] == t;
      assert values[i] in values && InTags(doc, values[i]);
    }
  }

  lemma TagShouldMeans(tags: map<string, seq<string>>, should: seq<Q>, doc: Event)
    requires tags != map[] && should != []
    requires forall x :: x in should <==>
               exists name :: name in tags && x == Terms(FieldTags, Keywords(tags[name] + [name]))
    ensures Matches(Bool([], should), doc) <==> MentionsTag(tags, doc)
  {
    if MentionsTag(tags, doc) {
      var name, s :| name in tags && (s == name || s in tags[name]) && InTags(doc, s);
      assert s in tags[name] + [name];
      TermsMeans(tags[name] + [name], doc);
      assert Terms(FieldTags, Keywords(tags[name] + [name])) in should;
    }
    if x :| x in should && Matches(x, doc) {
      var name :| name in tags && x == Terms(FieldTags, Keywords(tags[name] + [name]));
      TermsMeans(tags[name] + [name], doc);
    }
  }

  lemma AddMust(must: seq<Q>, q: Q, doc: Event)
    ensures Matches(Bool(must + [q], []), doc) <==> Matches(Bool(must, []), doc) && Matches(q, doc)
  {
  }

  method AddPrefix(must: seq<Q>, field: Field, values: seq<string>) returns (must': seq<Q>)
    requires field.FieldId? || field.FieldPubkey?
    ensures forall doc :: Matches(Bool(must', []), doc) <==>
              Matches(Bool(must, []), doc) && PrefixedBy(values, if field.FieldId? then doc.id else doc.pubkey)
  {
    var q := PrefixFilter(field, values);
    must' := must;
    if q.Some? {
      must' := must + [q.value];
      forall doc ensures Matches(Bool(must', []), doc) <==>
              Matches(Bool(must, []), doc) && PrefixedBy(values, if field.FieldId? then doc.id else doc.pubkey) {
        AddMust(must, q.value, doc);
        PrefixFilterMeans(field, values, doc);
      }
    }
  }

  method AddKindsAndTags(must: seq<Q>, f: Filter) returns (must': seq<Q>)
    ensures forall doc :: Matches(Bool(must', []), doc) <==>
              && Matches(Bool(must, []), doc)
              && (f.kinds.Some? && f.kinds.value != [] ==> doc.kind in f.kinds.value)
              && MentionsTag(f.tags, doc)
  {
    must' := must;
    if f.kinds.Some? && |f.kinds.value| > 0 {
      var q := Terms(FieldKind, Map(k => Integer(k), f.kinds.value));
      must' := must' + [q];
      forall doc ensures Matches(Bool(must', []), doc) <==> Matches(Bool(must, []), doc) && doc.kind in f.kinds.value {
        AddMust(must, q, doc);
        KindsMean(f.kinds.value, doc);
      }
    }
    ghost var before := must';
    if f.tags != map[] {
      var should := TagShould(f.tags);
      must' := must' + [Bool([], should)];
      forall doc ensures Matches(Bool(must', []), doc) <==> Matches(Bool(before, []), doc) && MentionsTag(f.tags, doc) {
        AddMust(before, Bool([], should), doc);
        TagShouldMeans(f.tags, should, doc);
      }
    }
  }

  lemma KindsMean(kinds: seq<int>, doc: Event)
    ensures Matches(Terms(FieldKind, Map(k => Integer(k), kinds)), doc) <==> doc.kind in kinds
  {
    var ts := Map(k => Integer(k), kinds);
    if doc.kind in kinds {
      var i :| 0 <= i < |kinds| && kinds[i] == doc.kind;
      assert ts[i] == Integer(doc.kind) && ts[i] in Indexed(doc, FieldKind);
    }
  }

  lemma RangeMeans(gte: Option<int>, lte: Option<int>, doc: Event)
    ensures Matches(Range(FieldCreatedAt, gte, lte), doc) <==> InRange(Instant(doc.createdAt), gte, lte)
  {
    assert Instant(doc.createdAt) in Indexed(doc, FieldCreatedAt);
  }

  method AddTimes(must: seq<Q>, f: Filter) returns (must': seq<Q>)
    ensures forall doc :: Matches(Bool(must', []), doc) <==>
              Matches(Bool(must, []), doc) && InIndexTime(f, doc.createdAt)
  {
    must' := must;
    if f.since.Some? {
      var q := Range(FieldCreatedAt, Some(Millis(f.since.value)), None);
      must' := must' + [q];
      forall doc ensures Matches(Bool(must', []), doc) <==>
              Matches(Bool(must, []), doc) && Millis(f.since.value) <= doc.createdAt {
        AddMust(must, q, doc);
        RangeMeans(q.gte, q.lte, doc);
      }
    }
    ghost var before := must';
    if f.until.Some? {
      var q := Range(FieldCreatedAt, None, Some(Millis(f.until.value)));
      must' := must' + [q];
      forall doc ensures Matches(Bool(must', []), doc) <==>
              Matches(Bool(before, []), doc) && doc.createdAt <= Millis(f.until.value) {
        AddMust(before, q, doc);
        RangeMeans(q.gte, q.lte, doc);
      }
    }
  }

  /** The tree, whatever the order of the tag map, selects exactly the documents asked for. */
  method BuildDsl(f: Filter) returns (q: Q)
    ensures forall doc :: Matches(q, doc) <==> Asked(f, doc)
  {
    var must := AddPrefix([], FieldId, Values(f.ids));
    must := AddPrefix(must, FieldPubkey, Values(f.authors));
    must := AddKindsAndTags(must, f);
    must := AddTimes(must, f);
    q := Bool(must, []);
  }

  method IsGetByID(f: Filter) returns (b: bool)
    ensures b <==>
      && Values(f.ids) != [] && (forall id :: id in Values(f.ids) ==> ByteLen(id) == 64)
      && Values(f.authors) == [] && (f.kinds.None? || f.kinds.value == []) && f.tags == map[]
      && f.since.None? && f.until.None?
  {
    var ids := Values(f.ids);
    b := |ids| > 0 && |Values(f.authors)| == 0 && (f.kinds.None? || |f.kinds.value| == 0) && f.tags == map[]
         && f.since.None? && f.until.None?;
    if b {
      for i := 0 to |ids|
        invariant forall j :: 0 <= j < i ==> ByteLen(ids[j]) == 64
      {
        if ByteLen(ids[i]) != 64 {
          assert ids[i] in ids;
          return false;
        }
      }
    }
  }

  // ---------- against Postgres ----------

  /** On a field of 64 characters the prefix branch and the term branch agree for a value of 64. */
  lemma PrefixIsTermAt64(v: string, field: string)
    requires |v| == 64 && |field| == 64
    ensures v <= field <==> v == field
  {
  }

  /** Valid, lower case, and not too many. */
  predicate FullHex(values: Option<seq<string>>)
  {
    values.Some? ==>
      && 0 < |values.value| <= MAX_IDS
      && forall v :: v in values.value ==> ValidHex32(v) && Lower(v) == v
  }

  ghost predicate Comparable(f: Filter)
  {
    && FullHex(f.ids) && FullHex(f.authors)
    && (f.kinds.Some? ==> 0 < |f.kinds.value| <= MAX_KINDS)
    && !RefusedTags(f.tags)
  }

  /** The part of a comparable filter that both back ends read alike. */
  predicate Common(f: Filter, e: Event)
  {
    && (f.ids.Some? ==> StartsWithOne(f.ids.value, e.id))
    && (f.authors.Some? ==> StartsWithOne(f.authors.value, e.pubkey))
    && (f.kinds.Some? ==> e.kind in f.kinds.value)
  }

  predicate InTime(f: Filter, createdAt: int)
  {
    && (f.since.Some? ==> createdAt > f.since.value)
    && (f.until.Some? ==> createdAt < f.until.value)
  }

  lemma FullHexAgrees(values: Option<seq<string>>, field: string)
    requires FullHex(values) && |field| == 64
    ensures PrefixedBy(Values(values), field) <==> (values.Some? ==> StartsWithOne(values.value, field))
  {
    forall v | v in Values(values) ensures Lower(v) <= field <==> v == field {
      PrefixIsTermAt64(v, field);
    }
  }

  /** For filters with full lower-case hex ids and authors, and kinds and tag values within the
      caps, Postgres refuses nothing, and on events of regular shape the two back ends differ
      only in the tags and the times. */
  lemma TagsAndTimesDiffer(f: Filter, e: Event)
    requires Comparable(f) && |e.id| == 64 && |e.pubkey| == 64
    ensures !Refused(f)
    ensures Wanted(f, e) <==> Common(f, e) && TagWanted(f.tags, e) && InTime(f, e.createdAt)
    ensures Asked(f, e) <==> Common(f, e) && MentionsTag(f.tags, e) && InIndexTime(f, e.createdAt)
    ensures TagWanted(f.tags, e) ==> MentionsTag(f.tags, e)
  {
    FullHexAgrees(f.ids, e.id);
    FullHexAgrees(f.authors, e.pubkey);
    assert f.ids.Some? ==> f.ids.value[0] in f.ids.value;
    assert f.authors.Some? ==> f.authors.value[0] in f.authors.value;
    if f.tags != map[] && TagWanted(f.tags, e) {
      var name, v :| name in f.tags && v in f.tags[name] && HasTagValue(e.tags, v);
      assert InTags(e, v);
    }
  }

  /** Without bounds the index finds whatever Postgres finds, and it finds more exactly when
      asked-for names or values stand in the event's tags but no value stands behind a
      one-character name. With a bound and no tags: Postgres wants c > since where the index
      wants c >= 1000 * since, and the same for until, so the two agree exactly on the events
      on the same side of both. */
  lemma BackendsAgree(f: Filter, e: Event)
    requires Comparable(f) && |e.id| == 64 && |e.pubkey| == 64
    ensures f.since.None? && f.until.None? ==> (Wanted(f, e) ==> Asked(f, e))
    ensures f.since.None? && f.until.None? ==>
      ((Asked(f, e) && !Wanted(f, e)) <==>
       (Common(f, e) && MentionsTag(f.tags, e) && f.tags != map[]
        && forall name, v :: name in f.tags && v in f.tags[name] ==> !HasTagValue(e.tags, v)))
    ensures f.tags == map[] && f.since.Some? && f.since.value > 0 && f.until.None? ==>
      ((Wanted(f, e) <==> Asked(f, e)) <==>
       (Common(f, e) ==> e.createdAt <= f.since.value || e.createdAt >= 1000 * f.since.value))
    ensures f.tags == map[] && f.since.None? && f.until.Some? && f.until.value > 0 ==>
      ((Wanted(f, e) <==> Asked(f, e)) <==>
       (Common(f, e) ==> e.createdAt < f.until.value || e.createdAt > 1000 * f.until.value))
  {
    TagsAndTimesDiffer(f, e);
  }

  /** The times a bound is read differently for: strictly inside the span from the bound to a
      thousand times the bound, and at one end of it. */
  predicate SinceDiffers(since: int, createdAt: int)
  {
    since < createdAt < Millis(since) || Millis(since) <= createdAt <= since
  }

  predicate UntilDiffers(until: int, createdAt: int)
  {
    until <= createdAt <= Millis(until) || Millis(until) < createdAt < until
  }

  /** Whether an event is on the same side of both readings, for bounds of any sign. */
  lemma TimesAgree(f: Filter, createdAt: int)
    ensures f.since.Some? ==>
      ((createdAt > f.since.value <==> createdAt >= Millis(f.since.value)) <==> !SinceDiffers(f.since.value, createdAt))
    ensures f.until.Some? ==>
      ((createdAt < f.until.value <==> createdAt <= Millis(f.until.value)) <==> !UntilDiffers(f.until.value, createdAt))
    ensures (InTime(f, createdAt) <==> InIndexTime(f, createdAt)) <==>
      || (!InTime(f, createdAt) && !InIndexTime(f, createdAt))
      || ((f.since.Some? ==> !SinceDiffers(f.since.value, createdAt))
          && (f.until.Some? ==> !UntilDiffers(f.until.value, createdAt)))
  {
  }

  /** The exact condition for every comparable filter, with any bounds and tags: an event with a
      wanted tag value must be on the same side of both readings of the bounds, and an event
      without one, but with a mention, must be out of time for the index. */
  lemma BackendsAgreeExactly(f: Filter, e: Event)
    requires Comparable(f) && |e.id| == 64 && |e.pubkey| == 64
    ensures (Wanted(f, e) <==> Asked(f, e)) <==>
      (Common(f, e) ==>
        if TagWanted(f.tags, e) then InTime(f, e.createdAt) <==> InIndexTime(f, e.createdAt)
        else MentionsTag(f.tags, e) ==> !InIndexTime(f, e.createdAt))
  {
    TagsAndTimesDiffer(f, e);
  }

  /** What that means for bounds after April 1970 and events before the year 2286: with since
      the index finds nothing, and until makes no difference. */
  lemma IndexMisreadsTimes(f: Filter, e: Event)
    requires 0 <= e.createdAt < 10_000_000_000
    requires f.since.Some? ==> f.since.value >= 10_000_000
    requires f.until.Some? ==> f.until.value >= 10_000_000
    ensures Asked(f, e) <==> f.since.None? && Asked(f.(until := None), e)
  {
  }

  /** An event of 2023, newer than a bound of 2020, is found by Postgres and not by the index. */
  lemma SinceHidesNewer(e: Event)
    requires e.createdAt == 1_700_000_000
    ensures var f := Filter(None, None, None, map[], Some(1_600_000_000), None, 0);
            Comparable(f) && Wanted(f, e) && !Asked(f, e)
  {
  }

  /** In the index a tag name is enough: any event with a tag of an asked-for name passes the
      tag clause, whatever the values. */
  lemma TagNameIsEnough(tags: map<string, seq<string>>, e: Event, t: Tag)
    requires t in e.tags && t != [] && t[0] in tags
    ensures MentionsTag(tags, e)
  {
    assert InTags(e, t[0]);
  }
}

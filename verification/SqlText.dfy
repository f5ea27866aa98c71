/** The SELECT statement QueryEvents sends, as text: its grammar, a printer and a parser.
    relayer/storage/postgresql/query.go builds the text piece by piece; PostgresQuery
    shows that what it builds is what Print gives. */
module SqlText {
  import opened Prelude
  import opened Decimal

  datatype Column = Id | Pubkey

  datatype Like = Like(column: Column, pattern: string)

  datatype Cond =
    | AnyLike(likes: seq<Like>)
    | KindIn(kinds: seq<int>)
    | TagsOverlap(holes: nat)
    | CreatedAfter
    | CreatedBefore
    | Always

  const SELECT := "SELECT\n      "
  const KEYS := "id, pubkey, created_at, "
  const BODY := "kind, tags, content, sig"
  const SOURCE := "\n    FROM event WHERE "
  const HEAD := SELECT + KEYS + BODY + SOURCE
  const ORDER := " ORDER BY created_at"
  const LIMIT := " DESC LIMIT ?"
  const TAIL := ORDER + LIMIT

  datatype Direction = Ascending | Descending

  /** What a statement asks for: which columns of which table, the conjunction, the order. The
      number of rows is bound to its last `?`. */
  datatype Statement = Statement(columns: string, table: string, conds: seq<Cond>, orderBy: string,
                                 direction: Direction)

  /** How many parameters a condition takes. */
  function Holes(c: Cond): nat
  {
    match c
    case TagsOverlap(n) => n
    case CreatedAfter => 1
    case CreatedBefore => 1
    case _ => 0
  }

  function AllHoles(cs: seq<Cond>): nat
  {
    if cs == [] then 0 else Holes(cs[0]) + AllHoles(cs[1..])
  }

  // ---------- printing ----------

  function ColumnName(c: Column): string
  {
    if c.Id? then "id" else "pubkey"
  }

  function PrintLike(l: Like): string
  {
    ColumnName(l.column) + " LIKE '" + l.pattern + "'"
  }

  function Hole(u: ()): string
  {
    "?"
  }

  function PrintCond(c: Cond): string
  {
    match c
    case AnyLike(likes) => "(" + Join(Map(PrintLike, likes), " OR ") + ")"
    case KindIn(kinds) => "kind IN (" + Join(Map(Itoa, kinds), ",") + ")"
    case TagsOverlap(n) => "tagvalues && ARRAY[" + Join(seq(n, _ => "?"), ",") + "]"
    case CreatedAfter => "created_at > ?"
    case CreatedBefore => "created_at < ?"
    case Always => "true"
  }

  function Print(cs: seq<Cond>): string
  {
    HEAD + Join(Map(PrintCond, cs), " AND ") + TAIL
  }

  // ---------- parsing ----------

  function ParseLike(s: string): Option<(Like, string)>
  {
    match StripPrefix(s, "id LIKE '")
    case Some(r) => ParsePattern(Id, r)
    case None =>
      match StripPrefix(s, "pubkey LIKE '")
      case Some(r) => ParsePattern(Pubkey, r)
      case None => None
  }

  function ParsePattern(column: Column, s: string): Option<(Like, string)>
  {
    var (pattern, rest) := Span(s, '\'');
    if rest == "" then None else Some((Like(column, pattern), rest[1..]))
  }

  function ParseHole(s: string): Option<((), string)>
  {
    match StripPrefix(s, "?")
    case Some(rest) => Some(((), rest))
    case None => None
  }

  function Closed<T>(r: Option<(T, string)>, bracket: string): Option<(T, string)>
  {
    match r
    case None => None
    case Some((x, rest)) =>
      match StripPrefix(rest, bracket)
      case None => None
      case Some(more) => Some((x, more))
  }

  function ParseLikes(s: string): Option<(Cond, string)>
  {
    match Closed(ParseList(ParseLike, " OR ", s), ")")
    case Some((likes, rest)) => Some((AnyLike(likes), rest))
    case None => None
  }

  function ParseKinds(s: string): Option<(Cond, string)>
  {
    match Closed(ParseList(ParseInt, ",", s), ")")
    case Some((kinds, rest)) => Some((KindIn(kinds), rest))
    case None => None
  }

  function ParseHoles(s: string): Option<(Cond, string)>
  {
    match Closed(ParseList(ParseHole, ",", s), "]")
    case Some((holes, rest)) => Some((TagsOverlap(|holes|), rest))
    case None => None
  }

  function ParseCond(s: string): Option<(Cond, string)>
  {
    if s == "" then None
    else if s[0] == '(' then ParseLikes(s[1..])
    else if "kind IN (" <= s then ParseKinds(s[9..])
    else if "tagvalues && ARRAY[" <= s then ParseHoles(s[19..])
    else if "created_at > ?" <= s then Some((CreatedAfter, s[14..]))
    else if "created_at < ?" <= s then Some((CreatedBefore, s[14..]))
    else if "true" <= s then Some((Always, s[4..]))
    else None
  }

  predicate Blank(c: char)
  {
    c == ' ' || c == '\n'
  }

  function SkipBlanks(s: string): string
  {
    if s != "" && Blank(s[0]) then SkipBlanks(s[1..]) else s
  }

  /** SELECT columns FROM table WHERE: the columns end with their line. */
  function ParseHead(s: string): Option<(string, string, string)>
  {
    match StripPrefix(s, "SELECT")
    case None => None
    case Some(r) =>
      var (columns, r1) := Span(SkipBlanks(r), '\n');
      match StripPrefix(SkipBlanks(r1), "FROM ")
      case None => None
      case Some(r2) =>
        var (table, r3) := Span(r2, ' ');
        match StripPrefix(r3, " WHERE ")
        case None => None
        case Some(r4) => Some((columns, table, r4))
  }

  /** ORDER BY a column, in one direction, LIMIT ?. */
  function ParseTail(s: string): Option<(string, Direction)>
  {
    match StripPrefix(s, " ORDER BY ")
    case None => None
    case Some(r) =>
      var (column, r1) := Span(r, ' ');
      if r1 == " DESC LIMIT ?" then Some((column, Descending))
      else if r1 == " ASC LIMIT ?" then Some((column, Ascending))
      else None
  }

  /** A whole statement; None when the text is not one of this grammar. */
  function Parse(text: string): Option<Statement>
  {
    match ParseHead(text)
    case None => None
    case Some((columns, table, body)) =>
      match ParseList(ParseCond, " AND ", body)
      case None => None
      case Some((cs, rest)) =>
        match ParseTail(rest)
        case None => None
        case Some((orderBy, direction)) => Some(Statement(columns, table, cs, orderBy, direction))
  }

  // ---------- the parser inverts the printer ----------

  predicate PlainPattern(p: string)
  {
    '\'' !in p && '?' !in p
  }

  /** What the printer can be asked to print: no empty list, no quote inside a pattern. */
  predicate Printable(c: Cond)
  {
    match c
    case AnyLike(likes) => likes != [] && forall l :: l in likes ==> PlainPattern(l.pattern)
    case KindIn(kinds) => kinds != []
    case TagsOverlap(n) => n > 0
    case _ => true
  }

  lemma ParseLikeInverts(l: Like, rest: string)
    requires PlainPattern(l.pattern)
    ensures ParseLike(PrintLike(l) + rest) == Some((l, rest))
  {
    var end := ['\''] + rest;
    PatternInverts(l.column, l.pattern, rest);
    if l.column.Id? {
      assert "id" + " LIKE '" == "id LIKE '";
      assert PrintLike(l) + rest == "id LIKE '" + (l.pattern + end);
      StripPrefixInverts("id LIKE '", l.pattern + end);
    } else {
      assert "pubkey" + " LIKE '" == "pubkey LIKE '";
      assert PrintLike(l) + rest == "pubkey LIKE '" + (l.pattern + end);
      NoIdPrefix(l.pattern + end);
      StripPrefixInverts("pubkey LIKE '", l.pattern + end);
    }
  }

  lemma NoIdPrefix(body: string)
    ensures StripPrefix("pubkey LIKE '" + body, "id LIKE '").None?
  {
    assert ("pubkey LIKE '" + body)[0] == 'p' && "id LIKE '"[0] == 'i';
  }

  lemma PatternInverts(column: Column, pattern: string, rest: string)
    requires '\'' !in pattern
    ensures ParsePattern(column, pattern + (['\''] + rest)) == Some((Like(column, pattern), rest))
  {
    SpanInverts(pattern, ['\''] + rest, '\'');
    assert (['\''] + rest)[1..] == rest;
  }

  lemma ParseLikesInverts(likes: seq<Like>, rest: string)
    requires Printable(AnyLike(likes))
    ensures ParseLikes(Join(Map(PrintLike, likes), " OR ") + (")" + rest)) == Some((AnyLike(likes), rest))
  {
    var end := ")" + rest;
    forall i: nat, tail: string | i < |likes| ensures ParseLike(PrintLike(likes[i]) + tail) == Some((likes[i], tail)) {
      ParseLikeInverts(likes[i], tail);
    }
    assert end[0] == ')';
    ParseListInverts(ParseLike, PrintLike, " OR ", likes, end);
    StripPrefixInverts(")", rest);
  }

  lemma ParseKindsInverts(kinds: seq<int>, rest: string)
    requires kinds != []
    ensures ParseKinds(Join(Map(Itoa, kinds), ",") + (")" + rest)) == Some((KindIn(kinds), rest))
  {
    var end := ")" + rest;
    forall i: nat, tail: string | i < |kinds| && (tail == end || "," <= tail)
      ensures ParseInt(Itoa(kinds[i]) + tail) == Some((kinds[i], tail))
    {
      assert tail[0] == ')' || tail[0] == ',';
      ParseIntInverts(kinds[i], tail);
    }
    assert end[0] == ')';
    ParseListInverts(ParseInt, Itoa, ",", kinds, end);
    StripPrefixInverts(")", rest);
  }

  lemma ParseHolesInverts(n: nat, rest: string)
    requires n > 0
    ensures ParseHoles(Join(seq(n, _ => "?"), ",") + ("]" + rest)) == Some((TagsOverlap(n), rest))
  {
    var end := "]" + rest;
    var units := seq(n, _ => ());
    assert Map(Hole, units) == seq(n, _ => "?");
    forall i: nat, tail: string | i < |units| ensures ParseHole(Hole(units[i]) + tail) == Some((units[i], tail)) {
      StripPrefixInverts("?", tail);
    }
    assert end[0] == ']';
    ParseListInverts(ParseHole, Hole, ",", units, end);
    StripPrefixInverts("]", rest);
  }

  lemma DispatchLikes(s: string, body: string)
    requires s == "(" + body
    ensures ParseCond(s) == ParseLikes(body)
  {
    assert s[0] == '(' && s[1..] == body;
  }

  lemma DispatchKinds(s: string, body: string)
    requires s == "kind IN (" + body
    ensures ParseCond(s) == ParseKinds(body)
  {
    assert s[0] == 'k' && s[9..] == body;
  }

  lemma DispatchHoles(s: string, body: string)
    requires s == "tagvalues && ARRAY[" + body
    ensures ParseCond(s) == ParseHoles(body)
  {
    assert s[0] == 't' && s[19..] == body;
  }

  lemma DispatchFixed(c: Cond, rest: string)
    requires c.CreatedAfter? || c.CreatedBefore? || c.Always?
    ensures ParseCond(PrintCond(c) + rest) == Some((c, rest))
  {
    var s := PrintCond(c) + rest;
    if c.Always? {
      assert s[0] == 't' && s[1] == 'r' && s[4..] == rest;
    } else {
      assert s[0] == 'c' && s[11] == (if c.CreatedAfter? then '>' else '<') && s[14..] == rest;
    }
  }

  lemma PrintedLikes(likes: seq<Like>, rest: string)
    requires Printable(AnyLike(likes))
    ensures ParseCond(PrintCond(AnyLike(likes)) + rest) == Some((AnyLike(likes), rest))
  {
    var s, body := PrintCond(AnyLike(likes)) + rest, Join(Map(PrintLike, likes), " OR ") + (")" + rest);
    ParseLikesInverts(likes, rest);
    assert s == "(" + body;
    DispatchLikes(s, body);
  }

  lemma PrintedKinds(kinds: seq<int>, rest: string)
    requires kinds != []
    ensures ParseCond(PrintCond(KindIn(kinds)) + rest) == Some((KindIn(kinds), rest))
  {
    var s, body := PrintCond(KindIn(kinds)) + rest, Join(Map(Itoa, kinds), ",") + (")" + rest);
    ParseKindsInverts(kinds, rest);
    assert s == "kind IN (" + body;
    DispatchKinds(s, body);
  }

  lemma PrintedHoles(n: nat, rest: string)
    requires n > 0
    ensures ParseCond(PrintCond(TagsOverlap(n)) + rest) == Some((TagsOverlap(n), rest))
  {
    var s, body := PrintCond(TagsOverlap(n)) + rest, Join(seq(n, _ => "?"), ",") + ("]" + rest);
    ParseHolesInverts(n, rest);
    assert s == "tagvalues && ARRAY[" + body;
    DispatchHoles(s, body);
  }

  lemma ParseCondInverts(c: Cond, rest: string)
    requires Printable(c)
    ensures ParseCond(PrintCond(c) + rest) == Some((c, rest))
  {
    match c
    case AnyLike(likes) => PrintedLikes(likes, rest);
    case KindIn(kinds) => PrintedKinds(kinds, rest);
    case TagsOverlap(n) => PrintedHoles(n, rest);
    case _ => DispatchFixed(c, rest);
  }

  lemma {:induction false} SkipsBlanks(blanks: string, rest: string)
    requires forall i :: 0 <= i < |blanks| ==> Blank(blanks[i])
    requires rest != "" && !Blank(rest[0])
    ensures SkipBlanks(blanks + rest) == rest
  {
    if blanks == "" {
      assert blanks + rest == rest;
    } else {
      assert (blanks + rest)[1..] == blanks[1..] + rest;
      SkipsBlanks(blanks[1..], rest);
    }
  }

  lemma SourceParses(rest: string)
    ensures var r := SOURCE + rest;
            && r[0] == '\n'
            && StripPrefix(SkipBlanks(r), "FROM ") == Some("event WHERE " + rest)
            && Span("event WHERE " + rest, ' ') == ("event", " WHERE " + rest)
            && StripPrefix(" WHERE " + rest, " WHERE ") == Some(rest)
  {
    assert SOURCE + rest == "\n    " + ("FROM " + ("event WHERE " + rest));
    SkipsBlanks("\n    ", "FROM " + ("event WHERE " + rest));
    StripPrefixInverts("FROM ", "event WHERE " + rest);
    assert "event WHERE " + rest == "event" + (" WHERE " + rest);
    SpanInverts("event", " WHERE " + rest, ' ');
    StripPrefixInverts(" WHERE ", rest);
  }

  lemma SelectParses(columns: string, source: string)
    requires columns != "" && !Blank(columns[0])
    ensures var r := StripPrefix(SELECT + (columns + source), "SELECT");
            r.Some? && SkipBlanks(r.value) == columns + source
  {
    var word, blanks := "SELECT", "\n      ";
    assert SELECT == word + blanks;
    assert SELECT + (columns + source) == word + (blanks + (columns + source));
    StripPrefixInverts(word, blanks + (columns + source));
    SkipsBlanks(blanks, columns + source);
  }

  lemma ColumnsParse(source: string)
    requires source != "" && source[0] == '\n'
    ensures KEYS + BODY != "" && !Blank((KEYS + BODY)[0])
    ensures Span(KEYS + BODY + source, '\n') == (KEYS + BODY, source)
  {
    assert KEYS[0] == 'i';
    assert '\n' !in KEYS;
    assert '\n' !in BODY;
    SpanInverts(KEYS + BODY, source, '\n');
  }

  lemma HeadParses(rest: string)
    ensures ParseHead(HEAD + rest) == Some((KEYS + BODY, "event", rest))
  {
    var columns, source := KEYS + BODY, SOURCE + rest;
    SourceParses(rest);
    ColumnsParse(source);
    SelectParses(columns, source);
    HeadSplits(rest);
  }

  lemma HeadSplits(rest: string)
    ensures HEAD + rest == SELECT + (KEYS + BODY + (SOURCE + rest))
  {
    Regroup(SELECT, KEYS, BODY, SOURCE, rest);
  }

  lemma Regroup(a: string, b: string, c: string, d: string, e: string)
    ensures a + b + c + d + e == a + (b + c + (d + e))
  {
  }

  lemma TailParses()
    ensures ParseTail(TAIL) == Some(("created_at", Descending))
  {
    assert ORDER == " ORDER BY " + "created_at";
    assert TAIL == " ORDER BY " + ("created_at" + LIMIT);
    StripPrefixInverts(" ORDER BY ", "created_at" + LIMIT);
    assert LIMIT[0] == ' ';
    SpanInverts("created_at", LIMIT, ' ');
  }

  /** Parsing gives back exactly the conditions that were printed, and what the words around
      them say: the seven columns of the event table, newest first. */
  lemma ParseInvertsPrint(cs: seq<Cond>)
    requires cs != []
    requires forall c :: c in cs ==> Printable(c)
    ensures Parse(Print(cs)) == Some(Statement("id, pubkey, created_at, " + "kind, tags, content, sig", "event", cs,
                                               "created_at", Descending))
  {
    var list := Join(Map(PrintCond, cs), " AND ");
    assert Inverts(ParseCond, PrintCond, " AND ", cs, TAIL) by {
      forall i: nat, tail: string | i < |cs| ensures ParseCond(PrintCond(cs[i]) + tail) == Some((cs[i], tail)) {
        ParseCondInverts(cs[i], tail);
      }
    }
    assert TAIL[1] == 'O';
    ParseListInverts(ParseCond, PrintCond, " AND ", cs, TAIL);
    assert Print(cs) == HEAD + (list + TAIL);
    HeadParses(list + TAIL);
    TailParses();
  }

  // ---------- counting the question marks ----------

  /** Brackets and separators without a `?` around a list of parts. */
  lemma CountBracketed(open: string, parts: seq<string>, sep: string, close: string)
    requires '?' !in open && '?' !in sep && '?' !in close
    ensures Count(open + Join(parts, sep) + close, '?') == CountAll(parts, '?')
  {
    var list := Join(parts, sep);
    CountJoin(parts, sep, '?');
    CountConcat(open, list, '?');
    CountConcat(open + list, close, '?');
    CountAbsent(open, '?');
    CountAbsent(close, '?');
  }

  lemma CountLikes(likes: seq<Like>)
    requires Printable(AnyLike(likes))
    ensures Count(PrintCond(AnyLike(likes)), '?') == 0
  {
    var parts := Map(PrintLike, likes);
    forall p | p in parts ensures Count(p, '?') == 0 {
      var i :| 0 <= i < |parts| && parts[i] == p;
      assert '?' !in PrintLike(likes[i]);
      CountAbsent(p, '?');
    }
    CountAllUniform(parts, '?', false);
    CountBracketed("(", parts, " OR ", ")");
  }

  lemma CountKinds(kinds: seq<int>)
    ensures Count(PrintCond(KindIn(kinds)), '?') == 0
  {
    var parts := Map(Itoa, kinds);
    forall p | p in parts ensures Count(p, '?') == 0 {
      var i :| 0 <= i < |parts| && parts[i] == p;
      ItoaPlain(kinds[i], '?');
      CountAbsent(p, '?');
    }
    CountAllUniform(parts, '?', false);
    CountBracketed("kind IN (", parts, ",", ")");
  }

  lemma CountHoles(n: nat)
    ensures Count(PrintCond(TagsOverlap(n)), '?') == n
  {
    var parts := seq(n, _ => "?");
    CountAllUniform(parts, '?', true);
    CountBracketed("tagvalues && ARRAY[", parts, ",", "]");
  }

  lemma CountFinal(text: string)
    requires '?' !in text
    ensures Count(text + "?", '?') == 1
  {
    CountConcat(text, "?", '?');
    CountAbsent(text, '?');
  }

  lemma CountCond(c: Cond)
    requires Printable(c)
    ensures Count(PrintCond(c), '?') == Holes(c)
  {
    match c
    case AnyLike(likes) => CountLikes(likes);
    case KindIn(kinds) => CountKinds(kinds);
    case TagsOverlap(n) => CountHoles(n);
    case CreatedAfter =>
      CountFinal("created_at > ");
      assert PrintCond(c) == "created_at > " + "?";
    case CreatedBefore =>
      CountFinal("created_at < ");
      assert PrintCond(c) == "created_at < " + "?";
    case Always => CountAbsent("true", '?');
  }

  lemma {:induction false} CountConds(cs: seq<Cond>)
    requires forall c :: c in cs ==> Printable(c)
    ensures CountAll(Map(PrintCond, cs), '?') == AllHoles(cs)
  {
    if cs != [] {
      CountCond(cs[0]);
      CountConds(cs[1..]);
      assert Map(PrintCond, cs)[1..] == Map(PrintCond, cs[1..]);
    }
  }

  lemma CountHead()
    ensures Count(HEAD, '?') == 0
  {
    assert '?' !in SELECT;
    assert '?' !in KEYS;
    assert '?' !in BODY;
    assert '?' !in SOURCE;
    CountAbsent(HEAD, '?');
  }

  lemma CountTail()
    ensures Count(TAIL, '?') == 1
  {
    assert LIMIT == " DESC LIMIT " + "?";
    assert '?' !in ORDER;
    CountFinal(ORDER + " DESC LIMIT ");
    assert TAIL == ORDER + " DESC LIMIT " + "?";
  }

  /** A statement has one `?` for each parameter of its conditions and one for the limit. */
  lemma CountPrint(cs: seq<Cond>)
    requires forall c :: c in cs ==> Printable(c)
    ensures Count(Print(cs), '?') == AllHoles(cs) + 1
  {
    var parts := Map(PrintCond, cs);
    var list := Join(parts, " AND ");
    CountConds(cs);
    CountJoin(parts, " AND ", '?');
    CountHead();
    CountTail();
    CountConcat(HEAD, list, '?');
    CountConcat(HEAD + list, TAIL, '?');
  }
}

/** relayer/hashutil/hashutil.go: the unescaped event printer and the sign/verify pair. */
module HashUtil {
  import opened Prelude
  import opened Decimal
  import opened Hex
  import opened Nostr

  // ---------- the printer ----------

  function PrintTag(tag: Tag): string
  {
    "[\"" + Join(tag, "\",\"") + "\"]"
  }

  /** The text that is hashed. Nothing is escaped, and id and signature do not take part. */
  function Stringify(e: Event): string
  {
    "[0,\"" + e.pubkey + "\"," + Itoa(e.createdAt) + "," + Itoa(e.kind) + ",["
    + Join(Map(PrintTag, e.tags), ",") + "],\"" + e.content + "\"]"
  }

  method StringifyEvent(e: Event) returns (s: string)
    ensures s == Stringify(e)
  {
    var sx := new string[|e.tags|];
    for i := 0 to |e.tags|
      invariant forall j :: 0 <= j < i ==> sx[j] == PrintTag(e.tags[j])
    {
      sx[i] := "[\"" + Join(e.tags[i], "\",\"") + "\"]";
    }
    assert sx[..] == Map(PrintTag, e.tags);
    s := "[0,\"" + e.pubkey + "\"," + Itoa(e.createdAt) + "," + Itoa(e.kind) + ",["
         + Join(sx[..], ",") + "],\"" + e.content + "\"]";
  }

  // ---------- a parser for it ----------

  /** The part of an event the printer shows. */
  datatype Shown = Shown(pubkey: string, createdAt: int, kind: int, tags: seq<Tag>, content: string)

  function Show(e: Event): Shown
  {
    Shown(e.pubkey, e.createdAt, e.kind, e.tags, e.content)
  }

  function ParseElement(s: string): Option<(string, string)>
  {
    Some(Span(s, '\"'))
  }

  function ParseTag(s: string): Option<(Tag, string)>
  {
    match StripPrefix(s, "[\"")
    case None => None
    case Some(r) =>
      match ParseList(ParseElement, "\",\"", r)
      case None => None
      case Some((tag, r2)) =>
        match StripPrefix(r2, "\"]")
        case None => None
        case Some(r3) => Some((tag, r3))
  }

  function ParseTags(s: string): Option<(seq<Tag>, string)>
  {
    if s != "" && s[0] == ']' then Some(([], s)) else ParseList(ParseTag, ",", s)
  }

  /** After the tags: the bracket, the quoted content up to the last two characters. */
  function ParseContent(s: string): Option<string>
  {
    match StripPrefix(s, "],\"")
    case None => None
    case Some(r) =>
      if |r| >= 2 && r[|r| - 2..] == "\"]" then Some(r[..|r| - 2]) else None
  }

  function ParseNumbers(s: string): Option<(int, int, string)>
  {
    match StripPrefix(s, "\",")
    case None => None
    case Some(r) =>
      match ParseInt(r)
      case None => None
      case Some((createdAt, r2)) =>
        match StripPrefix(r2, ",")
        case None => None
        case Some(r3) =>
          match ParseInt(r3)
          case None => None
          case Some((kind, r4)) =>
            match StripPrefix(r4, ",[")
            case None => None
            case Some(r5) => Some((createdAt, kind, r5))
  }

  function ParseEvent(s: string): Option<Shown>
  {
    match StripPrefix(s, "[0,\"")
    case None => None
    case Some(r) =>
      var (pubkey, r1) := Span(r, '\"');
      match ParseNumbers(r1)
      case None => None
      case Some((createdAt, kind, r2)) =>
        match ParseTags(r2)
        case None => None
        case Some((tags, r3)) =>
          match ParseContent(r3)
          case None => None
          case Some(content) => Some(Shown(pubkey, createdAt, kind, tags, content))
  }

  // ---------- when the parser inverts the printer ----------

  predicate PlainTag(tag: Tag)
  {
    tag != [] && forall x :: x in tag ==> '\"' !in x
  }

  /** No double quote in the pubkey or in a tag element, and no empty tag. The content, the
      times and the kind are free. */
  predicate Plain(v: Shown)
  {
    '\"' !in v.pubkey && forall tag :: tag in v.tags ==> PlainTag(tag)
  }

  function Id(s: string): string
  {
    s
  }

  lemma MapId(tag: Tag)
    ensures Map(Id, tag) == tag
  {
    forall i | 0 <= i < |tag| ensures Map(Id, tag)[i] == tag[i] {
      assert Map(Id, tag)[i] == Id(tag[i]);
    }
  }

  lemma ElementInverts(x: string, tail: string)
    requires '\"' !in x && tail != "" && tail[0] == '\"'
    ensures ParseElement(Id(x) + tail) == Some((x, tail))
  {
    SpanInverts(x, tail, '\"');
  }

  lemma ElementsInvert(tag: Tag, end: string)
    requires PlainTag(tag) && end != "" && end[0] == '\"'
    ensures Inverts(ParseElement, Id, "\",\"", tag, end)
  {
    var sep := "\",\"";
    assert sep[0] == '\"';
    forall i: nat, tail: string | i < |tag| && (tail == end || sep <= tail)
      ensures ParseElement(Id(tag[i]) + tail) == Some((tag[i], tail))
    {
      assert tag[i] in tag;
      ElementInverts(tag[i], tail);
    }
  }

  lemma ParseTagInverts(tag: Tag, rest: string)
    requires PlainTag(tag)
    ensures ParseTag(PrintTag(tag) + rest) == Some((tag, rest))
  {
    var sep, end := "\",\"", "\"]" + rest;
    var list := Join(tag, sep);
    MapId(tag);
    ElementsInvert(tag, end);
    assert sep[1] == ',' && end[1] == ']';
    ParseListInverts(ParseElement, Id, sep, tag, end);
    assert PrintTag(tag) + rest == "[\"" + (list + end);
    StripPrefixInverts("[\"", list + end);
    StripPrefixInverts("\"]", rest);
  }

  lemma ParseTagsInverts(tags: seq<Tag>, rest: string)
    requires forall tag :: tag in tags ==> PlainTag(tag)
    requires rest != "" && rest[0] == ']'
    ensures ParseTags(Join(Map(PrintTag, tags), ",") + rest) == Some((tags, rest))
  {
    var list := Join(Map(PrintTag, tags), ",");
    if tags == [] {
      assert list + rest == rest;
    } else {
      assert Inverts(ParseTag, PrintTag, ",", tags, rest) by {
        forall i: nat, tail: string | i < |tags| ensures ParseTag(PrintTag(tags[i]) + tail) == Some((tags[i], tail)) {
          ParseTagInverts(tags[i], tail);
        }
      }
      ParseListInverts(ParseTag, PrintTag, ",", tags, rest);
      assert PrintTag(tags[0])[0] == '[';
      assert Map(PrintTag, tags)[0] == PrintTag(tags[0]);
    }
  }

  lemma ParseContentInverts(content: string)
    ensures ParseContent("],\"" + (content + "\"]")) == Some(content)
  {
  }

  lemma ParseNumbersInverts(createdAt: int, kind: int, rest: string)
    ensures ParseNumbers("\"," + (Itoa(createdAt) + ("," + (Itoa(kind) + (",[" + rest)))))
         == Some((createdAt, kind, rest))
  {
    var r4 := ",[" + rest;
    var r3 := Itoa(kind) + r4;
    var r2 := "," + r3;
    var r := Itoa(createdAt) + r2;
    StripPrefixInverts("\",", r);
    assert r2[0] == ',';
    ParseIntInverts(createdAt, r2);
    StripPrefixInverts(",", r3);
    assert r4[0] == ',';
    ParseIntInverts(kind, r4);
    StripPrefixInverts(",[", rest);
  }

  /** All that follows the two numbers. */
  function Body(e: Event): string
  {
    Join(Map(PrintTag, e.tags), ",") + ("],\"" + (e.content + "\"]"))
  }

  lemma TextOfBody(e: Event)
    ensures Stringify(e) ==
      "[0,\"" + (e.pubkey + ("\"," + (Itoa(e.createdAt) + ("," + (Itoa(e.kind) + (",[" + Body(e)))))))
  {
  }

  /** The parser finds its way to the body. */
  lemma HeadInverts(e: Event)
    requires '\"' !in e.pubkey
    ensures var numbers := "\"," + (Itoa(e.createdAt) + ("," + (Itoa(e.kind) + (",[" + Body(e)))));
            && StripPrefix(Stringify(e), "[0,\"") == Some(e.pubkey + numbers)
            && Span(e.pubkey + numbers, '\"') == (e.pubkey, numbers)
            && ParseNumbers(numbers) == Some((e.createdAt, e.kind, Body(e)))
  {
    var numbers := "\"," + (Itoa(e.createdAt) + ("," + (Itoa(e.kind) + (",[" + Body(e)))));
    TextOfBody(e);
    StripPrefixInverts("[0,\"", e.pubkey + numbers);
    assert numbers[0] == '\"';
    SpanInverts(e.pubkey, numbers, '\"');
    ParseNumbersInverts(e.createdAt, e.kind, Body(e));
  }

  lemma ParseInvertsPlain(e: Event)
    requires Plain(Show(e))
    ensures ParseEvent(Stringify(e)) == Some(Show(e))
  {
    var last := "],\"" + (e.content + "\"]");
    HeadInverts(e);
    assert last[0] == ']';
    ParseTagsInverts(e.tags, last);
    ParseContentInverts(e.content);
  }

  lemma {:induction false} ElementsArePlain(s: string)
    ensures var r := ParseList(ParseElement, "\",\"", s); r.Some? ==> PlainTag(r.value.0)
    decreases |s|
  {
    SpanAvoids(s, '\"');
    var (x, after) := Span(s, '\"');
    match StripPrefix(after, "\",\"")
    case None =>
    case Some(more) =>
      if |more| < |s| {
        ElementsArePlain(more);
      }
  }

  lemma {:induction false} TagsArePlain(s: string)
    ensures var r := ParseList(ParseTag, ",", s); r.Some? ==> forall tag :: tag in r.value.0 ==> PlainTag(tag)
    decreases |s|
  {
    match StripPrefix(s, "[\"")
    case None =>
    case Some(r) =>
      ElementsArePlain(r);
      match ParseTag(s)
      case None =>
      case Some((tag, after)) =>
        match StripPrefix(after, ",")
        case None =>
        case Some(more) =>
          if |more| < |s| {
            TagsArePlain(more);
          }
  }

  lemma ParsedIsPlain(s: string)
    ensures ParseEvent(s).Some? ==> Plain(ParseEvent(s).value)
  {
    match StripPrefix(s, "[0,\"")
    case None =>
    case Some(r) =>
      SpanAvoids(r, '\"');
      match ParseNumbers(Span(r, '\"').1)
      case None =>
      case Some((_, _, r2)) => TagsArePlain(r2);
  }

  /** The parser inverts the printer on exactly the plain events. Other events may have the
      same text as a plain one. */
  lemma StringifyInvertible(e: Event)
    ensures ParseEvent(Stringify(e)) == Some(Show(e)) <==> Plain(Show(e))
  {
    if Plain(Show(e)) {
      ParseInvertsPlain(e);
    }
    ParsedIsPlain(Stringify(e));
  }

  /** So plain events with the same text show the same. */
  lemma StringifyInjective(a: Event, b: Event)
    requires Plain(Show(a)) && Plain(Show(b))
    requires Stringify(a) == Stringify(b)
    ensures Show(a) == Show(b)
  {
    ParseInvertsPlain(a);
    ParseInvertsPlain(b);
  }

  // ---------- when the text identifies an event ----------

  const ELEMENT_BORDER := "\",\""
  const TAG_BORDER := "\"],[\""
  const TAGS_END := "\"]],\""

  /** Tags that print alike can stand for each other. */
  lemma SameTagText(e: Event, i: nat, tag: Tag)
    requires i < |e.tags| && PrintTag(tag) == PrintTag(e.tags[i])
    ensures Stringify(e.(tags := e.tags[i := tag])) == Stringify(e)
  {
    assert Map(PrintTag, e.tags[i := tag]) == Map(PrintTag, e.tags);
  }

  /** The first two elements of a tag as one, with the border between them inside it. */
  function Merged(tag: Tag): Tag
    requires |tag| >= 2
  {
    [tag[0] + ELEMENT_BORDER + tag[1]] + tag[2..]
  }

  lemma MergedPrintsAlike(tag: Tag)
    requires |tag| >= 2
    ensures PrintTag(Merged(tag)) == PrintTag(tag)
  {
    var merged := Merged(tag);
    assert merged[1..] == tag[2..] && tag[1..][1..] == tag[2..];
    var first := tag[0] + ELEMENT_BORDER + tag[1];
    if |tag| == 2 {
      assert Join(tag, ELEMENT_BORDER) == first == Join(merged, ELEMENT_BORDER);
    } else {
      var rest := Join(tag[2..], ELEMENT_BORDER);
      assert Join(tag, ELEMENT_BORDER) == tag[0] + ELEMENT_BORDER + (tag[1] + ELEMENT_BORDER + rest);
      assert Join(merged, ELEMENT_BORDER) == first + ELEMENT_BORDER + rest;
    }
  }

  /** The text does not identify any event with a tag of two elements or more: with its first
      two elements merged, the event is another one with the same text. */
  lemma MergedSharesText(e: Event, i: nat)
    requires i < |e.tags| && |e.tags[i]| >= 2
    ensures var other := e.(tags := e.tags[i := Merged(e.tags[i])]);
            Stringify(other) == Stringify(e) && Show(other) != Show(e)
  {
    var tag := e.tags[i];
    var merged := Merged(tag);
    MergedPrintsAlike(tag);
    assert |e.tags[i := merged][i]| < |e.tags[i]|;
    SameTagText(e, i, merged);
  }

  /** An empty tag prints like a tag with one empty element. */
  lemma EmptyTagSharesText(e: Event, i: nat)
    requires i < |e.tags| && e.tags[i] == []
    ensures Stringify(e.(tags := e.tags[i := [""]])) == Stringify(e)
  {
    SameTagText(e, i, [""]);
  }

  predicate OccursAt(s: string, part: string, k: nat)
  {
    k + |part| <= |s| && s[k..k + |part|] == part
  }

  predicate Contains(s: string, part: string)
  {
    exists k :: 0 <= k <= |s| && OccursAt(s, part, k)
  }

  function JoinTag(tag: Tag): string
  {
    Join(tag, ELEMENT_BORDER)
  }

  /** What is printed between the first and the last two characters of a non-empty tag list. */
  function Inner(tags: seq<Tag>): string
  {
    Join(Map(JoinTag, tags), TAG_BORDER)
  }

  /** Tags and content as far as the text can tell them apart. */
  function Mixed(e: Event): string
  {
    Inner(e.tags) + TAGS_END + e.content
  }

  lemma {:induction false} PrintedTags(tags: seq<Tag>)
    requires tags != []
    ensures Join(Map(PrintTag, tags), ",") == "[\"" + Inner(tags) + "\"]"
  {
    var texts, inner := Map(PrintTag, tags), Map(JoinTag, tags);
    if |tags| > 1 {
      PrintedTags(tags[1..]);
      assert texts[1..] == Map(PrintTag, tags[1..]) && inner[1..] == Map(JoinTag, tags[1..]);
      var first, rest := JoinTag(tags[0]), Inner(tags[1..]);
      assert texts[0] == PrintTag(tags[0]) == "[\"" + first + "\"]";
      calc {
        Join(texts, ",");
        texts[0] + "," + Join(texts[1..], ",");
        "[\"" + first + "\"]" + "," + ("[\"" + rest + "\"]");
        "[\"" + (first + TAG_BORDER + rest) + "\"]";
        "[\"" + Inner(tags) + "\"]";
      }
    } else {
      assert Join(texts, ",") == texts[0] && Inner(tags) == inner[0];
    }
  }

  lemma BodyMixed(e: Event)
    requires e.tags != []
    ensures Body(e) == "[\"" + Mixed(e) + "\"]"
  {
    PrintedTags(e.tags);
  }

  lemma BodyWithoutTags(e: Event)
    requires e.tags == []
    ensures Body(e) == "],\"" + (e.content + "\"]")
  {
    assert Join(Map(PrintTag, e.tags), ",") == "";
  }

  /** With quote-free pubkeys the text fixes pubkey, time and kind. */
  lemma TextFixesHead(a: Event, b: Event)
    requires '\"' !in a.pubkey && '\"' !in b.pubkey
    requires Stringify(a) == Stringify(b)
    ensures a.pubkey == b.pubkey && a.createdAt == b.createdAt && a.kind == b.kind && Body(a) == Body(b)
  {
    HeadInverts(a);
    HeadInverts(b);
  }

  /** Two events with quote-free pubkeys have one text exactly when pubkey, time and kind are
      the same and tags and content come to the same mixture. */
  lemma TextsCollide(a: Event, b: Event)
    requires '\"' !in a.pubkey && '\"' !in b.pubkey
    ensures Stringify(a) == Stringify(b) <==>
      && a.pubkey == b.pubkey && a.createdAt == b.createdAt && a.kind == b.kind
      && (a.tags == [] <==> b.tags == [])
      && if a.tags == [] then a.content == b.content else Mixed(a) == Mixed(b)
  {
    TextOfBody(a);
    TextOfBody(b);
    if Stringify(a) == Stringify(b) {
      TextFixesHead(a, b);
    }
    BodiesCollide(a, b);
  }

  lemma BodiesCollide(a: Event, b: Event)
    ensures Body(a) == Body(b) <==>
      (a.tags == [] <==> b.tags == []) && if a.tags == [] then a.content == b.content else Mixed(a) == Mixed(b)
  {
    BodyFirst(a);
    BodyFirst(b);
    if a.tags == [] && b.tags == [] {
      BodyWithoutTags(a);
      BodyWithoutTags(b);
      SurroundedAgree("],\"", "\"]", a.content, b.content);
    } else if a.tags != [] && b.tags != [] {
      BodyMixed(a);
      BodyMixed(b);
      SurroundedAgree("[\"", "\"]", Mixed(a), Mixed(b));
    }
  }

  lemma BodyFirst(e: Event)
    ensures Body(e) != "" && (Body(e)[0] == ']' <==> e.tags == [])
  {
    if e.tags == [] {
      BodyWithoutTags(e);
    } else {
      BodyMixed(e);
    }
  }

  lemma SurroundedAgree(front: string, back: string, s: string, t: string)
    ensures front + s + back == front + t + back <==> s == t
    ensures front + (s + back) == front + (t + back) <==> s == t
  {
    assert front + s + back == front + (s + back) && front + t + back == front + (t + back);
    assert (front + (s + back))[|front|..] == s + back && (front + (t + back))[|front|..] == t + back;
    assert (s + back)[..|s|] == s && (t + back)[..|t|] == t;
  }

  /** No tags; or one tag of one non-empty element that holds no border, and in element and
      content together the end of the tags occurs once only, where it belongs. */
  predicate Isolated(tags: seq<Tag>, content: string)
  {
    || tags == []
    || (|tags| == 1 && |tags[0]| == 1 && IsolatedElement(tags[0][0], content))
  }

  predicate IsolatedElement(x: string, content: string)
  {
    && x != "" && !Contains(x, ELEMENT_BORDER) && !Contains(x, TAG_BORDER)
    && forall k :: 0 <= k <= |x + TAGS_END + content| && OccursAt(x + TAGS_END + content, TAGS_END, k) ==> k == |x|
  }

  /** No other event that can carry a valid signature, its pubkey being hex, has the text. */
  ghost predicate Identifies(e: Event)
  {
    forall other: Event :: '\"' !in other.pubkey && Stringify(other) == Stringify(e) ==> Show(other) == Show(e)
  }

  lemma OccursBetween(a: string, part: string, b: string)
    ensures OccursAt(a + part + b, part, |a|) && Contains(a + part + b, part)
  {
    var k := |a|;
    assert 0 <= k <= |a + part + b| && OccursAt(a + part + b, part, k);
  }

  lemma SplitAt(s: string, part: string, k: nat)
    requires OccursAt(s, part, k)
    ensures s == s[..k] + part + s[k + |part|..]
  {
  }

  lemma BorderInJoin(parts: seq<string>, border: string)
    requires |parts| >= 2
    ensures Contains(Join(parts, border), border)
  {
    OccursBetween(parts[0], border, Join(parts[1..], border));
  }

  lemma OneTag(tag: Tag)
    ensures Inner([tag]) == JoinTag(tag)
  {
    assert Map(JoinTag, [tag]) == [JoinTag(tag)];
  }

  /** An element without borders comes from one tag list only. */
  lemma InnerIsolated(tags: seq<Tag>, x: string)
    requires tags != [] && Inner(tags) == x
    requires x != "" && !Contains(x, ELEMENT_BORDER) && !Contains(x, TAG_BORDER)
    ensures tags == [[x]]
  {
    if |tags| >= 2 {
      BorderInJoin(Map(JoinTag, tags), TAG_BORDER);
    } else if |tags[0]| >= 2 {
      OneTag(tags[0]);
      assert tags == [tags[0]];
      BorderInJoin(tags[0], ELEMENT_BORDER);
    } else {
      OneTag(tags[0]);
      assert tags == [tags[0]];
      assert tags[0] == if |tags[0]| == 0 then [] else [tags[0][0]];
    }
  }

  lemma IsolatedIdentifies(e: Event, other: Event)
    requires '\"' !in e.pubkey && '\"' !in other.pubkey
    requires Isolated(e.tags, e.content) && Stringify(other) == Stringify(e)
    ensures Show(other) == Show(e)
  {
    TextsCollide(e, other);
    if e.tags != [] {
      var x, y := e.tags[0][0], Inner(other.tags);
      assert e.tags[0] == [x] && e.tags == [e.tags[0]];
      OneTag([x]);
      assert Mixed(other) == y + TAGS_END + other.content == x + TAGS_END + e.content;
      OccursBetween(y, TAGS_END, other.content);
      assert |y| == |x|;
      assert y == (y + TAGS_END + other.content)[..|y|] == x;
      SurroundedAgree(x + TAGS_END, "", other.content, e.content);
      InnerIsolated(other.tags, x);
    }
  }

  lemma TwoJoined(a: string, b: string, border: string)
    ensures Join([a, b], border) == a + border + b
  {
    assert [a, b][1..] == [b];
  }

  /** The events that share the text, one for each way not to be isolated. */
  lemma SharedText(e: Event) returns (other: Event)
    requires '\"' !in e.pubkey && !Isolated(e.tags, e.content)
    ensures other.pubkey == e.pubkey && Stringify(other) == Stringify(e) && Show(other) != Show(e)
  {
    var x := Inner(e.tags);
    OneTag([x]);
    if e.tags != [[x]] {
      other := e.(tags := [[x]]);
    } else if x == "" {
      other := e.(tags := [[]]);
      OneTag([]);
    } else if Contains(x, ELEMENT_BORDER) {
      var k :| 0 <= k <= |x| && OccursAt(x, ELEMENT_BORDER, k);
      SplitAt(x, ELEMENT_BORDER, k);
      other := e.(tags := [[x[..k], x[k + 3..]]]);
      OneTag(other.tags[0]);
      TwoJoined(x[..k], x[k + 3..], ELEMENT_BORDER);
    } else if Contains(x, TAG_BORDER) {
      var k :| 0 <= k <= |x| && OccursAt(x, TAG_BORDER, k);
      SplitAt(x, TAG_BORDER, k);
      other := e.(tags := [[x[..k]], [x[k + 5..]]]);
      assert Map(JoinTag, other.tags) == [x[..k], x[k + 5..]];
      TwoJoined(x[..k], x[k + 5..], TAG_BORDER);
    } else {
      var v := x + TAGS_END + e.content;
      var k :| 0 <= k <= |v| && OccursAt(v, TAGS_END, k) && k != |x|;
      SplitAt(v, TAGS_END, k);
      OneTag([v[..k]]);
      other := e.(tags := [[v[..k]]], content := v[k + 5..]);
      assert |other.content| != |e.content|;
    }
    TextsCollide(e, other);
  }

  /** Among events with quote-free pubkeys the text identifies exactly the isolated ones. */
  lemma TextIdentifies(e: Event)
    requires '\"' !in e.pubkey
    ensures Identifies(e) <==> Isolated(e.tags, e.content)
  {
    if Isolated(e.tags, e.content) {
      forall other: Event | '\"' !in other.pubkey && Stringify(other) == Stringify(e) ensures Show(other) == Show(e) {
        IsolatedIdentifies(e, other);
      }
    } else {
      var other := SharedText(e);
    }
  }

  // ---------- hashing and signing ----------

  /** sha256; signing a digest (65 bytes, the last one the recovery id, or an error); and
      checking a signature without its recovery id. */
  datatype Crypto = Crypto(
    sha256: string -> seq<byte>,
    sign: seq<byte> -> Option<seq<byte>>,
    accepts: (seq<byte>, seq<byte>) -> bool)

  /** The one thing assumed of the cryptography: verification accepts what signing produced. */
  ghost predicate Sound(c: Crypto)
  {
    forall digest: seq<byte> :: c.sign(digest).Some? ==>
      && c.sign(digest).value != []
      && c.accepts(WithoutRecoveryId(c.sign(digest).value), digest)
  }

  function WithoutRecoveryId(sig: seq<byte>): seq<byte>
    requires sig != []
  {
    sig[..|sig| - 1]
  }

  function IdOf(c: Crypto, e: Event): string
  {
    Encode(c.sha256(Stringify(e)))
  }

  /** GetSing. */
  function GetSing(c: Crypto, content: string): Option<string>
  {
    match c.sign(c.sha256(content))
    case None => None
    case Some(sig) => Some(Encode0x(sig))
  }

  /** Crash: slicing off the recovery id of an empty signature. */
  datatype Verdict = Undecodable | Crash | Checked(ok: bool)

  /** GetVerification. */
  function GetVerification(c: Crypto, encoded: string, content: string): Verdict
  {
    match Decode0x(encoded)
    case None => Undecodable
    case Some(sig) =>
      if sig == [] then Crash else Checked(c.accepts(WithoutRecoveryId(sig), c.sha256(content)))
  }

  /** What GetSing wrote, GetVerification accepts for the same content. */
  lemma SignedIsAccepted(c: Crypto, content: string)
    requires Sound(c) && GetSing(c, content).Some?
    ensures GetVerification(c, GetSing(c, content).value, content) == Checked(true)
  {
    Decode0xInverts(c.sign(c.sha256(content)).value);
  }

  /** With a collision-free hash, plain events with the same id show the same. */
  lemma SameIdShowsSame(c: Crypto, a: Event, b: Event)
    requires forall s, t :: c.sha256(s) == c.sha256(t) ==> s == t
    requires Plain(Show(a)) && Plain(Show(b))
    requires IdOf(c, a) == IdOf(c, b)
    ensures Show(a) == Show(b)
  {
    EncodeThenDecode(c.sha256(Stringify(a)));
    EncodeThenDecode(c.sha256(Stringify(b)));
    StringifyInjective(a, b);
  }
}

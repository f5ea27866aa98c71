/** Small vocabulary shared by the other modules: optional values, `strings.Join`,
    and the parser combinators used to read back what the relay prints. */
module Prelude {

  datatype Option<+T> = None | Some(value: T)

  function Map<A, B>(f: A -> B, xs: seq<A>): (ys: seq<B>)
  {
    seq(|xs|, i requires 0 <= i < |xs| => f(xs[i]))
  }

  /** Go's strings.Join. */
  function Join(parts: seq<string>, sep: string): string
  {
    if |parts| == 0 then ""
    else if |parts| == 1 then parts[0]
    else parts[0] + sep + Join(parts[1..], sep)
  }

  /** How often a character occurs in a text. */
  function Count(s: string, c: char): nat
  {
    if s == "" then 0 else (if s[0] == c then 1 else 0) + Count(s[1..], c)
  }

  // ---------- reading text ----------

  function StripPrefix(s: string, lit: string): Option<string>
  {
    if lit <= s then Some(s[|lit|..]) else None
  }

  lemma StripPrefixInverts(lit: string, rest: string)
    ensures StripPrefix(lit + rest, lit) == Some(rest)
  {
  }

  /** The longest prefix without `c`, and what follows it. */
  function Span(s: string, c: char): (string, string)
  {
    if s == "" || s[0] == c then ("", s)
    else var (a, r) := Span(s[1..], c); ([s[0]] + a, r)
  }

  lemma {:induction false} SpanInverts(a: string, rest: string, c: char)
    requires c !in a
    requires rest != "" && rest[0] == c
    ensures Span(a + rest, c) == (a, rest)
  {
    if a == "" {
      assert a + rest == rest;
    } else {
      assert (a + rest)[1..] == a[1..] + rest;
      SpanInverts(a[1..], rest, c);
      assert [a[0]] + a[1..] == a;
    }
  }

  lemma {:induction false} SpanAvoids(s: string, c: char)
    ensures c !in Span(s, c).0
  {
    if s != "" && s[0] != c {
      SpanAvoids(s[1..], c);
    }
  }

  /** One or more items read by `p`, separated by `sep`. */
  function ParseList<T>(p: string -> Option<(T, string)>, sep: string, s: string): Option<(seq<T>, string)>
    decreases |s|
  {
    match p(s)
    case None => None
    case Some((x, afterItem)) =>
      match StripPrefix(afterItem, sep)
      case None => Some(([x], afterItem))
      case Some(more) =>
        if |more| >= |s| then None
        else match ParseList(p, sep, more)
          case None => None
          case Some((xs, rest)) => Some(([x] + xs, rest))
  }

  /** `p` reads back what `render` printed for every item of `xs`, whenever the text
      goes on with the separator or with `rest`. */
  ghost predicate Inverts<T(!new)>(p: string -> Option<(T, string)>, render: T -> string, sep: string,
                                   xs: seq<T>, rest: string)
  {
    forall i: nat, tail: string {:trigger p(render(xs[i]) + tail)} | i < |xs| && (tail == rest || sep <= tail) ::
      p(render(xs[i]) + tail) == Some((xs[i], tail))
  }

  lemma {:induction false} ParseListInverts<T(!new)>(p: string -> Option<(T, string)>, render: T -> string,
                                                     sep: string, xs: seq<T>, rest: string)
    requires |xs| > 0 && |sep| > 0
    requires StripPrefix(rest, sep).None?
    requires Inverts(p, render, sep, xs, rest)
    ensures ParseList(p, sep, Join(Map(render, xs), sep) + rest) == Some((xs, rest))
  {
    var parts := Map(render, xs);
    var head := render(xs[0]);
    if |xs| == 1 {
      assert p(head + rest) == Some((xs[0], rest));
      assert xs == [xs[0]];
    } else {
      var tailItems := xs[1..];
      assert parts[1..] == Map(render, tailItems);
      var more := Join(Map(render, tailItems), sep) + rest;
      assert Join(parts, sep) + rest == head + (sep + more);
      assert p(head + (sep + more)) == Some((xs[0], sep + more));
      StripPrefixInverts(sep, more);
      assert Inverts(p, render, sep, tailItems, rest) by {
        forall i: nat, tail: string | i < |tailItems| && (tail == rest || sep <= tail)
          ensures p(render(tailItems[i]) + tail) == Some((tailItems[i], tail))
        {
          assert tailItems[i] == xs[i + 1];
          assert p(render(xs[i + 1]) + tail) == Some((xs[i + 1], tail));
        }
      }
      ParseListInverts(p, render, sep, tailItems, rest);
      assert [xs[0]] + tailItems == xs;
    }
  }

  lemma {:induction false} CountConcat(a: string, b: string, c: char)
    ensures Count(a + b, c) == Count(a, c) + Count(b, c)
  {
    if a == "" {
      assert a + b == b;
    } else {
      assert (a + b)[1..] == a[1..] + b;
      CountConcat(a[1..], b, c);
    }
  }

  lemma {:induction false} CountAbsent(a: string, c: char)
    requires c !in a
    ensures Count(a, c) == 0
  {
    if a != "" {
      CountAbsent(a[1..], c);
    }
  }

  function CountAll(parts: seq<string>, c: char): nat
  {
    if parts == [] then 0 else Count(parts[0], c) + CountAll(parts[1..], c)
  }

  /** Joining neither loses nor adds occurrences of a character the separator lacks. */
  lemma {:induction false} CountJoin(parts: seq<string>, sep: string, c: char)
    requires c !in sep
    ensures Count(Join(parts, sep), c) == CountAll(parts, c)
  {
    if |parts| > 0 {
      CountJoin(parts[1..], sep, c);
      if |parts| > 1 {
        CountConcat(parts[0] + sep, Join(parts[1..], sep), c);
        CountConcat(parts[0], sep, c);
        CountAbsent(sep, c);
      }
    }
  }

  lemma {:induction false} CountAllUniform(parts: seq<string>, c: char, one: bool)
    requires forall p :: p in parts ==> Count(p, c) == if one then 1 else 0
    ensures CountAll(parts, c) == if one then |parts| else 0
  {
    if parts != [] {
      assert parts[0] in parts;
      assert forall p :: p in parts[1..] ==> p in parts;
      CountAllUniform(parts[1..], c, one);
    }
  }

  /** A separator of one character stands between the parts, so one time fewer than there are
      parts. */
  lemma {:induction false} CountBetween(parts: seq<string>, c: char)
    requires parts != [] && forall p :: p in parts ==> c !in p
    ensures Count(Join(parts, [c]), c) == |parts| - 1
  {
    CountAbsent(parts[0], c);
    if |parts| > 1 {
      CountBetween(parts[1..], c);
      CountConcat(parts[0] + [c], Join(parts[1..], [c]), c);
      CountConcat(parts[0], [c], c);
      assert [c][1..] == "";
    }
  }
}

/** Escaping a text for a single-quoted SQL character string literal: inside
    the literal a quote is written as two quotes (section 5.3, `<quote symbol>`,
    of ISO/IEC 9075-2). The generator applies it as `replace("'", "''")`. */
module SqlLiteral {
  import opened Values

  const Quote: char := '\''

  /** Every quote doubled, every other character kept, in order. */
  function Escape(s: string): string {
    if s == [] then []
    else (if s[0] == Quote then [Quote, Quote] else [s[0]]) + Escape(s[1..])
  }

  /** Number of occurrences of `c` in `s`. */
  function Count(s: string, c: char): nat {
    if s == [] then 0 else (if s[0] == c then 1 else 0) + Count(s[1..], c)
  }

  /** What an SQL lexer does after an opening quote: read the body of the
      literal up to the closing quote, turning each doubled quote back into
      one, and return the body and the text after the closing quote. `None`
      when the text ends before a closing quote. */
  function ReadBody(t: string): Option<(string, string)> {
    if t == [] then None
    else if t[0] == Quote then
      if |t| >= 2 && t[1] == Quote then
        match ReadBody(t[2..])
        case None => None
        case Some(p) => Some(([Quote] + p.0, p.1))
      else Some(([], t[1..]))
    else
      match ReadBody(t[1..])
      case None => None
      case Some(p) => Some(([t[0]] + p.0, p.1))
  }

  lemma {:induction false} EscapeAppend(a: string, b: string)
    ensures Escape(a + b) == Escape(a) + Escape(b)
  {
    if a == [] {
      assert a + b == b;
    } else {
      assert (a + b)[1..] == a[1..] + b;
      EscapeAppend(a[1..], b);
    }
  }

  /** Escaping doubles the quotes and leaves the count of every other
      character alone; the result is longer by the number of quotes. */
  lemma {:induction false} EscapeCounts(s: string, c: char)
    ensures Count(Escape(s), c) == if c == Quote then 2 * Count(s, c) else Count(s, c)
    ensures |Escape(s)| == |s| + Count(s, Quote)
  {
    if s != [] {
      EscapeCounts(s[1..], c);
      var head := if s[0] == Quote then [Quote, Quote] else [s[0]];
      CountAppend(head, Escape(s[1..]), c);
    }
  }

  lemma {:induction false} CountAppend(a: string, b: string, c: char)
    ensures Count(a + b, c) == Count(a, c) + Count(b, c)
  {
    if a == [] {
      assert a + b == b;
    } else {
      assert (a + b)[1..] == a[1..] + b;
      CountAppend(a[1..], b, c);
    }
  }

  /** A quote-free text is its own escape. */
  lemma {:induction false} EscapeQuoteFree(s: string)
    requires Count(s, Quote) == 0
    ensures Escape(s) == s
  {
    if s != [] {
      EscapeQuoteFree(s[1..]);
    }
  }

  /** The escaped text cannot end the literal early: a lexer reading
      `Escape(s)` followed by a closing quote gets `s` back exactly and
      resumes right after that quote, whatever follows (unless what follows
      is itself a quote, which would make the closing quote a doubled one). */
  lemma {:induction false} LiteralRoundTrip(s: string, rest: string)
    requires rest == [] || rest[0] != Quote
    ensures ReadBody(Escape(s) + [Quote] + rest) == Some((s, rest))
  {
    var t := Escape(s) + [Quote] + rest;
    if s == [] {
      assert t == [Quote] + rest;
      assert t[1..] == rest;
    } else {
      LiteralRoundTrip(s[1..], rest);
      var tail := Escape(s[1..]) + [Quote] + rest;
      if s[0] == Quote {
        assert t == [Quote, Quote] + tail;
        assert t[2..] == tail;
        assert [Quote] + s[1..] == s;
      } else {
        assert t == [s[0]] + tail;
        assert t[1..] == tail;
        assert [s[0]] + s[1..] == s;
      }
    }
  }

  /** Different texts escape differently. */
  lemma EscapeInjective(s: string, u: string)
    requires Escape(s) == Escape(u)
    ensures s == u
  {
    LiteralRoundTrip(s, []);
    LiteralRoundTrip(u, []);
  }

  /** Escaping twice is not escaping once as soon as there is a quote: a text
      that was escaped must never go through the escape again. */
  lemma EscapeTwiceDiffers(s: string)
    requires Count(s, Quote) > 0
    ensures Escape(Escape(s)) != Escape(s)
  {
    EscapeCounts(s, Quote);
    EscapeCounts(Escape(s), Quote);
  }
}

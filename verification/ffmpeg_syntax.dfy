/**
 * The reading side of ffmpeg's filter descriptions, used as the partner of
 * the escaping in `FfmpegFilter`. A filter chain is `name=args,name=args,...`;
 * each `args` is read as one token (first escaping level) and then split
 * into `key=value` options separated by `:` (second escaping level). A
 * token ends at the first terminator character that is neither escaped by a
 * backslash nor inside single quotes; backslash-escaped characters are kept
 * literally and quoted text is kept as it is, without its quotes. This is
 * the quoting and escaping described in the ffmpeg-utils manual, section
 * "Quoting and escaping", and the ffmpeg-filters manual, section "Notes on
 * filtergraph escaping". The removal of unquoted leading and trailing
 * whitespace from a token is not modelled.
 */
module FfmpegSyntax {

  /** A token read from the front of a string and the number of characters it used. */
  datatype Tok = Tok(value: string, used: nat)

  /** Number of characters before the first single quote of `s` (or `|s|`). */
  function QuoteRun(s: string): nat {
    if s == [] || s[0] == '\'' then 0 else 1 + QuoteRun(s[1..])
  }

  /** Reads one token of `s`, stopping before the first unescaped, unquoted character of `terms`. */
  function Token(s: string, terms: set<char>): Tok
    decreases |s|
  {
    if s == [] || s[0] in terms then Tok("", 0)
    else if s[0] == '\\' && |s| >= 2 then
      var rest := Token(s[2..], terms);
      Tok([s[1]] + rest.value, rest.used + 2)
    else if s[0] == '\'' then
      var q := QuoteRun(s[1..]);
      if q + 1 < |s| then
        var rest := Token(s[q + 2..], terms);
        Tok(s[1..q + 1] + rest.value, rest.used + q + 2)
      else Tok(s[1..], |s|)
    else
      var rest := Token(s[1..], terms);
      Tok([s[0]] + rest.value, rest.used + 1)
  }

  /** Characters that end a filter name. */
  const NameTerms: set<char> := {'=', ',', ';', '['}
  /** Characters that end a filter's argument string. */
  const ArgTerms: set<char> := {'[', ']', ',', ';'}
  /**
   * Characters that end an option key. ffmpeg itself reads a key as a run of
   * letters, digits and `-_/.` without unescaping; the two readings agree on
   * every key this program writes (`filename`, `fontfile`, `text`,
   * `fontsize`, `fontcolor`, `bordercolor`, `borderw`, `x`, `y`, `enable`).
   */
  const KeyTerms: set<char> := {'=', ':'}
  /** Characters that end an option value. */
  const ValueTerms: set<char> := {':'}

  /** One filter of a chain: its name and its argument string after the first escaping level. */
  datatype Filter = Filter(name: string, args: string)

  /** Reads one filter (`name` or `name=args`) and the number of characters it used. */
  function ReadFilter(s: string): (Filter, nat) {
    var name := Token(s, NameTerms);
    if name.used < |s| && s[name.used] == '=' then
      var args := Token(s[name.used + 1..], ArgTerms);
      (Filter(name.value, args.value), name.used + 1 + args.used)
    else (Filter(name.value, ""), name.used)
  }

  /** The filters of a comma-separated chain, in order. */
  function ParseChain(s: string): (fs: seq<Filter>)
    ensures |fs| >= 1
    decreases |s|
  {
    var (f, n) := ReadFilter(s);
    if n < |s| && s[n] == ',' then [f] + ParseChain(s[n + 1..]) else [f]
  }

  /** One `key=value` option; `key` is empty for a positional value. */
  datatype Opt = Opt(key: string, value: string)

  /** Reads one option (`key=value`, or a positional value) and the number of characters it used. */
  function ReadOption(s: string): (Opt, nat) {
    var key := Token(s, KeyTerms);
    if key.used < |s| && s[key.used] == '=' then
      var value := Token(s[key.used + 1..], ValueTerms);
      (Opt(key.value, value.value), key.used + 1 + value.used)
    else
      var value := Token(s, ValueTerms);
      (Opt("", value.value), value.used)
  }

  /** The options of an argument string, split at `:` after the second escaping level. */
  function ParseOptions(s: string): seq<Opt>
    decreases |s|
  {
    if s == [] then []
    else
      var (opt, used) := ReadOption(s);
      if used < |s| then [opt] + ParseOptions(s[used + 1..]) else [opt]
  }

  // ----- reading concatenations -----

  /**
   * `enc` is read as `dec` in front of `rest`: reading `enc + rest` yields
   * `dec` followed by whatever `rest` alone yields, and uses all of `enc`.
   */
  predicate Reads(enc: string, dec: string, rest: string, terms: set<char>) {
    Token(enc + rest, terms) == Tok(dec + Token(rest, terms).value, |enc| + Token(rest, terms).used)
  }

  /** No character of `s` is special to a token ending at `terms`. */
  predicate Plain(s: string, terms: set<char>) {
    forall i :: 0 <= i < |s| ==> s[i] !in terms && s[i] != '\\' && s[i] != '\''
  }

  lemma ReadsNothing(rest: string, terms: set<char>)
    ensures Reads([], [], rest, terms)
  {
    assert [] + rest == rest;
    assert [] + Token(rest, terms).value == Token(rest, terms).value;
  }

  /** A plain character is read as itself. */
  lemma ReadsPlainChar(x: char, rest: string, terms: set<char>)
    requires x !in terms && x != '\\' && x != '\''
    ensures Reads([x], [x], rest, terms)
  {
    assert ([x] + rest)[1..] == rest;
  }

  /** A backslash and the character after it are read as that character. */
  lemma ReadsEscaped(x: char, rest: string, terms: set<char>)
    requires '\\' !in terms
    ensures Reads(['\\', x], [x], rest, terms)
  {
    assert (['\\', x] + rest)[2..] == rest;
  }

  /** The quoted run ends at the first single quote, or at the end when there is none. */
  lemma {:induction false} QuoteRunStops(s: string)
    ensures QuoteRun(s) <= |s|
    ensures forall i :: 0 <= i < QuoteRun(s) ==> s[i] != '\''
    ensures QuoteRun(s) < |s| ==> s[QuoteRun(s)] == '\''
  {
    if s != [] && s[0] != '\'' {
      QuoteRunStops(s[1..]);
    }
  }

  /**
   * A token never reads past the end, and when it stops early it stops at
   * one of its terminators.
   */
  lemma {:induction false} TokenStopsAtTerminator(s: string, terms: set<char>)
    ensures Token(s, terms).used <= |s|
    ensures Token(s, terms).used < |s| ==> s[Token(s, terms).used] in terms
    decreases |s|
  {
    if s == [] || s[0] in terms {
    } else if s[0] == '\\' && |s| >= 2 {
      TokenStopsAtTerminator(s[2..], terms);
    } else if s[0] == '\'' {
      var q := QuoteRun(s[1..]);
      QuoteRunStops(s[1..]);
      if q + 1 < |s| {
        TokenStopsAtTerminator(s[q + 2..], terms);
      }
    } else {
      TokenStopsAtTerminator(s[1..], terms);
    }
  }

  lemma {:induction false} QuoteRunBefore(q: string, rest: string)
    requires '\'' !in q
    ensures QuoteRun(q + "'" + rest) == |q|
    decreases |q|
  {
    if q == [] {
      assert (q + "'" + rest)[0] == '\'';
    } else {
      assert (q + "'" + rest)[1..] == q[1..] + "'" + rest;
      QuoteRunBefore(q[1..], rest);
    }
  }

  lemma TokenAtQuote(s: string, terms: set<char>)
    requires |s| > 0 && s[0] == '\'' && '\'' !in terms
    requires QuoteRun(s[1..]) + 1 < |s|
    ensures var q := QuoteRun(s[1..]);
            Token(s, terms) == Tok(s[1..q + 1] + Token(s[q + 2..], terms).value, Token(s[q + 2..], terms).used + q + 2)
  {
  }

  /** A quoted string without quotes inside is read literally, without its quotes. */
  lemma ReadsQuoted(q: string, rest: string, terms: set<char>)
    requires '\'' !in q && '\'' !in terms
    ensures Reads("'" + q + "'", q, rest, terms)
  {
    var s := "'" + q + "'" + rest;
    assert s[0] == '\'';
    assert s[1..] == q + "'" + rest;
    QuoteRunBefore(q, rest);
    TokenAtQuote(s, terms);
    assert s[1..|q| + 1] == q;
    assert s[|q| + 2..] == rest;
  }

  /** A quoted string in front of something readable. */
  lemma ReadsQuotedThen(q: string, tail: string, tv: string, rest: string, terms: set<char>)
    requires '\'' !in q && '\'' !in terms
    requires Reads(tail, tv, rest, terms)
    ensures Reads(("'" + q + "'") + tail, q + tv, rest, terms)
  {
    ReadsQuoted(q, tail + rest, terms);
    ReadsThen("'" + q + "'", q, tail, tv, rest, terms);
  }

  lemma ConcatAssoc(a: string, b: string, c: string)
    ensures (a + b) + c == a + (b + c)
  {
  }

  lemma TokenCongruent(x: string, y: string, terms: set<char>)
    requires x == y
    ensures Token(x, terms) == Token(y, terms)
  {
  }

  /** The bookkeeping of `ReadsThen`, kept apart from `Token` itself. */
  lemma TokJoin(whole: Tok, split: Tok, mid: Tok, last: Tok, hv: string, tv: string, h: nat, t: nat)
    requires whole == split
    requires split == Tok(hv + mid.value, h + mid.used)
    requires mid == Tok(tv + last.value, t + last.used)
    ensures whole == Tok((hv + tv) + last.value, h + t + last.used)
  {
    ConcatAssoc(hv, tv, last.value);
  }

  /**
   * Reading composes: if `head` reads as `hv` in front of `tail + rest`, and
   * `tail` reads as `tv` in front of `rest`, then `head + tail` reads as
   * `hv + tv` in front of `rest`.
   */
  lemma ReadsThen(head: string, hv: string, tail: string, tv: string, rest: string, terms: set<char>)
    requires Reads(head, hv, tail + rest, terms)
    requires Reads(tail, tv, rest, terms)
    ensures Reads(head + tail, hv + tv, rest, terms)
  {
    ConcatAssoc(head, tail, rest);
    TokenCongruent((head + tail) + rest, head + (tail + rest), terms);
    TokJoin(Token((head + tail) + rest, terms), Token(head + (tail + rest), terms), Token(tail + rest, terms),
            Token(rest, terms), hv, tv, |head|, |tail|);
  }

  /** A plain string is read as itself. */
  lemma {:induction false} ReadsPlain(a: string, rest: string, terms: set<char>)
    requires Plain(a, terms)
    ensures Reads(a, a, rest, terms)
    decreases |a|
  {
    if a == [] {
      ReadsNothing(rest, terms);
    } else {
      ReadsPlainChar(a[0], a[1..] + rest, terms);
      ReadsPlain(a[1..], rest, terms);
      ReadsThen([a[0]], [a[0]], a[1..], a[1..], rest, terms);
      assert [a[0]] + a[1..] == a;
    }
  }

  /** A plain string in front of something readable is read as itself followed by what that reads as. */
  lemma ReadsPlainThen(head: string, tail: string, tv: string, rest: string, terms: set<char>)
    requires Plain(head, terms)
    requires Reads(tail, tv, rest, terms)
    ensures Reads(head + tail, head + tv, rest, terms)
  {
    ReadsPlain(head, tail + rest, terms);
    ReadsThen(head, head, tail, tv, rest, terms);
  }

  /** A plain concatenation: both parts plain. */
  lemma PlainAppend(a: string, b: string, terms: set<char>)
    requires Plain(a, terms) && Plain(b, terms)
    ensures Plain(a + b, terms)
  {
    assert forall i | |a| <= i < |a + b| :: (a + b)[i] == b[i - |a|];
  }

  /** Reading stops at once at a terminator or at the end. */
  lemma TokenStops(rest: string, terms: set<char>)
    requires rest == [] || rest[0] in terms
    ensures Token(rest, terms) == Tok("", 0)
  {
  }

  /** What `enc` reads as is the whole token when a terminator or the end follows it. */
  lemma ReadsWhole(enc: string, dec: string, rest: string, terms: set<char>)
    requires Reads(enc, dec, rest, terms)
    requires rest == [] || rest[0] in terms
    ensures Token(enc + rest, terms) == Tok(dec, |enc|)
  {
    TokenStops(rest, terms);
    assert dec + "" == dec;
  }
}

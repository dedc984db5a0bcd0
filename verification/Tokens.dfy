/** Cutting a string at separators, with double quotes protecting them: the two-pass
    tokenizer of nsswitch/winbind_nss_linux.c, which lib/util/util_str.c shares. */
module Tokens {
  import opened Wrappers

  const QUOTE := '\"'

  lemma Assoc<T>(a: seq<T>, b: seq<T>, c: seq<T>)
    ensures a + (b + c) == a + b + c
  {
  }

  lemma InitLast<T>(a: seq<T>)
    requires a != []
    ensures a == a[..|a| - 1] + [a[|a| - 1]]
  {
  }

  // ----- what a token is

  /** How many separators stand in front. */
  function Leading(s: string, sep: set<char>): (n: nat)
    ensures n <= |s|
  {
    if s != [] && s[0] in sep then 1 + Leading(s[1..], sep) else 0
  }

  /** How many characters belong to the token at the front, quotes included. */
  function Span(s: string, quoted: bool, sep: set<char>): (n: nat)
    ensures n <= |s|
  {
    if s == [] || (!quoted && s[0] in sep) then 0
    else 1 + Span(s[1..], if s[0] == QUOTE then !quoted else quoted, sep)
  }

  /** The token itself: those characters without the quotes. */
  function Text(s: string, quoted: bool, sep: set<char>): string
  {
    if s == [] || (!quoted && s[0] in sep) then ""
    else if s[0] == QUOTE then Text(s[1..], !quoted, sep)
    else [s[0]] + Text(s[1..], quoted, sep)
  }

  /** The text left when the token at the front and the separator after it are taken. */
  function Rest(s: string, sep: set<char>): (r: string)
    requires s != []
    ensures |r| < |s|
  {
    var n := Span(s, false, sep);
    if n < |s| then s[n + 1..] else []
  }

  /** All tokens of a string. */
  function Tokenize(s: string, sep: set<char>): seq<string>
    decreases |s|
  {
    var s' := s[Leading(s, sep)..];
    if s' == [] then [] else [Text(s', false, sep)] + Tokenize(Rest(s', sep), sep)
  }

  lemma {:induction false} LeadingEnds(s: string, sep: set<char>)
    ensures Leading(s, sep) < |s| ==> s[Leading(s, sep)] !in sep
  {
    if s != [] && s[0] in sep {
      LeadingEnds(s[1..], sep);
    }
  }

  /** A string that does not start with a separator starts with a token. */
  lemma TokenFirst(s: string, sep: set<char>)
    requires s != [] && s[0] !in sep
    ensures Tokenize(s, sep) == [Text(s, false, sep)] + Tokenize(Rest(s, sep), sep)
  {
    assert Leading(s, sep) == 0 && s[0..] == s;
  }

  /** Separators in front do not matter. */
  lemma TokenizeFrom(s: string, pos: nat, start: nat, sep: set<char>)
    requires pos <= |s| && start == pos + Leading(s[pos..], sep)
    ensures Tokenize(s[pos..], sep) == Tokenize(s[start..], sep)
    ensures start < |s| ==> s[start] !in sep
  {
    var s' := s[start..];
    assert s[pos..][Leading(s[pos..], sep)..] == s';
    if start < |s| {
      LeadingEnds(s[pos..], sep);
      assert s[pos..][Leading(s[pos..], sep)] == s[start] == s'[0];
      TokenFirst(s', sep);
    }
  }

  // ----- the code

  /** Both passes: at `end`, inside quotes or not, `p` characters of the token that starts
      at `start` have been seen. */
  ghost predicate Within(s: string, start: nat, end: nat, quoted: bool, p: nat, sep: set<char>)
  {
    && start <= end <= |s|
    && start + Span(s[start..], false, sep) == end + Span(s[end..], quoted, sep)
    && p <= |Text(s[start..], false, sep)|
    && Text(s[start..], false, sep)[p..] == Text(s[end..], quoted, sep)
  }

  /** One character more. */
  lemma TokenStep(s: string, start: nat, end: nat, quoted: bool, p: nat, sep: set<char>)
    requires Within(s, start, end, quoted, p, sep) && end < |s| && (quoted || s[end] !in sep)
    ensures s[end] == QUOTE ==> Within(s, start, end + 1, !quoted, p, sep)
    ensures s[end] != QUOTE ==>
      && Within(s, start, end + 1, quoted, p + 1, sep)
      && Text(s[start..], false, sep)[p] == s[end]
  {
    assert s[end..][1..] == s[end + 1..] && s[end..][0] == s[end];
    var text := Text(s[start..], false, sep);
    if s[end] != QUOTE {
      assert text[p..][0] == s[end] && text[p..][1..] == text[p + 1..];
    }
  }

  lemma TokenEnd(s: string, start: nat, end: nat, quoted: bool, p: nat, sep: set<char>)
    requires Within(s, start, end, quoted, p, sep) && (end == |s| || (!quoted && s[end] in sep))
    ensures end == start + Span(s[start..], false, sep) && p == |Text(s[start..], false, sep)|
  {
  }

  /** The first pass: the end of the token and the room it needs with its terminator. */
  method MeasureToken(s: string, start: nat, sep: set<char>) returns (end: nat, len: nat)
    requires start <= |s|
    ensures end == start + Span(s[start..], false, sep)
    ensures len == |Text(s[start..], false, sep)| + 1
  {
    end, len := start, 1;
    var quoted := false;
    while end < |s| && (quoted || s[end] !in sep)
      invariant len > 0 && Within(s, start, end, quoted, len - 1, sep)
    {
      TokenStep(s, start, end, quoted, len - 1, sep);
      if s[end] == QUOTE {
        quoted := !quoted;
      } else {
        len := len + 1;
      }
      end := end + 1;
    }
    TokenEnd(s, start, end, quoted, len - 1, sep);
  }

  /** The second pass: copy the token into a buffer of exactly the room measured. */
  method CopyToken(s: string, start: nat, sep: set<char>, buf: array<char>) returns (end: nat)
    requires start <= |s|
    requires buf.Length == |Text(s[start..], false, sep)| + 1
    modifies buf
    ensures end == start + Span(s[start..], false, sep)
    ensures buf[..] == Text(s[start..], false, sep) + ['\0']
  {
    ghost var text := Text(s[start..], false, sep);
    end := start;
    var quoted, p := false, 0;
    while end < |s| && (quoted || s[end] !in sep)
      invariant Within(s, start, end, quoted, p, sep)
      invariant forall i :: 0 <= i < p ==> buf[i] == text[i]
    {
      TokenStep(s, start, end, quoted, p, sep);
      if s[end] == QUOTE {
        quoted := !quoted;
      } else {
        buf[p] := s[end];
        p := p + 1;
      }
      end := end + 1;
    }
    TokenEnd(s, start, end, quoted, p, sep);
    buf[p] := '\0';
    assert buf[..] == text + ['\0'];
  }

  /** The separators in front of a token. */
  method SkipSeparators(s: string, pos: nat, sep: set<char>) returns (start: nat)
    requires pos <= |s|
    ensures start == pos + Leading(s[pos..], sep) <= |s|
  {
    start := pos;
    while start < |s| && s[start] in sep
      invariant pos <= start <= |s|
      invariant start + Leading(s[start..], sep) == pos + Leading(s[pos..], sep)
    {
      assert s[start..][1..] == s[start + 1..];
      start := start + 1;
    }
  }

  /** next_token_alloc: the token at or after `pos`, and where to go on. */
  method NextToken(s: string, pos: nat, sep: set<char>) returns (token: Option<string>, pos': nat)
    requires pos <= |s|
    ensures pos <= pos' <= |s|
    ensures token.Some? ==> pos < pos'
    ensures Tokenize(s[pos..], sep) ==
      if token.Some? then [token.value] + Tokenize(s[pos'..], sep) else []
  {
    var start := SkipSeparators(s, pos, sep);
    TokenizeFrom(s, pos, start, sep);
    if start == |s| {
      return None, start;
    }
    var end, len := MeasureToken(s, start, sep);
    var buf := new char[len];
    end := CopyToken(s, start, sep, buf);
    token := Some(buf[..len - 1]);
    pos' := if end < |s| then end + 1 else end;
    TokenAt(s, start, end, sep);
    assert buf[..len - 1] == buf[..][..len - 1] == Text(s[start..], false, sep);
  }

  /** After a token the search goes on behind the separator that ends it. */
  lemma TokenAt(s: string, start: nat, end: nat, sep: set<char>)
    requires start < |s| && s[start] !in sep && end == start + Span(s[start..], false, sep)
    ensures start < end <= |s|
    ensures Tokenize(s[start..], sep) ==
      [Text(s[start..], false, sep)] + Tokenize(s[if end < |s| then end + 1 else end..], sep)
  {
    var s' := s[start..];
    assert s'[0] == s[start];
    assert s[if end < |s| then end + 1 else end..] == Rest(s', sep);
    TokenFirst(s', sep);
  }

  /** Calling it until it returns nothing gives all tokens, as str_list_make_v3 does. */
  method AllTokens(s: string, sep: set<char>) returns (tokens: seq<string>)
    ensures tokens == Tokenize(s, sep)
  {
    tokens := [];
    var pos := 0;
    assert s[0..] == s;
    while true
      invariant pos <= |s|
      invariant Tokenize(s, sep) == tokens + Tokenize(s[pos..], sep)
      decreases |s| - pos
    {
      var token, pos' := NextToken(s, pos, sep);
      if token.None? {
        return;
      }
      Assoc(tokens, [token.value], Tokenize(s[pos'..], sep));
      tokens := tokens + [token.value];
      pos := pos';
    }
  }

  // ----- joining and cutting

  function Join(names: seq<string>, c: char): string
  {
    if names == [] then "" else if |names| == 1 then names[0] else names[0] + [c] + Join(names[1..], c)
  }

  /** A stretch without quotes and separators is one token. */
  lemma {:induction false} PlainToken(a: string, t: string, sep: set<char>)
    requires QUOTE !in a && (forall c :: c in a ==> c !in sep)
    requires t == [] || t[0] in sep
    ensures Span(a + t, false, sep) == |a| && Text(a + t, false, sep) == a
  {
    if a == [] {
      assert a + t == t;
    } else {
      assert (a + t)[1..] == a[1..] + t;
      PlainToken(a[1..], t, sep);
    }
  }

  predicate PlainName(name: string, c: char)
  {
    name != "" && QUOTE !in name && c !in name
  }

  /** A name followed by nothing or by the separator is the first token. */
  lemma NameFirst(name: string, t: string, c: char)
    requires c != QUOTE && PlainName(name, c) && (t == "" || t[0] == c)
    ensures Tokenize(name + t, {c}) == [name] + Tokenize(if t == "" then "" else t[1..], {c})
  {
    var s := name + t;
    assert s[0] == name[0] && name[0] in name;
    TokenFirst(s, {c});
    PlainToken(name, t, {c});
    assert Rest(s, {c}) == if t == "" then "" else t[1..];
  }

  /** Cutting what was joined gives the names back. */
  lemma {:induction false} TokenizeJoin(names: seq<string>, c: char)
    requires c != QUOTE
    requires forall i :: 0 <= i < |names| ==> PlainName(names[i], c)
    ensures Tokenize(Join(names, c), {c}) == names
  {
    if |names| == 1 {
      NameFirst(names[0], "", c);
      assert names[0] + "" == names[0];
    } else if names != [] {
      var rest := Join(names[1..], c);
      NameFirst(names[0], [c] + rest, c);
      assert names[0] + ([c] + rest) == names[0] + [c] + rest;
      assert ([c] + rest)[1..] == rest;
      TokenizeJoin(names[1..], c);
    }
  }

  // ----- quotes

  /** Inside quotes nothing ends the token but the end of the text. */
  lemma {:induction false} QuotedToken(a: string, t: string, sep: set<char>)
    requires QUOTE !in a && (t == "" || t[0] in sep) && QUOTE !in sep
    ensures Span(a + [QUOTE] + t, true, sep) == |a| + 1 && Text(a + [QUOTE] + t, true, sep) == a
  {
    var s := a + [QUOTE] + t;
    if a == "" {
      assert s[1..] == t;
    } else {
      assert s[1..] == a[1..] + [QUOTE] + t;
      QuotedToken(a[1..], t, sep);
    }
  }

  function Quoted(name: string): string
  {
    [QUOTE] + name + [QUOTE]
  }

  function QuoteAll(names: seq<string>): (r: seq<string>)
    ensures |r| == |names| && forall i :: 0 <= i < |r| ==> r[i] == Quoted(names[i])
  {
    seq(|names|, i requires 0 <= i < |names| => Quoted(names[i]))
  }

  lemma QuotedFirst(name: string, t: string, c: char)
    requires c != QUOTE && QUOTE !in name && (t == "" || t[0] == c)
    ensures Tokenize(Quoted(name) + t, {c}) == [name] + Tokenize(if t == "" then "" else t[1..], {c})
  {
    var s := Quoted(name) + t;
    assert s[0] == QUOTE && s[1..] == name + [QUOTE] + t;
    QuotedToken(name, t, {c});
    TokenFirst(s, {c});
    assert Rest(s, {c}) == if t == "" then "" else t[1..];
  }

  /** Names in quotes come back whatever is in them: separators, or nothing at all. */
  lemma {:induction false} TokenizeQuoted(names: seq<string>, c: char)
    requires c != QUOTE
    requires forall i :: 0 <= i < |names| ==> QUOTE !in names[i]
    ensures Tokenize(Join(QuoteAll(names), c), {c}) == names
  {
    if |names| == 1 {
      QuotedFirst(names[0], "", c);
      assert Quoted(names[0]) + "" == Quoted(names[0]);
    } else if names != [] {
      var rest := Join(QuoteAll(names[1..]), c);
      assert QuoteAll(names)[1..] == QuoteAll(names[1..]);
      QuotedFirst(names[0], [c] + rest, c);
      assert Quoted(names[0]) + ([c] + rest) == Quoted(names[0]) + [c] + rest;
      assert ([c] + rest)[1..] == rest;
      TokenizeQuoted(names[1..], c);
    }
  }

  /** Every token of `s` is ended by a separator, so that what follows starts afresh. */
  predicate Closed(s: string, sep: set<char>)
    decreases |s|
  {
    var s' := s[Leading(s, sep)..];
    s' == [] || (Span(s', false, sep) < |s'| && Closed(Rest(s', sep), sep))
  }

  lemma {:induction false} SpanStable(s: string, t: string, quoted: bool, sep: set<char>)
    requires Span(s, quoted, sep) < |s|
    ensures Span(s + t, quoted, sep) == Span(s, quoted, sep)
    ensures Text(s + t, quoted, sep) == Text(s, quoted, sep)
  {
    if quoted || s[0] !in sep {
      assert (s + t)[1..] == s[1..] + t;
      SpanStable(s[1..], t, if s[0] == QUOTE then !quoted else quoted, sep);
    }
  }

  lemma {:induction false} LeadingAppend(s: string, t: string, sep: set<char>)
    ensures Leading(s + t, sep) == if Leading(s, sep) < |s| then Leading(s, sep) else |s| + Leading(t, sep)
  {
    if s == [] {
      assert s + t == t;
    } else if s[0] in sep {
      assert (s + t)[1..] == s[1..] + t;
      LeadingAppend(s[1..], t, sep);
    }
  }

  /** A token that is ended by a separator is the same whatever follows. */
  lemma FirstTokenStable(s: string, t: string, sep: set<char>)
    requires Leading(s, sep) < |s| && Span(s[Leading(s, sep)..], false, sep) < |s[Leading(s, sep)..]|
    ensures var s' := s[Leading(s, sep)..];
      && (s + t)[Leading(s + t, sep)..] == s' + t
      && Span(s' + t, false, sep) == Span(s', false, sep)
      && Text(s' + t, false, sep) == Text(s', false, sep)
      && Rest(s' + t, sep) == Rest(s', sep) + t
  {
    LeadingAppend(s, t, sep);
    var n := Leading(s, sep);
    var s' := s[n..];
    assert (s + t)[n..] == s' + t;
    SpanStable(s', t, false, sep);
    assert Rest(s' + t, sep) == Rest(s', sep) + t;
  }

  /** After closed text the tokens of what is appended follow on. */
  lemma {:induction false} TokenizeAppend(s: string, t: string, sep: set<char>)
    requires Closed(s, sep)
    ensures Tokenize(s + t, sep) == Tokenize(s, sep) + Tokenize(t, sep)
    decreases |s|
  {
    var s' := s[Leading(s, sep)..];
    if s' == [] {
      LeadingAppend(s, t, sep);
      assert (s + t)[Leading(s + t, sep)..] == t[Leading(t, sep)..];
    } else {
      var (first, rest) := (Text(s', false, sep), Rest(s', sep));
      calc {
        Tokenize(s + t, sep);
        { FirstTokenStable(s, t, sep); }
        [first] + Tokenize(rest + t, sep);
        { TokenizeAppend(rest, t, sep); }
        [first] + (Tokenize(rest, sep) + Tokenize(t, sep));
        { Assoc([first], Tokenize(rest, sep), Tokenize(t, sep)); }
        Tokenize(s, sep) + Tokenize(t, sep);
      }
    }
  }

  lemma {:induction false} SpanEnds(s: string, quoted: bool, sep: set<char>)
    ensures Span(s, quoted, sep) < |s| ==> s[Span(s, quoted, sep)] in sep
  {
    if s != [] && (quoted || s[0] !in sep) {
      SpanEnds(s[1..], if s[0] == QUOTE then !quoted else quoted, sep);
    }
  }

  lemma {:induction false} SpanGoesOn(s: string, t: string, quoted: bool, sep: set<char>)
    requires Span(s, quoted, sep) == |s|
    ensures Span(s + t, quoted, sep) >= |s|
  {
    if s != [] {
      assert (s + t)[1..] == s[1..] + t;
      SpanGoesOn(s[1..], t, if s[0] == QUOTE then !quoted else quoted, sep);
    }
  }

  /** Text that follows an open token first continues it: only what stands behind a
      separator in `t` gives tokens of its own. */
  lemma {:induction false} OpenAppend(s: string, t: string, sep: set<char>) returns (m: nat)
    requires !Closed(s, sep)
    ensures m == |t| || (0 < m < |t| && t[m - 1] in sep)
    ensures var (all, before) := (Tokenize(s + t, sep), |Tokenize(s, sep)|);
      before <= |all| && all[before..] == Tokenize(t[m..], sep)
    decreases |s|
  {
    var s' := s[Leading(s, sep)..];
    if Span(s', false, sep) < |s'| {
      var rest := Rest(s', sep);
      m := OpenAppend(rest, t, sep);
      FirstTokenStable(s, t, sep);
      DropOneMore(Text(s', false, sep), Tokenize(rest + t, sep), |Tokenize(rest, sep)|);
    } else {
      m := OpenLast(s, t, sep);
    }
  }

  lemma DropOneMore<T>(x: T, a: seq<T>, n: nat)
    requires n <= |a|
    ensures ([x] + a)[n + 1..] == a[n..]
  {
  }

  lemma OpenLast(s: string, t: string, sep: set<char>) returns (m: nat)
    requires Leading(s, sep) < |s| && Span(s[Leading(s, sep)..], false, sep) == |s[Leading(s, sep)..]|
    ensures m == |t| || (0 < m < |t| && t[m - 1] in sep)
    ensures |Tokenize(s, sep)| == 1
    ensures Tokenize(s + t, sep) != [] && Tokenize(s + t, sep)[1..] == Tokenize(t[m..], sep)
  {
    var s' := s[Leading(s, sep)..];
    LeadingAppend(s, t, sep);
    var u := s' + t;
    assert (s + t)[Leading(s + t, sep)..] == u;
    SpanGoesOn(s', t, false, sep);
    SpanEnds(u, false, sep);
    var n := Span(u, false, sep);
    assert Tokenize([], sep) == [];
    if n < |u| {
      m := n + 1 - |s'|;
      assert u[n + 1..] == t[m..] && u[n] == t[m - 1];
    } else {
      m := |t|;
      assert t[m..] == [];
    }
    assert Rest(u, sep) == t[m..];
  }

  lemma {:induction false} ClosedAppend(s: string, t: string, sep: set<char>)
    requires Closed(s, sep) && Closed(t, sep)
    ensures Closed(s + t, sep)
    decreases |s|
  {
    var s' := s[Leading(s, sep)..];
    if s' == [] {
      LeadingAppend(s, t, sep);
      assert (s + t)[Leading(s + t, sep)..] == t[Leading(t, sep)..];
    } else {
      FirstTokenStable(s, t, sep);
      ClosedAppend(Rest(s', sep), t, sep);
    }
  }

  /** Without quotes no separator ends up in a token. */
  lemma {:induction false} NoSeparatorInText(s: string, sep: set<char>)
    requires QUOTE !in s
    ensures forall c :: c in Text(s, false, sep) ==> c !in sep
  {
    if s != [] && s[0] !in sep {
      NoSeparatorInText(s[1..], sep);
    }
  }

  lemma {:induction false} NoSeparatorInTokens(s: string, sep: set<char>)
    requires QUOTE !in s
    ensures forall i :: 0 <= i < |Tokenize(s, sep)| ==> forall c :: c in Tokenize(s, sep)[i] ==> c !in sep
    decreases |s|
  {
    var s' := s[Leading(s, sep)..];
    if s' != [] {
      NoSeparatorInText(s', sep);
      NoSeparatorInTokens(Rest(s', sep), sep);
    }
  }

  /** No token ever holds a quote. */
  lemma {:induction false} NoQuoteInText(s: string, quoted: bool, sep: set<char>)
    ensures QUOTE !in Text(s, quoted, sep)
  {
    if s != [] && (quoted || s[0] !in sep) {
      NoQuoteInText(s[1..], if s[0] == QUOTE then !quoted else quoted, sep);
    }
  }

  lemma {:induction false} NoQuoteInTokens(s: string, sep: set<char>)
    ensures forall i :: 0 <= i < |Tokenize(s, sep)| ==> QUOTE !in Tokenize(s, sep)[i]
    decreases |s|
  {
    var s' := s[Leading(s, sep)..];
    if s' != [] {
      NoQuoteInText(s', false, sep);
      NoQuoteInTokens(Rest(s', sep), sep);
    }
  }
}

/** The gPLink attribute: a list of links written as "[name;options]" one after the
    other (libgpo/gpo_ldap.c). */
module GpLinkText {
  import opened Wire
  import opened Tokens
  import opened Decimal
  import GpoList
  import opened Wrappers

  type Link = GpoList.Link

  const SEPARATORS := {']'}
  const SANE_PREFIX := "LDAP://CN={"

  // ----- reading

  function StripBracket(token: string): string
  {
    if token != "" && token[0] == '[' then token[1..] else token
  }

  /** A piece between closing brackets names a link if it has a semicolon. */
  predicate IsLink(token: string)
  {
    ';' in StripBracket(token)
  }

  function LinkOf(token: string): (l: Link)
    ensures ';' !in l.name
    ensures forall c :: c in l.name ==> c in token
  {
    var q := StripBracket(token);
    var i := GpoList.IndexOf(q, ';');
    GpoList.Link(q[..i], if i < |q| then ToUint32(Atoi(q[i + 1..])) else 0)
  }

  /** A piece as text: a name without a semicolon, perhaps behind one opening bracket, then
      a semicolon and the number. */
  predicate Spells(token: string, link: Link)
  {
    var skip := if token != "" && token[0] == '[' then 1 else 0;
    var end := skip + |link.name|;
    && ';' !in link.name && end < |token|
    && token[skip..end] == link.name && token[end] == ';'
    && link.opts == ToUint32(Atoi(token[end + 1..]))
  }

  lemma LinkSpells(token: string)
    ensures IsLink(token) <==> ';' in token
    ensures IsLink(token) ==> Spells(token, LinkOf(token))
  {
    var q := StripBracket(token);
    var i := GpoList.IndexOf(q, ';');
    if token != "" && token[0] == '[' {
      assert token == ['['] + q;
      assert i < |q| ==> token[1..][i + 1..] == token[i + 2..] && token[1..1 + i] == q[..i];
    } else {
      assert i < |q| ==> token[0..i] == q[..i] && token[0..][i + 1..] == token[i + 1..];
    }
    assert i == |q| ==> q[..i] == q;
    assert i < |q| ==> q[i] in q;
  }

  predicate AllLinks(tokens: seq<string>)
  {
    forall i :: 0 <= i < |tokens| ==> IsLink(tokens[i])
  }

  function LinksOf(tokens: seq<string>): (ls: seq<Link>)
    ensures |ls| == |tokens|
  {
    seq(|tokens|, i requires 0 <= i < |tokens| => LinkOf(tokens[i]))
  }

  predicate WellFormed(raw: string)
  {
    Tokenize(raw, SEPARATORS) != [] && AllLinks(Tokenize(raw, SEPARATORS))
  }

  /** The links of a gPLink value. */
  function Links(raw: string): seq<Link>
  {
    LinksOf(Tokenize(raw, SEPARATORS))
  }

  /** gpo_parse_gplink. */
  method ParseGpLink(raw: string, options: uint32) returns (r: Option<GpoList.GpLink>)
    ensures r == if WellFormed(raw) then Some(GpoList.GpLink(options, Links(raw))) else None
    ensures var tokens := Tokenize(raw, SEPARATORS);
      && (r.None? <==> tokens == [] || exists i :: 0 <= i < |tokens| && ';' !in tokens[i])
      && (r.Some? ==> |r.value.links| == |tokens|)
      && (r.Some? ==> forall i :: 0 <= i < |tokens| ==> Spells(tokens[i], r.value.links[i]))
  {
    forall i | 0 <= i < |Tokenize(raw, SEPARATORS)|
      ensures var token := Tokenize(raw, SEPARATORS)[i];
        (IsLink(token) <==> ';' in token) && (IsLink(token) ==> Spells(token, LinkOf(token)))
    {
      LinkSpells(Tokenize(raw, SEPARATORS)[i]);
    }
    if raw == "" {
      return None;
    }
    var tokens := AllTokens(raw, SEPARATORS);
    if |tokens| == 0 {
      return None;
    }
    var links := ParseTokens(tokens);
    r := if links.Some? then Some(GpoList.GpLink(options, links.value)) else None;
  }

  method ParseTokens(tokens: seq<string>) returns (r: Option<seq<Link>>)
    ensures r == if AllLinks(tokens) then Some(LinksOf(tokens)) else None
  {
    var links: seq<Link> := [];
    for i := 0 to |tokens|
      invariant |links| == i
      invariant forall j :: 0 <= j < i ==> IsLink(tokens[j]) && links[j] == LinkOf(tokens[j])
    {
      var q := StripBracket(tokens[i]);
      var p := GpoList.IndexOf(q, ';');
      if p == |q| {
        assert q[..p] == q;
        assert !IsLink(tokens[i]);
        return None;
      }
      assert q[p] in q;
      var link := GpoList.Link(q[..p], ToUint32(Atoi(q[p + 1..])));
      assert IsLink(tokens[i]) && link == LinkOf(tokens[i]);
      links := links + [link];
    }
    assert links == LinksOf(tokens);
    r := Some(links);
  }

  // ----- appending

  function Written(dn: string, opt: uint32): string
  {
    "[" + dn + ";" + Print(ToInt32(opt)) + "]"
  }

  predicate Sane(dn: string)
  {
    |SANE_PREFIX| <= |dn| && GpoList.EqualNoCase(dn[..|SANE_PREFIX|], SANE_PREFIX)
  }

  datatype AddResult = Stored(value: string) | InvalidDn | NoObject

  /** The same character, or the small letter for a capital one. */
  predicate Matches(c: char, capital: char)
  {
    c == capital || ('A' <= capital <= 'Z' && c as int == capital as int + 32)
  }

  lemma SaneIs(dn: string)
    ensures Sane(dn) <==>
      |dn| >= 11 && forall i :: 0 <= i < 11 ==> Matches(dn[i], "LDAP://CN={"[i])
  {
    forall i | 0 <= i < 11 && i < |dn|
      ensures GpoList.LowerChar(dn[i]) == GpoList.LowerChar(SANE_PREFIX[i]) <==> Matches(dn[i], SANE_PREFIX[i])
    {
      GpoList.SameLetter(dn[i], SANE_PREFIX[i]);
      assert SANE_PREFIX[i] in ['L', 'D', 'A', 'P', ':', '/', 'C', 'N', '=', '{'];
    }
    if |dn| >= 11 {
      assert forall i :: 0 <= i < 11 ==> dn[..11][i] == dn[i];
    }
  }

  /** ads_add_gpo_link: `found` is the object and its present value, if it was found. The
      name has to start like LDAP://CN={ without regard to case. */
  method AddGpoLink(found: Option<Option<string>>, dn: string, opt: uint32) returns (r: AddResult)
    ensures r.InvalidDn? <==> !Sane(dn)
    ensures r.InvalidDn? <==>
      |dn| < 11 || exists i :: 0 <= i < 11 && !Matches(dn[i], "LDAP://CN={"[i])
    ensures r.NoObject? <==> Sane(dn) && found.None?
    ensures r.Stored? ==>
      r.value == (if found.value.Some? then found.value.value else "") + Written(dn, opt)
  {
    SaneIs(dn);
    if !Sane(dn) {
      return InvalidDn;
    }
    if found.None? {
      return NoObject;
    }
    match found.value {
      case None => r := Stored(Written(dn, opt));
      case Some(before) => r := Stored(before + Written(dn, opt));
    }
  }

  /** The name of a link that can be read back. */
  predicate Expressible(dn: string)
  {
    ']' !in dn && ';' !in dn && QUOTE !in dn
  }

  /** What was written, read on its own. */
  lemma WrittenTokens(dn: string, opt: uint32)
    requires Expressible(dn)
    ensures Tokenize(Written(dn, opt), SEPARATORS) == ["[" + dn + ";" + Print(ToInt32(opt))]
    ensures Closed(Written(dn, opt), SEPARATORS)
  {
    var body := "[" + dn + ";" + Print(ToInt32(opt));
    var s := Written(dn, opt);
    assert s == body + "]";
    forall c | c in body
      ensures c != ']' && c != QUOTE
    {
    }
    PlainToken(body, "]", SEPARATORS);
    assert s[0] == '[';
    TokenFirst(s, SEPARATORS);
    assert Rest(s, SEPARATORS) == "";
  }

  lemma {:induction false} FirstIndex(a: string, c: char, b: string)
    requires c !in a
    ensures GpoList.IndexOf(a + [c] + b, c) == |a|
  {
    if a != [] {
      assert (a + [c] + b)[1..] == a[1..] + [c] + b;
      FirstIndex(a[1..], c, b);
    }
  }

  lemma WrittenLink(dn: string, opt: uint32)
    requires Expressible(dn)
    ensures var token := "[" + dn + ";" + Print(ToInt32(opt));
      IsLink(token) && LinkOf(token) == GpoList.Link(dn, opt)
  {
    var number := Print(ToInt32(opt));
    var token := "[" + dn + ";" + number;
    var q := dn + ";" + number;
    assert StripBracket(token) == q;
    assert q[|dn|] == ';' && q[|dn|] in q;
    FirstIndex(dn, ';', number);
    assert q[..|dn|] == dn && q[|dn| + 1..] == number;
    AtoiPrint(ToInt32(opt));
    IntRoundTrip(opt);
  }

  lemma IntRoundTrip(opt: uint32)
    ensures ToUint32(ToInt32(opt)) == opt
  {
  }

  /** Exactly one link more, and that one. */
  lemma OneMore(a: seq<string>, b: seq<string>, link: Link)
    requires AllLinks(a)
    ensures a + b != [] && AllLinks(a + b) && LinksOf(a + b) == LinksOf(a) + [link]
      <==> |b| == 1 && IsLink(b[0]) && LinkOf(b[0]) == link
  {
    var all := a + b;
    if |b| == 1 && IsLink(b[0]) && LinkOf(b[0]) == link {
      assert LinksOf(all) == LinksOf(a) + [link];
    } else if |b| == 1 {
      assert all[|a|] == b[0];
      assert LinksOf(all)[|a|] == LinkOf(b[0]);
      assert (LinksOf(a) + [link])[|a|] == link;
    }
  }

  /** A name that comes back from a value can be expressed. */
  lemma OnlyExpressibleReturn(dn: string, opt: uint32)
    requires var tokens := Tokenize(Written(dn, opt), SEPARATORS);
      |tokens| == 1 && LinkOf(tokens[0]).name == dn
    ensures Expressible(dn)
  {
    var s := Written(dn, opt);
    var token := Tokenize(s, SEPARATORS)[0];
    NoQuoteInTokens(s, SEPARATORS);
    assert QUOTE !in dn;
    WrittenWithoutQuote(dn, opt);
    NoSeparatorInTokens(s, SEPARATORS);
    assert ']' !in token;
  }

  lemma WrittenWithoutQuote(dn: string, opt: uint32)
    requires QUOTE !in dn
    ensures QUOTE !in Written(dn, opt)
  {
    var number := Print(ToInt32(opt));
    assert QUOTE !in number;
    assert QUOTE !in "[" + dn;
    assert QUOTE !in "[" + dn + ";";
    assert QUOTE !in "[" + dn + ";" + number;
  }

  // ----- a value that does not end where a link ends

  lemma {:induction false} TextIndex(s: string, quoted: bool)
    ensures GpoList.IndexOf(Text(s, quoted, SEPARATORS), ';') <= GpoList.IndexOf(s, ';')
  {
    if s != [] && (quoted || s[0] !in SEPARATORS) {
      TextIndex(s[1..], if s[0] == QUOTE then !quoted else quoted);
      if s[0] != QUOTE {
        var t := Text(s[1..], quoted, SEPARATORS);
        assert ([s[0]] + t)[1..] == t;
      }
    }
  }

  lemma {:induction false} LeadingIndex(s: string)
    ensures GpoList.IndexOf(s[Leading(s, SEPARATORS)..], ';') <= GpoList.IndexOf(s, ';')
  {
    if s != [] && s[0] in SEPARATORS {
      LeadingIndex(s[1..]);
      assert s[Leading(s, SEPARATORS)..] == s[1..][Leading(s[1..], SEPARATORS)..];
    } else {
      assert s[0..] == s;
    }
  }

  /** The name in the first piece of a text ends before the text's first semicolon. */
  lemma NameIsShort(s: string)
    requires Tokenize(s, SEPARATORS) != []
    ensures |LinkOf(Tokenize(s, SEPARATORS)[0]).name| <= GpoList.IndexOf(s, ';')
  {
    LeadingIndex(s);
    TextIndex(s[Leading(s, SEPARATORS)..], false);
  }

  lemma {:induction false} IndexBound(s: string, k: nat)
    requires k < |s| && s[k] == ';'
    ensures GpoList.IndexOf(s, ';') <= k
  {
    if k > 0 {
      IndexBound(s[1..], k - 1);
    }
  }

  lemma LastLink(before: seq<string>, all: seq<string>, link: Link)
    requires LinksOf(all) == LinksOf(before) + [link]
    ensures |all| == |before| + 1 && LinkOf(all[|before|]) == link
  {
    assert |LinksOf(all)| == |before| + 1;
    assert LinksOf(all)[|before|] == link;
  }

  /** A link appended to an open value never comes back: what is not swallowed by the open
      piece starts behind a bracket in the name, and so names something shorter. */
  lemma OpenSwallows(before: string, dn: string, opt: uint32)
    requires !Closed(before, SEPARATORS)
    ensures Links(before + Written(dn, opt)) != Links(before) + [GpoList.Link(dn, opt)]
  {
    var w := Written(dn, opt);
    var m := OpenAppend(before, w, SEPARATORS);
    var (all, was) := (Tokenize(before + w, SEPARATORS), Tokenize(before, SEPARATORS));
    if LinksOf(all) == LinksOf(was) + [GpoList.Link(dn, opt)] {
      LastLink(was, all, GpoList.Link(dn, opt));
      assert all[|was|..] == [all[|was|]];
      ShorterName(dn, opt, m);
    }
  }

  /** What stands behind a bracket in a written link names something shorter. */
  lemma ShorterName(dn: string, opt: uint32, m: nat)
    requires m <= |dn| + |Print(ToInt32(opt))| + 3
    ensures var (w, rest) := (Written(dn, opt), Tokenize(Written(dn, opt)[m..], SEPARATORS));
      (m == |w| || (0 < m && w[m - 1] in SEPARATORS)) && rest != [] ==> |LinkOf(rest[0]).name| < |dn|
  {
    var w := Written(dn, opt);
    if m == |w| {
      assert w[m..] == [] && Tokenize([], SEPARATORS) == [];
    } else if 0 < m && w[m - 1] in SEPARATORS && Tokenize(w[m..], SEPARATORS) != [] {
      BracketInName(dn, Print(ToInt32(opt)), w, m);
      IndexBound(w[m..], |dn| + 1 - m);
      NameIsShort(w[m..]);
    }
  }

  /** A bracket in front of the last one is in the name. */
  lemma BracketInName(dn: string, number: string, w: string, m: nat)
    requires w == "[" + dn + ";" + number + "]" && 0 < m < |w| && w[m - 1] == ']'
    requires forall c :: c in number ==> c != ']'
    ensures 2 <= m <= |dn| + 1 && w[m..][|dn| + 1 - m] == ';'
  {
    assert w[0] == '[' && w[|dn| + 1] == ';';
    forall k | |dn| + 2 <= k < |w| - 1
      ensures w[k] != ']'
    {
      assert w[k] == number[k - |dn| - 2] && w[k] in number;
    }
  }

  /** A text that is one piece. */
  lemma OnePiece(body: string, end: string)
    requires body != "" && QUOTE !in body && ']' !in body && (end == "" || end == "]")
    ensures Tokenize(body + end, SEPARATORS) == [body]
    ensures end == "" ==> !Closed(body, SEPARATORS)
  {
    var s := body + end;
    assert s[0] == body[0] && body[0] in body;
    PlainToken(body, end, SEPARATORS);
    TokenFirst(s, SEPARATORS);
    assert Tokenize("", SEPARATORS) == [] && Rest(s, SEPARATORS) == "";
    assert end == "" ==> s == body && Leading(body, SEPARATORS) == 0 && body[0..] == body;
  }

  lemma FirstSemicolon(token: string)
    requires |token| > 2 && token[0] == '[' && token[2] == ';'
    ensures IsLink(token)
  {
    assert StripBracket(token)[1] == ';';
  }

  /** For instance: the new link vanishes, and the value can still be parsed. */
  lemma SwallowedLink()
    ensures WellFormed("[A;0") && !Closed("[A;0", SEPARATORS)
    ensures WellFormed("[A;0" + Written("B", 1)) && |Links("[A;0" + Written("B", 1))| == 1 == |Links("[A;0")|
  {
    OneLink("[A;0", "");
    SwallowedText();
    OneLink("[A;0[B;1", "]");
  }

  /** A text that is one link. */
  lemma OneLink(body: string, end: string)
    requires |body| > 2 && body[0] == '[' && body[2] == ';' && QUOTE !in body && ']' !in body
    requires end == "" || end == "]"
    ensures WellFormed(body + end) && |Links(body + end)| == 1
    ensures end == "" ==> body + end == body && !Closed(body, SEPARATORS)
  {
    OnePiece(body, end);
    FirstSemicolon(body);
  }

  lemma SwallowedText()
    ensures "[A;0" + Written("B", 1) == "[A;0[B;1" + "]"
  {
    assert ToInt32(1) == 1 && Print(1) == "1";
  }

  /** Appending a link and reading the value back gives the old links and then exactly the
      new one, for every option, if and only if the old value ends where a link ends and
      holds nothing but links, and the name has no bracket, semicolon or quote in it. */
  lemma AppendThenParse(before: string, dn: string, opt: uint32)
    ensures var after := before + Written(dn, opt);
      WellFormed(after) && Links(after) == Links(before) + [GpoList.Link(dn, opt)] <==>
      Closed(before, SEPARATORS) && AllLinks(Tokenize(before, SEPARATORS)) && Expressible(dn)
  {
    if Closed(before, SEPARATORS) {
      ClosedThenParse(before, dn, opt);
    } else {
      OpenSwallows(before, dn, opt);
    }
  }

  lemma ClosedThenParse(before: string, dn: string, opt: uint32)
    requires Closed(before, SEPARATORS)
    ensures var after := before + Written(dn, opt);
      WellFormed(after) && Links(after) == Links(before) + [GpoList.Link(dn, opt)] <==>
      AllLinks(Tokenize(before, SEPARATORS)) && Expressible(dn)
  {
    var (a, b) := (Tokenize(before, SEPARATORS), Tokenize(Written(dn, opt), SEPARATORS));
    TokenizeAppend(before, Written(dn, opt), SEPARATORS);
    var link := GpoList.Link(dn, opt);
    if AllLinks(a + b) {
      forall i | 0 <= i < |a| ensures IsLink(a[i]) {
        assert (a + b)[i] == a[i];
      }
    }
    if AllLinks(a) {
      OneMore(a, b, link);
      if Expressible(dn) {
        WrittenTokens(dn, opt);
        WrittenLink(dn, opt);
      } else if |b| == 1 && LinkOf(b[0]) == link {
        OnlyExpressibleReturn(dn, opt);
      }
    }
  }

  /** The value that appending the links one after the other builds up. */
  function WriteAll(links: seq<Link>): string
  {
    if links == [] then ""
    else WriteAll(links[..|links| - 1]) + Written(links[|links| - 1].name, links[|links| - 1].opts)
  }

  lemma EmptyValue()
    ensures Closed("", SEPARATORS) && Links("") == []
  {
    assert Tokenize("", SEPARATORS) == [];
  }

  lemma AppendOne(before: string, link: Link)
    requires Closed(before, SEPARATORS) && (before == "" || WellFormed(before))
    requires Expressible(link.name)
    ensures var after := before + Written(link.name, link.opts);
      Closed(after, SEPARATORS) && WellFormed(after) && Links(after) == Links(before) + [link]
  {
    assert Tokenize("", SEPARATORS) == [];
    AppendThenParse(before, link.name, link.opts);
    WrittenTokens(link.name, link.opts);
    ClosedAppend(before, Written(link.name, link.opts), SEPARATORS);
  }

  /** Whatever links are appended, in whatever number, they are read back in order. */
  lemma {:induction false} WriteAllThenParse(links: seq<Link>)
    requires forall i :: 0 <= i < |links| ==> Expressible(links[i].name)
    ensures Closed(WriteAll(links), SEPARATORS)
    ensures Links(WriteAll(links)) == links
    ensures links != [] ==> WellFormed(WriteAll(links))
  {
    if links == [] {
      EmptyValue();
    } else {
      var (most, last) := (links[..|links| - 1], links[|links| - 1]);
      WriteAllThenParse(most);
      var before := WriteAll(most);
      AppendOne(before, last);
      assert WriteAll(links) == before + Written(last.name, last.opts);
      InitLast(links);
    }
  }
}

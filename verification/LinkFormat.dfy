/**
 * What the master's parser of resource lists accepts and what it makes of it
 * (c-master/casan/slave.cc, parse_resource_list), against a grammar after section 2 of RFC 6690.
 */
module LinkFormat {
  import opened ResourceList
  import opened WellKnown

  /** A name alone, a value without quotes, a value in double quotes. */
  datatype Param = Flag(name: string) | Token(name: string, text: string) | Quote(name: string, text: string)

  datatype Link = Link(path: string, params: seq<Param>)

  function ParamText(a: Param): string
  {
    match a
    case Flag(name) => ";" + name
    case Token(name, text) => ";" + name + "=" + text
    case Quote(name, text) => AttributeText(name, text)
  }

  function ParamsText(params: seq<Param>): string
  {
    if params == [] then "" else ParamsText(params[..|params| - 1]) + ParamText(params[|params| - 1])
  }

  function LinkText(l: Link): string
  {
    "<" + l.path + ">" + ParamsText(l.params)
  }

  function ListText(ls: seq<Link>): string
  {
    if ls == [] then "" else ListText(ls[..|ls| - 1]) + Comma(|ls| > 1) + LinkText(ls[|ls| - 1])
  }

  predicate CleanName(name: string) { Free(name, '=') && Free(name, ';') && Free(name, ',') }

  predicate Bare(text: string) { Free(text, ';') && Free(text, ',') && (text != "" ==> text[0] != '"') }

  predicate CleanParam(a: Param)
  {
    match a
    case Flag(name) => CleanName(name)
    case Token(name, text) => name != "" && CleanName(name) && Bare(text)
    case Quote(name, text) => name != "" && CleanName(name) && Free(text, '"')
  }

  predicate CleanLink(l: Link)
  {
    Free(l.path, '>') && forall i :: 0 <= i < |l.params| ==> CleanParam(l.params[i])
  }

  predicate CleanList(ls: seq<Link>) { forall i :: 0 <= i < |ls| ==> CleanLink(ls[i]) }

  // ---------------------------------------------------------------- what is recorded

  function Value(a: Param): string { if a.Flag? then "" else a.text }

  function Recorded(params: seq<Param>): seq<Attribute>
  {
    if params == [] then []
    else
      var a := params[|params| - 1];
      AddValue(Recorded(params[..|params| - 1]), a.name, Value(a))
  }

  function Records(ls: seq<Link>): seq<Resource>
  {
    seq(|ls|, i requires 0 <= i < |ls| => Resource(ls[i].path, Recorded(ls[i].params)))
  }

  /** The list without a name that stands alone at its very end. */
  function Trimmed(ls: seq<Link>): seq<Link>
  {
    if ls == [] then []
    else
      var l := ls[|ls| - 1];
      var n := |l.params|;
      if n > 0 && l.params[n - 1].Flag? && l.params[n - 1].name != "" then
        ls[|ls| - 1 := l.(params := l.params[..n - 1])]
      else ls
  }

  /** The values of one name, in order. */
  function ValuesOf(params: seq<Param>, name: string): seq<string>
  {
    if params == [] then []
    else
      var a := params[|params| - 1];
      ValuesOf(params[..|params| - 1], name) + (if a.name == name then [Value(a)] else [])
  }

  predicate DistinctNames(attributes: seq<Attribute>)
  {
    forall i, j :: 0 <= i < j < |attributes| ==> attributes[i].name != attributes[j].name
  }

  function Lookup(attributes: seq<Attribute>, name: string): seq<string>
  {
    if attributes == [] then []
    else if attributes[0].name == name then attributes[0].values
    else Lookup(attributes[1..], name)
  }

  lemma {:induction false} LookupAdded(attributes: seq<Attribute>, name: string, value: string, other: string)
    ensures Lookup(AddValue(attributes, name, value), other)
         == Lookup(attributes, other) + (if other == name then [value] else [])
  {
    if attributes != [] && attributes[0].name != name {
      LookupAdded(attributes[1..], name, value, other);
    }
  }

  lemma NamesAdded(attributes: seq<Attribute>, name: string, value: string)
    ensures var more := AddValue(attributes, name, value);
            && |attributes| <= |more| <= |attributes| + 1
            && (forall i :: 0 <= i < |attributes| ==> more[i].name == attributes[i].name)
            && (|more| > |attributes| ==>
                  && more[|attributes|].name == name
                  && forall i :: 0 <= i < |attributes| ==> attributes[i].name != name)
  {
    var a := AddedAt(attributes, name);
    AddValueAt(attributes, a, name, value);
  }

  lemma AddedAt(attributes: seq<Attribute>, name: string) returns (a: nat)
    ensures a <= |attributes| && forall j :: 0 <= j < a ==> attributes[j].name != name
    ensures a < |attributes| ==> attributes[a].name == name
  {
    a := 0;
    while a < |attributes| && attributes[a].name != name
      invariant a <= |attributes| && forall j :: 0 <= j < a ==> attributes[j].name != name
    {
      a := a + 1;
    }
  }

  lemma StayDistinct(attributes: seq<Attribute>, name: string, value: string)
    requires DistinctNames(attributes)
    ensures DistinctNames(AddValue(attributes, name, value))
  {
    hide AddValue;
    NamesAdded(attributes, name, value);
  }

  /** Each name is recorded once, with all its values in the order of the list. */
  lemma {:induction false} RecordedMeaning(params: seq<Param>, name: string)
    ensures DistinctNames(Recorded(params)) && Lookup(Recorded(params), name) == ValuesOf(params, name)
  {
    hide AddValue, DistinctNames, Lookup;
    if params == [] {
      NoNames(name);
    } else {
      var front, a := params[..|params| - 1], params[|params| - 1];
      RecordedMeaning(front, name);
      StayDistinct(Recorded(front), a.name, Value(a));
      LookupAdded(Recorded(front), a.name, Value(a), name);
    }
  }

  lemma NoNames(name: string)
    ensures DistinctNames([]) && Lookup([], name) == []
  {
  }

  // ---------------------------------------------------------------- every clean list is recovered

  /** Where a parameter or a link can end. */
  predicate Between(p: Parser)
  {
    p.state.EndRes? || p.state.AttrName? || p.state.ValStart? || p.state.NotQuoted?
  }

  /** The records once the parameter under way has ended. */
  function Settled(p: Parser): seq<Resource>
  {
    match p.state
    case AttrName => AddToLast(p.rlist, p.attrname, "")
    case ValStart => AddToLast(p.rlist, p.attrname, "")
    case NotQuoted => AddToLast(p.rlist, p.attrname, p.current)
    case _ => p.rlist
  }

  /** The parser after a parameter. */
  predicate Ended(p: Parser, before: seq<Resource>, a: Param)
  {
    && Between(p) && Settled(p) == AddToLast(before, a.name, Value(a))
    && (if a.Flag? then p.state.AttrName? && p.attrname == a.name && p.rlist == before else !p.state.AttrName?)
  }

  lemma FeedSemicolon(p: Parser)
    requires Between(p)
    ensures var q := Feed(p, ";"); q.state.AttrName? && q.attrname == "" && q.rlist == Settled(p)
    ensures var q := Feed(p, ","); q.state.Start? && q.rlist == Settled(p)
  {
    FeedOne(p, ';');
    FeedOne(p, ',');
  }

  lemma FeedNamed(p: Parser, name: string)
    requires Between(p) && CleanName(name)
    ensures var q := Feed(p, ";" + name); q.state.AttrName? && q.attrname == name && q.rlist == Settled(p)
  {
    hide Feed, AddToLast;
    FeedSemicolon(p);
    FeedAppend(p, ";", name);
    FeedName(Feed(p, ";"), name);
    assert "" + name == name;
  }

  lemma FeedEquals(p: Parser, name: string)
    requires Between(p) && CleanName(name) && name != ""
    ensures var q := Feed(p, ";" + name + "="); q.state.ValStart? && q.attrname == name && q.rlist == Settled(p)
  {
    hide Feed, AddToLast;
    FeedNamed(p, name);
    FeedAppend(p, ";" + name, "=");
    FeedOne(Feed(p, ";" + name), '=');
  }

  lemma {:induction false} FeedBare(p: Parser, s: string)
    requires p.state.NotQuoted? && Free(s, ';') && Free(s, ',')
    ensures Feed(p, s) == p.(current := p.current + s)
    decreases |s|
  {
    if s == "" {
      assert p.current + s == p.current;
    } else {
      FeedBare(Next(p, s[0]), s[1..]);
      assert p.current + s == p.current + [s[0]] + s[1..];
    }
  }

  lemma FeedToken(p: Parser, name: string, text: string)
    requires Between(p) && name != "" && CleanName(name) && Bare(text)
    ensures Ended(Feed(p, ";" + name + "=" + text), Settled(p), Token(name, text))
  {
    hide Feed, AddToLast;
    FeedEquals(p, name);
    var q := Feed(p, ";" + name + "=");
    FeedAppend(p, ";" + name + "=", text);
    if text == "" {
      FeedNothing(q);
    } else {
      FeedOne(q, text[0]);
      FeedAppend(q, [text[0]], text[1..]);
      FeedBare(Next(q, text[0]), text[1..]);
      assert [text[0]] + text[1..] == text;
    }
  }

  lemma FeedNothing(p: Parser)
    ensures Feed(p, "") == p
  {
  }

  lemma FeedQuote(p: Parser, name: string, text: string)
    requires Between(p) && name != "" && CleanName(name) && Free(text, '"')
    ensures Ended(Feed(p, AttributeText(name, text)), Settled(p), Quote(name, text))
  {
    hide Feed, AddToLast;
    FeedEquals(p, name);
    var t := ";" + name + "=";
    var q := Feed(p, t);
    FeedOne(q, '"');
    var q1 := q.(current := "", state := Quoted);
    FeedText(q1, text, '"');
    assert "" + text == text;
    FeedOne(q1.(current := text), '"');
    FeedAppend(p, t, "\"");
    FeedAppend(p, t + "\"", text);
    FeedAppend(p, t + "\"" + text, "\"");
    assert t + "\"" + text + "\"" == AttributeText(name, text);
  }

  lemma FeedParam(p: Parser, a: Param)
    requires Between(p) && CleanParam(a)
    ensures Ended(Feed(p, ParamText(a)), Settled(p), a)
  {
    hide Feed, AddToLast, AttributeText;
    match a
    case Flag(name) => FeedNamed(p, name);
    case Token(name, text) => FeedToken(p, name, text);
    case Quote(name, text) => FeedQuote(p, name, text);
  }

  /** The parser after a link, whose records follow those in `before`. */
  predicate EndedLink(p: Parser, before: seq<Resource>, l: Link)
  {
    && Between(p) && Settled(p) == before + [Resource(l.path, Recorded(l.params))]
    && (p.state.AttrName? <==> l.params != [] && l.params[|l.params| - 1].Flag?)
    && (p.state.AttrName? ==>
          && p.attrname == l.params[|l.params| - 1].name
          && p.rlist == before + [Resource(l.path, Recorded(l.params[..|l.params| - 1]))])
  }

  lemma {:induction false} FeedLink(p: Parser, l: Link)
    requires p.state.Start? && CleanLink(l)
    ensures EndedLink(Feed(p, LinkText(l)), p.rlist, l)
    decreases |l.params|
  {
    hide Feed, ParamText, CleanParam;
    var n := |l.params|;
    var head := "<" + l.path + ">";
    if n == 0 {
      FeedHead(p, l.path);
      assert head + "" == head;
    } else {
      var less, a := l.(params := l.params[..n - 1]), l.params[n - 1];
      FeedLink(p, less);
      var q := Feed(p, LinkText(less));
      assert LinkText(l) == LinkText(less) + ParamText(a);
      FeedAppend(p, LinkText(less), ParamText(a));
      FeedParam(q, a);
      AddedToLast(p.rlist, less, a);
    }
  }

  lemma AddedToLast(before: seq<Resource>, l: Link, a: Param)
    ensures var more := l.(params := l.params + [a]);
            AddToLast(before + [Resource(l.path, Recorded(l.params))], a.name, Value(a))
              == before + [Resource(l.path, Recorded(more.params))]
  {
    assert (l.params + [a])[..|l.params|] == l.params;
  }

  lemma {:induction false} FeedLinks(ls: seq<Link>)
    requires CleanList(ls) && ls != []
    ensures EndedLink(Feed(NEW_PARSER, ListText(ls)), Records(ls[..|ls| - 1]), ls[|ls| - 1])
  {
    hide Feed, LinkText, CleanLink, EndedLink;
    var front, l := ls[..|ls| - 1], ls[|ls| - 1];
    var start := ListText(front) + Comma(|ls| > 1);
    FeedAppend(NEW_PARSER, start, LinkText(l));
    if front == [] {
      assert start == "";
      FeedNothing(NEW_PARSER);
      assert Records(front) == [];
    } else {
      FeedLinks(front);
      FeedComma(front);
    }
    FeedLink(Feed(NEW_PARSER, start), l);
  }

  lemma {:induction false} FeedComma(ls: seq<Link>)
    requires ls != [] && EndedLink(Feed(NEW_PARSER, ListText(ls)), Records(ls[..|ls| - 1]), ls[|ls| - 1])
    ensures var q := Feed(NEW_PARSER, ListText(ls) + ","); q.state.Start? && q.rlist == Records(ls)
  {
    hide Feed, AddToLast;
    FeedAppend(NEW_PARSER, ListText(ls), ",");
    FeedSemicolon(Feed(NEW_PARSER, ListText(ls)));
    var n := |ls| - 1;
    assert Records(ls[..n]) + [Resource(ls[n].path, Recorded(ls[n].params))] == Records(ls);
  }

  /** Every clean list is recovered, with or without a comma at its end; only a name that stands
      alone at the very end is not recorded. */
  lemma CleanLinksAreRecovered(ls: seq<Link>, comma: bool)
    requires CleanList(ls) && (comma ==> ls != [])
    ensures Parse(ListText(ls) + Comma(comma)) == (true, Records(if comma then ls else Trimmed(ls)))
  {
    hide Feed, CleanLink, LinkText;
    if ls == [] {
      FeedNothing(NEW_PARSER);
      assert ListText(ls) + Comma(comma) == "" && Records(ls) == [];
    } else {
      FeedLinks(ls);
      if comma {
        FeedComma(ls);
      } else {
        assert ListText(ls) + "" == ListText(ls);
        FinishLink(Feed(NEW_PARSER, ListText(ls)), ls);
      }
    }
  }

  lemma FinishLink(p: Parser, ls: seq<Link>)
    requires ls != [] && EndedLink(p, Records(ls[..|ls| - 1]), ls[|ls| - 1])
    ensures Finish(p) == (true, Records(Trimmed(ls)))
  {
    hide AddToLast;
    var n := |ls| - 1;
    var front, l := Records(ls[..n]), ls[n];
    assert front + [Resource(l.path, Recorded(l.params))] == Records(ls);
    if p.state.AttrName? {
      var less := l.(params := l.params[..|l.params| - 1]);
      assert Records(ls[n := less]) == front + [Resource(l.path, Recorded(less.params))];
    }
  }

  // ---------------------------------------------------------------- nothing else is accepted

  /** The last link of a list with one more parameter. */
  function Extended(ls: seq<Link>, a: Param): seq<Link>
    requires ls != []
  {
    var l := ls[|ls| - 1];
    ls[..|ls| - 1] + [l.(params := l.params + [a])]
  }

  lemma OneMore(ls: seq<Link>, l: Link)
    ensures ListText(ls + [l]) == ListText(ls) + Comma(ls != []) + LinkText(l)
    ensures CleanList(ls) && CleanLink(l) ==> CleanList(ls + [l])
  {
    hide LinkText, Comma, CleanLink;
    assert (ls + [l])[..|ls|] == ls;
  }

  lemma MoreParams(l: Link, a: Param)
    requires CleanLink(l) && CleanParam(a)
    ensures var more := l.(params := l.params + [a]);
            LinkText(more) == LinkText(l) + ParamText(a) && CleanLink(more)
  {
    hide ParamText, CleanParam, Free;
    assert (l.params + [a])[..|l.params|] == l.params;
  }

  lemma ExtendedText(ls: seq<Link>, a: Param)
    requires ls != [] && CleanList(ls) && CleanParam(a)
    ensures ListText(Extended(ls, a)) == ListText(ls) + ParamText(a) && CleanList(Extended(ls, a))
  {
    hide ListText, LinkText, ParamText, CleanParam, CleanLink, Comma;
    var front, l := ls[..|ls| - 1], ls[|ls| - 1];
    OneMore(front, l);
    assert front + [l] == ls;
    MoreParams(l, a);
    OneMore(front, l.(params := l.params + [a]));
  }

  lemma AddedText(ls: seq<Link>, path: string)
    requires CleanList(ls) && Free(path, '>')
    ensures ListText(ls + [Link(path, [])]) == ListText(ls) + Comma(ls != []) + "<" + path + ">"
    ensures CleanList(ls + [Link(path, [])])
  {
    hide ListText, CleanList, Free, Comma;
    OneMore(ls, Link(path, []));
    var t := "<" + path + ">";
    assert LinkText(Link(path, [])) == t + "" == t;
  }

  /** The text so far: clean links, and what the parser is in the middle of. */
  predicate Spells(p: Parser, s: string, ls: seq<Link>)
  {
    && CleanList(ls) && (Open(p.state) ==> ls != [])
    && match p.state
       case Start => s == ListText(ls) + Comma(ls != [])
       case InResource => s == ListText(ls) + Comma(ls != []) + "<" + p.current && Free(p.current, '>')
       case EndRes => s == ListText(ls)
       case Quoted =>
         var a := Quote(p.attrname, p.current);
         CleanParam(a) && s + "\"" == ListText(ls) + ParamText(a)
       case Error => true
       case _ =>
         && CleanParam(Pending(p)) && (p.state.NotQuoted? ==> p.current != "")
         && s == ListText(ls) + ParamText(Pending(p))
  }

  function Pending(p: Parser): Param
  {
    if p.state.AttrName? then Flag(p.attrname)
    else Token(p.attrname, if p.state.ValStart? then "" else p.current)
  }

  lemma {:induction false} Explained(s: string) returns (ls: seq<Link>)
    ensures Spells(Feed(NEW_PARSER, s), s, ls)
  {
    if s == "" {
      ls := [];
    } else {
      hide Feed, Spells;
      var n := |s| - 1;
      var was := Explained(s[..n]);
      assert s[..n] + [s[n]] == s;
      FeedAppend(NEW_PARSER, s[..n], [s[n]]);
      FeedOne(Feed(NEW_PARSER, s[..n]), s[n]);
      ls := StepExplained(Feed(NEW_PARSER, s[..n]), s[..n], was, s[n]);
    }
  }

  lemma StepExplained(p: Parser, s: string, was: seq<Link>, c: char) returns (ls: seq<Link>)
    requires Spells(p, s, was)
    ensures Spells(Next(p, c), s + [c], ls)
  {
    hide ListText, CleanList, AddToLast;
    match p.state
    case Start => ls := was;
    case InResource => ls := PathExplained(p, s, was, c);
    case EndRes => ls := was;
    case AttrName => ls := NameExplained(p, s, was, c);
    case ValStart => ls := TextExplained(p, s, was, c);
    case NotQuoted => ls := TextExplained(p, s, was, c);
    case Quoted => ls := QuotedExplained(p, s, was, c);
    case Error => ls := was;
  }

  lemma PathExplained(p: Parser, s: string, was: seq<Link>, c: char) returns (ls: seq<Link>)
    requires Spells(p, s, was) && p.state.InResource?
    ensures Spells(Next(p, c), s + [c], ls)
  {
    hide ListText, CleanList, Comma;
    ls := was;
    if c == '>' {
      AddedText(was, p.current);
      ls := was + [Link(p.current, [])];
    }
  }

  lemma NameExplained(p: Parser, s: string, was: seq<Link>, c: char) returns (ls: seq<Link>)
    requires Spells(p, s, was) && p.state.AttrName?
    ensures Spells(Next(p, c), s + [c], ls)
  {
    hide ListText, CleanList, AddToLast;
    ls := was;
    if c == ',' || c == ';' {
      ExtendedText(was, Pending(p));
      ls := Extended(was, Pending(p));
    }
  }

  lemma TextExplained(p: Parser, s: string, was: seq<Link>, c: char) returns (ls: seq<Link>)
    requires Spells(p, s, was) && (p.state.ValStart? || p.state.NotQuoted?)
    ensures Spells(Next(p, c), s + [c], ls)
  {
    hide ListText, CleanList, AddToLast;
    ls := was;
    var opening := ";" + p.attrname + "=";
    if c == ',' || c == ';' {
      ExtendedText(was, Pending(p));
      ls := Extended(was, Pending(p));
    } else if p.state.ValStart? && c == '"' {
      assert opening + "\"" == ";" + p.attrname + "=\"";
      assert s + [c] + "\"" == ListText(was) + ParamText(Quote(p.attrname, ""));
    } else {
      var text := Pending(p).text;
      assert s + [c] == ListText(was) + (opening + (text + [c]));
      assert Pending(Next(p, c)) == Token(p.attrname, text + [c]);
    }
  }

  lemma QuotedExplained(p: Parser, s: string, was: seq<Link>, c: char) returns (ls: seq<Link>)
    requires Spells(p, s, was) && p.state.Quoted?
    ensures Spells(Next(p, c), s + [c], ls)
  {
    hide ListText, CleanList, AddToLast;
    ls := was;
    var a := Quote(p.attrname, p.current);
    if c == '"' {
      ExtendedText(was, a);
      ls := Extended(was, a);
    } else {
      var before := ListText(was) + (";" + p.attrname + "=\"" + p.current);
      assert s + "\"" == before + "\"";
      assert s == (s + "\"")[..|s|] == (before + "\"")[..|s|] == before;
      assert s + [c] + "\"" == ListText(was) + (";" + p.attrname + "=\"" + (p.current + [c]) + "\"");
    }
  }

  /** The parser accepts exactly the clean lists, with or without a comma at their end. */
  lemma AcceptedIff(s: string)
    ensures Parse(s).0
       <==> exists ls, comma :: CleanList(ls) && (comma ==> ls != []) && s == ListText(ls) + Comma(comma)
  {
    if Parse(s).0 {
      var ls := Explained(s);
      var found, comma := Accepted(Feed(NEW_PARSER, s), s, ls);
    }
    forall ls, comma | CleanList(ls) && (comma ==> ls != []) && s == ListText(ls) + Comma(comma) ensures Parse(s).0 {
      CleanLinksAreRecovered(ls, comma);
    }
  }

  lemma Accepted(p: Parser, s: string, was: seq<Link>) returns (ls: seq<Link>, comma: bool)
    requires Spells(p, s, was) && Finish(p).0
    ensures CleanList(ls) && (comma ==> ls != []) && s == ListText(ls) + Comma(comma)
  {
    hide ListText, CleanList;
    ls, comma := was, p.state.Start? && was != [];
    if Between(p) && !p.state.EndRes? {
      ExtendedText(was, Pending(p));
      ls := Extended(was, Pending(p));
    }
  }
}

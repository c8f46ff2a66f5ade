/**
 * The master's parser of resource lists (c-master/casan/slave.cc, parse_resource_list;
 * c-master/casan/resource.cc, add_attribute), section 2 of RFC 6690.
 */
module ResourceList {

  datatype Attribute = Attribute(name: string, values: seq<string>)

  datatype Resource = Resource(path: string, attributes: seq<Attribute>)

  datatype State = Start | InResource | EndRes | AttrName | ValStart | NotQuoted | Quoted | Error

  datatype Parser = Parser(state: State, current: string, attrname: string, rlist: seq<Resource>)

  // ---------------------------------------------------------------- attributes

  /** A value joins those of the first attribute with this name. */
  function AddValue(attributes: seq<Attribute>, name: string, value: string): seq<Attribute>
  {
    if attributes == [] then [Attribute(name, [value])]
    else if attributes[0].name == name then
      [attributes[0].(values := attributes[0].values + [value])] + attributes[1..]
    else [attributes[0]] + AddValue(attributes[1..], name, value)
  }

  /** rlist.back ().add_attribute (name, value) */
  function AddToLast(rlist: seq<Resource>, name: string, value: string): seq<Resource>
  {
    if rlist == [] then []
    else
      var last := rlist[|rlist| - 1];
      rlist[|rlist| - 1 := last.(attributes := AddValue(last.attributes, name, value))]
  }

  // ---------------------------------------------------------------- the state machine

  function Record(p: Parser, value: string, next: State): Parser
  {
    p.(rlist := AddToLast(p.rlist, p.attrname, value), state := next)
  }

  /** What the parser does with one character. */
  function Next(p: Parser, c: char): Parser
  {
    match p.state
    case Start => if c == '<' then p.(current := "", state := InResource) else p.(state := Error)
    case InResource =>
      if c == '>' then p.(rlist := p.rlist + [Resource(p.current, [])], state := EndRes)
      else p.(current := p.current + [c])
    case EndRes =>
      p.(attrname := "", state := if c == ';' then AttrName else if c == ',' then Start else Error)
    case AttrName =>
      if c == '=' then p.(state := if p.attrname == "" then Error else ValStart)
      else if c == ';' then Record(p, "", AttrName).(attrname := "")
      else if c == ',' then Record(p, "", Start)
      else p.(attrname := p.attrname + [c])
    case ValStart =>
      if c == '"' then p.(current := "", state := Quoted)
      else if c == ',' then Record(p, "", Start).(current := "")
      else if c == ';' then Record(p, "", AttrName).(current := "", attrname := "")
      else p.(current := [c], state := NotQuoted)
    case Quoted =>
      if c == '"' then Record(p, p.current, EndRes) else p.(current := p.current + [c])
    case NotQuoted =>
      if c == ',' then Record(p, p.current, Start)
      else if c == ';' then Record(p, p.current, AttrName).(attrname := "")
      else p.(current := p.current + [c])
    case Error => p
  }

  /** The terminal states. An attribute name at the very end is recorded only if it is empty. */
  function Finish(p: Parser): (bool, seq<Resource>)
  {
    match p.state
    case Start => (true, p.rlist)
    case EndRes => (true, p.rlist)
    case AttrName => (true, if p.attrname == "" then AddToLast(p.rlist, p.attrname, "") else p.rlist)
    case ValStart => (true, AddToLast(p.rlist, p.attrname, ""))
    case NotQuoted => (true, AddToLast(p.rlist, p.attrname, p.current))
    case _ => (false, p.rlist)
  }

  function Feed(p: Parser, s: string): Parser
    decreases |s|
  {
    if s == "" then p else Feed(Next(p, s[0]), s[1..])
  }

  lemma {:induction false} FeedAppend(p: Parser, s: string, t: string)
    ensures Feed(p, s + t) == Feed(Feed(p, s), t)
    decreases |s|
  {
    if s == "" {
      assert s + t == t;
    } else {
      assert (s + t)[1..] == s[1..] + t;
      FeedAppend(Next(p, s[0]), s[1..], t);
    }
  }

  const NEW_PARSER := Parser(Start, "", "", [])

  function Parse(s: string): (bool, seq<Resource>)
  {
    Finish(Feed(NEW_PARSER, s))
  }

  // ---------------------------------------------------------------- the loop

  /** The attribute a value joins is the first with its name; a new one comes last. */
  lemma {:induction false} AddValueAt(attributes: seq<Attribute>, a: nat, name: string, value: string)
    requires a <= |attributes| && forall j :: 0 <= j < a ==> attributes[j].name != name
    requires a < |attributes| ==> attributes[a].name == name
    ensures AddValue(attributes, name, value)
         == if a == |attributes| then attributes + [Attribute(name, [value])]
            else attributes[a := attributes[a].(values := attributes[a].values + [value])]
  {
    if a > 0 {
      AddValueAt(attributes[1..], a - 1, name, value);
      assert attributes == [attributes[0]] + attributes[1..];
    }
  }

  /** add_attribute on the last resource, which must exist. */
  method AddAttribute(rlist: seq<Resource>, name: string, value: string) returns (r: seq<Resource>)
    requires rlist != []
    ensures r == AddToLast(rlist, name, value)
  {
    hide AddValue;
    var attributes := rlist[|rlist| - 1].attributes;
    var a := 0;
    while a < |attributes| && attributes[a].name != name
      invariant a <= |attributes| && forall j :: 0 <= j < a ==> attributes[j].name != name
    {
      a := a + 1;
    }
    AddValueAt(attributes, a, name, value);
    if a < |attributes| {
      attributes := attributes[a := attributes[a].(values := attributes[a].values + [value])];
    } else {
      attributes := attributes + [Attribute(name, [value])];
    }
    r := rlist[|rlist| - 1 := rlist[|rlist| - 1].(attributes := attributes)];
  }

  /** In these states an attribute may be recorded, so there is a resource to record it with. */
  predicate Open(s: State)
  {
    s.EndRes? || s.AttrName? || s.ValStart? || s.NotQuoted? || s.Quoted?
  }

  method ParseResourceList(b: string) returns (ok: bool, rlist: seq<Resource>)
    ensures (ok, rlist) == Parse(b)
  {
    var state, current, attrname := Start, "", "";
    rlist := [];
    ghost var goal := Feed(NEW_PARSER, b);
    assert b[0..] == b;
    for i := 0 to |b|
      invariant Feed(Parser(state, current, attrname, rlist), b[i..]) == goal
      invariant Open(state) ==> rlist != []
    {
      assert b[i..][1..] == b[i + 1..];
      state, current, attrname, rlist := ParseChar(state, current, attrname, rlist, b[i]);
    }
    assert b[|b|..] == "";
    ok := true;
    match state
    case Start =>
    case EndRes =>
    case AttrName =>
      if attrname == "" {
        rlist := AddAttribute(rlist, attrname, "");
      }
    case ValStart => rlist := AddAttribute(rlist, attrname, "");
    case NotQuoted => rlist := AddAttribute(rlist, attrname, current);
    case _ => ok := false;
  }

  method ParseChar(state0: State, current0: string, attrname0: string, rlist0: seq<Resource>, c: char)
    returns (state: State, current: string, attrname: string, rlist: seq<Resource>)
    requires Open(state0) ==> rlist0 != []
    ensures Parser(state, current, attrname, rlist) == Next(Parser(state0, current0, attrname0, rlist0), c)
    ensures Open(state) ==> rlist != []
  {
    hide AddToLast;
    state, current, attrname, rlist := state0, current0, attrname0, rlist0;
    match state
    case Start =>
      if c == '<' {
        current := "";
        state := InResource;
      } else {
        state := Error;
      }
    case InResource =>
      if c == '>' {
        rlist := rlist + [Resource(current, [])];
        state := EndRes;
      } else {
        current := current + [c];
      }
    case EndRes =>
      attrname := "";
      state := if c == ';' then AttrName else if c == ',' then Start else Error;
    case AttrName =>
      if c == '=' {
        state := if attrname == "" then Error else ValStart;
      } else if c == ';' {
        rlist := AddAttribute(rlist, attrname, "");
        NotEmptied(rlist0, attrname, "");
        attrname := "";
      } else if c == ',' {
        rlist := AddAttribute(rlist, attrname, "");
        state := Start;
      } else {
        attrname := attrname + [c];
      }
    case ValStart =>
      current := "";
      if c == '"' {
        state := Quoted;
      } else if c == ',' {
        rlist := AddAttribute(rlist, attrname, "");
        state := Start;
      } else if c == ';' {
        rlist := AddAttribute(rlist, attrname, "");
        NotEmptied(rlist0, attrname, "");
        attrname := "";
        state := AttrName;
      } else {
        state := NotQuoted;
        current := current + [c];
      }
    case Quoted =>
      if c == '"' {
        rlist := AddAttribute(rlist, attrname, current);
        NotEmptied(rlist0, attrname, current);
        state := EndRes;
      } else {
        current := current + [c];
      }
    case NotQuoted =>
      if c == ',' {
        rlist := AddAttribute(rlist, attrname, current);
        state := Start;
      } else if c == ';' {
        rlist := AddAttribute(rlist, attrname, current);
        NotEmptied(rlist0, attrname, current);
        attrname := "";
        state := AttrName;
      } else {
        current := current + [c];
      }
    case Error =>
  }

  lemma NotEmptied(rlist: seq<Resource>, name: string, value: string)
    ensures |AddToLast(rlist, name, value)| == |rlist|
  {
  }
}

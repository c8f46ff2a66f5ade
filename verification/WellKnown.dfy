/**
 * The slave's resource list (arduino/libraries/Casan/casan.cpp, get_well_known;
 * arduino/libraries/Casan/resource.cpp, well_known; arduino/libraries/Casan/msg.cpp,
 * avail_space), and what the master's parser recovers from it.
 */
module WellKnown {
  import opened Bytes
  import opened CoapMessage
  import opened ResourceList
  import C = CoapCodec

  /** A registered resource; `observable` if it has a trigger. */
  datatype Registered = Registered(name: string, title: string, rt: string, observable: bool)

  // ---------------------------------------------------------------- the text

  function AttributeText(name: string, value: string): string
  {
    ";" + name + "=\"" + value + "\""
  }

  function Text(r: Registered): (t: string)
    ensures t != ""
  {
    "<" + r.name + ">" + AttributeText("title", r.title) + AttributeText("rt", r.rt)
    + (if r.observable then ";obs" else "")
  }

  function Comma(b: bool): string { if b then "," else "" }

  /** The texts separated by commas. */
  function Joined(rs: seq<Registered>): string
  {
    if rs == [] then ""
    else Joined(rs[..|rs| - 1]) + Comma(|rs| > 1) + Text(rs[|rs| - 1])
  }

  /** Whether a comma and then the next text, with a final zero, go behind `size` characters. */
  predicate CommaFits(size: nat, avail: nat) { size == 0 || size + 2 < avail }

  predicate TextFits(r: Registered, size: nat, avail: nat)
  {
    CommaFits(size, avail) && size + |Comma(size > 0)| + |Text(r)| + 1 <= avail
  }

  /** How many of the resources from the n-th on get into the buffer. */
  function Fitted(rs: seq<Registered>, avail: nat, n: nat): (m: nat)
    requires n <= |rs|
    ensures n <= m <= |rs|
    decreases |rs| - n
  {
    if n < |rs| && TextFits(rs[n], |Joined(rs[..n])|, avail) then Fitted(rs, avail, n + 1) else n
  }

  /** A comma stays behind the last text if the next one did not fit. */
  predicate Trailing(rs: seq<Registered>, avail: nat, n: nat)
    requires n <= |rs|
  {
    0 < n < |rs| && CommaFits(|Joined(rs[..n])|, avail)
  }

  function Payload(rs: seq<Registered>, avail: nat): string
  {
    var n := Fitted(rs, avail, 0);
    Joined(rs[..n]) + Comma(Trailing(rs, avail, n))
  }

  // ---------------------------------------------------------------- the methods

  /** Resource::well_known: the length with the final zero, or -1 if that is too much. */
  method WellKnownText(r: Registered, buf: array<char>, at: nat, maxlen: nat) returns (len: int)
    requires at + maxlen <= buf.Length
    modifies buf
    ensures if |Text(r)| + 1 > maxlen then len == -1 && buf[..] == old(buf[..])
            else len == |Text(r)| + 1 && buf[..at + len - 1] == old(buf[..at]) + Text(r)
  {
    var obs := if r.observable then ";obs" else "";
    len := |"<>;title=..;rt=.."| + 1;
    len := len + |r.name| + |r.title| + |r.rt| + |obs|;
    assert len == |Text(r)| + 1;
    if len > maxlen {
      return -1;
    }
    Memcpy(buf, at, Text(r));
    assert buf[..at + len - 1] == old(buf[..at]) + Text(r);
    buf[at + len - 1] := '\0';
  }

  lemma JoinedMore(rs: seq<Registered>, n: nat)
    requires n < |rs|
    ensures Joined(rs[..n + 1]) == Joined(rs[..n]) + Comma(n > 0) + Text(rs[n])
    ensures Joined(rs[..0]) == "" && (n > 0 ==> |Joined(rs[..n])| > 0)
  {
    hide Text;
    assert rs[..n + 1][..n] == rs[..n];
    if n > 0 { assert rs[..n][..n - 1] == rs[..n - 1]; }
  }

  /** Casan::get_well_known: the payload, and whether all resources are in it. */
  method GetWellKnown(rs: seq<Registered>, avail: nat) returns (payload: string, all: bool)
    ensures payload == Payload(rs, avail)
    ensures all <==> Fitted(rs, avail, 0) == |rs|
  {
    hide Text, Joined, Comma;
    var buf := new char[avail];
    var size: nat, rl: nat := 0, 0;
    ghost var n := Fitted(rs, avail, 0);
    NothingYet(rs);
    Commas();
    ghost var tail := "";
    while rl < |rs|
      invariant rl <= |rs| && size <= avail && Fitted(rs, avail, rl) == n && (rl > 0 <==> |Joined(rs[..rl])| > 0)
      invariant buf[..size] == Joined(rs[..rl]) && tail == ""
    {
      JoinedMore(rs, rl);
      if size > 0 {
        if size + 2 < avail {
          buf[size] := ',';
          buf[size + 1] := '\0';
          size := size + 1;
          tail := ",";
        } else {
          break;
        }
      }
      assert buf[..size] == Joined(rs[..rl]) + tail && tail == Comma(rl > 0);
      var len := WellKnownText(rs[rl], buf, size, avail - size);
      if len == -1 {
        break;
      }
      size := size + (len - 1);
      rl := rl + 1;
      tail := "";
    }
    payload := buf[..size];
    all := rl == |rs|;
    assert payload == Joined(rs[..rl]) + tail;
  }

  lemma NothingYet(rs: seq<Registered>)
    ensures Joined(rs[..0]) == ""
  {
  }

  lemma Commas()
    ensures Comma(true) == "," && Comma(false) == ""
  {
  }

  // ---------------------------------------------------------------- the size of the answer

  /** The bytes of header, token and options. */
  function HeadSize(token: seq<byte>, opts: seq<CoapOption>): nat
    requires C.SortedFrom(0, opts)
  {
    4 + |token| + |C.EncodeOptions(0, opts)|
  }

  /** Msg::coap_size; a payload that will be added later costs one byte now. */
  method CoapSize(token: seq<byte>, opts: seq<CoapOption>, paylen: nat, emulpayload: bool) returns (size: nat)
    requires C.SortedFrom(0, opts)
    ensures size == HeadSize(token, opts) + (if paylen > 0 || emulpayload then 1 + paylen else 0)
  {
    size := C.CoapMsg.SizeOf(token, opts, []);
    if paylen > 0 || emulpayload {
      size := size + 1 + paylen;
    }
  }

  /** What is left for the payload of a message that has none yet. */
  function Avail(head: nat, maxpayload: nat): nat
  {
    if head + 1 <= maxpayload then maxpayload - (head + 1) else 0
  }

  /** Msg::avail_space */
  method AvailSpace(token: seq<byte>, opts: seq<CoapOption>, maxpayload: nat) returns (avail: nat)
    requires C.SortedFrom(0, opts)
    ensures avail == Avail(HeadSize(token, opts), maxpayload)
  {
    var size := CoapSize(token, opts, 0, true);
    avail := if size <= maxpayload then maxpayload - size else 0;
  }

  lemma {:induction false} FittedFits(rs: seq<Registered>, avail: nat, n: nat)
    requires n <= |rs| && |Joined(rs[..n])| <= avail
    ensures var m := Fitted(rs, avail, n);
            |Joined(rs[..m])| <= avail && (m < |rs| ==> !TextFits(rs[m], |Joined(rs[..m])|, avail))
    decreases |rs| - n
  {
    hide Joined, Text;
    if n < |rs| && TextFits(rs[n], |Joined(rs[..n])|, avail) {
      JoinedMore(rs, n);
      FittedFits(rs, avail, n + 1);
    }
  }

  /** A payload fits if and only if it is no longer than this space. */
  lemma SpaceIff(m: Message, payload: seq<byte>, maxpayload: nat)
    requires C.SortedFrom(0, m.options) && m.payload == [] && payload != []
    ensures |C.EncodeWire(m)| == HeadSize(m.token, m.options)
    ensures |C.EncodeWire(m.(payload := payload))| <= maxpayload
       <==> |payload| <= Avail(HeadSize(m.token, m.options), maxpayload)
  {
    hide C.EncodeOptions;
  }

  // ---------------------------------------------------------------- how many resources fit

  lemma TextBytes(r: Registered)
    requires r.name == "n" && r.title == "t" && r.rt == "r"
    ensures Text(r.(observable := false)) == "<n>;title=\"t\";rt=\"r\""
    ensures Text(r.(observable := true)) == "<n>;title=\"t\";rt=\"r\";obs"
  {
    assert AttributeText("title", "t") == ";title=\"t\"" && AttributeText("rt", "r") == ";rt=\"r\"";
  }

  lemma TextFitsIff(r: Registered, size: nat, avail: nat)
    ensures TextFits(r, size, avail) <==> size + (if size == 0 then 0 else 1) + |Text(r)| + 1 <= avail
  {
    assert |Text(r)| >= 3;
  }

  lemma {:induction false} JoinedGrows(rs: seq<Registered>, m: nat, n: nat)
    requires m <= n <= |rs|
    ensures |Joined(rs[..m])| <= |Joined(rs[..n])|
  {
    hide Joined, Text;
    if m < n {
      JoinedGrows(rs, m, n - 1);
      JoinedMore(rs, n - 1);
    }
  }

  /** The first m resources are in the payload if and only if their text and its final zero fit. */
  lemma {:induction false} FittedIff(rs: seq<Registered>, avail: nat, m: nat, n: nat)
    requires n < m <= |rs| && (n == 0 || |Joined(rs[..n])| + 1 <= avail)
    ensures m <= Fitted(rs, avail, n) <==> |Joined(rs[..m])| + 1 <= avail
    decreases |rs| - n
  {
    hide Joined, Text, TextFits;
    JoinedMore(rs, n);
    TextFitsIff(rs[n], |Joined(rs[..n])|, avail);
    JoinedGrows(rs, n + 1, m);
    if TextFits(rs[n], |Joined(rs[..n])|, avail) && n + 1 < m { FittedIff(rs, avail, m, n + 1); }
  }

  /** So the payload is the longest list of first resources that fits, and a comma if there are more
      and two characters are left. */
  lemma PayloadMeaning(rs: seq<Registered>, avail: nat, n: nat)
    requires n <= |rs| && (n == 0 || |Joined(rs[..n])| + 1 <= avail)
    requires n < |rs| ==> |Joined(rs[..n + 1])| + 1 > avail
    ensures Payload(rs, avail)
         == Joined(rs[..n]) + (if 0 < n < |rs| && |Joined(rs[..n])| + 2 < avail then "," else "")
  {
    hide Joined, Text;
    var f := Fitted(rs, avail, 0);
    if n > 0 {
      FittedIff(rs, avail, n, 0);
      JoinedMore(rs, n - 1);
    }
    if n < |rs| { FittedIff(rs, avail, n + 1, 0); }
    assert f == n;
  }

  /** The Assoc answer with its resource list as payload fits the network's frame, so that
      coap_encode accepts it, exactly if it would without the list. */
  lemma AnswerFits(rs: seq<Registered>, m: Message, payload: seq<byte>, maxpayload: nat)
    requires C.SortedFrom(0, m.options) && m.payload == []
    requires |payload| == |Payload(rs, Avail(HeadSize(m.token, m.options), maxpayload))|
    ensures |C.EncodeWire(m.(payload := payload))| <= maxpayload <==> |C.EncodeWire(m)| <= maxpayload
  {
    hide C.EncodeOptions;
    var avail := Avail(HeadSize(m.token, m.options), maxpayload);
    assert rs[..0] == [];
    assert |Joined(rs[..0])| == 0 by { NothingYet(rs); }
    FittedFits(rs, avail, 0);
  }

  // ---------------------------------------------------------------- what the parser recovers

  predicate Free(s: string, c: char) { forall i :: 0 <= i < |s| ==> s[i] != c }

  /** No character ends a name or a value before its end. */
  predicate Clean(r: Registered) { Free(r.name, '>') && Free(r.title, '"') && Free(r.rt, '"') }

  function Described(r: Registered, observable: bool): Resource
  {
    Resource(r.name, [Attribute("title", [r.title]), Attribute("rt", [r.rt])]
                     + (if observable then [Attribute("obs", [""])] else []))
  }

  /** All resources with their attributes, but for the mark of the last one if nothing follows it. */
  function Recovered(rs: seq<Registered>, last: bool): seq<Resource>
  {
    seq(|rs|, i requires 0 <= i < |rs| => Described(rs[i], rs[i].observable && (i < |rs| - 1 || last)))
  }

  lemma FeedOne(p: Parser, c: char)
    ensures Feed(p, [c]) == Next(p, c)
  {
    assert [c][1..] == "";
  }

  lemma {:induction false} FeedText(p: Parser, s: string, ending: char)
    requires (p.state.InResource? && ending == '>') || (p.state.Quoted? && ending == '"')
    requires Free(s, ending)
    ensures Feed(p, s) == p.(current := p.current + s)
    decreases |s|
  {
    if s == "" {
      assert p.current + s == p.current;
    } else {
      FeedText(Next(p, s[0]), s[1..], ending);
      assert p.current + s == p.current + [s[0]] + s[1..];
    }
  }

  lemma {:induction false} FeedName(p: Parser, s: string)
    requires p.state.AttrName? && Free(s, '=') && Free(s, ';') && Free(s, ',')
    ensures Feed(p, s) == p.(attrname := p.attrname + s)
    decreases |s|
  {
    if s == "" {
      assert p.attrname + s == p.attrname;
    } else {
      FeedName(Next(p, s[0]), s[1..]);
      assert p.attrname + s == p.attrname + [s[0]] + s[1..];
    }
  }

  /** ;name="value" */
  lemma FeedAttribute(p: Parser, name: string, value: string)
    requires p.state.EndRes? && name != "" && Free(name, '=') && Free(name, ';') && Free(name, ',') && Free(value, '"')
    ensures Feed(p, AttributeText(name, value)) == Parser(EndRes, value, name, AddToLast(p.rlist, name, value))
  {
    hide AddToLast, Feed;
    var p1 := p.(attrname := "", state := AttrName);
    var p2 := p1.(attrname := name);
    var p3 := p2.(state := Quoted, current := "");
    var p4 := p3.(current := value);
    FeedOne(p, ';');
    FeedName(p1, name);
    assert "" + name == name && "" + value == value;
    FeedOne(p2, '=');
    FeedOne(p2.(state := ValStart), '"');
    FeedText(p3, value, '"');
    FeedOne(p4, '"');
    FeedAppend(p, ";", name);
    FeedAppend(p, ";" + name, "=");
    FeedAppend(p, ";" + name + "=", "\"");
    assert ";" + name + "=" + "\"" == ";" + name + "=\"";
    FeedAppend(p, ";" + name + "=\"", value);
    FeedAppend(p, ";" + name + "=\"" + value, "\"");
  }

  lemma AddToNew(rlist: seq<Resource>, path: string, attributes: seq<Attribute>, name: string, value: string)
    requires forall i :: 0 <= i < |attributes| ==> attributes[i].name != name
    ensures AddToLast(rlist + [Resource(path, attributes)], name, value)
         == rlist + [Resource(path, attributes + [Attribute(name, [value])])]
  {
    AddValueAt(attributes, |attributes|, name, value);
  }

  lemma FeedHead(p: Parser, name: string)
    requires p.state.Start? && Free(name, '>')
    ensures Feed(p, "<" + name + ">") == Parser(EndRes, name, p.attrname, p.rlist + [Resource(name, [])])
  {
    hide Feed;
    var p1 := p.(current := "", state := InResource);
    FeedOne(p, '<');
    FeedText(p1, name, '>');
    assert "" + name == name;
    FeedOne(p1.(current := name), '>');
    FeedAppend(p, "<", name);
    FeedAppend(p, "<" + name, ">");
  }

  /** One resource: everything is recorded but the final mark, which waits for what follows. */
  lemma FeedResource(p: Parser, r: Registered)
    requires p.state.Start? && Clean(r)
    ensures var q := Feed(p, Text(r));
            && q.rlist == p.rlist + [Described(r, false)]
            && (if r.observable then q.state == AttrName && q.attrname == "obs" else q.state == EndRes)
  {
    hide Feed, AddToLast, AttributeText;
    var head, title, rt := "<" + r.name + ">", AttributeText("title", r.title), AttributeText("rt", r.rt);
    var p1 := Feed(p, head);
    FeedHead(p, r.name);
    FeedAttribute(p1, "title", r.title);
    AddToNew(p.rlist, r.name, [], "title", r.title);
    var p2 := Feed(p1, title);
    FeedAttribute(p2, "rt", r.rt);
    var one := [Attribute("title", [r.title])];
    AddToNew(p.rlist, r.name, one, "rt", r.rt);
    FeedAppend(p, head, title);
    FeedAppend(p, head + title, rt);
    var p3 := Feed(p2, rt);
    assert [] + one == one;
    assert one + [Attribute("rt", [r.rt])] == Described(r, false).attributes;
    if r.observable {
      FeedAppend(p, head + title + rt, ";obs");
      FeedMark(p3);
    } else {
      assert head + title + rt + "" == head + title + rt;
    }
  }

  lemma FeedMark(p: Parser)
    requires p.state.EndRes?
    ensures Feed(p, ";obs") == p.(state := AttrName, attrname := "obs")
  {
    hide Feed;
    assert ";" + "obs" == ";obs" && "" + "obs" == "obs";
    FeedAppend(p, ";", "obs");
    FeedOne(p, ';');
    FeedName(p.(state := AttrName, attrname := ""), "obs");
  }

  // ---------------------------------------------------------------- the whole list

  predicate AllClean(rs: seq<Registered>) { forall i :: 0 <= i < |rs| ==> Clean(rs[i]) }

  /** The parser after the texts of `rs`. */
  predicate After(p: Parser, rs: seq<Registered>)
  {
    if rs == [] then p.state == Start && p.rlist == []
    else
      && p.rlist == Recovered(rs, false)
      && (if rs[|rs| - 1].observable then p.state == AttrName && p.attrname == "obs" else p.state == EndRes)
  }

  lemma FeedComma(p: Parser, rs: seq<Registered>)
    requires rs != [] && After(p, rs)
    ensures Feed(p, ",").state == Start && Feed(p, ",").rlist == Recovered(rs, true)
  {
    FeedOne(p, ',');
    var n := |rs| - 1;
    var r := rs[n];
    var front := Recovered(rs, true)[..n];
    assert Recovered(rs, false) == front + [Described(r, false)];
    assert Recovered(rs, true) == front + [Described(r, r.observable)];
    if r.observable {
      AddToNew(front, r.name, Described(r, false).attributes, "obs", "");
      assert Described(r, false).attributes + [Attribute("obs", [""])] == Described(r, true).attributes;
    }
  }

  lemma RecoveredMore(rs: seq<Registered>)
    requires rs != []
    ensures Recovered(rs, false) == Recovered(rs[..|rs| - 1], true) + [Described(rs[|rs| - 1], false)]
  {
  }

  lemma {:induction false} FeedJoined(rs: seq<Registered>)
    requires AllClean(rs)
    ensures After(Feed(NEW_PARSER, Joined(rs)), rs)
  {
    if rs != [] {
      hide Feed, Text, Described, Recovered;
      var n := |rs| - 1;
      var front, r := rs[..n], rs[n];
      FeedJoined(front);
      BeforeNext(front);
      var q := Feed(NEW_PARSER, Joined(front) + Comma(n > 0));
      FeedAppend(NEW_PARSER, Joined(front) + Comma(n > 0), Text(r));
      FeedResource(q, r);
      RecoveredMore(rs);
    }
  }

  /** Where the next resource starts. */
  lemma BeforeNext(front: seq<Registered>)
    requires After(Feed(NEW_PARSER, Joined(front)), front)
    ensures var q := Feed(NEW_PARSER, Joined(front) + Comma(|front| > 0));
            q.state == Start && q.rlist == Recovered(front, true)
  {
    if front == [] {
      BeforeFirst(front);
    } else {
      hide Feed, Joined, Recovered, After;
      FeedAppend(NEW_PARSER, Joined(front), ",");
      FeedComma(Feed(NEW_PARSER, Joined(front)), front);
    }
  }

  lemma BeforeFirst(front: seq<Registered>)
    requires front == []
    ensures Feed(NEW_PARSER, Joined(front) + Comma(|front| > 0)) == NEW_PARSER && Recovered(front, true) == []
  {
    assert Joined(front) + Comma(|front| > 0) == "";
  }

  /** From the list the slave sends the master recovers exactly the resources that fitted, in
      order, with their attributes, whether or not a comma was left at the end; only the mark of an
      observable resource at the very end is not recorded. */
  lemma CleanListsAreRecovered(rs: seq<Registered>, avail: nat)
    requires AllClean(rs[..Fitted(rs, avail, 0)])
    ensures var n := Fitted(rs, avail, 0);
            Parse(Payload(rs, avail)) == (true, Recovered(rs[..n], Trailing(rs, avail, n)))
  {
    hide Feed, Described, CommaFits;
    var n := Fitted(rs, avail, 0);
    FeedJoined(rs[..n]);
    if Trailing(rs, avail, n) {
      BeforeNext(rs[..n]);
    } else {
      assert Payload(rs, avail) == Joined(rs[..n]);
      assert n == 0 ==> Recovered(rs[..n], false) == [];
    }
  }

  /** Nothing is missing if and only if the last resource that fitted has no mark or is followed by
      a comma. */
  lemma MarksAreRecoveredIff(rs: seq<Registered>, last: bool)
    ensures Recovered(rs, last) == Recovered(rs, true) <==> (last || rs == [] || !rs[|rs| - 1].observable)
  {
    var a, b := Recovered(rs, last), Recovered(rs, true);
    if !last && rs != [] && rs[|rs| - 1].observable {
      assert |a[|rs| - 1].attributes| == 2 && |b[|rs| - 1].attributes| == 3;
    } else {
      assert a == b;
    }
  }

  // ---------------------------------------------------------------- names and values that are not clean

  /** What has been recorded stays: paths, attribute names, and values in their places. */
  predicate Kept(a: Resource, b: Resource)
  {
    && a.path == b.path && |a.attributes| <= |b.attributes|
    && forall j :: 0 <= j < |a.attributes| ==>
         a.attributes[j].name == b.attributes[j].name && a.attributes[j].values <= b.attributes[j].values
  }

  predicate AllKept(a: seq<Resource>, b: seq<Resource>)
  {
    |a| <= |b| && forall i :: 0 <= i < |a| ==> Kept(a[i], b[i])
  }

  lemma {:induction false} AddValueKeeps(path: string, attributes: seq<Attribute>, name: string, value: string)
    ensures Kept(Resource(path, attributes), Resource(path, AddValue(attributes, name, value)))
  {
    if attributes != [] && attributes[0].name != name {
      var rest := AddValue(attributes[1..], name, value);
      AddValueKeeps(path, attributes[1..], name, value);
      assert Kept(Resource(path, attributes[1..]), Resource(path, rest));
      forall j | 0 <= j < |attributes|
        ensures attributes[j].name == AddValue(attributes, name, value)[j].name
             && attributes[j].values <= AddValue(attributes, name, value)[j].values
      {
        if j > 0 { assert attributes[j] == attributes[1..][j - 1]; }
      }
    }
  }

  lemma AddToLastKeeps(rlist: seq<Resource>, name: string, value: string)
    ensures AllKept(rlist, AddToLast(rlist, name, value))
  {
    if rlist != [] {
      var last := rlist[|rlist| - 1];
      AddValueKeeps(last.path, last.attributes, name, value);
    }
  }

  lemma NextKeeps(p: Parser, c: char)
    ensures AllKept(p.rlist, Next(p, c).rlist)
  {
    hide AddToLast;
    AddToLastKeeps(p.rlist, p.attrname, "");
    AddToLastKeeps(p.rlist, p.attrname, p.current);
  }

  lemma KeptAgain(a: seq<Resource>, b: seq<Resource>, c: seq<Resource>)
    requires AllKept(a, b) && AllKept(b, c)
    ensures AllKept(a, c)
  {
    forall i | 0 <= i < |a| ensures Kept(a[i], c[i]) {
      assert Kept(a[i], b[i]) && Kept(b[i], c[i]);
    }
  }

  lemma {:induction false} FeedKeeps(p: Parser, s: string)
    ensures AllKept(p.rlist, Feed(p, s).rlist)
    decreases |s|
  {
    if s != "" {
      NextKeeps(p, s[0]);
      FeedKeeps(Next(p, s[0]), s[1..]);
      KeptAgain(p.rlist, Next(p, s[0]).rlist, Feed(p, s).rlist);
    }
  }

  lemma FinishKeeps(p: Parser)
    ensures AllKept(p.rlist, Finish(p).1)
  {
    hide AddToLast;
    AddToLastKeeps(p.rlist, p.attrname, "");
    AddToLastKeeps(p.rlist, p.attrname, p.current);
  }

  lemma ParseKeeps(s: string, t: string)
    ensures AllKept(Feed(NEW_PARSER, s).rlist, Parse(s + t).1)
  {
    hide Feed, Finish, Kept;
    FeedAppend(NEW_PARSER, s, t);
    FeedKeeps(Feed(NEW_PARSER, s), t);
    FinishKeeps(Feed(NEW_PARSER, s + t));
    KeptAgain(Feed(NEW_PARSER, s).rlist, Feed(NEW_PARSER, s + t).rlist, Parse(s + t).1);
  }

  function Until(s: string, c: char): (k: nat)
    ensures k <= |s| && Free(s[..k], c) && (k < |s| ==> s[k] == c) && (k == |s| ==> Free(s, c))
  {
    if s == "" || s[0] == c then 0
    else
      var k := 1 + Until(s[1..], c);
      assert forall i :: 1 <= i < k ==> s[i] == s[1..][i - 1];
      k
  }

  lemma Cut(opening: string, s: string, k: nat, rest: string)
    requires k < |s|
    ensures opening + s[..k] + [s[k]] <= opening + s + rest
  {
    var a, b := opening + s[..k] + [s[k]], opening + s + rest;
    assert forall i :: 0 <= i < |a| ==> a[i] == b[i];
    assert a == b[..|a|];
  }

  lemma CutAttribute(name: string, value: string)
    requires Until(value, '"') < |value|
    ensures AttributeText(name, value[..Until(value, '"')]) <= AttributeText(name, value)
  {
    Cut(";" + name + "=\"", value, Until(value, '"'), "\"");
  }

  lemma CutName(name: string, rest: string)
    requires Until(name, '>') < |name|
    ensures "<" + name[..Until(name, '>')] + ">" <= "<" + name + (">" + rest)
  {
    Cut("<", name, Until(name, '>'), ">" + rest);
  }

  lemma PrefixIsCut(a: string, b: string, t: string, rest: string)
    requires b <= t
    ensures a + b <= a + t + rest
  {
    assert a + b == (a + t + rest)[..|a + b|];
  }

  lemma WrongPath(r: Registered, path: string, b: bool)
    requires path != r.name
    ensures !Kept(Resource(path, []), Described(r, b))
  {
  }

  lemma WrongTitle(r: Registered, value: string, b: bool)
    requires value != r.title
    ensures !Kept(Resource(r.name, [Attribute("title", [value])]), Described(r, b))
  {
    var one := Resource(r.name, [Attribute("title", [value])]);
    assert one.attributes[0].values[0] != Described(r, b).attributes[0].values[0];
  }

  lemma WrongRt(r: Registered, value: string, b: bool)
    requires value != r.rt
    ensures !Kept(Resource(r.name, [Attribute("title", [r.title]), Attribute("rt", [value])]), Described(r, b))
  {
    var two := Resource(r.name, [Attribute("title", [r.title]), Attribute("rt", [value])]);
    assert two.attributes[1].values[0] != Described(r, b).attributes[1].values[0];
  }

  /** `wrong` cannot become what the master should know of r. */
  predicate Spoilt(wrong: Resource, r: Registered)
  {
    !Kept(wrong, Described(r, true)) && !Kept(wrong, Described(r, false))
  }

  /** From a text that is not clean something is recorded that cannot become right any more. */
  lemma SpoiltText(p: Parser, r: Registered) returns (s: string, wrong: Resource)
    requires p.state.Start? && !Clean(r)
    ensures s <= Text(r) && Feed(p, s).rlist == p.rlist + [wrong] && Spoilt(wrong, r)
  {
    hide Feed, AddToLast, AttributeText, Kept;
    var head, title, rt := "<" + r.name + ">", AttributeText("title", r.title), AttributeText("rt", r.rt);
    var mark := if r.observable then ";obs" else "";
    var k := Until(r.name, '>');
    if k < |r.name| {
      s := "<" + r.name[..k] + ">";
      wrong := Resource(r.name[..k], []);
      CutName(r.name, title + rt + mark);
      assert "<" + r.name + (">" + (title + rt + mark)) == Text(r);
      FeedHead(p, r.name[..k]);
      WrongPath(r, r.name[..k], true);
      WrongPath(r, r.name[..k], false);
    } else if Until(r.title, '"') < |r.title| {
      s, wrong := SpoiltTitle(p, r);
    } else {
      s, wrong := SpoiltRt(p, r);
    }
  }

  lemma SpoiltTitle(p: Parser, r: Registered) returns (s: string, wrong: Resource)
    requires p.state.Start? && Free(r.name, '>') && Until(r.title, '"') < |r.title|
    ensures s <= Text(r) && Feed(p, s).rlist == p.rlist + [wrong] && Spoilt(wrong, r)
  {
    hide Feed, AddToLast, AttributeText, Kept;
    var head, rt := "<" + r.name + ">", AttributeText("rt", r.rt);
    var mark := if r.observable then ";obs" else "";
    var a := r.title[..Until(r.title, '"')];
    s := head + AttributeText("title", a);
    wrong := Resource(r.name, [Attribute("title", [a])]);
    CutAttribute("title", r.title);
    PrefixIsCut(head, AttributeText("title", a), AttributeText("title", r.title), rt + mark);
    assert head + AttributeText("title", r.title) + (rt + mark) == Text(r);
    FeedHead(p, r.name);
    FeedAttribute(Feed(p, head), "title", a);
    AddToNew(p.rlist, r.name, [], "title", a);
    FeedAppend(p, head, AttributeText("title", a));
    var none: seq<Attribute> := [];
    assert none + [Attribute("title", [a])] == [Attribute("title", [a])];
    WrongTitle(r, a, true);
    WrongTitle(r, a, false);
  }

  lemma SpoiltRt(p: Parser, r: Registered) returns (s: string, wrong: Resource)
    requires p.state.Start? && Free(r.name, '>') && Free(r.title, '"') && Until(r.rt, '"') < |r.rt|
    ensures s <= Text(r) && Feed(p, s).rlist == p.rlist + [wrong] && Spoilt(wrong, r)
  {
    hide Feed, AddToLast, AttributeText, Kept;
    var head, title := "<" + r.name + ">", AttributeText("title", r.title);
    var a := r.rt[..Until(r.rt, '"')];
    var mark := if r.observable then ";obs" else "";
    s := head + title + AttributeText("rt", a);
    wrong := Resource(r.name, [Attribute("title", [r.title]), Attribute("rt", [a])]);
    CutAttribute("rt", r.rt);
    PrefixIsCut(head + title, AttributeText("rt", a), AttributeText("rt", r.rt), mark);
    FeedHead(p, r.name);
    var p1 := Feed(p, head);
    FeedAttribute(p1, "title", r.title);
    AddToNew(p.rlist, r.name, [], "title", r.title);
    var p2 := Feed(p1, title);
    FeedAttribute(p2, "rt", a);
    var one := [Attribute("title", [r.title])];
    AddToNew(p.rlist, r.name, one, "rt", a);
    FeedAppend(p, head, title);
    FeedAppend(p, head + title, AttributeText("rt", a));
    assert [] + one == one && one + [Attribute("rt", [a])] == wrong.attributes;
    WrongRt(r, a, true);
    WrongRt(r, a, false);
  }

  lemma {:induction false} JoinedPrefix(rs: seq<Registered>, i: nat)
    requires i < |rs|
    ensures Joined(rs[..i]) + Comma(i > 0) + Text(rs[i]) <= Joined(rs)
    decreases |rs|
  {
    hide Text, Comma;
    var n := |rs| - 1;
    if i < n {
      JoinedPrefix(rs[..n], i);
      assert rs[..n][..i] == rs[..i];
    }
  }

  /** Exactly the lists whose fitted resources are all clean are recovered. */
  lemma RecoveredIffClean(rs: seq<Registered>, avail: nat)
    ensures var n := Fitted(rs, avail, 0);
            Parse(Payload(rs, avail)) == (true, Recovered(rs[..n], Trailing(rs, avail, n))) <==> AllClean(rs[..n])
  {
    var n := Fitted(rs, avail, 0);
    if AllClean(rs[..n]) {
      CleanListsAreRecovered(rs, avail);
    } else {
      var i := FirstSpoilt(rs[..n]);
      Spoils(rs[..n], i, Comma(Trailing(rs, avail, n)));
    }
  }

  /** The master recovers all resources that fitted, with all their attributes, exactly if they
      are clean and the last of them has no mark or a comma was left behind it. */
  lemma EverythingRecoveredIff(rs: seq<Registered>, avail: nat)
    ensures var n := Fitted(rs, avail, 0);
            (Parse(Payload(rs, avail)) == (true, Recovered(rs[..n], true)) <==>
               AllClean(rs[..n]) && (Trailing(rs, avail, n) || n == 0 || !rs[n - 1].observable))
  {
    var n := Fitted(rs, avail, 0);
    hide AllClean, Parse, Recovered;
    MarksAreRecoveredIff(rs[..n], Trailing(rs, avail, n));
    if AllClean(rs[..n]) {
      CleanListsAreRecovered(rs, avail);
    } else {
      var i := FirstSpoilt(rs[..n]);
      Spoils(rs[..n], i, Comma(Trailing(rs, avail, n)));
    }
  }

  const LIGHT := Registered("light", "Light", "switch", true)

  /** One observable resource that fits: the master does not learn that it can be observed. */
  lemma LastMarkIsLost(avail: nat)
    requires avail >= |Text(LIGHT)| + 1
    ensures Fitted([LIGHT], avail, 0) == 1 && AllClean([LIGHT])
    ensures Parse(Payload([LIGHT], avail)) == (true, [Described(LIGHT, false)])
    ensures Described(LIGHT, true).attributes == Described(LIGHT, false).attributes + [Attribute("obs", [""])]
  {
    var rs := [LIGHT];
    assert rs[..0] == [] && rs[..1] == rs;
    assert Fitted(rs, avail, 1) == 1;
    assert AllClean(rs[..0]);
    CleanListsAreRecovered(rs, avail);
    assert !Trailing(rs, avail, 1);
    assert Recovered(rs, false) == [Described(LIGHT, false)];
  }

  lemma {:induction false} FirstSpoilt(rs: seq<Registered>) returns (i: nat)
    requires !AllClean(rs)
    ensures i < |rs| && !Clean(rs[i]) && AllClean(rs[..i])
  {
    if AllClean(rs[..|rs| - 1]) {
      i := |rs| - 1;
    } else {
      i := FirstSpoilt(rs[..|rs| - 1]);
      assert rs[..|rs| - 1][..i] == rs[..i];
    }
  }

  lemma Spoils(rs: seq<Registered>, i: nat, tail: string)
    requires i < |rs| && !Clean(rs[i]) && AllClean(rs[..i])
    ensures forall last :: Parse(Joined(rs) + tail).1 != Recovered(rs, last)
  {
    hide Feed, Text, Described, Finish, Kept;
    var front := rs[..i];
    FeedJoined(front);
    BeforeNext(front);
    var before := Joined(front) + Comma(i > 0);
    var q := Feed(NEW_PARSER, before);
    var s, wrong := SpoiltText(q, rs[i]);
    FeedAppend(NEW_PARSER, before, s);
    JoinedPrefix(rs, i);
    var all := Joined(rs) + tail;
    PrefixOf(before, s, Text(rs[i]), Joined(rs), tail);
    ParseKeeps(before + s, all[|before + s|..]);
    assert all == before + s + all[|before + s|..];
    assert |q.rlist| == i && Feed(q, s).rlist[i] == wrong;
    var final := Parse(all).1;
    assert Kept(wrong, final[i]);
    assert final[i] != Described(rs[i], true) && final[i] != Described(rs[i], false);
    forall last ensures final != Recovered(rs, last) {
      RecoveredAt(rs, last, i);
    }
  }

  lemma RecoveredAt(rs: seq<Registered>, last: bool, i: nat)
    requires i < |rs|
    ensures Recovered(rs, last)[i] == Described(rs[i], true) || Recovered(rs, last)[i] == Described(rs[i], false)
  {
  }

  lemma PrefixOf(before: string, s: string, text: string, joined: string, tail: string)
    requires s <= text && before + text <= joined
    ensures before + s <= joined + tail
  {
    var n := |before + s|;
    assert (joined + tail)[..n] == joined[..|before + text|][..n] == (before + text)[..n] == before + s;
  }
}

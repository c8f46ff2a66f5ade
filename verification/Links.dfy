/**
 * Doubly-linked lists in memory. A pointer is an address; each link field is a map from
 * addresses to addresses, so that the lists of one structure can share their elements.
 */
module Links {

  type Ptr = nat

  const NULL: Ptr := 0

  datatype Links = Links(nexts: map<Ptr, Ptr>, prevs: map<Ptr, Ptr>) {

    function Next(e: Ptr): Ptr { if e in nexts then nexts[e] else NULL }

    function Prev(e: Ptr): Ptr { if e in prevs then prevs[e] else NULL }

    function SetNext(e: Ptr, x: Ptr): Links { Links(nexts[e := x], prevs) }

    function SetPrev(e: Ptr, x: Ptr): Links { Links(nexts, prevs[e := x]) }
  }

  predicate Distinct(s: seq<Ptr>)
  {
    forall i, j :: 0 <= i < j < |s| ==> s[i] != s[j]
  }

  function After(s: seq<Ptr>, i: nat): Ptr
    requires i < |s|
  {
    if i + 1 == |s| then NULL else s[i + 1]
  }

  function Before(s: seq<Ptr>, i: nat): Ptr
    requires i < |s|
  {
    if i == 0 then NULL else s[i - 1]
  }

  /** The elements of `s`, linked in this order in both directions. */
  predicate Linked(s: seq<Ptr>, l: Links)
  {
    && (forall i :: 0 <= i < |s| ==> s[i] != NULL)
    && Distinct(s)
    && (forall i {:trigger l.Next(s[i])} :: 0 <= i < |s| ==> l.Next(s[i]) == After(s, i))
    && (forall i {:trigger l.Prev(s[i])} :: 0 <= i < |s| ==> l.Prev(s[i]) == Before(s, i))
  }

  lemma LinkedAt(s: seq<Ptr>, l: Links, i: nat)
    requires Linked(s, l) && i < |s|
    ensures s[i] != NULL && l.Next(s[i]) == After(s, i) && l.Prev(s[i]) == Before(s, i)
    ensures forall j :: 0 <= j < |s| && j != i ==> s[j] != s[i]
  {
  }

  function First(s: seq<Ptr>): Ptr
  {
    if s == [] then NULL else s[0]
  }

  function Last(s: seq<Ptr>): Ptr
  {
    if s == [] then NULL else s[|s| - 1]
  }

  lemma LinkedElsewhere(s: seq<Ptr>, l: Links, m: Links)
    requires Linked(s, l)
    requires forall i :: 0 <= i < |s| ==> m.Next(s[i]) == l.Next(s[i]) && m.Prev(s[i]) == l.Prev(s[i])
    ensures Linked(s, m)
  {
  }

  // ---------------------------------------------------------------- insertion at either end

  function LinkFront(l: Links, e: Ptr, hd: Ptr): Links
  {
    var m := l.SetNext(e, hd).SetPrev(e, NULL);
    if hd != NULL then m.SetPrev(hd, e) else m
  }

  lemma LinkFrontEffect(l: Links, e: Ptr, hd: Ptr, y: Ptr)
    ensures LinkFront(l, e, hd).Next(y) == if y == e then hd else l.Next(y)
    ensures LinkFront(l, e, hd).Prev(y) == if hd != NULL && y == hd then e else if y == e then NULL else l.Prev(y)
  {
  }

  lemma LinkFrontLinks(s: seq<Ptr>, l: Links, e: Ptr)
    requires Linked(s, l) && e != NULL && forall i :: 0 <= i < |s| ==> s[i] != e
    ensures Linked([e] + s, LinkFront(l, e, First(s)))
  {
    var m, t := LinkFront(l, e, First(s)), [e] + s;
    assert Distinct(t) by { assert forall i :: 1 <= i < |t| ==> t[i] == s[i - 1]; }
    forall i | 0 <= i < |t| ensures t[i] != NULL && m.Next(t[i]) == After(t, i) && m.Prev(t[i]) == Before(t, i) {
      LinkFrontEffect(l, e, First(s), t[i]);
      if i > 0 {
        LinkedAt(s, l, i - 1);
        LinkedAt(s, l, 0);
      }
    }
  }

  function LinkBack(l: Links, e: Ptr, tail: Ptr): Links
  {
    l.SetNext(e, NULL).SetNext(tail, e).SetPrev(e, tail)
  }

  lemma LinkBackEffect(l: Links, e: Ptr, tail: Ptr, y: Ptr)
    ensures LinkBack(l, e, tail).Next(y) == if y == tail then e else if y == e then NULL else l.Next(y)
    ensures LinkBack(l, e, tail).Prev(y) == if y == e then tail else l.Prev(y)
  {
  }

  lemma LinkBackAt(s: seq<Ptr>, l: Links, e: Ptr, i: nat)
    requires Linked(s, l) && s != [] && e != NULL && (forall i :: 0 <= i < |s| ==> s[i] != e) && i <= |s|
    ensures var m, t := LinkBack(l, e, Last(s)), s + [e];
            t[i] != NULL && m.Next(t[i]) == After(t, i) && m.Prev(t[i]) == Before(t, i)
  {
    var t := s + [e];
    LinkBackEffect(l, e, Last(s), t[i]);
    LinkedAt(s, l, |s| - 1);
    if i < |s| {
      LinkedAt(s, l, i);
      assert t[i] == s[i];
    }
  }

  lemma LinkBackLinks(s: seq<Ptr>, l: Links, e: Ptr)
    requires Linked(s, l) && s != [] && e != NULL && forall i :: 0 <= i < |s| ==> s[i] != e
    ensures Linked(s + [e], LinkBack(l, e, Last(s)))
  {
    var m, t := LinkBack(l, e, Last(s)), s + [e];
    assert Distinct(t) by { assert forall i :: 0 <= i < |s| ==> t[i] == s[i]; }
    forall i | 0 <= i < |t| ensures t[i] != NULL && m.Next(t[i]) == After(t, i) && m.Prev(t[i]) == Before(t, i) {
      LinkBackAt(s, l, e, i);
    }
  }

  // ---------------------------------------------------------------- removal

  function Without(s: seq<Ptr>, k: nat): seq<Ptr>
    requires k < |s|
  {
    s[..k] + s[k + 1..]
  }

  /** The neighbours of `e` are linked to each other; the links of `e` stay as they are. */
  function Unlink(l: Links, e: Ptr): Links
  {
    var m := if l.Prev(e) != NULL then l.SetNext(l.Prev(e), l.Next(e)) else l;
    if l.Next(e) != NULL then m.SetPrev(l.Next(e), l.Prev(e)) else m
  }

  lemma UnlinkLinks(s: seq<Ptr>, l: Links, k: nat)
    requires Linked(s, l) && k < |s|
    ensures Linked(Without(s, k), Unlink(l, s[k]))
  {
    var m, t := Unlink(l, s[k]), Without(s, k);
    assert Distinct(t) by { WithoutMembers(s, k); }
    forall i | 0 <= i < |t| ensures t[i] != NULL && m.Next(t[i]) == After(t, i) && m.Prev(t[i]) == Before(t, i) {
      UnlinkAt(s, l, k, i);
    }
  }

  lemma UnlinkEffect(l: Links, e: Ptr, y: Ptr)
    ensures Unlink(l, e).Next(y) == if l.Prev(e) != NULL && y == l.Prev(e) then l.Next(e) else l.Next(y)
    ensures Unlink(l, e).Prev(y) == if l.Next(e) != NULL && y == l.Next(e) then l.Prev(e) else l.Prev(y)
  {
  }

  lemma WithoutAt(s: seq<Ptr>, k: nat, i: nat)
    requires k < |s| && i < |s| - 1
    ensures var t, j := Without(s, k), if i < k then i else i + 1;
            && |t| == |s| - 1 && t[i] == s[j]
            && After(t, i) == (if i + 1 == k then After(s, k) else After(s, j))
            && Before(t, i) == (if i == k then Before(s, k) else Before(s, j))
  {
  }

  lemma UnlinkAt(s: seq<Ptr>, l: Links, k: nat, i: nat)
    requires Linked(s, l) && k < |s| && i < |s| - 1
    ensures |Without(s, k)| == |s| - 1
    ensures var m, t := Unlink(l, s[k]), Without(s, k);
            t[i] != NULL && m.Next(t[i]) == After(t, i) && m.Prev(t[i]) == Before(t, i)
  {
    hide Without, Unlink;
    var j := if i < k then i else i + 1;
    WithoutAt(s, k, i);
    UnlinkEffect(l, s[k], s[j]);
    LinkedAt(s, l, k);
    LinkedAt(s, l, j);
    if k > 0 { LinkedAt(s, l, k - 1); }
    if k + 1 < |s| { LinkedAt(s, l, k + 1); }
  }

  lemma UnlinkElsewhere(s: seq<Ptr>, l: Links, k: nat, t: seq<Ptr>)
    requires Linked(s, l) && k < |s| && Linked(t, l)
    requires forall i, j :: 0 <= i < |s| && 0 <= j < |t| ==> s[i] != t[j]
    ensures Linked(t, Unlink(l, s[k]))
  {
    LinkedAt(s, l, k);
    forall i | 0 <= i < |t|
      ensures Unlink(l, s[k]).Next(t[i]) == l.Next(t[i]) && Unlink(l, s[k]).Prev(t[i]) == l.Prev(t[i])
    {
      UnlinkEffect(l, s[k], t[i]);
    }
    LinkedElsewhere(t, l, Unlink(l, s[k]));
  }

  lemma WithoutMembers(s: seq<Ptr>, k: nat)
    requires k < |s|
    ensures multiset(Without(s, k)) == multiset(s) - multiset{s[k]}
    ensures Distinct(s) ==> s[k] !in Without(s, k) && Distinct(Without(s, k))
    ensures forall x :: x in Without(s, k) ==> x in s
    ensures forall x :: x in s && x != s[k] ==> x in Without(s, k)
  {
    assert s == s[..k] + [s[k]] + s[k + 1..];
    if Distinct(s) { WithoutDistinct(s, k); }
    WithoutOthers(s, k);
    hide Distinct;
  }

  lemma WithoutDistinct(s: seq<Ptr>, k: nat)
    requires k < |s| && Distinct(s)
    ensures s[k] !in Without(s, k) && Distinct(Without(s, k))
  {
    var t := Without(s, k);
    assert forall i :: 0 <= i < |t| ==> t[i] == s[if i < k then i else i + 1];
  }

  lemma WithoutOthers(s: seq<Ptr>, k: nat)
    requires k < |s|
    ensures forall x :: x in Without(s, k) ==> x in s
    ensures forall x :: x in s && x != s[k] ==> x in Without(s, k)
  {
    var t := Without(s, k);
    assert forall i :: 0 <= i < |t| ==> t[i] == s[if i < k then i else i + 1];
    forall x | x in s && x != s[k] ensures x in t {
      var i :| 0 <= i < |s| && s[i] == x;
      assert x == t[if i < k then i else i - 1];
    }
  }

  /** First and last element of what is left, as the links tell them. */
  lemma EndsWithout(s: seq<Ptr>, l: Links, k: nat)
    requires Linked(s, l) && k < |s|
    ensures First(Without(s, k)) == if l.Prev(s[k]) == NULL then l.Next(s[k]) else First(s)
    ensures Last(Without(s, k)) == if s[k] == Last(s) then l.Prev(s[k]) else Last(s)
    ensures Without(s, k) == [] <==> l.Prev(s[k]) == NULL && l.Next(s[k]) == NULL
  {
    LinkedAt(s, l, k);
    if k > 0 { LinkedAt(s, l, k - 1); }
    if k + 1 < |s| { LinkedAt(s, l, k + 1); }
    hide Linked, Distinct;
  }

  lemma DistinctMultiset(s: seq<Ptr>, t: seq<Ptr>)
    requires Distinct(s) && multiset(s) == multiset(t)
    ensures Distinct(t) && |s| == |t| && forall x :: x in s <==> x in t
  {
    assert |multiset(s)| == |s| && |multiset(t)| == |t|;
    DistinctCounts(s);
    CountsDistinct(t);
    assert forall x :: x in s <==> x in multiset(s);
    assert forall x :: x in t <==> x in multiset(t);
  }

  lemma {:induction false} CountsDistinct(t: seq<Ptr>)
    requires forall x :: multiset(t)[x] <= 1
    ensures Distinct(t)
  {
    if t != [] {
      assert t == [t[0]] + t[1..];
      var rest := multiset(t[1..]);
      assert multiset(t) == multiset{t[0]} + rest;
      forall x ensures rest[x] <= 1 {
        assert multiset(t)[x] <= 1;
      }
      CountsDistinct(t[1..]);
      assert multiset(t)[t[0]] == 1 + rest[t[0]];
      assert t[0] !in t[1..];
    }
  }

  lemma {:induction false} DistinctCounts(s: seq<Ptr>)
    requires Distinct(s)
    ensures forall x :: multiset(s)[x] <= 1
  {
    if s != [] {
      DistinctCounts(s[1..]);
      assert s == [s[0]] + s[1..];
    }
  }
}

/**
 * The bottom-up merge sort of linked lists, in the form of HASH_SRT and DL_SORT
 * (arduino/libraries/Dtls-s/uthash.h, arduino/libraries/Dtls-s/utlist.h).
 */
module ListSort {
  import opened Links

  type Compare = (Ptr, Ptr) -> int

  // ---------------------------------------------------------------- the algorithm on sequences

  /** The first run wins ties. */
  function Merge(p: seq<Ptr>, q: seq<Ptr>, cmp: Compare): seq<Ptr>
    decreases |p| + |q|
  {
    if p == [] then q
    else if q == [] then p
    else if cmp(p[0], q[0]) <= 0 then [p[0]] + Merge(p[1..], q, cmp)
    else [q[0]] + Merge(p, q[1..], cmp)
  }

  function Min(a: nat, b: nat): nat { if a < b then a else b }

  function Run(s: seq<Ptr>, k: nat): seq<Ptr> { s[..Min(k, |s|)] }

  function Rest(s: seq<Ptr>, k: nat): seq<Ptr> { s[Min(k, |s|)..] }

  lemma RunThenRest(s: seq<Ptr>, k: nat)
    ensures s == Run(s, k) + Rest(s, k) && |s| == |Run(s, k)| + |Rest(s, k)|
    ensures |Run(s, k)| <= k && (Rest(s, k) != [] ==> |Run(s, k)| == k)
    ensures k > 0 && s != [] ==> |Rest(s, k)| < |s|
  {
  }

  /** One pass: merge neighbouring runs of length k. */
  function Pass(s: seq<Ptr>, k: nat, cmp: Compare): seq<Ptr>
    requires k > 0
    decreases |s|
  {
    if s == [] then []
    else Merge(Run(s, k), Run(Rest(s, k), k), cmp) + Pass(Rest(Rest(s, k), k), k, cmp)
  }

  function Passes(s: seq<Ptr>, k: nat, cmp: Compare): seq<Ptr>
    requires k > 0
    decreases |s| - k
  {
    if |s| <= 2 * k then Pass(s, k, cmp)
    else
      PassLength(s, k, cmp);
      Passes(Pass(s, k, cmp), 2 * k, cmp)
  }

  lemma FirstAndRest(s: seq<Ptr>)
    requires s != []
    ensures multiset(s) == multiset{s[0]} + multiset(s[1..])
  {
    assert s == [s[0]] + s[1..];
  }

  lemma {:induction false} MergePermutes(p: seq<Ptr>, q: seq<Ptr>, cmp: Compare)
    ensures multiset(Merge(p, q, cmp)) == multiset(p) + multiset(q)
    ensures |Merge(p, q, cmp)| == |p| + |q|
    decreases |p| + |q|
  {
    if p != [] && q != [] {
      if cmp(p[0], q[0]) <= 0 {
        MergePermutes(p[1..], q, cmp);
        FirstAndRest(p);
      } else {
        MergePermutes(p, q[1..], cmp);
        FirstAndRest(q);
      }
    }
  }

  lemma {:induction false} PassLength(s: seq<Ptr>, k: nat, cmp: Compare)
    requires k > 0
    ensures |Pass(s, k, cmp)| == |s| && multiset(Pass(s, k, cmp)) == multiset(s)
    decreases |s|
  {
    if s != [] {
      var p, q, t := Run(s, k), Run(Rest(s, k), k), Rest(Rest(s, k), k);
      hide Run, Rest;
      RunThenRest(s, k);
      RunThenRest(Rest(s, k), k);
      MergePermutes(p, q, cmp);
      PassLength(t, k, cmp);
    }
  }

  lemma {:induction false} PassesPermute(s: seq<Ptr>, k: nat, cmp: Compare)
    requires k > 0
    ensures multiset(Passes(s, k, cmp)) == multiset(s)
    decreases |s| - k
  {
    PassLength(s, k, cmp);
    if |s| > 2 * k { PassesPermute(Pass(s, k, cmp), 2 * k, cmp); }
  }

  // ---------------------------------------------------------------- correctness

  ghost predicate TotalPreorder(cmp: Compare)
  {
    && (forall a, b :: cmp(a, b) <= 0 || cmp(b, a) <= 0)
    && (forall a, b, c :: cmp(a, b) <= 0 && cmp(b, c) <= 0 ==> cmp(a, c) <= 0)
  }

  /** Comparing numbers that the elements have is such an order: elements with the same number are
      equivalent, and a list is sorted if and only if the numbers do not go down. */
  lemma ByNumber(cmp: Compare, f: Ptr -> int, s: seq<Ptr>)
    requires forall a, b :: cmp(a, b) == f(a) - f(b)
    ensures TotalPreorder(cmp)
    ensures forall a, b :: Equivalent(a, b, cmp) <==> f(a) == f(b)
    ensures SortedBy(s, cmp) <==> forall i, j :: 0 <= i < j < |s| ==> f(s[i]) <= f(s[j])
  {
    assert forall a, b :: cmp(a, b) <= 0 <==> f(a) <= f(b);
  }

  predicate SortedBy(s: seq<Ptr>, cmp: Compare)
  {
    forall i, j :: 0 <= i < j < |s| ==> cmp(s[i], s[j]) <= 0
  }

  predicate Equivalent(a: Ptr, b: Ptr, cmp: Compare)
  {
    cmp(a, b) <= 0 && cmp(b, a) <= 0
  }

  /** The elements equivalent to x, in order. */
  function Class(x: Ptr, s: seq<Ptr>, cmp: Compare): seq<Ptr>
  {
    if s == [] then []
    else if Equivalent(x, s[0], cmp) then [s[0]] + Class(x, s[1..], cmp)
    else Class(x, s[1..], cmp)
  }

  lemma {:induction false} ClassAppend(x: Ptr, s: seq<Ptr>, t: seq<Ptr>, cmp: Compare)
    ensures Class(x, s + t, cmp) == Class(x, s, cmp) + Class(x, t, cmp)
  {
    if s == [] {
      assert s + t == t;
    } else {
      assert (s + t)[1..] == s[1..] + t;
      ClassAppend(x, s[1..], t, cmp);
    }
  }

  lemma {:induction false} ClassAbsent(x: Ptr, s: seq<Ptr>, cmp: Compare)
    requires forall i :: 0 <= i < |s| ==> !Equivalent(x, s[i], cmp)
    ensures Class(x, s, cmp) == []
  {
    if s != [] { ClassAbsent(x, s[1..], cmp); }
  }

  predicate Below(e: Ptr, s: seq<Ptr>, cmp: Compare)
  {
    forall i :: 0 <= i < |s| ==> cmp(e, s[i]) <= 0
  }

  lemma {:induction false} MergeBelow(e: Ptr, p: seq<Ptr>, q: seq<Ptr>, cmp: Compare)
    requires Below(e, p, cmp) && Below(e, q, cmp)
    ensures Below(e, Merge(p, q, cmp), cmp)
    decreases |p| + |q|
  {
    if p != [] && q != [] {
      if cmp(p[0], q[0]) <= 0 { MergeBelow(e, p[1..], q, cmp); } else { MergeBelow(e, p, q[1..], cmp); }
    }
  }

  lemma SortedCons(e: Ptr, s: seq<Ptr>, cmp: Compare)
    requires SortedBy(s, cmp) && Below(e, s, cmp)
    ensures SortedBy([e] + s, cmp)
  {
    var t := [e] + s;
    assert forall i :: 1 <= i < |t| ==> t[i] == s[i - 1];
  }

  lemma BelowSorted(e: Ptr, s: seq<Ptr>, cmp: Compare)
    requires TotalPreorder(cmp) && SortedBy(s, cmp) && (s != [] ==> cmp(e, s[0]) <= 0)
    ensures Below(e, s, cmp)
  {
    forall i | 0 <= i < |s| ensures cmp(e, s[i]) <= 0 {
      if i > 0 { assert cmp(s[0], s[i]) <= 0; }
    }
  }

  lemma {:induction false} MergeSorted(p: seq<Ptr>, q: seq<Ptr>, cmp: Compare)
    requires TotalPreorder(cmp) && SortedBy(p, cmp) && SortedBy(q, cmp)
    ensures SortedBy(Merge(p, q, cmp), cmp)
    decreases |p| + |q|
  {
    if p != [] && q != [] {
      var first := cmp(p[0], q[0]) <= 0;
      var p', q' := if first then p[1..] else p, if first then q else q[1..];
      var e := if first then p[0] else q[0];
      MergeSorted(p', q', cmp);
      assert cmp(q[0], p[0]) <= 0 || first;
      BelowSorted(e, p', cmp);
      BelowSorted(e, q', cmp);
      MergeBelow(e, p', q', cmp);
      SortedCons(e, Merge(p', q', cmp), cmp);
    }
  }

  /** Stability of one merge: equivalent elements keep their order, those of p come first. */
  lemma {:induction false} MergeStable(x: Ptr, p: seq<Ptr>, q: seq<Ptr>, cmp: Compare)
    requires TotalPreorder(cmp) && SortedBy(p, cmp)
    ensures Class(x, Merge(p, q, cmp), cmp) == Class(x, p, cmp) + Class(x, q, cmp)
    decreases |p| + |q|
  {
    if p != [] && q != [] {
      if cmp(p[0], q[0]) <= 0 {
        MergeStable(x, p[1..], q, cmp);
      } else {
        MergeStable(x, p, q[1..], cmp);
        if Equivalent(x, q[0], cmp) {
          forall i | 0 <= i < |p| ensures !Equivalent(x, p[i], cmp) {
            if i > 0 { assert cmp(p[0], p[i]) <= 0; }
          }
          ClassAbsent(x, p, cmp);
        }
      }
    }
  }

  predicate RunsSorted(s: seq<Ptr>, k: nat, cmp: Compare)
    requires k > 0
    decreases |s|
  {
    s == [] || (SortedBy(Run(s, k), cmp) && RunsSorted(Rest(s, k), k, cmp))
  }

  lemma {:induction false} SingletonRuns(s: seq<Ptr>, cmp: Compare)
    ensures RunsSorted(s, 1, cmp)
    decreases |s|
  {
    if s != [] { SingletonRuns(Rest(s, 1), cmp); }
  }

  lemma {:induction false} PassSorts(s: seq<Ptr>, k: nat, cmp: Compare)
    requires k > 0 && TotalPreorder(cmp) && RunsSorted(s, k, cmp)
    ensures RunsSorted(Pass(s, k, cmp), 2 * k, cmp)
    decreases |s|
  {
    if s != [] {
      var p, q, t := Run(s, k), Run(Rest(s, k), k), Rest(Rest(s, k), k);
      NextRuns(s, k, cmp);
      MergeSorted(p, q, cmp);
      MergePermutes(p, q, cmp);
      PassSorts(t, k, cmp);
      PassLength(t, k, cmp);
      RunsCons(Merge(p, q, cmp), Pass(t, k, cmp), 2 * k, cmp);
    }
  }

  lemma NextRuns(s: seq<Ptr>, k: nat, cmp: Compare)
    requires k > 0 && s != [] && RunsSorted(s, k, cmp)
    ensures var p, q, t := Run(s, k), Run(Rest(s, k), k), Rest(Rest(s, k), k);
            && SortedBy(p, cmp) && SortedBy(q, cmp) && RunsSorted(t, k, cmp)
            && |t| < |s| && |p| + |q| <= 2 * k && (t != [] ==> |p| + |q| == 2 * k)
  {
    RunThenRest(s, k);
    RunThenRest(Rest(s, k), k);
  }

  lemma RunsCons(m: seq<Ptr>, u: seq<Ptr>, k: nat, cmp: Compare)
    requires k > 0 && SortedBy(m, cmp) && RunsSorted(u, k, cmp) && |m| <= k && (u != [] ==> |m| == k)
    ensures RunsSorted(m + u, k, cmp)
  {
    if m + u != [] {
      assert Run(m + u, k) == m && Rest(m + u, k) == u;
    }
  }

  lemma {:induction false} PassStable(x: Ptr, s: seq<Ptr>, k: nat, cmp: Compare)
    requires k > 0 && TotalPreorder(cmp) && RunsSorted(s, k, cmp)
    ensures Class(x, Pass(s, k, cmp), cmp) == Class(x, s, cmp)
    decreases |s|
  {
    if s != [] {
      var r := Rest(s, k);
      var p, q, t := Run(s, k), Run(r, k), Rest(r, k);
      NextRuns(s, k, cmp);
      PassStable(x, t, k, cmp);
      MergeStable(x, p, q, cmp);
      ClassAppend(x, Merge(p, q, cmp), Pass(t, k, cmp), cmp);
      RunThenRest(s, k);
      RunThenRest(r, k);
      ClassAppend(x, p, r, cmp);
      ClassAppend(x, q, t, cmp);
    }
  }

  lemma {:induction false} PassesSort(s: seq<Ptr>, k: nat, cmp: Compare)
    requires k > 0 && TotalPreorder(cmp) && RunsSorted(s, k, cmp)
    ensures SortedBy(Passes(s, k, cmp), cmp)
    ensures multiset(Passes(s, k, cmp)) == multiset(s)
    ensures forall x :: Class(x, Passes(s, k, cmp), cmp) == Class(x, s, cmp)
    decreases |s| - k
  {
    PassSorts(s, k, cmp);
    PassLength(s, k, cmp);
    forall x ensures Class(x, Pass(s, k, cmp), cmp) == Class(x, s, cmp) {
      PassStable(x, s, k, cmp);
    }
    var t := Pass(s, k, cmp);
    if |s| <= 2 * k {
      assert Run(t, 2 * k) == t;
    } else {
      PassesSort(t, 2 * k, cmp);
    }
  }

  /** The sort returns a sorted permutation in which equivalent elements keep their order. */
  lemma SortCorrect(s: seq<Ptr>, cmp: Compare)
    requires TotalPreorder(cmp)
    ensures SortedBy(Passes(s, 1, cmp), cmp)
    ensures multiset(Passes(s, 1, cmp)) == multiset(s)
    ensures forall x :: Class(x, Passes(s, 1, cmp), cmp) == Class(x, s, cmp)
  {
    SingletonRuns(s, cmp);
    PassesSort(s, 1, cmp);
  }

  // ---------------------------------------------------------------- the algorithm on links

  /** The output list so far: linked in both directions, except that the last element's
      forward link still points into the input. */
  predicate Output(out: seq<Ptr>, l: Links)
  {
    && (forall i :: 0 <= i < |out| ==> out[i] != NULL)
    && (forall i {:trigger l.Next(out[i])} :: 0 <= i < |out| - 1 ==> l.Next(out[i]) == After(out, i))
    && (forall i {:trigger l.Prev(out[i])} :: 0 <= i < |out| ==> l.Prev(out[i]) == Before(out, i))
  }

  /** The part of the input not yet output has its forward links. */
  predicate Input(s: seq<Ptr>, lo: nat, hi: nat, l: Links)
    requires hi <= |s|
  {
    forall j {:trigger l.Next(s[j])} :: lo <= j < hi ==> l.Next(s[j]) == After(s, j)
  }

  function Emitted(l: Links, e: Ptr, tail: Ptr): Links
  {
    (if tail != NULL then l.SetNext(tail, e) else l).SetPrev(e, tail)
  }

  lemma EmittedEffect(l: Links, e: Ptr, tail: Ptr, y: Ptr)
    ensures Emitted(l, e, tail).Next(y) == if tail != NULL && y == tail then e else l.Next(y)
    ensures Emitted(l, e, tail).Prev(y) == if y == e then tail else l.Prev(y)
  {
  }

  lemma EmitOne(out: seq<Ptr>, l: Links, e: Ptr)
    requires Output(out, l) && Distinct(out + [e]) && e != NULL
    ensures Output(out + [e], Emitted(l, e, Last(out)))
    ensures Last(out) == NULL <==> out == []
  {
    var t, m := out + [e], Emitted(l, e, Last(out));
    assert forall i :: 0 <= i < |out| ==> t[i] == out[i];
    forall i | 0 <= i < |t| - 1 ensures m.Next(t[i]) == After(t, i) {
      EmittedEffect(l, e, Last(out), t[i]);
      assert i == |out| - 1 || t[i] != t[|out| - 1];
      assert out[i] == t[i];
      if i < |out| - 1 { assert l.Next(out[i]) == After(out, i); }
    }
    forall i | 0 <= i < |t| ensures m.Prev(t[i]) == Before(t, i) {
      EmittedEffect(l, e, Last(out), t[i]);
      if i < |out| { assert l.Prev(out[i]) == Before(out, i); }
    }
  }

  lemma InputKept(s: seq<Ptr>, lo: nat, hi: nat, l: Links, e: Ptr, tail: Ptr)
    requires hi <= |s| && Input(s, lo, hi, l)
    requires forall j :: lo <= j < hi ==> s[j] != tail
    ensures Input(s, lo, hi, Emitted(l, e, tail))
  {
    forall j | lo <= j < hi ensures Emitted(l, e, tail).Next(s[j]) == After(s, j) {
      EmittedEffect(l, e, tail, s[j]);
      assert l.Next(s[j]) == After(s, j);
    }
  }

  /** State of a merge: `out` written, s[pi..pe] and s[qi..] to come, together all of `s`. */
  predicate Merging(s: seq<Ptr>, out: seq<Ptr>, pi: nat, pe: nat, qi: nat, l: Links)
  {
    && pi <= pe <= qi <= |s|
    && (forall i :: 0 <= i < |s| ==> s[i] != NULL)
    && Output(out, l) && Input(s, pi, pe, l) && Input(s, qi, |s|, l)
    && Distinct(out + s[pi..pe] + s[qi..])
  }

  lemma Emit(s: seq<Ptr>, out: seq<Ptr>, pi: nat, pe: nat, qi: nat, l: Links, e: Ptr, rest: seq<Ptr>)
    requires Merging(s, out, pi, pe, qi, l) && e != NULL && Distinct(out + [e] + rest)
    ensures Output(out + [e], Emitted(l, e, Last(out)))
    ensures Input(s, pi, pe, Emitted(l, e, Last(out))) && Input(s, qi, |s|, Emitted(l, e, Last(out)))
    ensures Last(out) == NULL <==> out == []
  {
    var later := out + [e] + rest;
    assert forall i :: 0 <= i < |out + [e]| ==> (out + [e])[i] == later[i];
    EmitOne(out, l, e);
    var all := out + s[pi..pe] + s[qi..];
    if out != [] {
      assert all[|out| - 1] == Last(out);
      forall j | pi <= j < pe ensures s[j] != Last(out) { assert s[j] == all[|out| + (j - pi)]; }
      forall j | qi <= j < |s| ensures s[j] != Last(out) { assert s[j] == all[|out| + (pe - pi) + (j - qi)]; }
    }
    InputKept(s, pi, pe, l, e, Last(out));
    InputKept(s, qi, |s|, l, e, Last(out));
  }

  lemma FromP(s: seq<Ptr>, out: seq<Ptr>, pi: nat, pe: nat, qi: nat, l: Links)
    requires Merging(s, out, pi, pe, qi, l) && pi < pe
    ensures Merging(s, out + [s[pi]], pi + 1, pe, qi, Emitted(l, s[pi], Last(out)))
    ensures l.Next(s[pi]) == After(s, pi)
    ensures Last(out) == NULL <==> out == []
  {
    hide Output, Emitted;
    var e := s[pi];
    var rest := s[pi + 1..pe] + s[qi..];
    assert out + s[pi..pe] + s[qi..] == out + [e] + rest;
    Emit(s, out, pi, pe, qi, l, e, rest);
    assert out + [e] + rest == out + [e] + s[pi + 1..pe] + s[qi..];
  }

  lemma StillApart(out: seq<Ptr>, a: seq<Ptr>, e: Ptr, b: seq<Ptr>)
    requires Distinct(out + a + ([e] + b))
    ensures Distinct(out + [e] + (a + b))
  {
    DistinctMultiset(out + a + ([e] + b), out + [e] + (a + b));
  }

  lemma FromQ(s: seq<Ptr>, out: seq<Ptr>, pi: nat, pe: nat, qi: nat, l: Links)
    requires Merging(s, out, pi, pe, qi, l) && qi < |s|
    ensures Merging(s, out + [s[qi]], pi, pe, qi + 1, Emitted(l, s[qi], Last(out)))
    ensures l.Next(s[qi]) == After(s, qi)
    ensures Last(out) == NULL <==> out == []
  {
    hide Output, Emitted;
    var e := s[qi];
    var rest := s[pi..pe] + s[qi + 1..];
    var now := out + [e] + rest;
    assert s[qi..] == [e] + s[qi + 1..];
    StillApart(out, s[pi..pe], e, s[qi + 1..]);
    hide Distinct;
    Emit(s, out, pi, pe, qi, l, e, rest);
    assert now == out + [e] + s[pi..pe] + s[qi + 1..];
  }

  lemma MergeOfRun(s: seq<Ptr>, pi: nat, pe: nat, qi: nat, qe: nat, cmp: Compare)
    requires pi <= pe <= qi <= qe <= |s|
    ensures var m := Merge(s[pi..pe], s[qi..qe], cmp);
            if pi < pe && (qi == qe || cmp(s[pi], s[qi]) <= 0) then m == [s[pi]] + Merge(s[pi + 1..pe], s[qi..qe], cmp)
            else if qi < qe then m == [s[qi]] + Merge(s[pi..pe], s[qi + 1..qe], cmp)
            else m == []
  {
    if pi < pe {
      assert s[pi..pe][1..] == s[pi + 1..pe];
      if qi == qe && pi + 1 < pe { assert Merge(s[pi + 1..pe], [], cmp) == s[pi + 1..pe]; }
    }
    if qi < qe {
      assert s[qi..qe][1..] == s[qi + 1..qe];
    }
  }

  /** Merge the run of `psize` elements at p with the run of at most `insize` elements at q. */
  method MergeRuns(cmp: Compare, l0: Links, p0: Ptr, q0: Ptr, psize0: nat, insize: nat, list0: Ptr, tail0: Ptr,
                   ghost s: seq<Ptr>, ghost out0: seq<Ptr>, ghost pi0: nat, ghost pe: nat)
    returns (l: Links, q: Ptr, list: Ptr, tail: Ptr, ghost out: seq<Ptr>)
    requires pi0 < pe <= |s| && Merging(s, out0, pi0, pe, pe, l0)
    requires p0 == s[pi0] && psize0 == pe - pi0 && q0 == (if pe == |s| then NULL else s[pe])
    requires tail0 == Last(out0) && list0 == First(out0)
    ensures var qe := Min(pe + insize, |s|);
            && out == out0 + Merge(s[pi0..pe], s[pe..qe], cmp)
            && Merging(s, out, pe, pe, qe, l)
            && q == (if qe == |s| then NULL else s[qe])
    ensures out != [] && tail == Last(out) && list == First(out)
  {
    hide Merging, Emitted, Merge;
    ghost var pi, qi, qe := pi0, pe, Min(pe + insize, |s|);
    ghost var goal := out0 + Merge(s[pi0..pe], s[pe..qe], cmp);
    var p, psize, qsize := p0, psize0, insize;
    l, q, list, tail, out := l0, q0, list0, tail0, out0;
    while psize > 0 || (qsize > 0 && q != NULL)
      invariant pi0 <= pi <= pe <= qi <= qe && Merging(s, out, pi, pe, qi, l)
      invariant psize == pe - pi && (pi < pe ==> p == s[pi])
      invariant qsize == pe + insize - qi && q == (if qi == |s| then NULL else s[qi])
      invariant tail == Last(out) && list == First(out) && (pi > pi0 || qi > pe ==> out != [])
      invariant out + Merge(s[pi..pe], s[qi..qe], cmp) == goal
      decreases psize + qsize
    {
      MergeOfRun(s, pi, pe, qi, qe, cmp);
      NoNull(s, out, pi, pe, qi, l);
      var e;
      if psize == 0 || (qsize != 0 && q != NULL && cmp(p, q) > 0) {
        FromQ(s, out, pi, pe, qi, l);
        e := q;
        q := l.Next(q);
        qsize := qsize - 1;
        qi := qi + 1;
      } else {
        FromP(s, out, pi, pe, qi, l);
        e := p;
        p := l.Next(p);
        psize := psize - 1;
        pi := pi + 1;
      }
      if tail == NULL {
        list := e;
      }
      l := Emitted(l, e, tail);
      tail := e;
      Regroup(out, e, Merge(s[pi..pe], s[qi..qe], cmp));
      out := out + [e];
    }
    NoNull(s, out, pi, pe, qi, l);
    MergeOfRun(s, pi, pe, qi, qe, cmp);
    assert out + [] == out;
  }

  lemma Regroup(out: seq<Ptr>, e: Ptr, m: seq<Ptr>)
    ensures out + ([e] + m) == out + [e] + m
  {
  }

  lemma NoNull(s: seq<Ptr>, out: seq<Ptr>, pi: nat, pe: nat, qi: nat, l: Links)
    requires Merging(s, out, pi, pe, qi, l)
    ensures forall i :: 0 <= i < |s| ==> s[i] != NULL
    ensures Last(out) == NULL <==> out == []
  {
    if out != [] { assert out[|out| - 1] != NULL; }
  }

  /** Step over the first run: at most `insize` elements from p. */
  method StepOver(l: Links, p: Ptr, insize: nat, ghost s: seq<Ptr>, ghost pos: nat) returns (q: Ptr, psize: nat)
    requires pos < |s| && p == s[pos] && insize > 0
    requires Input(s, pos, |s|, l) && forall i :: 0 <= i < |s| ==> s[i] != NULL
    ensures psize == Min(insize, |s| - pos) && q == (if pos + psize == |s| then NULL else s[pos + psize])
  {
    q := p;
    psize := 0;
    var i := 0;
    while i < insize
      invariant psize == i <= insize && pos + psize < |s| && q == s[pos + psize]
    {
      assert l.Next(s[pos + psize]) == After(s, pos + psize);
      psize := psize + 1;
      q := l.Next(q);
      if q == NULL {
        break;
      }
      i := i + 1;
    }
  }

  lemma Refocus(s: seq<Ptr>, out: seq<Ptr>, pos: nat, pe: nat, l: Links)
    requires Merging(s, out, pos, pos, pos, l) && pos <= pe <= |s|
    ensures Merging(s, out, pos, pe, pe, l) && Input(s, pos, |s|, l)
    ensures forall i :: 0 <= i < |s| ==> s[i] != NULL
  {
    assert s[pos..] == s[pos..pe] + s[pe..];
    assert out + s[pos..pos] + s[pos..] == out + s[pos..pe] + s[pe..];
  }

  lemma Finished(s: seq<Ptr>, out: seq<Ptr>, pe: nat, qe: nat, l: Links)
    requires Merging(s, out, pe, pe, qe, l)
    ensures Merging(s, out, qe, qe, qe, l)
  {
    assert s[pe..pe] == s[qe..qe];
  }

  lemma RunAt(s: seq<Ptr>, pos: nat, k: nat)
    requires pos <= |s|
    ensures var pe := Min(pos + k, |s|); Run(s[pos..], k) == s[pos..pe] && Rest(s[pos..], k) == s[pe..]
  {
  }

  lemma PassFrom(s: seq<Ptr>, pos: nat, k: nat, cmp: Compare)
    requires pos < |s| && k > 0
    ensures var pe := pos + Min(k, |s| - pos);
            var qe := Min(pe + k, |s|);
            Pass(s[pos..], k, cmp) == Merge(s[pos..pe], s[pe..qe], cmp) + Pass(s[qe..], k, cmp)
  {
    hide Run, Rest, Merge;
    RunAt(s, pos, k);
    RunAt(s, pos + Min(k, |s| - pos), k);
  }

  lemma CloseList(s: seq<Ptr>, out: seq<Ptr>, l: Links)
    requires Merging(s, out, |s|, |s|, |s|, l) && out != []
    ensures Linked(out, l.SetNext(Last(out), NULL))
  {
    var m := l.SetNext(Last(out), NULL);
    assert out + s[|s|..|s|] + s[|s|..] == out;
    forall i | 0 <= i < |out| ensures m.Next(out[i]) == After(out, i) && m.Prev(out[i]) == Before(out, i) {
      if i < |out| - 1 { assert l.Next(out[i]) == After(out, i) && out[i] != out[|out| - 1]; }
      assert l.Prev(out[i]) == Before(out, i);
    }
  }

  /** One turn of the outer loop: all pairs of runs merged, the list closed again. */
  method OnePass(cmp: Compare, l0: Links, list0: Ptr, insize: nat, ghost s: seq<Ptr>)
    returns (l: Links, list: Ptr, tail: Ptr, nmerges: nat)
    requires s != [] && Chained(s, l0) && list0 == s[0] && insize > 0
    ensures Linked(Pass(s, insize, cmp), l)
    ensures list == First(Pass(s, insize, cmp)) && tail == Last(Pass(s, insize, cmp))
    ensures nmerges <= 1 <==> |s| <= 2 * insize
  {
    hide Merging, Merge, Pass, Linked, Chained;
    l, list, tail, nmerges := l0, NULL, NULL, 0;
    var p := list0;
    ghost var pos, out := 0, [];
    StartPass(s, l);
    assert out + Pass(s[pos..], insize, cmp) == Pass(s, insize, cmp) by { assert s[0..] == s; }
    while p != NULL
      invariant pos <= |s| && Merging(s, out, pos, pos, pos, l)
      invariant p == (if pos == |s| then NULL else s[pos])
      invariant list == First(out) && tail == Last(out) && (pos > 0 ==> out != [])
      invariant out + Pass(s[pos..], insize, cmp) == Pass(s, insize, cmp)
      invariant nmerges == 0 <==> pos == 0
      invariant 0 < pos < |s| ==> pos >= 2 * insize
      invariant pos > 0 ==> (nmerges <= 1 <==> pos <= 2 * insize)
      decreases |s| - pos
    {
      nmerges := nmerges + 1;
      Refocus(s, out, pos, pos, l);
      var q, psize := StepOver(l, p, insize, s, pos);
      ghost var pe := pos + psize;
      ghost var qe := Min(pe + insize, |s|);
      Refocus(s, out, pos, pe, l);
      PassFrom(s, pos, insize, cmp);
      ghost var m := Merge(s[pos..pe], s[pe..qe], cmp);
      assert out + (m + Pass(s[qe..], insize, cmp)) == out + m + Pass(s[qe..], insize, cmp);
      l, q, list, tail, out := MergeRuns(cmp, l, p, q, psize, insize, list, tail, s, out, pos, pe);
      Finished(s, out, pe, qe, l);
      p := q;
      pos := qe;
    }
    EndPass(s, insize, cmp, pos, out, l);
    CloseList(s, out, l);
    l := l.SetNext(tail, NULL);
  }

  /** A list as the sorts need it: only the links forward matter. */
  predicate Chained(s: seq<Ptr>, l: Links)
  {
    && (forall i :: 0 <= i < |s| ==> s[i] != NULL)
    && Distinct(s)
    && (forall i {:trigger l.Next(s[i])} :: 0 <= i < |s| ==> l.Next(s[i]) == After(s, i))
  }

  lemma LinkedIsChained(s: seq<Ptr>, l: Links)
    requires Linked(s, l)
    ensures Chained(s, l)
  {
  }

  lemma StartPass(s: seq<Ptr>, l: Links)
    requires Chained(s, l)
    ensures Merging(s, [], 0, 0, 0, l)
    ensures forall i :: 0 <= i < |s| ==> s[i] != NULL
  {
    assert [] + s[0..0] + s[0..] == s;
  }

  lemma EndPass(s: seq<Ptr>, k: nat, cmp: Compare, pos: nat, out: seq<Ptr>, l: Links)
    requires k > 0 && pos <= |s| && Merging(s, out, pos, pos, pos, l)
    requires (if pos == |s| then NULL else s[pos]) == NULL
    ensures pos == |s| && out + Pass(s[pos..], k, cmp) == out
  {
    assert out + [] == out;
  }

  /** The sort: passes with doubling run length until one merge did it all. */
  method Sort(cmp: Compare, l0: Links, list0: Ptr, ghost s0: seq<Ptr>)
    returns (l: Links, list: Ptr, tail: Ptr)
    requires s0 != [] && Linked(s0, l0) && list0 == s0[0]
    ensures var t := Passes(s0, 1, cmp); Linked(t, l) && list == First(t) && tail == Last(t)
  {
    hide Linked, Pass, Chained;
    l, list, tail := l0, list0, NULL;
    var insize, looping := 1, true;
    ghost var s := s0;
    while looping
      invariant insize > 0 && Linked(s, l) && list == First(s)
      invariant looping ==> s != [] && Passes(s, insize, cmp) == Passes(s0, 1, cmp)
      invariant !looping ==> s == Passes(s0, 1, cmp) && tail == Last(s)
      decreases looping, |s| - insize
    {
      PassLength(s, insize, cmp);
      LinkedIsChained(s, l);
      var nmerges;
      l, list, tail, nmerges := OnePass(cmp, l, list, insize, s);
      s := Pass(s, insize, cmp);
      if nmerges <= 1 {
        looping := false;
      }
      insize := insize * 2;
    }
  }

  /** A list of utlist.h: the first element points back to the last one. */
  predicate LinkedToTail(s: seq<Ptr>, l: Links)
  {
    && Chained(s, l) && s != []
    && (forall i {:trigger l.Prev(s[i])} :: 0 <= i < |s| ==> l.Prev(s[i]) == if i == 0 then Last(s) else s[i - 1])
  }

  lemma LinkedToTailMeaning(s: seq<Ptr>, l: Links, i: nat)
    requires LinkedToTail(s, l) && i < |s|
    ensures l.Next(s[i]) == if i == |s| - 1 then NULL else s[i + 1]
    ensures l.Prev(s[i]) == if i == 0 then s[|s| - 1] else s[i - 1]
  {
  }

  lemma PointToTail(s: seq<Ptr>, l: Links)
    requires Linked(s, l) && s != []
    ensures LinkedToTail(s, l.SetPrev(First(s), Last(s)))
  {
    var m := l.SetPrev(First(s), Last(s));
    forall i | 0 <= i < |s|
      ensures m.Next(s[i]) == After(s, i) && m.Prev(s[i]) == if i == 0 then Last(s) else s[i - 1]
    {
      LinkedAt(s, l, i);
      assert i > 0 ==> s[0] != s[i];
    }
  }

  /** DL_SORT: the same passes, each ending with the link from the first element to the last. */
  method SortDoubly(cmp: Compare, l0: Links, list0: Ptr, ghost s0: seq<Ptr>) returns (l: Links, list: Ptr)
    requires LinkedToTail(s0, l0) && list0 == s0[0]
    ensures var t := Passes(s0, 1, cmp); LinkedToTail(t, l) && list == First(t)
  {
    hide Linked, Pass, Chained;
    l, list := l0, list0;
    var insize, looping := 1, true;
    ghost var s := s0;
    while looping
      invariant insize > 0 && LinkedToTail(s, l) && list == First(s)
      invariant looping ==> Passes(s, insize, cmp) == Passes(s0, 1, cmp)
      invariant !looping ==> s == Passes(s0, 1, cmp)
      decreases looping, |s| - insize
    {
      PassLength(s, insize, cmp);
      var tail, nmerges;
      l, list, tail, nmerges := OnePass(cmp, l, list, insize, s);
      s := Pass(s, insize, cmp);
      PointToTail(s, l);
      l := l.SetPrev(list, tail);
      if nmerges <= 1 {
        looping := false;
      }
      insize := insize * 2;
    }
  }
}

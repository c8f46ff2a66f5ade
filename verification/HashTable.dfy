/**
 * The chained hash table of uthash (arduino/libraries/Dtls-s/uthash.h): elements linked into a
 * doubly-linked chain per bucket and into one doubly-linked list in application order.
 */
module HashTable {
  import opened Bytes
  import opened Links
  import opened Numeric
  import ListSort

  const INITIAL_LOG2 := 5
  const BKT_CAPACITY_THRESH := 10

  datatype Bucket = Bucket(hd: Ptr, count: nat, mult: nat)

  const EMPTY_BUCKET := Bucket(NULL, 0, 0)

  // ---------------------------------------------------------------- buckets

  /** What HASH_FSCK checks of a bucket, and that its elements belong there. */
  predicate BucketOk(k: Bucket, c: seq<Ptr>, b: nat, n: nat, l: Links, hashv: map<Ptr, nat>)
    requires n > 0
  {
    && k.hd == First(c)
    && k.count == |c|
    && Linked(c, l)
    && forall i :: 0 <= i < |c| ==> c[i] in hashv && hashv[c[i]] % n == b
  }

  predicate BucketsOk(bs: seq<Bucket>, chains: seq<seq<Ptr>>, l: Links, hashv: map<Ptr, nat>)
  {
    && |bs| == |chains| > 0
    && forall b :: 0 <= b < |bs| ==> BucketOk(bs[b], chains[b], b, |bs|, l, hashv)
  }

  function Pushed(k: Bucket, e: Ptr): Bucket
  {
    k.(hd := e, count := k.count + 1)
  }

  lemma PushIntoBucket(k: Bucket, c: seq<Ptr>, b: nat, n: nat, l: Links, hashv: map<Ptr, nat>, e: Ptr)
    requires n > 0 && BucketOk(k, c, b, n, l, hashv)
    requires e != NULL && e in hashv && hashv[e] % n == b && forall i :: 0 <= i < |c| ==> c[i] != e
    ensures BucketOk(Pushed(k, e), [e] + c, b, n, LinkFront(l, e, k.hd), hashv)
  {
    LinkFrontLinks(c, l, e);
    var t := [e] + c;
    assert forall i :: 1 <= i < |t| ==> t[i] == c[i - 1];
  }

  lemma BucketKept(k: Bucket, c: seq<Ptr>, b: nat, n: nat, l: Links, m: Links, hashv: map<Ptr, nat>)
    requires n > 0 && BucketOk(k, c, b, n, l, hashv)
    requires forall i :: 0 <= i < |c| ==> m.Next(c[i]) == l.Next(c[i]) && m.Prev(c[i]) == l.Prev(c[i])
    ensures BucketOk(k, c, b, n, m, hashv)
  {
    LinkedElsewhere(c, l, m);
  }

  /** Linking an element at the head of its bucket keeps all buckets sound. */
  lemma PushKeepsBuckets(bs: seq<Bucket>, chains: seq<seq<Ptr>>, l: Links, hashv: map<Ptr, nat>, e: Ptr, b: nat)
    requires BucketsOk(bs, chains, l, hashv)
    requires e != NULL && e in hashv && b < |bs| && b == hashv[e] % |bs|
    requires forall i :: 0 <= i < |chains[b]| ==> chains[b][i] != e
    ensures BucketsOk(bs[b := Pushed(bs[b], e)], chains[b := [e] + chains[b]], LinkFront(l, e, bs[b].hd), hashv)
  {
    var n, m := |bs|, LinkFront(l, e, bs[b].hd);
    var bs', chains' := bs[b := Pushed(bs[b], e)], chains[b := [e] + chains[b]];
    PushIntoBucket(bs[b], chains[b], b, n, l, hashv, e);
    forall d | 0 <= d < n ensures BucketOk(bs'[d], chains'[d], d, n, m, hashv) {
      if d != b {
        var c := chains[d];
        assert BucketOk(bs[d], c, d, n, l, hashv) && BucketOk(bs[b], chains[b], b, n, l, hashv);
        forall i | 0 <= i < |c| ensures m.Next(c[i]) == l.Next(c[i]) && m.Prev(c[i]) == l.Prev(c[i]) {
          LinkFrontEffect(l, e, bs[b].hd, c[i]);
          assert hashv[c[i]] % n == d;
          if chains[b] != [] { assert hashv[chains[b][0]] % n == b; }
        }
        BucketKept(bs[d], c, d, n, l, m, hashv);
      }
    }
  }

  function Removed(k: Bucket, e: Ptr, l: Links): Bucket
  {
    Bucket(if k.hd == e then l.Next(e) else k.hd, if k.count > 0 then k.count - 1 else 0, k.mult)
  }

  lemma RemoveFromBucket(k: Bucket, c: seq<Ptr>, b: nat, n: nat, l: Links, hashv: map<Ptr, nat>, i: nat)
    requires n > 0 && BucketOk(k, c, b, n, l, hashv) && i < |c|
    ensures BucketOk(Removed(k, c[i], l), Without(c, i), b, n, Unlink(l, c[i]), hashv)
  {
    UnlinkLinks(c, l, i);
    LinkedAt(c, l, i);
    WithoutMembers(c, i);
    var t := Without(c, i);
    if i > 0 {
      assert t[0] == c[0] && c[0] != c[i];
    }
    assert forall j :: 0 <= j < |t| ==> t[j] in t;
  }

  /** Unlinking an element from its bucket (HASH_DEL_IN_BKT) keeps all buckets sound. */
  lemma RemoveKeepsBuckets(bs: seq<Bucket>, chains: seq<seq<Ptr>>, l: Links, hashv: map<Ptr, nat>, b: nat, i: nat)
    requires BucketsOk(bs, chains, l, hashv) && b < |bs| && i < |chains[b]|
    ensures var e := chains[b][i];
            BucketsOk(bs[b := Removed(bs[b], e, l)], chains[b := Without(chains[b], i)], Unlink(l, e), hashv)
  {
    var n, e := |bs|, chains[b][i];
    var m := Unlink(l, e);
    var bs', chains' := bs[b := Removed(bs[b], e, l)], chains[b := Without(chains[b], i)];
    assert BucketOk(bs[b], chains[b], b, n, l, hashv);
    RemoveFromBucket(bs[b], chains[b], b, n, l, hashv, i);
    forall d | 0 <= d < n ensures BucketOk(bs'[d], chains'[d], d, n, m, hashv) {
      if d != b {
        var c := chains[d];
        assert BucketOk(bs[d], c, d, n, l, hashv);
        forall j, k | 0 <= j < |chains[b]| && 0 <= k < |c| ensures chains[b][j] != c[k] {
          assert hashv[chains[b][j]] % n == b && hashv[c[k]] % n == d;
        }
        UnlinkElsewhere(chains[b], l, i, c);
      }
    }
  }

  // ---------------------------------------------------------------- the elements of all chains

  lemma {:induction false} ConcatUpdate(chains: seq<seq<Ptr>>, b: nat, c: seq<Ptr>)
    requires b < |chains|
    ensures multiset(Concat(chains[b := c])) + multiset(chains[b]) == multiset(Concat(chains)) + multiset(c)
    decreases b
  {
    var updated := chains[b := c];
    if b == 0 {
      assert updated[1..] == chains[1..];
      assert multiset(Concat(updated)) == multiset(c) + multiset(Concat(chains[1..]));
    } else {
      assert updated[1..] == chains[1..][b - 1 := c];
      ConcatUpdate(chains[1..], b - 1, c);
      var first, was, now := multiset(chains[0]), multiset(Concat(chains[1..])), multiset(Concat(updated[1..]));
      assert now + multiset(chains[b]) == was + multiset(c);
      assert updated[0] == chains[0];
      assert Concat(updated) == chains[0] + Concat(updated[1..]) && Concat(chains) == chains[0] + Concat(chains[1..]);
      assert multiset(Concat(updated)) == first + now && multiset(Concat(chains)) == first + was;
      AddBoth(first, now, multiset(chains[b]), was, multiset(c));
    }
  }

  lemma AddBoth(f: multiset<Ptr>, a: multiset<Ptr>, x: multiset<Ptr>, b: multiset<Ptr>, y: multiset<Ptr>)
    requires a + x == b + y
    ensures (f + a) + x == (f + b) + y
  {
    assert forall e :: (a + x)[e] == (b + y)[e] && ((f + a) + x)[e] == f[e] + (a + x)[e];
  }

  lemma {:induction false} ConcatMembers(chains: seq<seq<Ptr>>)
    ensures forall b, i :: 0 <= b < |chains| && 0 <= i < |chains[b]| ==> chains[b][i] in Concat(chains)
    ensures forall x :: x in Concat(chains) ==> exists b :: 0 <= b < |chains| && x in chains[b]
  {
    if chains != [] {
      ConcatMembers(chains[1..]);
      forall b, i | 0 <= b < |chains| && 0 <= i < |chains[b]| ensures chains[b][i] in Concat(chains) {
        if b > 0 { assert chains[b][i] == chains[1..][b - 1][i]; }
      }
      forall x | x in Concat(chains) ensures exists b :: 0 <= b < |chains| && x in chains[b] {
        if x in chains[0] {
        } else {
          var b :| 0 <= b < |chains| - 1 && x in chains[1..][b];
          assert x in chains[b + 1];
        }
      }
    }
  }

  function SumCounts(bs: seq<Bucket>): nat
  {
    if bs == [] then 0 else bs[0].count + SumCounts(bs[1..])
  }

  lemma {:induction false} CountsAddUp(bs: seq<Bucket>, chains: seq<seq<Ptr>>)
    requires |bs| == |chains| && forall b :: 0 <= b < |bs| ==> bs[b].count == |chains[b]|
    ensures SumCounts(bs) == |Concat(chains)|
  {
    if bs != [] { CountsAddUp(bs[1..], chains[1..]); }
  }

  function NoElements(n: nat): seq<seq<Ptr>>
  {
    seq(n, i => [])
  }

  function NoBuckets(n: nat): seq<Bucket>
  {
    seq(n, i => EMPTY_BUCKET)
  }

  lemma {:induction false} EmptyChains(n: nat)
    ensures Concat(NoElements(n)) == []
  {
    if n > 0 {
      assert NoElements(n)[1..] == NoElements(n - 1);
      EmptyChains(n - 1);
    }
  }

  /** The number of elements whose chain position exceeds `ideal`. */
  function Excess(bs: seq<Bucket>, ideal: nat): nat
  {
    if bs == [] then 0
    else (if bs[0].count > ideal then bs[0].count - ideal else 0) + Excess(bs[1..], ideal)
  }

  lemma {:induction false} ExcessUpdate(bs: seq<Bucket>, b: nat, k: Bucket, ideal: nat)
    requires b < |bs|
    ensures Excess(bs[b := k], ideal) + (if bs[b].count > ideal then bs[b].count - ideal else 0)
         == Excess(bs, ideal) + (if k.count > ideal then k.count - ideal else 0)
    decreases b
  {
    var bs' := bs[b := k];
    if b == 0 {
      assert bs'[1..] == bs[1..];
    } else {
      assert bs'[1..] == bs[1..][b - 1 := k];
      ExcessUpdate(bs[1..], b - 1, k, ideal);
    }
  }

  lemma {:induction false} NoExcess(n: nat, ideal: nat)
    ensures Excess(NoBuckets(n), ideal) == 0
  {
    if n > 0 {
      assert NoBuckets(n)[1..] == NoBuckets(n - 1);
      NoExcess(n - 1, ideal);
    }
  }

  /** How many ideal lengths a chain has, from the first element beyond that length on. */
  predicate Multiples(bs: seq<Bucket>, ideal: nat)
    requires ideal > 0
  {
    forall b :: 0 <= b < |bs| ==> bs[b].mult == if bs[b].count > ideal then bs[b].count / ideal else 0
  }

  lemma NoMultiples(n: nat, ideal: nat)
    requires ideal > 0
    ensures Multiples(NoBuckets(n), ideal)
  {
  }

  lemma MultiplesUpdate(bs: seq<Bucket>, b: nat, k: Bucket, ideal: nat)
    requires ideal > 0 && Multiples(bs, ideal) && b < |bs|
    requires k.mult == if k.count > ideal then k.count / ideal else 0
    ensures Multiples(bs[b := k], ideal)
  {
  }

  lemma MultipleBefore(bs: seq<Bucket>, b: nat, ideal: nat)
    requires ideal > 0 && Multiples(bs, ideal) && b < |bs|
    ensures bs[b].count + 1 <= ideal ==> bs[b].mult == 0
  {
  }

  predicate SameMults(bs: seq<Bucket>, was: seq<Bucket>)
  {
    |bs| == |was| && forall b :: 0 <= b < |bs| ==> bs[b].mult == was[b].mult
  }

  lemma Moved(was: multiset<Ptr>, now: multiset<Ptr>, x: multiset<Ptr>, e: Ptr)
    requires now + x == was + (multiset{e} + x)
    ensures now == was + multiset{e}
  {
    forall y ensures now[y] == (was + multiset{e})[y] {
      assert (now + x)[y] == (was + (multiset{e} + x))[y];
    }
  }

  function PushedBuckets(bs: seq<Bucket>, b: nat, e: Ptr): seq<Bucket>
    requires b < |bs|
  {
    bs[b := Pushed(bs[b], e)]
  }

  function PushedChains(cs: seq<seq<Ptr>>, b: nat, e: Ptr): seq<seq<Ptr>>
    requires b < |cs|
  {
    cs[b := [e] + cs[b]]
  }

  /** One element more, in the bucket its hash value selects. */
  lemma PushStep(bs: seq<Bucket>, cs: seq<seq<Ptr>>, l: Links, hashv: map<Ptr, nat>, e: Ptr, b: nat)
    requires BucketsOk(bs, cs, l, hashv) && e != NULL && e in hashv && e !in Concat(cs)
    requires b < |bs| && b == hashv[e] % |bs|
    ensures |bs| == |cs|
    ensures BucketsOk(PushedBuckets(bs, b, e), PushedChains(cs, b, e), LinkFront(l, e, bs[b].hd), hashv)
    ensures multiset(Concat(PushedChains(cs, b, e))) == multiset(Concat(cs)) + multiset{e}
  {
    ConcatMembers(cs);
    assert forall i :: 0 <= i < |cs[b]| ==> cs[b][i] in Concat(cs);
    PushKeepsBuckets(bs, cs, l, hashv, e, b);
    ConcatUpdate(cs, b, [e] + cs[b]);
    assert multiset([e] + cs[b]) == multiset{e} + multiset(cs[b]);
    Moved(multiset(Concat(cs)), multiset(Concat(PushedChains(cs, b, e))), multiset(cs[b]), e);
  }

  /** One element less. */
  lemma RemoveStep(bs: seq<Bucket>, cs: seq<seq<Ptr>>, l: Links, hashv: map<Ptr, nat>, b: nat, i: nat)
    requires BucketsOk(bs, cs, l, hashv) && b < |bs| == |cs| && i < |cs[b]|
    ensures var e, cs' := cs[b][i], cs[b := Without(cs[b], i)];
            && BucketsOk(bs[b := Removed(bs[b], e, l)], cs', Unlink(l, e), hashv)
            && multiset(Concat(cs')) == multiset(Concat(cs)) - multiset{e}
  {
    var e, cs' := cs[b][i], cs[b := Without(cs[b], i)];
    RemoveKeepsBuckets(bs, cs, l, hashv, b, i);
    ConcatUpdate(cs, b, Without(cs[b], i));
    WithoutMembers(cs[b], i);
    ConcatMembers(cs);
    assert e in Concat(cs);
    Taken(multiset(Concat(cs)), multiset(Concat(cs')), multiset(cs[b]), e);
  }

  lemma Taken(was: multiset<Ptr>, now: multiset<Ptr>, x: multiset<Ptr>, e: Ptr)
    requires now + x == was + (x - multiset{e}) && e in x && e in was
    ensures now == was - multiset{e}
  {
    forall y ensures now[y] == (was - multiset{e})[y] {
      assert (now + x)[y] == (was + (x - multiset{e}))[y];
    }
  }

  lemma OtherNexts(l: Links, e: Ptr, hd: Ptr)
    ensures forall y :: y != e ==> LinkFront(l, e, hd).Next(y) == l.Next(y)
  {
    forall y | y != e ensures LinkFront(l, e, hd).Next(y) == l.Next(y) {
      LinkFrontEffect(l, e, hd, y);
    }
  }

  lemma BucketsExist(bs: seq<Bucket>, cs: seq<seq<Ptr>>, l: Links, hashv: map<Ptr, nat>)
    requires BucketsOk(bs, cs, l, hashv)
    ensures |bs| == |cs| > 0
  {
  }

  lemma NotYetMoved(cs: seq<seq<Ptr>>, cs': seq<seq<Ptr>>, c: seq<Ptr>, i: nat)
    requires i < |c| && Distinct(c) && c[i] !in Concat(cs)
    requires multiset(Concat(cs')) == multiset(Concat(cs)) + multiset(c[..i])
    ensures c[i] !in Concat(cs')
  {
    assert c[i] !in multiset(Concat(cs)) && c[i] !in multiset(c[..i]);
    assert c[i] !in multiset(Concat(cs'));
  }

  lemma EmptyTable(n: nat, l: Links, hashv: map<Ptr, nat>, ideal: nat)
    requires n > 0
    ensures BucketsOk(NoBuckets(n), NoElements(n), l, hashv) && Concat(NoElements(n)) == []
    ensures Excess(NoBuckets(n), ideal) == 0
  {
    EmptyChains(n);
    NoExcess(n, ideal);
  }

  lemma AtLeastOne(items: nat, n: nat)
    requires items > 0 && n > 0
    ensures items / n + (if items % n != 0 then 1 else 0) >= 1
  {
    if items / n == 0 { assert items % n == items; }
  }

  lemma OnlyItem(l: Links, e: Ptr)
    requires e != NULL
    ensures Linked([e], l.SetNext(e, NULL).SetPrev(e, NULL)) && First([e]) == e == Last([e])
  {
  }

  lemma {:induction false} ConcatNext(cs: seq<seq<Ptr>>, i: nat)
    requires i < |cs|
    ensures Concat(cs[..i + 1]) == Concat(cs[..i]) + cs[i]
  {
    assert cs[..i + 1] == cs[..i] + [cs[i]];
    ConcatAppend(cs[..i], [cs[i]]);
    var one := [cs[i]];
    assert one[1..] == [];
    assert Concat(one) == cs[i] + [] == cs[i];
  }

  lemma NoChains(cs: seq<seq<Ptr>>)
    ensures cs[..0] == [] && Concat<Ptr>([]) == []
  {
  }

  lemma ConcatPrefix(cs: seq<seq<Ptr>>, i: nat)
    requires i <= |cs|
    ensures Concat(cs) == Concat(cs[..i]) + Concat(cs[i..])
  {
    assert cs == cs[..i] + cs[i..];
    ConcatAppend(cs[..i], cs[i..]);
  }

  lemma Pieces(a: seq<Ptr>, b: seq<Ptr>, c: seq<Ptr>)
    ensures var all := a + b + c; all[..|a|] == a && all[|a|..|a| + |b|] == b
  {
  }

  lemma DoublePow2(k: nat)
    requires k > 0
    ensures Pow2(k) == 2 * Pow2(k - 1)
  {
  }

  lemma NotInEarlier(all: seq<Ptr>, earlier: seq<Ptr>, c: seq<Ptr>, j: nat)
    requires Distinct(all) && j < |c| && |earlier| + |c| <= |all|
    requires all[..|earlier|] == earlier && all[|earlier|..|earlier| + |c|] == c
    ensures c[j] !in earlier
  {
    assert c[j] == all[|earlier| + j];
    assert forall k :: 0 <= k < |earlier| ==> earlier[k] == all[k];
  }

  // ---------------------------------------------------------------- the table

  /** Hash values are those of the keys, and the keys are distinct. */
  ghost predicate Keyed(s: seq<Ptr>, keys: map<Ptr, seq<byte>>, hashv: map<Ptr, nat>, hash: seq<byte> -> nat)
  {
    && (forall i :: 0 <= i < |s| ==> s[i] in keys && s[i] in hashv && hashv[s[i]] == hash(keys[s[i]]))
    && (forall i, j :: 0 <= i < j < |s| ==> s[i] in keys && s[j] in keys && keys[s[i]] != keys[s[j]])
  }

  lemma KeyedMore(s: seq<Ptr>, keys: map<Ptr, seq<byte>>, hashv: map<Ptr, nat>, hash: seq<byte> -> nat,
                  e: Ptr, key: seq<byte>)
    requires Keyed(s, keys, hashv, hash) && e !in s
    requires forall i :: 0 <= i < |s| ==> s[i] in keys && keys[s[i]] != key
    ensures Keyed(s + [e], keys[e := key], hashv[e := hash(key)], hash)
  {
    assert forall i :: 0 <= i < |s| ==> (s + [e])[i] == s[i];
  }

  lemma KeyedLess(s: seq<Ptr>, keys: map<Ptr, seq<byte>>, hashv: map<Ptr, nat>, hash: seq<byte> -> nat, k: nat)
    requires Keyed(s, keys, hashv, hash) && k < |s|
    ensures Keyed(Without(s, k), keys, hashv, hash)
  {
    var rest := Without(s, k);
    assert forall i :: 0 <= i < |rest| ==> rest[i] == s[if i < k then i else i + 1];
  }

  /** The table of one hash, its head pointer, and the handles of all elements. */
  class UTHash {
    const hash: seq<byte> -> nat

    // memory of the element handles
    var keys: map<Ptr, seq<byte>>
    var hashv: map<Ptr, nat>
    var app: Links                // next, prev
    var bkt: Links                // hh_next, hh_prev

    // head pointer and table
    var head: Ptr
    var tail: Ptr
    var buckets: seq<Bucket>
    var log2NumBuckets: nat
    var numItems: nat
    var idealChainMaxlen: nat
    var nonidealItems: nat
    var ineffExpands: nat
    var noexpand: bool

    ghost var items: seq<Ptr>           // application order
    ghost var chains: seq<seq<Ptr>>     // bucket order

    /** The elements of the table with their keys: hash values as computed, keys distinct. */
    ghost predicate KeysDistinct(s: seq<Ptr>)
      reads `keys, `hashv
    {
      Keyed(s, keys, hashv, hash)
    }

    ghost predicate BucketsValid()
      reads this
    {
      && BucketsOk(buckets, chains, bkt, hashv)
      && |buckets| == Pow2(log2NumBuckets)
      && multiset(Concat(chains)) == multiset(items)
    }

    /** Expansion has been given up exactly if the last two were ineffective. */
    ghost predicate ExpansionValid()
      reads `noexpand, `ineffExpands
    {
      noexpand <==> ineffExpands > 1
    }

    /** The bucket for a hash value is full after one more element, and expansion has not been
        given up. */
    ghost predicate WillExpand(h: nat)
      reads `noexpand, `buckets
    {
      && !noexpand && buckets != []
      && var b := buckets[h % |buckets|]; b.count + 1 >= (b.mult + 1) * BKT_CAPACITY_THRESH
    }

    /** What an expansion from n buckets has led to: thresholds for chains beyond the ideal length are
        multiplied, and if more than half of the elements are beyond it, it was ineffective. */
    ghost predicate Expanded(n: nat, ineffective: nat)
      reads this
    {
      && |buckets| == 2 * n && IsIdeal(2 * n) && Multiples(buckets, idealChainMaxlen)
      && ineffExpands == if Excess(buckets, idealChainMaxlen) > numItems / 2 then ineffective + 1 else 0
    }

    /** The least number of elements per bucket that holds all of them. */
    ghost predicate IsIdeal(n: nat)
      reads this
    {
      0 < idealChainMaxlen && (idealChainMaxlen - 1) * n < numItems <= idealChainMaxlen * n
    }

    /** What an addition to these buckets has led to: nothing else changes number and thresholds. */
    ghost predicate Grown(expands: bool, was: seq<Bucket>, ineffective: nat)
      reads this
    {
      if expands then Expanded(|was|, ineffective) else SameMults(buckets, was) && ineffExpands == ineffective
    }

    lemma GivenUp(was: seq<Bucket>, ineffective: nat)
      requires Valid() && items != [] && Grown(false, was, ineffective) && ineffective > 1
      ensures noexpand && |buckets| == |was|
    {
    }

    /** Everything HASH_FSCK checks, and more. An empty hash has no table. */
    ghost predicate Valid()
      reads this
    {
      && head == First(items)
      && KeysDistinct(items)
      && (items != [] ==>
            && Linked(items, app)
            && tail == Last(items)
            && numItems == |items|
            && BucketsValid()
            && ExpansionValid())
    }

    constructor (hash: seq<byte> -> nat)
      ensures Valid() && items == [] && this.hash == hash
    {
      this.hash := hash;
      keys, hashv, app, bkt := map[], map[], Links(map[], map[]), Links(map[], map[]);
      head, tail, buckets, log2NumBuckets, numItems := NULL, NULL, [], 0, 0;
      idealChainMaxlen, nonidealItems, ineffExpands, noexpand := 0, 0, 0, false;
      items, chains := [], [];
    }

    /** HASH_FIND: hash the key, then walk the chain of its bucket. */
    method Find(key: seq<byte>) returns (out: Ptr)
      requires Valid()
      ensures out != NULL ==> out in items && out in keys && keys[out] == key
      ensures out == NULL ==> forall i :: 0 <= i < |items| ==> items[i] in keys && keys[items[i]] != key
    {
      out := NULL;
      if head != NULL {
        var b := hash(key) % |buckets|;
        ghost var c := chains[b];
        assert BucketOk(buckets[b], c, b, |buckets|, bkt, hashv);
        out := buckets[b].hd;
        ghost var i := 0;
        while out != NULL && !(out in keys && keys[out] == key)
          invariant i <= |c| && out == (if i == |c| then NULL else c[i])
          invariant forall j :: 0 <= j < i ==> !(c[j] in keys && keys[c[j]] == key)
          decreases |c| - i
        {
          LinkedAt(c, bkt, i);
          out := bkt.Next(out);
          i := i + 1;
        }
        FoundOrAbsent(key, b, i, out);
      }
    }

    lemma FoundOrAbsent(key: seq<byte>, b: nat, i: nat, out: Ptr)
      requires Valid() && items != [] && b == hash(key) % |buckets|
      requires i <= |chains[b]| && out == (if i == |chains[b]| then NULL else chains[b][i])
      requires forall j :: 0 <= j < i ==> !(chains[b][j] in keys && keys[chains[b][j]] == key)
      ensures out != NULL ==> out in items
      ensures out == NULL ==> forall i :: 0 <= i < |items| ==> items[i] in keys && keys[items[i]] != key
    {
      ConcatMembers(chains);
      assert BucketOk(buckets[b], chains[b], b, |buckets|, bkt, hashv);
      SameMembers(Concat(chains), items);
      if out == NULL {
        assert forall j :: 0 <= j < |chains[b]| ==> chains[b][j] != NULL;
        assert forall j :: 0 <= j < |chains[b]| ==> !(chains[b][j] in keys && keys[chains[b][j]] == key);
        forall k | 0 <= k < |items| ensures items[k] in keys && keys[items[k]] != key {
          InItsBucket(items[k]);
        }
      }
    }

    /** HASH_ADD: append to the application list and link into the bucket; a bucket that gets
        too long doubles the number of buckets. The caller's key must be new. */
    method Add(e: Ptr, key: seq<byte>)
      requires Valid() && e != NULL && e !in items
      requires forall i :: 0 <= i < |items| ==> items[i] in keys && keys[items[i]] != key
      modifies this
      ensures Valid() && items == old(items) + [e]
      ensures keys == old(keys)[e := key]
      ensures old(items) != [] ==> Grown(old(WillExpand(hash(key))), old(buckets), old(ineffExpands))
      ensures old(items) == [] ==> |buckets| == 32 && !noexpand && forall b :: 0 <= b < 32 ==> buckets[b].mult == 0
      ensures old(items) != [] && old(noexpand) ==> noexpand && |buckets| == |old(buckets)|
    {
      ghost var before := items;
      AppendItem(e, key);
      hide Keyed, Grown, WillExpand, Valid, Appended, NewTable;
      RecordHash(e, key, before);
      ghost var was, ineffective := buckets, ineffExpands;
      if before == [] { NewTableIsRoomy(hash(key)); }
      AddToBucket(e, before);
      if before != [] && old(noexpand) { GivenUp(old(buckets), old(ineffExpands)); }
      if before == [] { FirstOfTable(was, ineffective); }
    }

    /** In a table that has not been expanded yet the tenth element of a chain expands it. */
    lemma FirstExpansion(h: nat)
      requires buckets != [] && forall b :: 0 <= b < |buckets| ==> buckets[b].mult == 0
      ensures WillExpand(h) <==> !noexpand && buckets[h % |buckets|].count >= 9
    {
      assert 0 <= h % |buckets| < |buckets|;
    }

    /** Just after an expansion a chain of up to the ideal length is full with ten elements, a longer
        one with ten for each ideal length in it and ten more; and expansion is given up exactly if
        the previous one was ineffective too. */
    lemma NextExpansion(n: nat, ineffective: nat, h: nat)
      requires Valid() && items != [] && Expanded(n, ineffective) && n > 0
      ensures |buckets| == 2 * n && idealChainMaxlen > 0
      ensures (idealChainMaxlen - 1) * (2 * n) < |items| <= idealChainMaxlen * (2 * n)
      ensures var b := buckets[h % |buckets|];
              WillExpand(h) <==>
                !noexpand && b.count + 1 >= (if b.count <= idealChainMaxlen then 10
                                             else (b.count / idealChainMaxlen + 1) * 10)
      ensures noexpand <==> ineffective > 0 && 2 * Excess(buckets, idealChainMaxlen) > |items|
    {
      hide BucketsOk, Concat, Excess, KeysDistinct, Linked, Pow2;
      assert 0 <= h % |buckets| < |buckets|;
    }

    lemma NewTableIsRoomy(h: nat)
      requires NewTable()
      ensures !WillExpand(h) && ineffExpands == 0 && |buckets| == 32
      ensures forall b :: 0 <= b < 32 ==> buckets[b].mult == 0
    {
      assert 0 <= h % |buckets| < |buckets|;
    }

    lemma FirstOfTable(was: seq<Bucket>, ineffective: nat)
      requires Valid() && items != [] && Grown(false, was, ineffective) && ineffective == 0
      requires |was| == 32 && forall b :: 0 <= b < 32 ==> was[b].mult == 0
      ensures |buckets| == 32 && !noexpand && forall b :: 0 <= b < 32 ==> buckets[b].mult == 0
    {
    }

    /** The element is in the application order, but not yet in a bucket. */
    ghost predicate Appended(e: Ptr, before: seq<Ptr>)
      reads this
    {
      && items == before + [e] && e != NULL && e !in before
      && head == First(items) && tail == e && e == Last(items) && Linked(items, app)
      && BucketsOk(buckets, chains, bkt, hashv) && |buckets| == Pow2(log2NumBuckets)
      && multiset(Concat(chains)) == multiset(before) && ExpansionValid()
    }

    ghost predicate NewTable()
      reads this
    {
      && |buckets| == 32 && ineffExpands == 0 && !noexpand
      && forall b :: 0 <= b < |buckets| ==> buckets[b].count == buckets[b].mult == 0
    }

    /** The application-order half of HASH_ADD. */
    method AppendItem(e: Ptr, key: seq<byte>)
      requires Valid() && e != NULL && e !in items
      requires forall i :: 0 <= i < |items| ==> items[i] in keys && keys[items[i]] != key
      modifies this
      ensures Appended(e, old(items)) && numItems == |old(items)| && keys == old(keys)[e := key]
      ensures Keyed(items, keys, hashv[e := hash(key)], hash)
      ensures old(items) != [] ==>
                buckets == old(buckets) && ineffExpands == old(ineffExpands) && noexpand == old(noexpand)
      ensures old(items) == [] ==> NewTable()
    {
      KeyedMore(items, keys, hashv, hash, e, key);
      keys := keys[e := key];
      if head == NULL {
        FirstItem(e);
      } else {
        hide BucketsOk, Concat, Pow2, Keyed, KeysDistinct, ExpansionValid;
        LastItem(e);
      }
    }

    method FirstItem(e: Ptr)
      requires items == [] && e != NULL
      modifies this
      ensures Appended(e, []) && numItems == 0 && keys == old(keys) && hashv == old(hashv) && NewTable()
    {
      OnlyItem(app, e);
      assert Pow2(INITIAL_LOG2) == 32;
      hide BucketsOk, Concat, Pow2, Linked, First, Last;
      head := e;
      app := app.SetNext(e, NULL).SetPrev(e, NULL);
      MakeTable(e);
      items := [e];
    }

    method LastItem(e: Ptr)
      requires items != [] && e != NULL && e !in items
               && head == First(items) && Linked(items, app) && tail == Last(items)
      modifies `app, `tail, `items
      ensures items == old(items) + [e] && Linked(items, app) && head == First(items) && tail == e && e == Last(items)
    {
      LinkBackLinks(items, app, e);
      hide Linked;
      app := LinkBack(app, e, tail);
      tail := e;
      items := items + [e];
    }

    /** The hash value of the element just appended. */
    method RecordHash(e: Ptr, key: seq<byte>, ghost before: seq<Ptr>)
      requires Appended(e, before) && Keyed(items, keys, hashv[e := hash(key)], hash)
      modifies `numItems, `hashv
      ensures numItems == old(numItems) + 1 && hashv == old(hashv)[e := hash(key)]
      ensures Appended(e, before) && KeysDistinct(items)
    {
      hide BucketsOk, Concat, Keyed, Linked, First, Last, Pow2;
      numItems := numItems + 1;
      hashv := hashv[e := hash(key)];
      HashOfOthers(old(hashv), e, before);
    }

    /** Recording the hash value of an element outside the table does not disturb the buckets. */
    lemma HashOfOthers(was: map<Ptr, nat>, e: Ptr, others: seq<Ptr>)
      requires BucketsOk(buckets, chains, bkt, was) && e in hashv && hashv == was[e := hashv[e]]
      requires multiset(Concat(chains)) == multiset(others) && e !in others
      ensures BucketsOk(buckets, chains, bkt, hashv)
    {
      ConcatMembers(chains);
      SameMembers(Concat(chains), others);
      forall b | 0 <= b < |buckets| ensures BucketOk(buckets[b], chains[b], b, |buckets|, bkt, hashv) {
        assert BucketOk(buckets[b], chains[b], b, |buckets|, bkt, was);
        assert forall i :: 0 <= i < |chains[b]| ==> chains[b][i] in Concat(chains);
      }
    }

    /** HASH_ADD_TO_BKT with the expansion it may trigger. */
    method AddToBucket(e: Ptr, ghost before: seq<Ptr>)
      requires Appended(e, before) && e in hashv && numItems == |items| && KeysDistinct(items)
      modifies `buckets, `chains, `bkt, `log2NumBuckets, `idealChainMaxlen, `nonidealItems, `ineffExpands, `noexpand
      ensures Valid()
      ensures Grown(old(WillExpand(hashv[e])), old(buckets), old(ineffExpands))
    {
      hide BucketsOk, Concat, Linked, KeysDistinct, Pow2, First, Last;
      SameMembers(Concat(chains), before);
      var k := LinkIntoBucket(e);
      if k.count >= (k.mult + 1) * BKT_CAPACITY_THRESH && !noexpand {
        ExpandBuckets();
      }
    }

    method LinkIntoBucket(e: Ptr) returns (k: Bucket)
      requires e != NULL && e in hashv && e !in Concat(chains) && BucketsOk(buckets, chains, bkt, hashv)
      modifies `buckets, `chains, `bkt
      ensures BucketsOk(buckets, chains, bkt, hashv) && |buckets| == |old(buckets)|
      ensures multiset(Concat(chains)) == multiset(old(Concat(chains))) + multiset{e}
      ensures |buckets| > 0 && k.hd == e
      ensures k == Pushed(old(buckets)[hashv[e] % |buckets|], e) && SameMults(buckets, old(buckets))
    {
      hide BucketsOk, Concat, LinkFront;
      BucketsExist(buckets, chains, bkt, hashv);
      var b := hashv[e] % |buckets|;
      k := Pushed(buckets[b], e);
      PushStep(buckets, chains, bkt, hashv, e, b);
      bkt := LinkFront(bkt, e, buckets[b].hd);
      buckets := PushedBuckets(buckets, b, e);
      chains := PushedChains(chains, b, e);
    }

    method MakeTable(e: Ptr)
      modifies `tail, `buckets, `log2NumBuckets, `numItems, `idealChainMaxlen, `nonidealItems,
               `ineffExpands, `noexpand, `chains
      ensures tail == e && numItems == 0 && log2NumBuckets == INITIAL_LOG2 && ineffExpands == 0 && !noexpand
      ensures |buckets| == |chains| == Pow2(INITIAL_LOG2)
      ensures forall b :: 0 <= b < |buckets| ==> buckets[b] == EMPTY_BUCKET
      ensures forall l, h :: BucketsOk(buckets, chains, l, h)
      ensures Concat(chains) == []
    {
      tail, numItems, log2NumBuckets := e, 0, INITIAL_LOG2;
      idealChainMaxlen, nonidealItems, ineffExpands, noexpand := 0, 0, 0, false;
      buckets, chains := NoBuckets(Pow2(INITIAL_LOG2)), NoElements(Pow2(INITIAL_LOG2));
      EmptyChains(Pow2(INITIAL_LOG2));
    }

    /** HASH_EXPAND_BUCKETS: twice as many buckets, every element moved to its new one. */
    method ExpandBuckets()
      requires Valid() && items != [] && !noexpand
      modifies `buckets, `chains, `bkt, `log2NumBuckets, `idealChainMaxlen, `nonidealItems, `ineffExpands, `noexpand
      ensures Valid() && Expanded(|old(buckets)|, old(ineffExpands))
    {
      hide BucketsOk, Concat, Excess, Pow2, KeysDistinct, Keyed, First, Last, Multiples;
      BucketsExist(buckets, chains, bkt, hashv);
      var n := |buckets|;
      SetIdealLength(2 * n);
      DistinctMultiset(items, Concat(chains));
      DoublePow2(log2NumBuckets + 1);
      hide Linked;
      buckets, chains := Redistribute(n);
      log2NumBuckets := log2NumBuckets + 1;
      JudgeExpansion();
    }

    /** The chain length each of the n buckets would have if the elements were spread evenly. */
    method SetIdealLength(n: nat)
      requires n > 0 && numItems > 0
      modifies `idealChainMaxlen
      ensures IsIdeal(n)
    {
      idealChainMaxlen := numItems / n + (if numItems % n != 0 then 1 else 0);
      AtLeastOne(numItems, n);
    }

    /** After two expansions in a row that left most elements in long chains, no more. */
    method JudgeExpansion()
      modifies `ineffExpands, `noexpand
      ensures ineffExpands == (if nonidealItems > numItems / 2 then old(ineffExpands) + 1 else 0)
      ensures noexpand == (old(noexpand) || ineffExpands > 1)
    {
      ineffExpands := if nonidealItems > numItems / 2 then ineffExpands + 1 else 0;
      if ineffExpands > 1 {
        noexpand := true;
      }
    }

    /** The loop over the old buckets. */
    method Redistribute(n: nat) returns (bs: seq<Bucket>, ghost cs: seq<seq<Ptr>>)
      requires BucketsOk(buckets, chains, bkt, hashv) && n == |buckets| && idealChainMaxlen >= 1
      requires Distinct(Concat(chains))
      modifies `bkt, `nonidealItems
      ensures BucketsOk(bs, cs, bkt, hashv) && |bs| == 2 * n
      ensures multiset(Concat(cs)) == multiset(Concat(chains))
      ensures nonidealItems == Excess(bs, idealChainMaxlen) && Multiples(bs, idealChainMaxlen)
    {
      hide BucketsOk, Concat, Excess, Distinct, Multiples;
      NoMultiples(2 * n, idealChainMaxlen);
      BucketsExist(buckets, chains, bkt, hashv);
      bs, cs := NoBuckets(2 * n), NoElements(2 * n);
      EmptyTable(2 * n, bkt, hashv, idealChainMaxlen);
      nonidealItems := 0;
      ghost var l0 := bkt;
      NoChains(chains);
      var i := 0;
      while i < n
        invariant i <= n && |bs| == 2 * n
        invariant BucketsOk(bs, cs, bkt, hashv)
        invariant multiset(Concat(cs)) == multiset(Concat(chains[..i]))
        invariant forall y :: y !in Concat(chains[..i]) ==> bkt.Next(y) == l0.Next(y)
        invariant nonidealItems == Excess(bs, idealChainMaxlen) && Multiples(bs, idealChainMaxlen)
      {
        OldChain(l0, i, cs);
        bs, cs := MoveChain(buckets[i].hd, bs, cs, chains[i]);
        ConcatNext(chains, i);
        i := i + 1;
      }
      assert chains[..n] == chains;
    }

    /** The chain about to be moved still has its links, and none of its elements has moved. */
    lemma OldChain(l0: Links, i: nat, cs: seq<seq<Ptr>>)
      requires BucketsOk(buckets, chains, l0, hashv) && i < |chains| && Distinct(Concat(chains))
      requires multiset(Concat(cs)) == multiset(Concat(chains[..i]))
      requires forall y :: y !in Concat(chains[..i]) ==> bkt.Next(y) == l0.Next(y)
      ensures |buckets| == |chains| && buckets[i].hd == First(chains[i]) && Distinct(chains[i])
      ensures forall j :: 0 <= j < |chains[i]| ==>
                chains[i][j] != NULL && chains[i][j] in hashv && chains[i][j] !in Concat(cs)
      ensures forall j {:trigger bkt.Next(chains[i][j])} :: 0 <= j < |chains[i]| ==>
                bkt.Next(chains[i][j]) == After(chains[i], j)
    {
      var c := chains[i];
      assert BucketOk(buckets[i], c, i, |buckets|, l0, hashv);
      ConcatNext(chains, i);
      SameMembers(Concat(cs), Concat(chains[..i]));
      ConcatPrefix(chains, i + 1);
      forall j | 0 <= j < |c| ensures c[j] !in Concat(chains[..i]) && bkt.Next(c[j]) == After(c, j) {
        Pieces(Concat(chains[..i]), c, Concat(chains[i + 1..]));
        NotInEarlier(Concat(chains), Concat(chains[..i]), c, j);
        LinkedAt(c, l0, j);
      }
    }

    /** Move all elements of one old chain to the new buckets; their successors in the old chain
        are read before the links are overwritten. */
    method MoveChain(hd: Ptr, bs: seq<Bucket>, ghost cs: seq<seq<Ptr>>, ghost c: seq<Ptr>)
      returns (bs': seq<Bucket>, ghost cs': seq<seq<Ptr>>)
      requires BucketsOk(bs, cs, bkt, hashv) && hd == First(c) && Distinct(c)
      requires forall i :: 0 <= i < |c| ==> c[i] != NULL && c[i] in hashv && c[i] !in Concat(cs)
      requires forall i {:trigger bkt.Next(c[i])} :: 0 <= i < |c| ==> bkt.Next(c[i]) == After(c, i)
      requires idealChainMaxlen >= 1 && nonidealItems == Excess(bs, idealChainMaxlen) && Multiples(bs, idealChainMaxlen)
      modifies `bkt, `nonidealItems
      ensures BucketsOk(bs', cs', bkt, hashv) && |bs'| == |bs|
      ensures multiset(Concat(cs')) == multiset(Concat(cs)) + multiset(c)
      ensures forall y :: y !in c ==> bkt.Next(y) == old(bkt.Next(y))
      ensures nonidealItems == Excess(bs', idealChainMaxlen) && Multiples(bs', idealChainMaxlen)
    {
      hide BucketsOk, Concat, Excess, Multiples;
      bs', cs' := bs, cs;
      var thh := hd;
      ghost var i := 0;
      while thh != NULL
        invariant i <= |c| && thh == (if i == |c| then NULL else c[i])
        invariant BucketsOk(bs', cs', bkt, hashv) && |bs'| == |bs|
        invariant multiset(Concat(cs')) == multiset(Concat(cs)) + multiset(c[..i])
        invariant forall y :: y !in c[..i] ==> bkt.Next(y) == old(bkt.Next(y))
        invariant nonidealItems == Excess(bs', idealChainMaxlen) && Multiples(bs', idealChainMaxlen)
        decreases |c| - i
      {
        assert thh !in c[..i];
        assert old(bkt.Next(c[i])) == After(c, i);
        var nxt := bkt.Next(thh);
        NotYetMoved(cs, cs', c, i);
        bs', cs' := MoveOne(thh, bs', cs');
        assert c[..i + 1] == c[..i] + [thh];
        i, thh := i + 1, nxt;
      }
      assert c[..|c|] == c;
    }

    method MoveOne(e: Ptr, bs: seq<Bucket>, ghost cs: seq<seq<Ptr>>)
      returns (bs': seq<Bucket>, ghost cs': seq<seq<Ptr>>)
      requires BucketsOk(bs, cs, bkt, hashv) && e != NULL && e in hashv && e !in Concat(cs)
      requires idealChainMaxlen >= 1 && nonidealItems == Excess(bs, idealChainMaxlen) && Multiples(bs, idealChainMaxlen)
      modifies `bkt, `nonidealItems
      ensures BucketsOk(bs', cs', bkt, hashv) && |bs'| == |bs|
      ensures multiset(Concat(cs')) == multiset(Concat(cs)) + multiset{e}
      ensures forall y :: y != e ==> bkt.Next(y) == old(bkt.Next(y))
      ensures nonidealItems == Excess(bs', idealChainMaxlen) && Multiples(bs', idealChainMaxlen)
    {
      hide BucketsOk, Concat, LinkFront, Excess, Multiples;
      BucketsExist(bs, cs, bkt, hashv);
      var b := hashv[e] % |bs|;
      PushStep(bs, cs, bkt, hashv, e, b);
      OtherNexts(bkt, e, bs[b].hd);
      var k := Pushed(bs[b], e);
      ExcessUpdate(bs, b, k, idealChainMaxlen);
      cs' := PushedChains(cs, b, e);
      bkt := LinkFront(bkt, e, bs[b].hd);
      bs' := bs[b := k];
      MultipleBefore(bs, b, idealChainMaxlen);
      MultiplesUpdate(bs, b, k.(mult := if k.count > idealChainMaxlen then k.count / idealChainMaxlen else 0),
                      idealChainMaxlen);
      if k.count > idealChainMaxlen {
        nonidealItems := nonidealItems + 1;
        MultIsFree(bs', cs', b, k.count / idealChainMaxlen, idealChainMaxlen);
        bs' := bs'[b := k.(mult := k.count / idealChainMaxlen)];
        assert bs' == bs[b := k.(mult := k.count / idealChainMaxlen)];
      }
    }

    lemma MultIsFree(bs: seq<Bucket>, cs: seq<seq<Ptr>>, b: nat, mult: nat, ideal: nat)
      requires BucketsOk(bs, cs, bkt, hashv) && b < |bs|
      ensures BucketsOk(bs[b := bs[b].(mult := mult)], cs, bkt, hashv)
      ensures Excess(bs[b := bs[b].(mult := mult)], ideal) == Excess(bs, ideal)
    {
      var bs' := bs[b := bs[b].(mult := mult)];
      forall d | 0 <= d < |bs| ensures BucketOk(bs'[d], cs[d], d, |bs|, bkt, hashv) {
        assert BucketOk(bs[d], cs[d], d, |bs|, bkt, hashv);
      }
      ExcessUpdate(bs, b, bs'[b], ideal);
    }

    /** HASH_DELETE: unlink from the application list and from the bucket; deleting the only
        element frees the table. */
    method Delete(e: Ptr) returns (ghost k: nat)
      requires Valid() && e in items
      modifies this
      ensures Valid() && keys == old(keys)
      ensures k < |old(items)| && old(items)[k] == e && items == Without(old(items), k)
      ensures items != [] ==>
                SameMults(buckets, old(buckets)) && noexpand == old(noexpand) && ineffExpands == old(ineffExpands)
    {
      hide BucketsOk, Concat, Unlink, KeysDistinct, Without, Linked;
      k :| 0 <= k < |items| && items[k] == e;
      FewerItems(k);
      if app.Prev(e) == NULL && app.Next(e) == NULL {
        head := NULL;
        items := Without(items, k);
      } else {
        DeleteLinked(e, Without(items, k));
      }
    }

    method DeleteLinked(e: Ptr, ghost rest: seq<Ptr>)
      requires rest != [] && Linked(rest, Unlink(app, e)) && KeysDistinct(rest)
      requires First(rest) == (if app.Prev(e) == NULL then app.Next(e) else head)
      requires Last(rest) == (if e == tail then app.Prev(e) else tail)
      requires numItems == |rest| + 1 && multiset(rest) == multiset(Concat(chains)) - multiset{e}
      requires BucketsOk(buckets, chains, bkt, hashv) && |buckets| == Pow2(log2NumBuckets) && e in Concat(chains)
      requires ExpansionValid()
      modifies `head, `tail, `app, `bkt, `buckets, `chains, `numItems, `items
      ensures Valid() && items == rest && SameMults(buckets, old(buckets))
    {
      hide BucketsOk, Concat, KeysDistinct, Linked, Keyed, Pow2, First, Last;
      UnlinkItem(e);
      RemoveFromItsBucket(e);
      numItems := numItems - 1;
      items := rest;
    }

    /** The application-order half of HASH_DELETE. */
    method UnlinkItem(e: Ptr)
      modifies `head, `tail, `app
      ensures app == Unlink(old(app), e)
      ensures head == if old(app).Prev(e) == NULL then old(app).Next(e) else old(head)
      ensures tail == if e == old(tail) then old(app).Prev(e) else old(tail)
    {
      if e == tail {
        tail := app.Prev(e);
      }
      if app.Prev(e) == NULL {
        head := app.Next(e);
      }
      app := Unlink(app, e);
    }

    /** What the application list looks like without its k-th element. */
    lemma FewerItems(k: nat)
      requires Valid() && k < |items|
      ensures var e, rest := items[k], Without(items, k);
              && Linked(rest, Unlink(app, e))
              && |rest| == |items| - 1
              && multiset(rest) == multiset(items) - multiset{e}
              && First(rest) == (if app.Prev(e) == NULL then app.Next(e) else head)
              && Last(rest) == (if e == tail then app.Prev(e) else tail)
              && (rest == [] <==> app.Prev(e) == NULL && app.Next(e) == NULL)
      ensures KeysDistinct(Without(items, k)) && items[k] in Concat(chains)
    {
      KeyedLess(items, keys, hashv, hash, k);
      hide Keyed, BucketsOk, Concat, Linked;
      UnlinkLinks(items, app, k);
      WithoutMembers(items, k);
      EndsWithout(items, app, k);
      SameMembers(items, Concat(chains));
      hide First, Last, Unlink, Without;
    }

    method RemoveFromItsBucket(e: Ptr)
      requires BucketsOk(buckets, chains, bkt, hashv) && e in Concat(chains)
      modifies `buckets, `chains, `bkt
      ensures BucketsOk(buckets, chains, bkt, hashv) && SameMults(buckets, old(buckets))
      ensures multiset(Concat(chains)) == multiset(old(Concat(chains))) - multiset{e}
    {
      hide BucketsOk, Concat, Unlink;
      ghost var i := PlaceOf(e);
      var b := hashv[e] % |buckets|;
      RemoveStep(buckets, chains, bkt, hashv, b, i);
      buckets := buckets[b := Removed(buckets[b], e, bkt)];
      bkt := Unlink(bkt, e);
      chains := chains[b := Without(chains[b], i)];
    }

    lemma PlaceOf(e: Ptr) returns (i: nat)
      requires BucketsOk(buckets, chains, bkt, hashv) && e in Concat(chains)
      ensures |buckets| == |chains| > 0 && e in hashv
      ensures i < |chains[hashv[e] % |buckets|]| && chains[hashv[e] % |buckets|][i] == e
    {
      ConcatMembers(chains);
      var b :| 0 <= b < |chains| && e in chains[b];
      assert BucketOk(buckets[b], chains[b], b, |buckets|, bkt, hashv);
      i :| 0 <= i < |chains[b]| && chains[b][i] == e;
    }

    /** HASH_SRT: the application-order list becomes a sorted, stable permutation of itself; the
        buckets and hence all lookups stay as they were. */
    method Sort(cmp: ListSort.Compare)
      requires Valid()
      modifies `app, `head, `tail, `items
      ensures Valid()
      ensures items == if old(items) == [] then [] else ListSort.Passes(old(items), 1, cmp)
      ensures ListSort.TotalPreorder(cmp) ==>
                && ListSort.SortedBy(items, cmp)
                && multiset(items) == multiset(old(items))
                && forall x :: ListSort.Class(x, items, cmp) == ListSort.Class(x, old(items), cmp)
    {
      hide BucketsOk, Concat, ListSort.Passes, ListSort.Class, Pow2, KeysDistinct;
      hide ListSort.TotalPreorder;
      if head != NULL {
        var l, list, t := ListSort.Sort(cmp, app, head, items);
        ListSort.PassesPermute(items, 1, cmp);
        StillDistinct(items, ListSort.Passes(items, 1, cmp));
        app, head, tail, items := l, list, t, ListSort.Passes(items, 1, cmp);
      }
      if ListSort.TotalPreorder(cmp) {
        if old(items) != [] { ListSort.SortCorrect(old(items), cmp); }
      }
    }

    lemma StillDistinct(s: seq<Ptr>, t: seq<Ptr>)
      requires KeysDistinct(s) && Distinct(s) && multiset(s) == multiset(t)
      ensures KeysDistinct(t) && |t| == |s|
    {
      DistinctMultiset(s, t);
      forall i | 0 <= i < |t| ensures t[i] in keys && t[i] in hashv && hashv[t[i]] == hash(keys[t[i]]) {
        assert t[i] in s;
        var k :| 0 <= k < |s| && s[k] == t[i];
      }
      forall i, j | 0 <= i < j < |t| ensures keys[t[i]] != keys[t[j]] {
        assert t[i] in s && t[j] in s && t[i] != t[j];
        var a :| 0 <= a < |s| && s[a] == t[i];
        var b :| 0 <= b < |s| && s[b] == t[j];
        assert a < b || b < a;
      }
    }

    /** Every element is in the bucket its hash value selects. */
    lemma InItsBucket(e: Ptr)
      requires Valid() && e in items
      ensures e in hashv && e in chains[hashv[e] % |buckets|]
    {
      ConcatMembers(chains);
      SameMembers(items, Concat(chains));
      var b :| 0 <= b < |chains| && e in chains[b];
      assert BucketOk(buckets[b], chains[b], b, |buckets|, bkt, hashv);
    }

    /** HASH_FSCK never complains: bucket counts are chain lengths and add up to the number of
        items, both lists are consistent in both directions and hold the same elements. */
    lemma FsckPasses()
      requires Valid() && head != NULL
      ensures items != [] && head == items[0] && tail == Last(items)
      ensures SumCounts(buckets) == numItems == |items|
      ensures |buckets| == |chains| == Pow2(log2NumBuckets)
      ensures forall b :: 0 <= b < |buckets| ==>
                buckets[b].count == |chains[b]| && buckets[b].hd == First(chains[b]) && Linked(chains[b], bkt)
      ensures Linked(items, app) && multiset(Concat(chains)) == multiset(items)
      ensures forall e :: e in items ==> e in hashv && e in chains[hashv[e] % |buckets|]
    {
      forall b | 0 <= b < |buckets|
        ensures buckets[b].count == |chains[b]| && buckets[b].hd == First(chains[b]) && Linked(chains[b], bkt)
      {
        assert BucketOk(buckets[b], chains[b], b, |buckets|, bkt, hashv);
      }
      CountsAddUp(buckets, chains);
      assert |multiset(Concat(chains))| == |Concat(chains)| && |multiset(items)| == |items|;
      forall e | e in items ensures e in hashv && e in chains[hashv[e] % |buckets|] {
        InItsBucket(e);
      }
    }
  }

  lemma SameMembers(s: seq<Ptr>, t: seq<Ptr>)
    requires multiset(s) == multiset(t)
    ensures forall x :: x in s <==> x in t
  {
    assert forall x :: x in s <==> x in multiset(s);
    assert forall x :: x in t <==> x in multiset(t);
  }
}

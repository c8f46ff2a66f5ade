/**
 * The master's reply cache with lazy eviction and the option comparison behind it
 * (c-master/casan/cache.cc, c-master/casan/msg.cc), section 5.6 of RFC 7252.
 */
module RequestCache {
  import opened Bytes
  import opened CoapMessage
  import opened Numeric
  import opened OptionValue
  import opened Wrappers

  const MAX_AGE := 14

  /** Bits 1 to 4 of the number are 1110: not part of the cache key. */
  predicate NoCacheKey(code: nat)
  {
    code % 32 / 2 == 14
  }

  /** Section 5.4.6 of RFC 7252: bits 2 to 4 set and bit 1, which marks unsafe options, clear. */
  lemma NoCacheKeyIff(code: nat)
    ensures NoCacheKey(code) <==> code / 2 % 2 == 0 && code / 4 % 2 == 1 && code / 8 % 2 == 1 && code / 16 % 2 == 1
  {
    var m := code % 32;
    SameBits(code / 32, m, code);
    EveryPattern(m);
  }

  lemma SameBits(q: nat, m: nat, code: nat)
    requires code == 32 * q + m
    ensures code / 2 % 2 == m / 2 % 2 && code / 4 % 2 == m / 4 % 2
    ensures code / 8 % 2 == m / 8 % 2 && code / 16 % 2 == m / 16 % 2
  {
    Half(m, 16 * q);
    Half(m / 2, 8 * q);
    Half(m / 4, 4 * q);
    Half(m / 8, 2 * q);
    Half(m / 16, q);
    Half(code, 0);
    assert code / 2 == m / 2 + 16 * q;
  }

  lemma Half(n: nat, k: nat)
    ensures (n + 2 * k) / 2 == n / 2 + k && (n + 2 * k) % 2 == n % 2
    ensures n / 2 / 2 == n / 4 && n / 4 / 2 == n / 8 && n / 8 / 2 == n / 16
  {
  }

  lemma EveryPattern(m: nat)
    requires m < 32
    ensures m / 2 == 14 <==> m / 2 % 2 == 0 && m / 4 % 2 == 1 && m / 8 % 2 == 1 && m / 16 % 2 == 1
  {
    assert m == 28 || m == 29 || m < 28 || m > 29;
    var a, b, c := m / 16, m / 8, m / 4;
    assert a <= 1 && b <= 3 && c <= 7;
    assert b == 2 * a + b % 2 && c == 2 * b + c % 2 && m / 2 == 2 * c + m / 2 % 2;
  }

  const URI_HOST := 3
  const URI_PATH := 11
  const URI_QUERY := 15
  const ACCEPT := 16           // the number in the source; in RFC 7252 it is 17
  const SIZE1 := 60

  /** Of the options of the source, only Size1 is not part of the key. */
  lemma OptionsOfTheKey()
    ensures NoCacheKey(SIZE1)
    ensures !NoCacheKey(URI_HOST) && !NoCacheKey(URI_PATH) && !NoCacheKey(URI_QUERY) && !NoCacheKey(ACCEPT)
    ensures forall code :: 0 <= code < 28 || 30 <= code < 60 || code == 35 || code == 39 ==> !NoCacheKey(code)
  {
    forall code | 0 <= code < 28 || 30 <= code < 60 ensures !NoCacheKey(code) {
      if code >= 32 { assert code % 32 == code - 32; } else { assert code % 32 == code; }
    }
    assert 60 % 32 == 28;
  }

  // ---------------------------------------------------------------- the cache key

  function KeyOptions(opts: seq<CoapOption>): seq<CoapOption>
  {
    if opts == [] then []
    else if NoCacheKey(opts[0].code) then KeyOptions(opts[1..])
    else [opts[0]] + KeyOptions(opts[1..])
  }

  predicate SameKey(a: seq<CoapOption>, b: seq<CoapOption>)
  {
    KeyOptions(StableSort(a)) == KeyOptions(StableSort(b))
  }

  lemma {:induction false} KeyOptionsOfCode(c: nat, opts: seq<CoapOption>)
    ensures OfCode(c, KeyOptions(opts)) == if NoCacheKey(c) then [] else OfCode(c, opts)
  {
    if opts != [] { KeyOptionsOfCode(c, opts[1..]); }
  }

  lemma {:induction false} KeyOptionsMembers(opts: seq<CoapOption>)
    ensures forall x :: x in KeyOptions(opts) ==> x in opts
  {
    if opts != [] { KeyOptionsMembers(opts[1..]); }
  }

  lemma {:induction false} KeyOptionsSorted(opts: seq<CoapOption>)
    requires Sorted(opts)
    ensures Sorted(KeyOptions(opts))
  {
    if opts != [] {
      KeyOptionsSorted(opts[1..]);
      KeyOptionsMembers(opts[1..]);
      var t := KeyOptions(opts[1..]);
      assert forall j :: 0 <= j < |t| ==> t[j] in t;
    }
  }

  /** The key compares, for every option number that is part of the key, the values of that
      option in their order of occurrence; nothing else matters. */
  lemma SameKeyMeaning(a: seq<CoapOption>, b: seq<CoapOption>)
    ensures SameKey(a, b) <==> forall c :: !NoCacheKey(c) ==> OfCode(c, a) == OfCode(c, b)
  {
    StableSortCorrect(a);
    StableSortCorrect(b);
    var ka, kb := KeyOptions(StableSort(a)), KeyOptions(StableSort(b));
    forall c
      ensures OfCode(c, ka) == if NoCacheKey(c) then [] else OfCode(c, a)
      ensures OfCode(c, kb) == if NoCacheKey(c) then [] else OfCode(c, b)
    {
      KeyOptionsOfCode(c, StableSort(a));
      KeyOptionsOfCode(c, StableSort(b));
    }
    if forall c :: !NoCacheKey(c) ==> OfCode(c, a) == OfCode(c, b) {
      KeyOptionsSorted(StableSort(a));
      KeyOptionsSorted(StableSort(b));
      StableSortUnique(ka, kb);
    }
  }

  lemma SameKeyIgnoresSorting(a: seq<CoapOption>, b: seq<CoapOption>)
    ensures SameKey(StableSort(a), b) == SameKey(a, b) == SameKey(a, StableSort(b))
    ensures StableSort(StableSort(a)) == StableSort(a)
  {
    StableSortCorrect(a);
    StableSortCorrect(b);
    StableSortOfSorted(StableSort(a));
    StableSortOfSorted(StableSort(b));
  }

  lemma SameKeySortedOrNot(a0: seq<CoapOption>, a: seq<CoapOption>, b0: seq<CoapOption>, b: seq<CoapOption>)
    requires a == a0 || a == StableSort(a0)
    requires b == b0 || b == StableSort(b0)
    ensures SameKey(a, b) == SameKey(a0, b0)
  {
    SameKeyIgnoresSorting(a0, b);
    SameKeyIgnoresSorting(a0, b0);
    SameKeyIgnoresSorting(b0, a0);
  }

  // ---------------------------------------------------------------- requests

  /** A request as the cache sees it. `reply` holds the options of the linked reply, if any. */
  class Request {
    const kind: Kind
    const code: byte
    var options: seq<CoapOption>
    var reply: Option<seq<CoapOption>>

    constructor (kind: Kind, code: byte, options: seq<CoapOption>)
      ensures this.kind == kind && this.code == code && this.options == options && reply == None
    {
      this.kind, this.code, this.options, reply := kind, code, options, None;
    }
  }

  ghost predicate Matches(a: Request, b: Request)
    reads a, b
  {
    a.kind == b.kind && SameKey(a.options, b.options)
  }

  method ListSort(r: Request)
    modifies r`options
    ensures r.options == StableSort(old(r.options))
  {
    r.options := StableSort(r.options);
  }

  /** The two-cursor loop over two sorted lists. */
  method CompareSorted(l1: seq<CoapOption>, l2: seq<CoapOption>) returns (r: bool)
    ensures r <==> KeyOptions(l1) == KeyOptions(l2)
  {
    hide KeyOptions;
    var i, j := 0, 0;
    assert l1[0..] == l1 && l2[0..] == l2;
    while true
      invariant i <= |l1| && j <= |l2|
      invariant KeyOptions(l1) == KeyOptions(l2) <==> KeyOptions(l1[i..]) == KeyOptions(l2[j..])
      decreases |l1| - i
    {
      i := SkipNoCacheKey(l1, i);
      j := SkipNoCacheKey(l2, j);
      FirstKey(l1, i);
      FirstKey(l2, j);
      if i == |l1| && j == |l2| {
        return true;
      } else if i == |l1| || j == |l2| {
        return false;
      } else if l1[i] == l2[j] {
        SameRest(l1[i], KeyOptions(l1[i + 1..]), KeyOptions(l2[j + 1..]));
        i, j := i + 1, j + 1;
      } else {
        return false;
      }
    }
  }

  lemma FirstKey(l: seq<CoapOption>, i: nat)
    requires i <= |l| && (i < |l| ==> !NoCacheKey(l[i].code))
    ensures KeyOptions(l[i..]) == if i == |l| then [] else [l[i]] + KeyOptions(l[i + 1..])
    ensures i < |l| ==> KeyOptions(l[i..]) != [] && KeyOptions(l[i..])[0] == l[i]
  {
    if i < |l| { assert l[i..][1..] == l[i + 1..]; }
  }

  lemma SameRest(o: CoapOption, s: seq<CoapOption>, t: seq<CoapOption>)
    ensures [o] + s == [o] + t <==> s == t
  {
    assert ([o] + s)[1..] == s && ([o] + t)[1..] == t;
  }

  method SkipNoCacheKey(l: seq<CoapOption>, start: nat) returns (i: nat)
    requires start <= |l|
    ensures start <= i <= |l| && KeyOptions(l[i..]) == KeyOptions(l[start..])
    ensures i < |l| ==> !NoCacheKey(l[i].code)
  {
    i := start;
    while i < |l| && NoCacheKey(l[i].code)
      invariant start <= i <= |l| && KeyOptions(l[i..]) == KeyOptions(l[start..])
    {
      assert l[i..][1..] == l[i + 1..];
      i := i + 1;
    }
  }

  /** cache_match; the option lists of both requests are left sorted when the types agree. */
  method CacheMatch(req: Request, m: Request) returns (r: bool)
    modifies req`options, m`options
    ensures r == old(Matches(req, m))
    ensures req.options == old(req.options) || req.options == StableSort(old(req.options))
    ensures m.options == old(m.options) || m.options == StableSort(old(m.options))
  {
    if req.kind != m.kind {
      return false;
    }
    SameKeyIgnoresSorting(req.options, m.options);
    ListSort(req);
    ListSort(m);
    r := CompareSorted(req.options, m.options);
  }

  lemma MatchesIsEquivalence(a: Request, b: Request, c: Request)
    ensures Matches(a, a)
    ensures Matches(a, b) ==> Matches(b, a)
    ensures Matches(a, b) && Matches(b, c) ==> Matches(a, c)
  {
  }

  /** What section 5.6 of RFC 7252 asks for, and the comment of cache_match announces. */
  ghost predicate MatchesByMethod(a: Request, b: Request)
    reads a, b
  {
    a.code == b.code && forall c :: !NoCacheKey(c) ==> OfCode(c, a.options) == OfCode(c, b.options)
  }

  /** The code compares the message types instead of the methods. It gives the documented answer
      exactly when types and methods agree or differ together, or the keys differ anyway. */
  lemma MatchVersusDocumentation(a: Request, b: Request)
    ensures Matches(a, b) == MatchesByMethod(a, b)
       <==> ((a.kind == b.kind) == (a.code == b.code) || !SameKey(a.options, b.options))
  {
    SameKeyMeaning(a.options, b.options);
  }

  // ---------------------------------------------------------------- the cache

  datatype Entry = Entry(expire: int, request: Request)

  /** A scan for the first unexpired match. */
  ghost function FirstMatch(h: seq<Entry>, now: int, req: Request): Option<Request>
    reads req, set e | e in h :: e.request
  {
    if h == [] then None
    else if !(now > h[0].expire) && Matches(req, h[0].request) then Some(h[0].request)
    else FirstMatch(h[1..], now, req)
  }

  function Live(h: seq<Entry>, now: int): seq<Entry>
  {
    if h == [] then []
    else if now > h[0].expire then Live(h[1..], now)
    else [h[0]] + Live(h[1..], now)
  }

  lemma {:induction false} LiveLater(h: seq<Entry>, now: int, later: int)
    requires now <= later
    ensures Live(Live(h, now), later) == Live(h, later)
  {
    if h != [] { LiveLater(h[1..], now, later); }
  }

  lemma {:induction false} LiveAppend(h: seq<Entry>, t: seq<Entry>, now: int)
    ensures Live(h + t, now) == Live(h, now) + Live(t, now)
  {
    if h == [] {
      assert h + t == t;
    } else {
      assert (h + t)[1..] == h[1..] + t;
      LiveAppend(h[1..], t, now);
    }
  }

  lemma {:induction false} LiveMembers(h: seq<Entry>, now: int)
    ensures forall i :: 0 <= i < |Live(h, now)| ==> Live(h, now)[i] in h
  {
    if h != [] { LiveMembers(h[1..], now); }
  }

  lemma {:induction false} FirstMatchIsLive(h: seq<Entry>, now: int, req: Request)
    ensures FirstMatch(h, now, req) == FirstMatch(Live(h, now), now, req)
  {
    if h != [] {
      FirstMatchIsLive(h[1..], now, req);
      if !(now > h[0].expire) {
        assert Live(h, now)[1..] == Live(h[1..], now);
      }
    }
  }

  /** The same scan with the comparison that section 5.6 asks for. */
  ghost function FirstByMethod(h: seq<Entry>, now: int, req: Request): Option<Request>
    reads req, set e | e in h :: e.request
  {
    if h == [] then None
    else if !(now > h[0].expire) && MatchesByMethod(req, h[0].request) then Some(h[0].request)
    else FirstByMethod(h[1..], now, req)
  }

  /** An unexpired entry with the same key and either the type or the method of the request, but
      not both. */
  ghost predicate Confuses(e: Entry, now: int, req: Request)
    reads req, e.request
  {
    !(now > e.expire) && SameKey(req.options, e.request.options)
    && (req.kind == e.request.kind) != (req.code == e.request.code)
  }

  /** An unexpired entry with the same key, type and method. */
  ghost predicate Agrees(e: Entry, now: int, req: Request)
    reads req, e.request
  {
    !(now > e.expire) && SameKey(req.options, e.request.options)
    && req.kind == e.request.kind && req.code == e.request.code
  }

  /** No entry confuses before the first one that agrees. */
  ghost predicate Undisturbed(h: seq<Entry>, now: int, req: Request)
    reads req, set e | e in h :: e.request
  {
    forall i :: 0 <= i < |h| && Confuses(h[i], now, req) ==> exists j :: 0 <= j < i && Agrees(h[j], now, req)
  }

  lemma UndisturbedFirst(h: seq<Entry>, now: int, req: Request)
    requires h != []
    ensures Undisturbed(h, now, req)
       <==> (Agrees(h[0], now, req) || (!Confuses(h[0], now, req) && Undisturbed(h[1..], now, req)))
  {
    hide Agrees, Confuses;
    var t := h[1..];
    if !Agrees(h[0], now, req) {
      if Undisturbed(h, now, req) {
        forall i | 0 <= i < |t| && Confuses(t[i], now, req) ensures exists j :: 0 <= j < i && Agrees(t[j], now, req) {
          assert Confuses(h[i + 1], now, req);
          var j :| 0 <= j < i + 1 && Agrees(h[j], now, req);
          assert Agrees(t[j - 1], now, req);
        }
      }
      if !Confuses(h[0], now, req) && Undisturbed(t, now, req) {
        forall i | 0 <= i < |h| && Confuses(h[i], now, req) ensures exists j :: 0 <= j < i && Agrees(h[j], now, req) {
          assert Confuses(t[i - 1], now, req);
          var j :| 0 <= j < i - 1 && Agrees(t[j], now, req);
          assert Agrees(h[j + 1], now, req);
        }
      }
    } else {
      assert forall i :: 0 <= i < |h| && Confuses(h[i], now, req) ==> i > 0 by { NeverBoth(h[0], now, req); }
    }
  }

  lemma NeverBoth(e: Entry, now: int, req: Request)
    ensures !(Agrees(e, now, req) && Confuses(e, now, req))
  {
  }

  /** What the cache answers is what section 5.6 of RFC 7252 asks for exactly if no unexpired entry
      with the same key but only one of type and method comes before the first that has both. */
  lemma {:induction false} AnswersByMethodIff(h: seq<Entry>, now: int, req: Request)
    ensures FirstMatch(h, now, req) == FirstByMethod(h, now, req) <==> Undisturbed(h, now, req)
  {
    if h != [] {
      var e := h[0];
      AnswersByMethodIff(h[1..], now, req);
      UndisturbedFirst(h, now, req);
      SameKeyMeaning(req.options, e.request.options);
      FoundMatches(h[1..], now, req);
      hide SameKey, Undisturbed;
    }
  }

  lemma {:induction false} FoundMatches(h: seq<Entry>, now: int, req: Request)
    ensures FirstMatch(h, now, req).Some? ==> Matches(req, FirstMatch(h, now, req).value)
    ensures FirstByMethod(h, now, req).Some? ==> MatchesByMethod(req, FirstByMethod(h, now, req).value)
  {
    hide Matches, MatchesByMethod;
    if h != [] { FoundMatches(h[1..], now, req); }
  }

  /** Whatever the cache answers was asked for the same resource: host, path, query and accepted format
      of both requests have the same values in the same order. */
  lemma AnswersSameResource(h: seq<Entry>, now: int, req: Request)
    requires FirstMatch(h, now, req).Some?
    ensures var r := FirstMatch(h, now, req).value;
            && r.kind == req.kind
            && OfCode(URI_PATH, r.options) == OfCode(URI_PATH, req.options)
            && OfCode(URI_QUERY, r.options) == OfCode(URI_QUERY, req.options)
            && OfCode(URI_HOST, r.options) == OfCode(URI_HOST, req.options)
            && OfCode(ACCEPT, r.options) == OfCode(ACCEPT, req.options)
  {
    FoundMatches(h, now, req);
    OptionsOfTheKey();
    SameKeyMeaning(req.options, FirstMatch(h, now, req).value.options);
    hide NoCacheKey, OfCode, SameKey;
  }

  /** It was added, and is not older than its expiry; the first such entry that matches is the answer. */
  lemma {:induction false} FirstMatchMeaning(h: seq<Entry>, now: int, req: Request)
    ensures match FirstMatch(h, now, req)
            case None => forall i :: 0 <= i < |h| ==> now > h[i].expire || !Matches(req, h[i].request)
            case Some(r) =>
              exists i :: 0 <= i < |h| && h[i].request == r && now <= h[i].expire && Matches(req, r)
                && forall j :: 0 <= j < i ==> now > h[j].expire || !Matches(req, h[j].request)
  {
    hide Matches;
    if h != [] && (now > h[0].expire || !Matches(req, h[0].request)) {
      var t := h[1..];
      FirstMatchMeaning(t, now, req);
      assert forall i :: 0 < i < |h| ==> h[i] == t[i - 1];
      if FirstMatch(t, now, req).Some? {
        var r := FirstMatch(t, now, req).value;
        var i :| 0 <= i < |t| && t[i].request == r && now <= t[i].expire && Matches(req, r)
          && forall j :: 0 <= j < i ==> now > t[j].expire || !Matches(req, t[j].request);
        assert h[i + 1] == t[i];
        forall j | 0 <= j < i + 1 ensures now > h[j].expire || !Matches(req, h[j].request) {
          if j > 0 { assert h[j] == t[j - 1]; }
        }
      }
    }
  }

  /** The Max-Age option of a reply as a long, -1 if there is none. */
  function MaxAge(opts: seq<CoapOption>): int
  {
    if opts == [] then -1
    else if opts[0].code == MAX_AGE then
      var v := BigEndian(opts[0].val) % ULONG;
      if v < ULONG / 2 then v else v - ULONG
    else MaxAge(opts[1..])
  }

  class Cache {
    var entries: seq<Entry>
    ghost var history: seq<Entry>    // everything ever added
    ghost var clock: int             // time of the last call

    /** Eviction has removed nothing that could still be an answer, now or later. */
    ghost predicate Valid()
      reads this
    {
      && (forall t :: t >= clock ==> Live(entries, t) == Live(history, t))
      && (forall i :: 0 <= i < |entries| ==> entries[i] in history)
    }

    ghost function Requests(): set<Request>
      reads this
    {
      set e | e in history :: e.request
    }

    constructor ()
      ensures Valid() && history == [] && clock == 0
    {
      entries, history, clock := [], [], 0;
    }

    /** cache::add: only a reply with a Max-Age is cacheable. */
    method Add(req: Request, now: int)
      requires Valid() && now >= clock
      modifies this
      ensures Valid() && clock == now
      ensures history == if req.reply.Some? && MaxAge(req.reply.value) != -1
                         then old(history) + [Entry(now + MaxAge(req.reply.value) * 1000, req)]
                         else old(history)
    {
      if req.reply.Some? {
        var maxage := MaxAge(req.reply.value);
        if maxage != -1 {
          var e := Entry(now + maxage * 1000, req);
          forall t | t >= now ensures Live(entries + [e], t) == Live(history + [e], t) {
            LiveAppend(entries, [e], t);
            LiveAppend(history, [e], t);
          }
          entries, history := entries + [e], history + [e];
        }
      }
      clock := now;
    }

    /** cache::get: whatever was evicted before, the answer is that of a scan of everything
        ever added. Stored requests change only in that their option lists may get sorted. */
    method Get(req: Request, now: int) returns (r: Option<Request>)
      requires Valid() && now >= clock
      modifies this, req`options, (set q | q in Requests())`options
      ensures Valid() && clock == now && history == old(history)
      ensures r == old(FirstMatch(history, now, req))
      ensures forall q :: q == req || q in old(Requests()) ==>
                q.options == old(q.options) || q.options == StableSort(old(q.options))
    {
      FirstMatchIsLive(entries, now, req);
      FirstMatchIsLive(history, now, req);
      var needToRemove;
      r, needToRemove := Scan(req, now);
      if needToRemove {
        forall t | t >= now ensures Live(Live(entries, now), t) == Live(history, t) {
          LiveLater(entries, now, t);
        }
        LiveMembers(entries, now);
        entries := Live(entries, now);
      }
      clock := now;
    }

    /** The search loop: it stops at the first unexpired match, noting expired entries on its way. */
    method Scan(req: Request, now: int) returns (r: Option<Request>, needToRemove: bool)
      modifies req`options, (set e | e in entries :: e.request)`options
      ensures r == old(FirstMatch(entries, now, req))
      ensures forall q :: q == req || q in old(set e | e in entries :: e.request) ==>
                q.options == old(q.options) || q.options == StableSort(old(q.options))
    {
      ghost var stored := set e | e in entries :: e.request;
      var i := 0;
      r, needToRemove := None, false;
      while i < |entries|
        invariant i <= |entries|
        invariant old(FirstMatch(entries[i..], now, req)) == old(FirstMatch(entries, now, req))
        invariant forall q :: q == req || q in stored ==>
                    q.options == old(q.options) || q.options == StableSort(old(q.options))
      {
        var e := entries[i];
        assert entries[i..][1..] == entries[i + 1..];
        if now > e.expire {
          needToRemove := true;
        } else {
          SameKeySortedOrNot(old(req.options), req.options, old(e.request.options), e.request.options);
          forall q | q == req || q in stored
            ensures StableSort(StableSort(old(q.options))) == StableSort(old(q.options)) {
            SameKeyIgnoresSorting(old(q.options), []);
          }
          var found := CacheMatch(req, e.request);
          if found {
            r := Some(e.request);
            return;
          }
        }
        i := i + 1;
      }
    }
  }

  const CON: Kind := 0
  const GET: byte := 1
  const PUT: byte := 3

  lemma MinuteOld()
    ensures MaxAge([CoapOption(14, [60])]) == 60 && MaxAge([]) == -1
    ensures forall opts: seq<CoapOption> :: (forall i :: 0 <= i < |opts| ==> opts[i].code != 14) ==> MaxAge(opts) == -1
  {
    assert [60][..0] == [];
    assert BigEndian([60]) == 60;
    forall opts: seq<CoapOption> | forall i :: 0 <= i < |opts| ==> opts[i].code != 14 ensures MaxAge(opts) == -1 {
      NoMaxAge(opts);
    }
  }

  lemma {:induction false} NoMaxAge(opts: seq<CoapOption>)
    requires forall i :: 0 <= i < |opts| ==> opts[i].code != MAX_AGE
    ensures MaxAge(opts) == -1
  {
    if opts != [] { NoMaxAge(opts[1..]); }
  }

  /** The first Max-Age option counts, as a signed number of 64 bits. */
  lemma {:induction false} MaxAgeMeaning(opts: seq<CoapOption>, i: nat)
    requires i < |opts| && opts[i].code == 14 && forall j :: 0 <= j < i ==> opts[j].code != 14
    ensures var age, v := MaxAge(opts), BigEndian(opts[i].val);
            && -0x8000_0000_0000_0000 <= age < 0x8000_0000_0000_0000
            && (age - v) % 0x1_0000_0000_0000_0000 == 0
            && (v < 0x8000_0000_0000_0000 ==> age == v)
  {
    if i > 0 { MaxAgeMeaning(opts[1..], i - 1); }
  }

  /** After a GET with the same options has been cached, a PUT is answered with its reply. */
  method PutAnsweredFromGet(path: seq<CoapOption>) returns (get: Request, put: Request, r: Option<Request>)
    ensures get.kind == put.kind && get.code == GET && put.code == PUT
    ensures Matches(put, get) && !MatchesByMethod(put, get)
    ensures r == Some(get)
  {
    hide MaxAge, StableSort, SameKey, OfCode;
    MinuteOld();
    var cache := new Cache();
    get := new Request(CON, GET, path);
    get.reply := Some([CoapOption(MAX_AGE, [60])]);
    cache.Add(get, 0);
    put := new Request(CON, PUT, path);
    var h := [Entry(60000, get)];
    assert cache.history == h;
    MatchesItself(put, get);
    assert FirstMatch(h, 1, put) == Some(get);
    r := cache.Get(put, 1);
    MatchesAfterSorting(path, put.options, get.options);
  }

  lemma MatchesItself(a: Request, b: Request)
    requires a.kind == b.kind && a.options == b.options
    ensures Matches(a, b)
  {
  }

  lemma MatchesAfterSorting(options: seq<CoapOption>, a: seq<CoapOption>, b: seq<CoapOption>)
    requires (a == options || a == StableSort(options)) && (b == options || b == StableSort(options))
    ensures SameKey(a, b)
  {
    SameKeySortedOrNot(options, a, options, b);
  }
}

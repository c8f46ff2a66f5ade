/**
 * CoAP messages and their option lists (c-master/casan/msg.h, option.h), with the stable
 * sort by option number that both encoders rely on.
 */
module CoapMessage {
  import opened Bytes

  datatype CoapOption = CoapOption(code: nat, val: seq<byte>)

  type Kind = x: int | 0 <= x < 4            // CON, NON, ACK, RST
  type MessageId = x: int | 0 <= x < 0x10000

  datatype Message = Message(
    kind: Kind, code: byte, id: MessageId, token: seq<byte>, options: seq<CoapOption>, payload: seq<byte>)

  predicate Sorted(s: seq<CoapOption>)
  {
    forall i, j :: 0 <= i < j < |s| ==> s[i].code <= s[j].code
  }

  /** Insertion after every option with the same or a smaller number. */
  function Insert(o: CoapOption, s: seq<CoapOption>): seq<CoapOption>
  {
    if s == [] || o.code < s[0].code then [o] + s
    else [s[0]] + Insert(o, s[1..])
  }

  /** Sorting by option number, equal numbers in their original order. */
  function StableSort(s: seq<CoapOption>): seq<CoapOption>
  {
    if s == [] then [] else Insert(s[|s| - 1], StableSort(s[..|s| - 1]))
  }

  /** The options with number `c`, in list order. */
  function OfCode(c: nat, s: seq<CoapOption>): seq<CoapOption>
  {
    if s == [] then []
    else if s[0].code == c then [s[0]] + OfCode(c, s[1..])
    else OfCode(c, s[1..])
  }

  lemma {:induction false} InsertCodes(o: CoapOption, s: seq<CoapOption>)
    ensures |Insert(o, s)| == |s| + 1
    ensures multiset(Insert(o, s)) == multiset(s) + multiset{o}
    ensures forall x :: x in Insert(o, s) <==> x in s || x == o
  {
    if s != [] && o.code >= s[0].code {
      InsertCodes(o, s[1..]);
      assert s == [s[0]] + s[1..];
    }
  }

  lemma {:induction false} InsertSorted(o: CoapOption, s: seq<CoapOption>)
    requires Sorted(s)
    ensures Sorted(Insert(o, s))
  {
    if s != [] && o.code >= s[0].code {
      InsertSorted(o, s[1..]);
      InsertCodes(o, s[1..]);
      var t := Insert(o, s[1..]);
      assert forall j :: 0 <= j < |t| ==> t[j] in t;
    }
  }

  lemma {:induction false} OfCodeAppend(c: nat, s: seq<CoapOption>, t: seq<CoapOption>)
    ensures OfCode(c, s + t) == OfCode(c, s) + OfCode(c, t)
  {
    if s == [] {
      assert s + t == t;
    } else {
      assert (s + t)[1..] == s[1..] + t;
      OfCodeAppend(c, s[1..], t);
    }
  }

  lemma {:induction false} OfCodeAbsent(c: nat, s: seq<CoapOption>)
    requires forall x :: x in s ==> x.code != c
    ensures OfCode(c, s) == []
  {
    if s != [] { OfCodeAbsent(c, s[1..]); }
  }

  lemma {:induction false} InsertOfCode(c: nat, o: CoapOption, s: seq<CoapOption>)
    requires Sorted(s)
    ensures OfCode(c, Insert(o, s)) == OfCode(c, s + [o])
  {
    OfCodeAppend(c, s, [o]);
    if s == [] || o.code < s[0].code {
      OfCodeAppend(c, [o], s);
      if c == o.code { OfCodeAbsent(c, s); }
    } else {
      InsertOfCode(c, o, s[1..]);
      OfCodeAppend(c, s[1..], [o]);
    }
  }

  /** Sorted, a permutation, and stable: options with one number keep their order. */
  lemma {:induction false} StableSortCorrect(s: seq<CoapOption>)
    ensures Sorted(StableSort(s))
    ensures multiset(StableSort(s)) == multiset(s)
    ensures forall c :: OfCode(c, StableSort(s)) == OfCode(c, s)
  {
    if s != [] {
      var front, o := s[..|s| - 1], s[|s| - 1];
      assert s == front + [o];
      StableSortCorrect(front);
      InsertCodes(o, StableSort(front));
      InsertSorted(o, StableSort(front));
      forall c ensures OfCode(c, StableSort(s)) == OfCode(c, s) {
        InsertOfCode(c, o, StableSort(front));
        OfCodeAppend(c, StableSort(front), [o]);
        OfCodeAppend(c, front, [o]);
      }
    }
  }

  lemma {:induction false} OfCodeFirst(s: seq<CoapOption>, t: seq<CoapOption>)
    requires Sorted(s) && s != [] && Sorted(t)
    requires forall c :: OfCode(c, s) == OfCode(c, t)
    ensures t != [] && t[0].code <= s[0].code
  {
    var c := s[0].code;
    assert OfCode(c, s) != [];
    if t == [] || c < t[0].code {
      OfCodeAbsent(c, t);
    }
  }

  /** Sortedness and stability determine the result, so every stable sort computes it. */
  lemma {:induction false} StableSortUnique(s: seq<CoapOption>, t: seq<CoapOption>)
    requires Sorted(s) && Sorted(t)
    requires forall c :: OfCode(c, s) == OfCode(c, t)
    ensures s == t
  {
    if s == [] {
      if t != [] { OfCodeFirst(t, s); }
    } else {
      OfCodeFirst(s, t);
      OfCodeFirst(t, s);
      var c := s[0].code;
      assert OfCode(c, s)[0] == s[0] && OfCode(c, t)[0] == t[0];
      forall d ensures OfCode(d, s[1..]) == OfCode(d, t[1..]) {
        assert OfCode(d, s) == OfCode(d, t);
        if d == c {
          assert OfCode(d, s)[1..] == OfCode(d, s[1..]) && OfCode(d, t)[1..] == OfCode(d, t[1..]);
        }
      }
      StableSortUnique(s[1..], t[1..]);
    }
  }

  lemma StableSortOfSorted(s: seq<CoapOption>)
    requires Sorted(s)
    ensures StableSort(s) == s
  {
    StableSortCorrect(s);
    StableSortUnique(StableSort(s), s);
  }
}

/** Dictionary verification: `dictionary.OrderBy(p => p.Key)` followed by one
    formatted line per entry.

    A dictionary is seen the way `OrderBy` sees it: as its enumeration, a
    sequence of key/value pairs in some unspecified order, with distinct keys.
    Keys are integers, ordered ascending. */
module Dictionaries {
  import Shaping

  type Entry<V> = (int, V)

  /** No key is enumerated twice, as for every IDictionary. */
  predicate DistinctKeys<V>(es: seq<Entry<V>>) {
    forall i, j :: 0 <= i < j < |es| ==> es[i].0 != es[j].0
  }

  /** Keys in non-decreasing order: what OrderBy guarantees for any input. */
  predicate NonDecreasing<V>(es: seq<Entry<V>>) {
    forall i, j :: 0 <= i < j < |es| ==> es[i].0 <= es[j].0
  }

  /** Keys strictly ascending, hence each listed once. */
  predicate AscendingKeys<V>(es: seq<Entry<V>>) {
    forall i, j :: 0 <= i < j < |es| ==> es[i].0 < es[j].0
  }

  /** Insert an entry in front of the first entry whose key is not smaller,
      so an entry inserted later goes before equal keys already present. */
  function Insert<V>(e: Entry<V>, sorted: seq<Entry<V>>): (r: seq<Entry<V>>)
    ensures multiset(r) == multiset(sorted) + multiset{e}
    ensures NonDecreasing(sorted) ==> NonDecreasing(r)
    ensures AscendingKeys(sorted) && (forall x :: x in sorted ==> x.0 != e.0) ==> AscendingKeys(r)
  {
    if sorted == [] || e.0 <= sorted[0].0 then
      InsertInFront(e, sorted);
      [e] + sorted
    else
      var tail := Insert(e, sorted[1..]);
      assert sorted == [sorted[0]] + sorted[1..];
      InsertedMembers(e, sorted[1..], tail);
      InsertBehindKeepsOrder(sorted[0], e, sorted[1..], tail);
      InsertBehindKeepsAscending(sorted[0], e, sorted[1..], tail);
      [sorted[0]] + tail
  }

  /** Base case of Insert: an entry not above the first key goes in front. */
  lemma InsertInFront<V>(e: Entry<V>, sorted: seq<Entry<V>>)
    requires sorted == [] || e.0 <= sorted[0].0
    ensures NonDecreasing(sorted) ==> NonDecreasing([e] + sorted)
    ensures AscendingKeys(sorted) && (forall x :: x in sorted ==> x.0 != e.0) ==> AscendingKeys([e] + sorted)
  {
    var r := [e] + sorted;
    forall j | 0 < j < |r|
      ensures r[j] == sorted[j - 1]
    {
    }
    if NonDecreasing(sorted) {
      forall i, j | 0 <= i < j < |r|
        ensures r[i].0 <= r[j].0
      {
        assert sorted[0].0 <= sorted[j - 1].0;
      }
    }
    if AscendingKeys(sorted) && (forall x :: x in sorted ==> x.0 != e.0) {
      forall i, j | 0 <= i < j < |r|
        ensures r[i].0 < r[j].0
      {
        assert sorted[0].0 <= sorted[j - 1].0;
        assert sorted[j - 1] in sorted;
      }
    }
  }

  /** What inserting into `rest` produced: `e` and the entries of `rest`. */
  lemma InsertedMembers<V>(e: Entry<V>, rest: seq<Entry<V>>, tail: seq<Entry<V>>)
    requires multiset(tail) == multiset(rest) + multiset{e}
    ensures forall x :: x in tail ==> x == e || x in rest
  {
    forall x | x in tail
      ensures x == e || x in rest
    {
      assert x in multiset(tail);
    }
  }

  /** Step case of Insert for NonDecreasing: an entry below the inserted key
      stays in front of the result of inserting into the rest. */
  lemma InsertBehindKeepsOrder<V>(head: Entry<V>, e: Entry<V>, rest: seq<Entry<V>>, tail: seq<Entry<V>>)
    requires head.0 < e.0
    requires forall x :: x in tail ==> x == e || x in rest
    requires NonDecreasing(rest) ==> NonDecreasing(tail)
    ensures NonDecreasing([head] + rest) ==> NonDecreasing([head] + tail)
  {
    var s, r := [head] + rest, [head] + tail;
    if NonDecreasing(s) {
      assert NonDecreasing(rest) by {
        forall i, j | 0 <= i < j < |rest|
          ensures rest[i].0 <= rest[j].0
        {
          assert rest[i] == s[i + 1] && rest[j] == s[j + 1];
        }
      }
      forall x | x in tail
        ensures head.0 <= x.0
      {
        if x != e {
          var j :| 0 <= j < |rest| && rest[j] == x;
          assert s[j + 1] == x && s[0] == head;
          assert s[0].0 <= s[j + 1].0;
        }
      }
      forall i, j | 0 <= i < j < |r|
        ensures r[i].0 <= r[j].0
      {
        assert r[j] == tail[j - 1];
        if i > 0 {
          assert r[i] == tail[i - 1];
        } else {
          assert r[j] in tail;
        }
      }
    }
  }

  /** Step case of Insert for AscendingKeys, when the inserted key is new. */
  lemma InsertBehindKeepsAscending<V>(head: Entry<V>, e: Entry<V>, rest: seq<Entry<V>>, tail: seq<Entry<V>>)
    requires head.0 < e.0
    requires forall x :: x in tail ==> x == e || x in rest
    requires AscendingKeys(rest) && (forall x :: x in rest ==> x.0 != e.0) ==> AscendingKeys(tail)
    ensures AscendingKeys([head] + rest) && (forall x :: x in [head] + rest ==> x.0 != e.0) ==>
              AscendingKeys([head] + tail)
  {
    var s, r := [head] + rest, [head] + tail;
    if AscendingKeys(s) && (forall x :: x in s ==> x.0 != e.0) {
      assert AscendingKeys(rest) by {
        forall i, j | 0 <= i < j < |rest|
          ensures rest[i].0 < rest[j].0
        {
          assert rest[i] == s[i + 1] && rest[j] == s[j + 1];
        }
      }
      forall x | x in rest
        ensures x.0 != e.0
      {
        assert x in s;
      }
      forall x | x in tail
        ensures head.0 < x.0
      {
        if x != e {
          var j :| 0 <= j < |rest| && rest[j] == x;
          assert s[j + 1] == x && s[0] == head;
          assert s[0].0 < s[j + 1].0;
        }
      }
      forall i, j | 0 <= i < j < |r|
        ensures r[i].0 < r[j].0
      {
        assert r[j] == tail[j - 1];
        if i > 0 {
          assert r[i] == tail[i - 1];
        } else {
          assert r[j] in tail;
        }
      }
    }
  }

  /** Every entry of a listing of the rest has a key other than the front
      entry's. */
  lemma FrontKeyIsFresh<V>(es: seq<Entry<V>>, sorted: seq<Entry<V>>)
    requires |es| != 0 && DistinctKeys(es)
    requires multiset(sorted) == multiset(es[1..])
    ensures forall x :: x in sorted ==> x.0 != es[0].0
  {
    forall x | x in sorted
      ensures x.0 != es[0].0
    {
      assert x in multiset(es[1..]);
      var j :| 0 <= j < |es[1..]| && es[1..][j] == x;
      assert es[j + 1] == x;
    }
  }

  /** dictionary.OrderBy(p => p.Key): a sort by key (stability is not
      claimed). The result holds exactly the enumerated entries, in
      non-decreasing key order, and in strictly ascending order when keys
      are distinct. */
  function OrderBy<V>(es: seq<Entry<V>>): (r: seq<Entry<V>>)
    ensures multiset(r) == multiset(es)
    ensures NonDecreasing(r)
    ensures DistinctKeys(es) ==> AscendingKeys(r)
  {
    if es == [] then []
    else
      var sorted := OrderBy(es[1..]);
      assert es == [es[0]] + es[1..];
      assert DistinctKeys(es) ==> DistinctKeys(es[1..]);
      if DistinctKeys(es) then
        FrontKeyIsFresh(es, sorted);
        Insert(es[0], sorted)
      else
        Insert(es[0], sorted)
  }

  /** Removing the front of two equal-fronted multisets keeps them equal. */
  lemma DropFront<V>(a: seq<Entry<V>>, b: seq<Entry<V>>)
    requires |a| != 0 && |b| != 0 && a[0] == b[0]
    requires multiset(a) == multiset(b)
    ensures multiset(a[1..]) == multiset(b[1..])
  {
    assert a == [a[0]] + a[1..];
    assert b == [b[0]] + b[1..];
    assert multiset(a) == multiset{a[0]} + multiset(a[1..]);
    assert multiset(b) == multiset{a[0]} + multiset(b[1..]);
    assert multiset(a[1..]) == multiset(a) - multiset{a[0]};
  }

  /** Two arrangements of the same entries in ascending key order have the
      same first entry. */
  lemma SameFront<V>(a: seq<Entry<V>>, b: seq<Entry<V>>)
    requires AscendingKeys(a) && AscendingKeys(b)
    requires multiset(a) == multiset(b) && |a| != 0
    ensures |b| != 0 && a[0] == b[0]
  {
    assert a[0] in multiset(b);
    var j :| 0 <= j < |b| && b[j] == a[0];
    assert b[0] in multiset(a);
    var i :| 0 <= i < |a| && a[i] == b[0];
    assert a[0].0 <= a[i].0;
    assert b[0].0 <= b[j].0;
    assert i == 0;
  }

  /** The ascending arrangement of a collection of entries is unique. */
  lemma {:induction false} AscendingArrangementIsUnique<V>(a: seq<Entry<V>>, b: seq<Entry<V>>)
    requires AscendingKeys(a) && AscendingKeys(b)
    requires multiset(a) == multiset(b)
    ensures a == b
    decreases |a|
  {
    if |a| == 0 {
      assert |b| == |multiset(b)|;
    } else {
      SameFront(a, b);
      DropFront(a, b);
      AscendingArrangementIsUnique(a[1..], b[1..]);
      assert a == [a[0]] + a[1..];
      assert b == [b[0]] + b[1..];
    }
  }

  /** OrderBy is the one ascending listing of a dictionary's entries. */
  lemma {:induction false} OrderByIsTheAscendingListing<V>(d: seq<Entry<V>>, es: seq<Entry<V>>)
    requires DistinctKeys(d)
    requires AscendingKeys(es) && multiset(es) == multiset(d)
    ensures es == OrderBy(d)
  {
    AscendingArrangementIsUnique(es, OrderBy(d));
  }

  /** The order in which the dictionary enumerates its entries does not
      matter: the same entries give the same ordering. */
  lemma {:induction false} OrderByIgnoresEnumerationOrder<V>(d1: seq<Entry<V>>, d2: seq<Entry<V>>)
    requires DistinctKeys(d1) && DistinctKeys(d2)
    requires multiset(d1) == multiset(d2)
    ensures OrderBy(d1) == OrderBy(d2)
  {
    AscendingArrangementIsUnique(OrderBy(d1), OrderBy(d2));
  }

  /** One formatted line per ordered entry. */
  function Render<V>(es: seq<Entry<V>>, format: (int, V) -> string): (lines: seq<string>)
    ensures |lines| == |es|
    ensures forall i :: 0 <= i < |es| ==> lines[i] == format(es[i].0, es[i].1)
  {
    seq(|es|, i requires 0 <= i < |es| => format(es[i].0, es[i].1))
  }

  /** The default dictionary rendering: entries by ascending key, each as
      `"{key} => {value}"`. */
  function DefaultLines(d: seq<Entry<string>>): (lines: seq<string>)
    ensures |lines| == |d|
  {
    assert |OrderBy(d)| == |multiset(OrderBy(d))| == |multiset(d)| == |d|;
    Render(OrderBy(d), Shaping.ArrowFormat)
  }

  lemma SameLinesSameEntries(e1: seq<Entry<string>>, e2: seq<Entry<string>>)
    requires Render(e1, Shaping.ArrowFormat) == Render(e2, Shaping.ArrowFormat)
    ensures e1 == e2
  {
    forall i | 0 <= i < |e1|
      ensures e1[i] == e2[i]
    {
      assert Render(e1, Shaping.ArrowFormat)[i] == Render(e2, Shaping.ArrowFormat)[i];
      Shaping.ArrowFormatInjective(e1[i].0, e1[i].1, e2[i].0, e2[i].1);
    }
  }

  /** The default rendering is exact: two dictionaries render to the same
      lines if and only if they hold the same entries. */
  lemma {:induction false} DefaultLinesDetermineDictionary(d1: seq<Entry<string>>, d2: seq<Entry<string>>)
    requires DistinctKeys(d1) && DistinctKeys(d2)
    ensures DefaultLines(d1) == DefaultLines(d2) <==> multiset(d1) == multiset(d2)
  {
    if DefaultLines(d1) == DefaultLines(d2) {
      SameLinesSameEntries(OrderBy(d1), OrderBy(d2));
    }
    if multiset(d1) == multiset(d2) {
      OrderByIgnoresEnumerationOrder(d1, d2);
    }
  }
}

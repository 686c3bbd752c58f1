/**
 * Plain JavaScript objects with string values, as the manifest's sub-objects
 * hold them (`dependencies`, `devDependencies`, `scripts`): an association
 * list whose order is the object's key order. Lookup `o[k]`, assignment
 * `o[k] = v`, `Object.assign(target, source)`, and the rebuild of an object
 * in the order of `Object.keys(o).sort()`.
 */
module JsObject {
  import opened Wrappers

  /** An object: its properties in key order. */
  type Entries = seq<(string, string)>

  /** `Object.keys(e)`. */
  function Keys(e: Entries): (ks: seq<string>)
    ensures |ks| == |e| && forall i :: 0 <= i < |e| ==> ks[i] == e[i].0
  {
    seq(|e|, i requires 0 <= i < |e| => e[i].0)
  }

  /** A JavaScript object never holds the same key twice. */
  predicate UniqueKeys(e: Entries) {
    forall i, j :: 0 <= i < j < |e| ==> e[i].0 != e[j].0
  }

  /** The slot of key `k`, or -1. */
  function IndexOfKey(e: Entries, k: string): (r: int)
    ensures -1 <= r < |e|
    ensures r == -1 ==> forall i :: 0 <= i < |e| ==> e[i].0 != k
    ensures 0 <= r ==> e[r].0 == k && forall i :: 0 <= i < r ==> e[i].0 != k
  {
    if e == [] then -1
    else if e[0].0 == k then 0
    else
      var r := IndexOfKey(e[1..], k);
      if r == -1 then -1 else r + 1
  }

  /** `o[k]`: the value of key `k`, or `None` for `undefined`. */
  function Get(e: Entries, k: string): (r: Option<string>)
    ensures r.None? <==> k !in Keys(e)
    ensures r.Some? ==> (k, r.value) in e
  {
    var i := IndexOfKey(e, k);
    if i < 0 then
      None
    else
      assert Keys(e)[i] == k;
      Some(e[i].1)
  }

  /** `o[k] = v`: an existing key keeps its slot, a new key is appended. */
  function Put(e: Entries, k: string, v: string): Entries {
    var i := IndexOfKey(e, k);
    if i < 0 then e + [(k, v)] else e[i := (k, v)]
  }

  /** `Object.assign(target, source)`: the properties of `source` are put into `target` in order. */
  function Assign(target: Entries, source: Entries): Entries
    decreases |source|
  {
    if source == [] then target
    else Assign(Put(target, source[0].0, source[0].1), source[1..])
  }

  /** The keys of `ks` that `existing` lacks, in the order of `ks`. */
  function NewKeys(existing: seq<string>, ks: seq<string>): seq<string> {
    if ks == [] then []
    else (if ks[0] in existing then [] else [ks[0]]) + NewKeys(existing, ks[1..])
  }

  lemma KeysCons(e: Entries)
    requires e != []
    ensures Keys(e) == [e[0].0] + Keys(e[1..])
  {
  }

  lemma KeyIn(e: Entries, i: nat)
    requires i < |e|
    ensures e[i].0 in Keys(e)
  {
    assert Keys(e)[i] == e[i].0;
  }

  lemma EntryKeyIn(e: Entries, x: (string, string))
    requires x in e
    ensures x.0 in Keys(e)
  {
    var i :| 0 <= i < |e| && e[i] == x;
    KeyIn(e, i);
  }

  /** With unique keys, an entry's value is determined by its key. */
  lemma UniqueValue(e: Entries, k: string, v: string, w: string)
    requires UniqueKeys(e) && (k, v) in e && (k, w) in e
    ensures v == w
  {
    var i :| 0 <= i < |e| && e[i] == (k, v);
    var j :| 0 <= j < |e| && e[j] == (k, w);
    assert i == j;
  }

  /** With unique keys, `Get` finds exactly the entries. */
  lemma GetIn(e: Entries, k: string, v: string)
    requires UniqueKeys(e)
    ensures Get(e, k) == Some(v) <==> (k, v) in e
  {
    if (k, v) in e {
      EntryKeyIn(e, (k, v));
      UniqueValue(e, k, v, Get(e, k).value);
    }
  }

  lemma PutKeys(e: Entries, k: string, v: string)
    ensures Keys(Put(e, k, v)) == if k in Keys(e) then Keys(e) else Keys(e) + [k]
  {
    var i := IndexOfKey(e, k);
    if i >= 0 {
      assert Keys(e)[i] == k;
    }
  }

  lemma PutGet(e: Entries, k: string, v: string, k': string)
    ensures Get(Put(e, k, v), k') == if k' == k then Some(v) else Get(e, k')
  {
    var i := IndexOfKey(e, k);
    var r := Put(e, k, v);
    var j := IndexOfKey(r, k');
    var j0 := IndexOfKey(e, k');
    if i < 0 {
      assert r[|e|] == (k, v);
      if k' != k {
        if j0 >= 0 {
          assert r[j0] == e[j0];
        }
        if j >= 0 {
          assert j < |e| && r[j] == e[j];
        }
        assert j == j0;
      }
    } else {
      assert r[i] == (k, v);
      if k' != k {
        if j0 >= 0 {
          assert r[j0] == e[j0];
        }
        if j >= 0 {
          assert j != i && r[j] == e[j];
        }
        assert j == j0;
      }
    }
  }

  lemma PutUnique(e: Entries, k: string, v: string)
    requires UniqueKeys(e)
    ensures UniqueKeys(Put(e, k, v))
  {
  }

  /** `Put` of a key already holding that value changes nothing. */
  lemma PutPresent(e: Entries, k: string, v: string)
    requires UniqueKeys(e) && Get(e, k) == Some(v)
    ensures Put(e, k, v) == e
  {
    var i := IndexOfKey(e, k);
    assert e[i] == (k, v);
  }

  /** The first key of an object does not occur again after it. */
  lemma HeadKeyNotInTail(s: Entries)
    requires UniqueKeys(s) && s != []
    ensures s[0].0 !in Keys(s[1..])
  {
    forall j | 0 <= j < |s| - 1
      ensures Keys(s[1..])[j] != s[0].0
    {
      assert s[1..][j] == s[j + 1];
    }
  }

  lemma NewKeysSkip(existing: seq<string>, k: string, ks: seq<string>)
    requires k !in ks
    ensures NewKeys(existing + [k], ks) == NewKeys(existing, ks)
  {
    if ks != [] {
      NewKeysSkip(existing, k, ks[1..]);
    }
  }

  lemma NewKeysMember(existing: seq<string>, ks: seq<string>, k: string)
    ensures k in NewKeys(existing, ks) <==> k in ks && k !in existing
  {
    if ks != [] {
      NewKeysMember(existing, ks[1..], k);
    }
  }

  /**
   * `Object.assign` keeps every existing key in its slot and appends the keys
   * new to the target after them, in the order the source has them.
   */
  lemma {:induction false} AssignKeys(t: Entries, s: Entries)
    requires UniqueKeys(s)
    ensures Keys(Assign(t, s)) == Keys(t) + NewKeys(Keys(t), Keys(s))
    decreases |s|
  {
    if s != [] {
      var t' := Put(t, s[0].0, s[0].1);
      assert UniqueKeys(s[1..]);
      AssignKeys(t', s[1..]);
      assert Assign(t, s) == Assign(t', s[1..]);
      AssignKeysStep(t, s);
    }
  }

  /** One property of `Object.assign`: the head key goes in its slot or at the end. */
  lemma AssignKeysStep(t: Entries, s: Entries)
    requires UniqueKeys(s) && s != []
    ensures var t' := Put(t, s[0].0, s[0].1);
      Keys(t') + NewKeys(Keys(t'), Keys(s[1..])) == Keys(t) + NewKeys(Keys(t), Keys(s))
  {
    PutKeys(t, s[0].0, s[0].1);
    KeysCons(s);
    HeadKeyNotInTail(s);
    NewKeysStep(Keys(t), s[0].0, Keys(s[1..]));
  }

  /** Adding key `k` to the existing keys, then the new keys of the rest, is the new keys of `[k] + ks`. */
  lemma NewKeysStep(existing: seq<string>, k: string, ks: seq<string>)
    requires k !in ks
    ensures var e := if k in existing then existing else existing + [k];
      e + NewKeys(e, ks) == existing + NewKeys(existing, [k] + ks)
  {
    assert ([k] + ks)[0] == k && ([k] + ks)[1..] == ks;
    var rest := NewKeys(existing, ks);
    if k in existing {
      assert NewKeys(existing, [k] + ks) == [] + rest;
    } else {
      assert NewKeys(existing, [k] + ks) == [k] + rest;
      NewKeysSkip(existing, k, ks);
      assert (existing + [k]) + rest == existing + ([k] + rest);
    }
  }

  /** After `Object.assign`, the source's values win and the other keys keep theirs. */
  lemma {:induction false} AssignGet(t: Entries, s: Entries, k: string)
    requires UniqueKeys(s)
    ensures Get(Assign(t, s), k) == if k in Keys(s) then Get(s, k) else Get(t, k)
    decreases |s|
  {
    if s != [] {
      var k0, v0 := s[0].0, s[0].1;
      AssignGet(Put(t, k0, v0), s[1..], k);
      PutGet(t, k0, v0, k);
      KeysCons(s);
      if k == k0 {
        HeadKeyNotInTail(s);
        assert IndexOfKey(s, k) == 0;
      } else if k in Keys(s[1..]) {
        var g := Get(s[1..], k).value;
        GetIn(s[1..], k, g);
        GetIn(s, k, g);
      }
    }
  }

  lemma {:induction false} AssignUnique(t: Entries, s: Entries)
    requires UniqueKeys(t)
    ensures UniqueKeys(Assign(t, s))
    decreases |s|
  {
    if s != [] {
      PutUnique(t, s[0].0, s[0].1);
      AssignUnique(Put(t, s[0].0, s[0].1), s[1..]);
    }
  }

  /** Assigning properties the target already has, with the same values, changes nothing. */
  lemma {:induction false} AssignPresent(t: Entries, s: Entries)
    requires UniqueKeys(t)
    requires forall i :: 0 <= i < |s| ==> Get(t, s[i].0) == Some(s[i].1)
    ensures Assign(t, s) == t
    decreases |s|
  {
    if s != [] {
      PutPresent(t, s[0].0, s[0].1);
      AssignPresent(t, s[1..]);
    }
  }

  /** The order of the default `Array.prototype.sort` on strings: lexicographic by character. */
  predicate Below(a: string, b: string)
    decreases |a|
  {
    if a == [] then b != []
    else if b == [] then false
    else if a[0] == b[0] then Below(a[1..], b[1..])
    else a[0] < b[0]
  }

  lemma {:induction false} BelowIrreflexive(a: string)
    ensures !Below(a, a)
    decreases |a|
  {
    if a != [] {
      BelowIrreflexive(a[1..]);
    }
  }

  lemma {:induction false} BelowTotal(a: string, b: string)
    requires a != b
    ensures Below(a, b) || Below(b, a)
    decreases |a|
  {
    if a != [] && b != [] && a[0] == b[0] {
      assert a == [a[0]] + a[1..] && b == [b[0]] + b[1..];
      BelowTotal(a[1..], b[1..]);
    }
  }

  lemma {:induction false} BelowAsymmetric(a: string, b: string)
    ensures !(Below(a, b) && Below(b, a))
    decreases |a|
  {
    if a != [] && b != [] && a[0] == b[0] {
      BelowAsymmetric(a[1..], b[1..]);
    }
  }

  lemma {:induction false} BelowTransitive(a: string, b: string, c: string)
    requires Below(a, b) && Below(b, c)
    ensures Below(a, c)
    decreases |a|
  {
    if a != [] && b != [] && c != [] && a[0] == b[0] && b[0] == c[0] {
      BelowTransitive(a[1..], b[1..], c[1..]);
    }
  }

  /** Keys in strictly ascending order. */
  predicate Ascending(e: Entries) {
    forall i, j :: 0 <= i < j < |e| ==> Below(e[i].0, e[j].0)
  }

  /** One step of insertion sort by key. */
  function InsertByKey(x: (string, string), e: Entries): Entries {
    if e == [] then [x]
    else if Below(e[0].0, x.0) then [e[0]] + InsertByKey(x, e[1..])
    else [x] + e
  }

  /**
   * The object rebuilt in the order of its sorted keys. Sorting `Object.keys`
   * and reading each value back by key is sorting the entries by key, since
   * an object's keys are unique (see `SortByKeyGet`).
   */
  function SortByKey(e: Entries): Entries {
    if e == [] then [] else InsertByKey(e[0], SortByKey(e[1..]))
  }

  lemma {:induction false} InsertPermutes(x: (string, string), e: Entries)
    ensures multiset(InsertByKey(x, e)) == multiset(e) + multiset{x}
  {
    if e != [] {
      assert e == [e[0]] + e[1..];
      if Below(e[0].0, x.0) {
        InsertPermutes(x, e[1..]);
      }
    }
  }

  lemma {:induction false} SortPermutes(e: Entries)
    ensures multiset(SortByKey(e)) == multiset(e)
  {
    if e != [] {
      assert e == [e[0]] + e[1..];
      SortPermutes(e[1..]);
      InsertPermutes(e[0], SortByKey(e[1..]));
    }
  }

  lemma {:induction false} InsertAscending(x: (string, string), e: Entries)
    requires Ascending(e)
    requires forall i :: 0 <= i < |e| ==> e[i].0 != x.0
    ensures Ascending(InsertByKey(x, e))
  {
    if e != [] {
      if Below(e[0].0, x.0) {
        InsertAscending(x, e[1..]);
        InsertPermutes(x, e[1..]);
        var r := InsertByKey(x, e[1..]);
        forall j | 0 <= j < |r|
          ensures Below(e[0].0, r[j].0)
        {
          assert r[j] in multiset(r);
          if r[j] != x {
            var m :| 0 <= m < |e[1..]| && e[1..][m] == r[j];
            assert e[m + 1] == r[j];
          }
        }
      } else {
        BelowTotal(x.0, e[0].0);
        forall j | 0 <= j < |e|
          ensures Below(x.0, e[j].0)
        {
          if j > 0 {
            BelowTransitive(x.0, e[0].0, e[j].0);
          }
        }
      }
    }
  }

  /** The rebuilt object's keys are in strictly ascending order. */
  lemma {:induction false} SortAscending(e: Entries)
    requires UniqueKeys(e)
    ensures Ascending(SortByKey(e))
  {
    if e != [] {
      SortAscending(e[1..]);
      SortPermutes(e[1..]);
      var r := SortByKey(e[1..]);
      forall i | 0 <= i < |r|
        ensures r[i].0 != e[0].0
      {
        assert r[i] in multiset(e[1..]);
        var m :| 0 <= m < |e[1..]| && e[1..][m] == r[i];
        assert e[m + 1] == r[i];
      }
      InsertAscending(e[0], r);
    }
  }

  lemma AscendingUnique(e: Entries)
    requires Ascending(e)
    ensures UniqueKeys(e)
  {
    forall i, j | 0 <= i < j < |e|
      ensures e[i].0 != e[j].0
    {
      BelowIrreflexive(e[i].0);
    }
  }

  /** An object whose keys are already ascending is rebuilt unchanged. */
  lemma {:induction false} SortOfAscending(e: Entries)
    requires Ascending(e)
    ensures SortByKey(e) == e
  {
    if e != [] {
      SortOfAscending(e[1..]);
      if |e| > 1 {
        BelowAsymmetric(e[0].0, e[1].0);
      }
      assert e == [e[0]] + e[1..];
    }
  }

  /** Two objects with the same entries agree on every key. */
  lemma SameEntriesSameGet(a: Entries, b: Entries, k: string)
    requires UniqueKeys(a) && UniqueKeys(b) && multiset(a) == multiset(b)
    ensures Get(a, k) == Get(b, k)
  {
    var ga, gb := Get(a, k), Get(b, k);
    if ga.Some? {
      assert (k, ga.value) in multiset(b);
      GetIn(b, k, ga.value);
    } else if gb.Some? {
      assert (k, gb.value) in multiset(a);
      GetIn(a, k, gb.value);
    }
  }

  /** The rebuilt object has the same keys with the same values, in ascending key order. */
  lemma SortByKeyGet(e: Entries, k: string)
    requires UniqueKeys(e)
    ensures Get(SortByKey(e), k) == Get(e, k)
    ensures k in Keys(SortByKey(e)) <==> k in Keys(e)
    ensures Ascending(SortByKey(e)) && UniqueKeys(SortByKey(e))
  {
    SortAscending(e);
    AscendingUnique(SortByKey(e));
    SortPermutes(e);
    SameEntriesSameGet(SortByKey(e), e, k);
  }
}

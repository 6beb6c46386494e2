/** A `TreeMap<String, V>(String.CASE_INSENSITIVE_ORDER)`, as a list of
    entries in ascending order of their lower-cased names. Two names that
    differ only in case share one entry; the entry keeps the spelling of the
    first insertion and the value of the last one. */
module CaseInsensitiveMap {

  import opened Wrappers
  import opened Text

  /** The key a name is filed under. */
  function Fold(name: string): string {
    LowerString(name)
  }

  datatype Entry<V> = Entry(name: string, value: V)

  /** Strictly ascending folded names: the iteration order of the tree map,
      and no two entries for one key. */
  predicate Sorted<V>(es: seq<Entry<V>>) {
    forall i, j :: 0 <= i < j < |es| ==> LexLess(Fold(es[i].name), Fold(es[j].name))
  }

  function Keys<V>(es: seq<Entry<V>>): set<string> {
    set i | 0 <= i < |es| :: Fold(es[i].name)
  }

  /** `get(name)`: the entry filed under the name's key. */
  function Get<V>(es: seq<Entry<V>>, name: string): (r: Option<Entry<V>>)
    ensures r.Some? ==> r.value in es && Fold(r.value.name) == Fold(name)
    ensures r.None? <==> Fold(name) !in Keys(es)
  {
    if |es| == 0 then None
    else if Fold(es[0].name) == Fold(name) then Some(es[0])
    else
      KeysCons(es[0], es[1..]);
      assert es == [es[0]] + es[1..];
      Get(es[1..], name)
  }

  /** `put(name, value)`: update the value under the name's key, keeping the
      stored spelling, or insert a new entry in order. */
  function Put<V>(es: seq<Entry<V>>, name: string, v: V): (r: seq<Entry<V>>)
    ensures Keys(r) == Keys(es) + {Fold(name)}
    ensures |r| <= |es| + 1
    ensures Sorted(es) ==> |r| == |es| + (if Fold(name) in Keys(es) then 0 else 1)
  {
    if |es| == 0 then
      KeysCons(Entry(name, v), []);
      [Entry(name, v)]
    else
      KeysCons(es[0], es[1..]);
      assert es == [es[0]] + es[1..];
      if Fold(es[0].name) == Fold(name) then
        KeysCons(Entry(es[0].name, v), es[1..]);
        [Entry(es[0].name, v)] + es[1..]
      else if LexLess(Fold(name), Fold(es[0].name)) then
        KeysCons(Entry(name, v), es);
        assert Sorted(es) ==> Fold(name) !in Keys(es) by {
          if Sorted(es) {
            BelowFirst(es, Fold(name));
          }
        }
        [Entry(name, v)] + es
      else
        assert Sorted(es) ==> Sorted(es[1..]) by {
          if Sorted(es) {
            SortedTail(es);
          }
        }
        var rest := Put(es[1..], name, v);
        KeysCons(es[0], rest);
        [es[0]] + rest
  }

  lemma KeysCons<V>(e: Entry<V>, es: seq<Entry<V>>)
    ensures Keys([e] + es) == {Fold(e.name)} + Keys(es)
  {
    var r := [e] + es;
    assert r[0] == e;
    forall k | k in Keys(es)
      ensures k in Keys(r)
    {
      var i :| 0 <= i < |es| && Fold(es[i].name) == k;
      assert r[i + 1] == es[i];
    }
    forall k | k in Keys(r)
      ensures k in {Fold(e.name)} + Keys(es)
    {
      var i :| 0 <= i < |r| && Fold(r[i].name) == k;
      if i > 0 {
        assert r[i] == es[i - 1];
      }
    }
  }

  lemma SortedTail<V>(es: seq<Entry<V>>)
    requires Sorted(es) && |es| > 0
    ensures Sorted(es[1..])
    ensures forall k :: k in Keys(es[1..]) ==> LexLess(Fold(es[0].name), k)
  {
    forall k | k in Keys(es[1..])
      ensures LexLess(Fold(es[0].name), k)
    {
      var i :| 0 <= i < |es[1..]| && Fold(es[1..][i].name) == k;
      assert es[1..][i] == es[i + 1];
    }
  }

  /** A key below the first key of a sorted list is not in it. */
  lemma BelowFirst<V>(es: seq<Entry<V>>, k: string)
    requires Sorted(es) && |es| > 0 && LexLess(k, Fold(es[0].name))
    ensures forall i :: 0 <= i < |es| ==> LexLess(k, Fold(es[i].name))
    ensures k !in Keys(es)
  {
    forall i | 0 < i < |es|
      ensures LexLess(k, Fold(es[i].name))
    {
      LexLessTransitive(k, Fold(es[0].name), Fold(es[i].name));
    }
    forall i | 0 <= i < |es|
      ensures Fold(es[i].name) != k
    {
      if Fold(es[i].name) == k {
        LexLessIrreflexive(k);
      }
    }
  }

  /** Putting keeps the entries in order. */
  lemma {:induction false} PutSorted<V>(es: seq<Entry<V>>, name: string, v: V)
    requires Sorted(es)
    ensures Sorted(Put(es, name, v))
    decreases |es|
  {
    if |es| > 0 {
      var k := Fold(name);
      var first := Fold(es[0].name);
      if first == k {
        var r := Put(es, name, v);
        assert forall i :: 0 <= i < |r| ==> Fold(r[i].name) == Fold(es[i].name);
      } else if LexLess(k, first) {
        BelowFirst(es, k);
      } else {
        SortedTail(es);
        PutSorted(es[1..], name, v);
        LexLessTotal(k, first);
        var rest := Put(es[1..], name, v);
        forall j | 0 <= j < |rest|
          ensures LexLess(first, Fold(rest[j].name))
        {
          assert Fold(rest[j].name) in Keys(rest);
        }
      }
    }
  }

  /** The entry under the put key holds the new value and keeps the first
      spelling. */
  lemma {:induction false} PutGet<V>(es: seq<Entry<V>>, name: string, v: V)
    requires Sorted(es)
    ensures Get(Put(es, name, v), name) ==
            Some(Entry(if Get(es, name).Some? then Get(es, name).value.name else name, v))
    decreases |es|
  {
    if |es| > 0 {
      var k := Fold(name);
      var first := Fold(es[0].name);
      if first != k && LexLess(k, first) {
        BelowFirst(es, k);
      } else if first != k {
        SortedTail(es);
        PutGet(es[1..], name, v);
      }
    }
  }

  /** Every other key is untouched. */
  lemma {:induction false} PutOther<V>(es: seq<Entry<V>>, name: string, v: V, other: string)
    requires Sorted(es)
    requires Fold(other) != Fold(name)
    ensures Get(Put(es, name, v), other) == Get(es, other)
    decreases |es|
  {
    if |es| > 0 {
      var first := Fold(es[0].name);
      if first != Fold(name) && !LexLess(Fold(name), first) {
        SortedTail(es);
        PutOther(es[1..], name, v, other);
      }
    }
  }

  /** Putting an entry whose key is above every key appends it. */
  lemma {:induction false} PutAbove<V>(es: seq<Entry<V>>, e: Entry<V>)
    requires Sorted(es + [e])
    ensures Put(es, e.name, e.value) == es + [e]
    decreases |es|
  {
    if |es| > 0 {
      var first := Fold(es[0].name);
      assert (es + [e])[0] == es[0] && (es + [e])[|es|] == e;
      LexLessAsymmetric(first, Fold(e.name));
      LexLessIrreflexive(first);
      assert es[1..] + [e] == (es + [e])[1..];
      PutAbove(es[1..], e);
    }
  }
}

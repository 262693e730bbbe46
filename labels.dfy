/** Label sets. A label set is a Python dict of label names to values, which
    keeps its keys in insertion order; that order decides the order in which
    label placeholders are substituted. It is modelled as a sequence of pairs
    with distinct keys, and View gives the plain map it stands for. */
module Labels {

  /** The keys of a dict in iteration order. */
  function Keys(d: seq<(string, string)>): (ks: seq<string>)
    ensures |ks| == |d|
    decreases |d|
  {
    if d == [] then [] else [d[0].0] + Keys(d[1..])
  }

  /** No key appears twice. */
  predicate UniqueKeys(d: seq<(string, string)>)
    decreases |d|
  {
    d == [] || (d[0].0 !in Keys(d[1..]) && UniqueKeys(d[1..]))
  }

  /** A dict: pairs in insertion order, no key twice. */
  type Dict = d: seq<(string, string)> | UniqueKeys(d) witness []

  lemma {:induction false} KeysAt(d: seq<(string, string)>, i: nat)
    requires i < |d|
    ensures Keys(d)[i] == d[i].0
    decreases |d|
  {
    if i > 0 {
      KeysAt(d[1..], i - 1);
    }
  }

  lemma {:induction false} KeysAppend(d: seq<(string, string)>, e: seq<(string, string)>)
    ensures Keys(d + e) == Keys(d) + Keys(e)
    decreases |d|
  {
    if d != [] {
      assert (d + e)[0] == d[0];
      assert (d + e)[1..] == d[1..] + e;
      KeysAppend(d[1..], e);
    } else {
      assert d + e == e;
    }
  }

  /** The map a dict stands for. */
  function View(d: seq<(string, string)>): map<string, string>
    decreases |d|
  {
    if d == [] then map[] else View(d[1..])[d[0].0 := d[0].1]
  }

  lemma {:induction false} ViewDomain(d: seq<(string, string)>)
    ensures forall k :: k in View(d) <==> k in Keys(d)
    decreases |d|
  {
    if d != [] {
      ViewDomain(d[1..]);
    }
  }

  /** Every pair of a dict is what its map says. */
  lemma {:induction false} ViewAt(d: Dict, i: nat)
    requires i < |d|
    ensures d[i].0 in View(d) && View(d)[d[i].0] == d[i].1
    decreases |d|
  {
    if i > 0 {
      ViewAt(d[1..], i - 1);
      KeysAt(d[1..], i - 1);
    }
  }

  /** `d[k] = v`: an existing key keeps its place and takes the new value, a
      new key goes at the end. */
  function Update(d: Dict, k: string, v: string): (r: Dict)
    ensures View(r) == View(d)[k := v]
    ensures Keys(r) == if k in Keys(d) then Keys(d) else Keys(d) + [k]
    decreases |d|
  {
    if d == [] then
      var r := [(k, v)];
      assert r[1..] == [] && Keys(r[1..]) == [];
      r
    else if d[0].0 == k then
      var r := [(k, v)] + d[1..];
      assert r[0].0 == d[0].0 && r[1..] == d[1..];
      r
    else
      var rest := Update(d[1..], k, v);
      var r := [d[0]] + rest;
      assert r[0] == d[0] && r[1..] == rest;
      assert d[0].0 !in Keys(rest);
      r
  }

  /** `d.update(e)`: the pairs of `e` are written into `d` one at a time, in
      `e`'s order. */
  function UpdateAll(d: Dict, e: Dict): Dict
    decreases |e|
  {
    if e == [] then d else UpdateAll(Update(d, e[0].0, e[0].1), e[1..])
  }

  /** `labels = {}; labels.update(target); labels.update(stream)`. */
  function Merge(target: Dict, stream: Dict): (m: Dict)
    ensures View(m) == View(target) + View(stream)
    ensures Keys(target) <= Keys(m)
  {
    UpdateAllAppends([], target);
    assert UpdateAll([], target) == target;
    UpdateAllView(target, stream);
    UpdateAll(UpdateAll([], target), stream)
  }

  /** `d.update(e)` is the right-biased union of the two maps, and the keys
      `d` already had keep their order at the front. */
  lemma {:induction false} UpdateAllView(d: Dict, e: Dict)
    ensures View(UpdateAll(d, e)) == View(d) + View(e)
    ensures Keys(d) <= Keys(UpdateAll(d, e))
    decreases |e|
  {
    if e != [] {
      var k, v := e[0].0, e[0].1;
      var d' := Update(d, k, v);
      var tail: Dict := e[1..];
      UpdateAllView(d', tail);
      ViewDomain(tail);
      assert k !in View(tail);
      UnionUpdate(View(d), View(tail), k, v);
      PrefixTrans(Keys(d), Keys(d'), Keys(UpdateAll(d', tail)));
    }
  }

  lemma UnionUpdate(a: map<string, string>, b: map<string, string>, k: string, v: string)
    requires k !in b
    ensures a[k := v] + b == a + b[k := v]
  {
    var l, r := a[k := v] + b, a + b[k := v];
    assert l.Keys == r.Keys;
    forall x | x in l ensures l[x] == r[x] {
      if x != k && x !in b { assert l[x] == a[x]; }
    }
  }

  lemma PrefixTrans(a: seq<string>, b: seq<string>, c: seq<string>)
    requires a <= b && b <= c
    ensures a <= c
  {
    assert c[..|a|] == c[..|b|][..|a|];
  }

  /** Writing a key that is not there appends the pair. */
  lemma {:induction false} UpdateAppends(d: Dict, k: string, v: string)
    requires k !in Keys(d)
    ensures Update(d, k, v) == d + [(k, v)]
    decreases |d|
  {
    if d != [] {
      UpdateAppends(d[1..], k, v);
      assert d == [d[0]] + d[1..];
    }
  }

  /** Moving the first pair of `e` over to `d` keeps the two disjoint. */
  lemma DisjointShift(d: Dict, e: Dict)
    requires e != []
    requires forall k :: k in Keys(e) ==> k !in Keys(d)
    ensures forall k :: k in Keys(e[1..]) ==> k !in Keys(d + [e[0]])
  {
    KeysAppend(d, [e[0]]);
    assert Keys(e) == [e[0].0] + Keys(e[1..]);
  }

  lemma AppendShift(d: seq<(string, string)>, e: seq<(string, string)>)
    requires e != []
    ensures (d + [e[0]]) + e[1..] == d + e
  {
    assert e == [e[0]] + e[1..];
  }

  /** Updating with a dict none of whose keys are present appends it. */
  lemma {:induction false} UpdateAllAppends(d: Dict, e: Dict)
    requires forall k :: k in Keys(e) ==> k !in Keys(d)
    ensures UpdateAll(d, e) == d + e
    decreases |e|
  {
    if e != [] {
      assert e[0].0 in Keys(e);
      UpdateAppends(d, e[0].0, e[0].1);
      DisjointShift(d, e);
      UpdateAllAppends(Update(d, e[0].0, e[0].1), e[1..]);
      AppendShift(d, e);
    }
  }

  /** The merged labels hold exactly the target's and the stream's keys; on a
      shared key the stream's value wins, a target-only key keeps the target's
      value, and the target's keys come first, in the target's order. */
  lemma MergeLabels(target: Dict, stream: Dict)
    ensures var m := Merge(target, stream);
      && View(m).Keys == View(target).Keys + View(stream).Keys
      && (forall k :: k in View(stream) ==> View(m)[k] == View(stream)[k])
      && (forall k :: k in View(target) && k !in View(stream) ==> View(m)[k] == View(target)[k])
      && Keys(target) <= Keys(m)
  {
    ViewDomain(target);
    ViewDomain(stream);
  }

  /** The example of a target with a and b and a stream with b and c. */
  lemma MergeExample()
    ensures Merge([("a", "1"), ("b", "2")], [("b", "3"), ("c", "4")])
         == [("a", "1"), ("b", "3"), ("c", "4")]
  {
    ExampleTarget();
    ExampleOverwrite();
    ExampleAppend();
  }

  lemma ExampleTarget()
    ensures UpdateAll([], [("a", "1"), ("b", "2")]) == [("a", "1"), ("b", "2")]
  {
    var t: Dict := [("a", "1"), ("b", "2")];
    UpdateAllAppends([], t);
    assert [] + t == t;
  }

  lemma ExampleOverwrite()
    ensures UpdateAll([("a", "1"), ("b", "2")], [("b", "3"), ("c", "4")])
         == UpdateAll([("a", "1"), ("b", "3")], [("c", "4")])
  {
    var t: Dict := [("a", "1"), ("b", "2")];
    var st: Dict := [("b", "3"), ("c", "4")];
    assert t[1..] == [("b", "2")];
    assert Update(t, "b", "3") == [("a", "1"), ("b", "3")];
    assert st[1..] == [("c", "4")];
  }

  lemma ExampleAppend()
    ensures UpdateAll([("a", "1"), ("b", "3")], [("c", "4")]) == [("a", "1"), ("b", "3"), ("c", "4")]
  {
    var t1: Dict := [("a", "1"), ("b", "3")];
    var rest: Dict := [("c", "4")];
    assert Keys(rest) == ["c"] && Keys(t1) == ["a", "b"];
    UpdateAllAppends(t1, rest);
  }
}

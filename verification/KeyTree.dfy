/**
 The ordered trees of the scheduler, keyed by (time, class index). A tree is the sequence of
 its keys in iteration order; the value stored under a key is always the key's index.
 */
module KeyTree {

  datatype Key = Key(time: int, index: nat)

  datatype Ordering = Less | Equal | Greater

  // Comparing two keys of one class asserts that their times agree.
  function Compare(a: Key, b: Key): Ordering
    requires a.index == b.index ==> a.time == b.time
  {
    if a.index == b.index then Equal
    else if a.time < b.time then Less
    else if a.time > b.time then Greater
    else if a.index < b.index then Less
    else Greater
  }

  // The order that results where that assertion holds.
  predicate Before(a: Key, b: Key) {
    a.index != b.index && (a.time < b.time || (a.time == b.time && a.index < b.index))
  }

  ghost predicate Sorted(t: seq<Key>) {
    forall i, j :: 0 <= i < j < |t| ==> Before(t[i], t[j])
  }

  // Comparing k with any key of t keeps the assertion in Compare.
  ghost predicate Comparable(t: seq<Key>, k: Key) {
    forall i :: 0 <= i < |t| && t[i].index == k.index ==> t[i].time == k.time
  }

  function With(t: seq<Key>, k: Key): seq<Key> {
    if t == [] then [k]
    else if t[0] == k then t
    else if Before(k, t[0]) then [k] + t
    else [t[0]] + With(t[1..], k)
  }

  function Without(t: seq<Key>, k: Key): seq<Key> {
    if t == [] then []
    else if t[0] == k then t[1..]
    else [t[0]] + Without(t[1..], k)
  }

  lemma {:induction false} WithKeys(t: seq<Key>, k: Key)
    requires Sorted(t) && forall i :: 0 <= i < |t| ==> t[i].index != k.index
    ensures Sorted(With(t, k)) && |With(t, k)| == |t| + 1
    ensures forall x :: x in With(t, k) <==> x in t || x == k
  {
    if t != [] && !Before(k, t[0]) {
      WithKeys(t[1..], k);
      assert t == [t[0]] + t[1..];
      var r := With(t[1..], k);
      assert forall j :: 0 <= j < |r| ==> r[j] in r;
    }
  }

  lemma {:induction false} WithoutKeys(t: seq<Key>, k: Key)
    requires Sorted(t)
    ensures Sorted(Without(t, k)) && |Without(t, k)| == |t| - if k in t then 1 else 0
    ensures forall x :: x in Without(t, k) <==> x in t && x != k
  {
    if t != [] {
      assert t == [t[0]] + t[1..];
      if t[0] != k {
        WithoutKeys(t[1..], k);
        var r := Without(t[1..], k);
        assert forall j :: 0 <= j < |r| ==> r[j] in r;
      } else {
        assert forall j :: 1 <= j < |t| ==> Before(t[0], t[j]);
      }
    }
  }

  lemma PassedWith(t: seq<Key>, k: Key, i: nat)
    requires i < |t| && t[i] != k && !Before(k, t[i])
    ensures t[..i] + With(t[i..], k) == t[..i + 1] + With(t[i + 1..], k)
  {
    assert t[i..][1..] == t[i + 1..];
    assert t[..i] + ([t[i]] + With(t[i + 1..], k)) == t[..i + 1] + With(t[i + 1..], k);
  }

  lemma PassedWithout(t: seq<Key>, k: Key, i: nat)
    requires i < |t| && t[i] != k
    ensures t[..i] + Without(t[i..], k) == t[..i + 1] + Without(t[i + 1..], k)
  {
    assert t[i..][1..] == t[i + 1..];
    assert t[..i] + ([t[i]] + Without(t[i + 1..], k)) == t[..i + 1] + Without(t[i + 1..], k);
  }

  // A key before the one at i is not from there on.
  lemma NotFurther(t: seq<Key>, k: Key, i: nat)
    requires Sorted(t) && i < |t| && Before(k, t[i])
    ensures Without(t[i..], k) == t[i..] && t[..i] + t[i..] == t
  {
    assert k !in t[i..] by {
      assert forall j :: i < j < |t| ==> Before(t[i], t[j]);
    }
    WithoutAbsent(t[i..], k);
  }

  method Insert(t: seq<Key>, k: Key) returns (r: seq<Key>)
    requires Comparable(t, k)
    ensures r == With(t, k)
  {
    var i := 0;
    while i < |t|
      invariant i <= |t|
      invariant With(t, k) == t[..i] + With(t[i..], k)
    {
      match Compare(k, t[i]) {
        case Less =>
          return t[..i] + [k] + t[i..];
        case Equal =>
          return t;
        case Greater =>
          PassedWith(t, k, i);
          i := i + 1;
      }
    }
    r := t + [k];
  }

  method Delete(t: seq<Key>, k: Key) returns (r: seq<Key>)
    requires Comparable(t, k) && Sorted(t)
    ensures r == Without(t, k)
  {
    var i := 0;
    while i < |t|
      invariant i <= |t|
      invariant Without(t, k) == t[..i] + Without(t[i..], k)
    {
      match Compare(k, t[i]) {
        case Less =>
          NotFurther(t, k, i);
          return t;
        case Equal =>
          return t[..i] + t[i + 1..];
        case Greater =>
          PassedWithout(t, k, i);
          i := i + 1;
      }
    }
    r := t;
  }

  lemma {:induction false} WithoutAbsent(t: seq<Key>, k: Key)
    requires k !in t
    ensures Without(t, k) == t
  {
    if t != [] {
      WithoutAbsent(t[1..], k);
    }
  }
}

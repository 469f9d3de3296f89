/** Shared vocabulary: optional values and the ordered maps the controller reads. */
module Prelude {

  datatype Option<+T> = None | Some(value: T)

  lemma Assoc<T>(a: seq<T>, b: seq<T>, c: seq<T>)
    ensures a + (b + c) == (a + b) + c
  {}

  /** Lexicographic order on strings, the key order of every ordered map below. */
  predicate Less(a: string, b: string) {
    if b == [] then false
    else if a == [] then true
    else a[0] < b[0] || (a[0] == b[0] && Less(a[1..], b[1..]))
  }

  lemma {:induction false} LessIrreflexive(a: string)
    ensures !Less(a, a)
  {
    if a != [] { LessIrreflexive(a[1..]); }
  }

  lemma {:induction false} LessTransitive(a: string, b: string, c: string)
    requires Less(a, b) && Less(b, c)
    ensures Less(a, c)
  {
    if a != [] && a[0] == b[0] && b[0] == c[0] {
      LessTransitive(a[1..], b[1..], c[1..]);
    }
  }

  /** One binding of an ordered map. */
  datatype Entry<+V> = Entry(key: string, value: V)

  predicate Ordered<V>(es: seq<Entry<V>>) {
    forall i, j :: 0 <= i < j < |es| ==> Less(es[i].key, es[j].key)
  }

  /** An ordered string map: its bindings in iteration order. */
  type Table<V> = es: seq<Entry<V>> | Ordered(es) witness []

  function Lookup<V>(t: seq<Entry<V>>, key: string): (r: Option<V>)
    ensures r.None? <==> forall i :: 0 <= i < |t| ==> t[i].key != key
    ensures r.Some? ==> exists i :: 0 <= i < |t| && t[i] == Entry(key, r.value)
  {
    if t == [] then None
    else if t[0].key == key then
      assert t[0] == Entry(key, t[0].value);
      Some(t[0].value)
    else
      var r := Lookup(t[1..], key);
      assert r.None? ==> forall i :: 0 <= i < |t| ==> t[i].key != key by {
        if r.None? {
          forall i | 0 <= i < |t| ensures t[i].key != key { if i > 0 { assert t[i] == t[1..][i - 1]; } }
        }
      }
      assert r.Some? ==> exists i :: 0 <= i < |t| && t[i] == Entry(key, r.value) by {
        if r.Some? {
          var j :| 0 <= j < |t[1..]| && t[1..][j] == Entry(key, r.value);
          assert t[j + 1] == Entry(key, r.value);
        }
      }
      r
  }

  /** The values that are there, in order. */
  function Present<T>(xs: seq<Option<T>>): seq<T> {
    if xs == [] then [] else (if xs[0].Some? then [xs[0].value] else []) + Present(xs[1..])
  }

  lemma {:induction false} PresentSnoc<T>(xs: seq<Option<T>>, x: Option<T>)
    ensures Present(xs + [x]) == Present(xs) + (if x.Some? then [x.value] else [])
  {
    if xs == [] {
      assert xs + [x] == [x] && [x][1..] == [];
    } else {
      assert (xs + [x])[0] == xs[0] && (xs + [x])[1..] == xs[1..] + [x];
      PresentSnoc(xs[1..], x);
    }
  }

  /** They are the values at ever greater positions, and none is passed over. */
  ghost predicate IsListing<T>(xs: seq<Option<T>>, at: seq<nat>, values: seq<T>) {
    && |at| == |values|
    && (forall j :: 0 <= j < |at| ==> at[j] < |xs| && xs[at[j]] == Some(values[j]))
    && (forall i, j :: 0 <= i < j < |at| ==> at[i] < at[j])
    && forall i :: 0 <= i < |xs| && xs[i].Some? ==> i in at
  }

  lemma {:induction false} PresentInOrder<T>(xs: seq<Option<T>>) returns (at: seq<nat>)
    ensures IsListing(xs, at, Present(xs))
    decreases |xs|
  {
    if xs == [] {
      at := [];
    } else {
      var n := |xs| - 1;
      assert xs == xs[..n] + [xs[n]];
      PresentSnoc(xs[..n], xs[n]);
      at := PresentInOrder(xs[..n]);
      if xs[n].Some? { at := at + [n]; }
    }
  }
}

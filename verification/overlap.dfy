/** The dataset-version comparison: both versions are reduced to sets of
    (headline, label) pairs and split into the pairs they share and the
    pairs only one of them has. Loading the two files is not modelled. */
module Overlap {
  import opened Handlers

  /** What identifies an entry here: its headline and its label. */
  type Pair = (string, int)

  function Key(e: Entry): Pair {
    (e.headline, e.isSarcastic)
  }

  /** The set of pairs a dataset version contains. */
  function KeySet(data: seq<Entry>): (r: set<Pair>)
    ensures forall i :: 0 <= i < |data| ==> Key(data[i]) in r
    ensures forall p :: p in r ==> exists i :: 0 <= i < |data| && Key(data[i]) == p
  {
    set e | e in data :: Key(e)
  }

  /** Entries that differ only in their other keys, or that repeat a pair
      already present, add nothing to the set. */
  lemma KeySetCollapses(data: seq<Entry>, e: Entry)
    requires exists i :: 0 <= i < |data| && Key(data[i]) == Key(e)
    ensures KeySet(data + [e]) == KeySet(data)
  {
    var a := KeySet(data + [e]);
    forall p | p in a ensures p in KeySet(data) {
      var i :| 0 <= i < |data + [e]| && Key((data + [e])[i]) == p;
      if i < |data| { assert (data + [e])[i] == data[i]; }
    }
    forall p | p in KeySet(data) ensures p in a {
      var i :| 0 <= i < |data| && Key(data[i]) == p;
      assert (data + [e])[i] == data[i];
    }
  }

  /** A version has at most as many distinct pairs as entries. */
  lemma {:induction false} KeySetSize(data: seq<Entry>)
    ensures |KeySet(data)| <= |data|
  {
    if data != [] {
      var n := |data| - 1;
      KeySetSize(data[..n]);
      assert KeySet(data) <= KeySet(data[..n]) + {Key(data[n])} by {
        forall p | p in KeySet(data) ensures p in KeySet(data[..n]) + {Key(data[n])} {
          var i :| 0 <= i < |data| && Key(data[i]) == p;
          if i < n { assert data[..n][i] == data[i]; }
        }
      }
      SubsetSize(KeySet(data), KeySet(data[..n]) + {Key(data[n])});
    }
  }

  lemma SubsetSize<T>(a: set<T>, b: set<T>)
    requires a <= b
    ensures |a| <= |b|
  {
    assert b == a + (b - a);
  }

  /** The three-way split the comparison prints the sizes of. */
  datatype Split = Split(both: set<Pair>, onlyV1: set<Pair>, onlyV2: set<Pair>)

  /** Intersection, v1 minus v2 and v2 minus v1 of the two pair sets. */
  function Compare(v1: seq<Entry>, v2: seq<Entry>): (r: Split)
    ensures r.both !! r.onlyV1 && r.both !! r.onlyV2 && r.onlyV1 !! r.onlyV2
    ensures r.both + r.onlyV1 + r.onlyV2 == KeySet(v1) + KeySet(v2)
    ensures r.both <= KeySet(v1) && r.both <= KeySet(v2)
    ensures r.onlyV1 <= KeySet(v1) && r.onlyV1 !! KeySet(v2)
    ensures r.onlyV2 <= KeySet(v2) && r.onlyV2 !! KeySet(v1)
  {
    var s1 := KeySet(v1);
    var s2 := KeySet(v2);
    Split(s1 * s2, s1 - s2, s2 - s1)
  }

  /** Each version's pair count is the shared pairs plus its own. */
  lemma CompareCounts(v1: seq<Entry>, v2: seq<Entry>)
    ensures var r := Compare(v1, v2);
      |KeySet(v1)| == |r.both| + |r.onlyV1| && |KeySet(v2)| == |r.both| + |r.onlyV2|
  {
    var r := Compare(v1, v2);
    assert KeySet(v1) == r.both + r.onlyV1;
    assert KeySet(v2) == r.both + r.onlyV2;
  }

  /** Nothing is only in v1 exactly when v1's pairs all occur in v2; then
      v2 is v1 plus the pairs only it has. */
  lemma NothingOnlyInV1(v1: seq<Entry>, v2: seq<Entry>)
    ensures var r := Compare(v1, v2);
      && (r.onlyV1 == {} <==> KeySet(v1) <= KeySet(v2))
      && (r.onlyV1 == {} ==> r.both == KeySet(v1) && KeySet(v2) == KeySet(v1) + r.onlyV2)
  {
    var r := Compare(v1, v2);
    if KeySet(v1) <= KeySet(v2) {
      assert r.onlyV1 == {};
    } else {
      var p :| p in KeySet(v1) && p !in KeySet(v2);
      assert p in r.onlyV1;
    }
  }
}

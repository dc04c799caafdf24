/**
 * Bounding-box aggregation: each district's box is stored under
 * `state + number`, each state's box is the envelope of its districts'
 * boxes, and both go into one lookup.
 */
module Bboxes {
  import opened Features

  /** `[minLon, minLat, maxLon, maxLat]`. */
  datatype Box = Box(west: real, south: real, east: real, north: real)

  predicate WellFormed(b: Box)
  {
    b.west <= b.east && b.south <= b.north
  }

  predicate Contains(outer: Box, inner: Box)
  {
    outer.west <= inner.west && outer.south <= inner.south &&
    inner.east <= outer.east && inner.north <= outer.north
  }

  function Min(a: real, b: real): real { if a <= b then a else b }
  function Max(a: real, b: real): real { if a <= b then b else a }

  /** The box of the rectangle drawn from `b`'s corners: the extent of its
      four corner points. */
  function Extent(b: Box): (e: Box)
    ensures WellFormed(e)
    ensures WellFormed(b) ==> e == b
  {
    Box(Min(b.west, b.east), Min(b.south, b.north), Max(b.west, b.east), Max(b.south, b.north))
  }

  /** The smallest box containing two boxes. */
  function Hull(a: Box, b: Box): (h: Box)
    ensures Contains(h, a) && Contains(h, b)
    ensures forall c :: Contains(c, a) && Contains(c, b) ==> Contains(c, h)
  {
    Box(Min(a.west, b.west), Min(a.south, b.south), Max(a.east, b.east), Max(a.north, b.north))
  }

  /** The envelope of the rectangles drawn from a state's district boxes. */
  function Envelope(bs: seq<Box>): (e: Box)
    requires bs != []
    ensures WellFormed(e)
  {
    if |bs| == 1 then Extent(bs[0])
    else Hull(Envelope(bs[..|bs| - 1]), Extent(bs[|bs| - 1]))
  }

  /** The envelope contains every rectangle it was built from. */
  lemma {:induction false} EnvelopeContains(bs: seq<Box>, i: nat)
    requires i < |bs|
    ensures Contains(Envelope(bs), Extent(bs[i]))
    ensures WellFormed(bs[i]) ==> Contains(Envelope(bs), bs[i])
  {
    if |bs| > 1 && i < |bs| - 1 {
      EnvelopeContains(bs[..|bs| - 1], i);
    }
  }

  /** ... and is the smallest box that does. */
  lemma {:induction false} EnvelopeMinimal(bs: seq<Box>, c: Box)
    requires bs != []
    requires forall i :: 0 <= i < |bs| ==> Contains(c, Extent(bs[i]))
    ensures Contains(c, Envelope(bs))
  {
    if |bs| > 1 {
      EnvelopeMinimal(bs[..|bs| - 1], c);
    }
  }

  /** A JavaScript object with string keys: the entries and the order in
      which their keys were first inserted. */
  datatype Dict<V> = Dict(keys: seq<string>, entries: map<string, V>)

  ghost predicate NoDuplicates(ks: seq<string>)
  {
    forall i, j :: 0 <= i < j < |ks| ==> ks[i] != ks[j]
  }

  /** Every listed key has an entry. */
  ghost predicate Listed<V>(d: Dict<V>)
  {
    forall k :: k in d.keys ==> k in d.entries
  }

  /** The keys are listed once each, and exactly the keys with entries are. */
  ghost predicate ValidDict<V>(d: Dict<V>)
  {
    NoDuplicates(d.keys) && Listed(d) && forall k :: k in d.entries ==> k in d.keys
  }

  function EmptyDict<V>(): Dict<V>
  {
    Dict([], map[])
  }

  /** `d[k] = v`: a new key goes last, an existing key keeps its place. */
  function Put<V>(d: Dict<V>, k: string, v: V): (r: Dict<V>)
    ensures k in r.entries && r.entries[k] == v
    ensures r.entries.Keys == d.entries.Keys + {k}
    ensures forall j :: j in d.entries && j != k ==> r.entries[j] == d.entries[j]
    ensures k in d.entries ==> r.keys == d.keys
    ensures k !in d.entries ==> r.keys == d.keys + [k]
  {
    if k in d.entries then Dict(d.keys, d.entries[k := v])
    else Dict(d.keys + [k], d.entries[k := v])
  }

  lemma PutValid<V>(d: Dict<V>, k: string, v: V)
    requires ValidDict(d)
    ensures ValidDict(Put(d, k, v))
  {
  }

  /** The key a district's box is stored under. */
  function DistrictKey(f: Feature): string
  {
    f.props.state + f.props.number
  }

  /** `districtBboxes` after the walk over the districts. */
  function DistrictBoxes(fs: seq<Feature>, bs: seq<Box>): (r: Dict<Box>)
    requires |bs| == |fs|
    ensures |r.keys| <= |fs|
  {
    if fs == [] then EmptyDict()
    else
      var n := |fs| - 1;
      Put(DistrictBoxes(fs[..n], bs[..n]), DistrictKey(fs[n]), bs[n])
  }

  /** The boxes collected for each state during the walk. */
  function Collected(fs: seq<Feature>, bs: seq<Box>): (r: Dict<seq<Box>>)
    requires |bs| == |fs|
    ensures |r.keys| <= |fs|
  {
    if fs == [] then EmptyDict()
    else
      var n := |fs| - 1;
      var prev := Collected(fs[..n], bs[..n]);
      var s := fs[n].props.state;
      Put(prev, s, (if s in prev.entries then prev.entries[s] else []) + [bs[n]])
  }

  /** The boxes of the districts of state `s`, in order. */
  function BoxesOfState(fs: seq<Feature>, bs: seq<Box>, s: string): seq<Box>
    requires |bs| == |fs|
  {
    if fs == [] then []
    else
      var n := |fs| - 1;
      BoxesOfState(fs[..n], bs[..n], s) + (if fs[n].props.state == s then [bs[n]] else [])
  }

  /** `stateBboxes` once each state's collection is replaced by its envelope. */
  function StateBoxes(fs: seq<Feature>, bs: seq<Box>): (r: Dict<Box>)
    requires |bs| == |fs|
    ensures r.keys == Collected(fs, bs).keys && r.entries.Keys == Collected(fs, bs).entries.Keys
  {
    CollectedNonEmpty(fs, bs);
    Envelopes(Collected(fs, bs))
  }

  /** Every collection replaced by its envelope; the keys keep their places. */
  function Envelopes(c: Dict<seq<Box>>): (r: Dict<Box>)
    requires forall s :: s in c.entries ==> c.entries[s] != []
    ensures r.keys == c.keys && r.entries.Keys == c.entries.Keys
    ensures forall s :: s in r.entries ==> WellFormed(r.entries[s])
  {
    Dict(c.keys, map s | s in c.entries :: Envelope(c.entries[s]))
  }

  /** Copies the entries of `b` under the keys `ks` into `a`, in order. */
  function CopyKeys<V>(a: Dict<V>, b: Dict<V>, ks: seq<string>): (r: Dict<V>)
    requires forall k :: k in ks ==> k in b.entries
    ensures a.keys <= r.keys && |r.keys| <= |a.keys| + |ks|
  {
    if ks == [] then a
    else
      var n := |ks| - 1;
      Put(CopyKeys(a, b, ks[..n]), ks[n], b.entries[ks[n]])
  }

  /** `for (k in b) a[k] = b[k]`. */
  function CopyInto<V>(a: Dict<V>, b: Dict<V>): (r: Dict<V>)
    requires Listed(b)
    ensures a.keys <= r.keys && |r.keys| <= |a.keys| + |b.keys|
  {
    CopyKeys(a, b, b.keys)
  }

  /** The lookup written out: the district boxes, then the state boxes. */
  function AllBoxes(fs: seq<Feature>, bs: seq<Box>): (r: Dict<Box>)
    requires |bs| == |fs|
    ensures DistrictBoxes(fs, bs).keys <= r.keys && |r.keys| <= 2 * |fs|
  {
    DistrictBoxesValid(fs, bs);
    StateBoxesValid(fs, bs);
    CopyIntoEmpty(DistrictBoxes(fs, bs));
    CopyInto(CopyInto(EmptyDict(), DistrictBoxes(fs, bs)), StateBoxes(fs, bs))
  }

  lemma {:induction false} DistrictBoxesValid(fs: seq<Feature>, bs: seq<Box>)
    requires |bs| == |fs|
    ensures ValidDict(DistrictBoxes(fs, bs))
  {
    if fs != [] {
      var n := |fs| - 1;
      DistrictBoxesValid(fs[..n], bs[..n]);
      PutValid(DistrictBoxes(fs[..n], bs[..n]), DistrictKey(fs[n]), bs[n]);
    }
  }

  lemma {:induction false} CollectedValid(fs: seq<Feature>, bs: seq<Box>)
    requires |bs| == |fs|
    ensures ValidDict(Collected(fs, bs))
  {
    if fs != [] {
      var n := |fs| - 1;
      CollectedValid(fs[..n], bs[..n]);
      var prev := Collected(fs[..n], bs[..n]);
      var s := fs[n].props.state;
      PutValid(prev, s, (if s in prev.entries then prev.entries[s] else []) + [bs[n]]);
    }
  }

  lemma StateBoxesValid(fs: seq<Feature>, bs: seq<Box>)
    requires |bs| == |fs|
    ensures ValidDict(StateBoxes(fs, bs))
  {
    CollectedValid(fs, bs);
  }

  lemma {:induction false} CollectedNonEmpty(fs: seq<Feature>, bs: seq<Box>)
    requires |bs| == |fs|
    ensures forall s :: s in Collected(fs, bs).entries ==> Collected(fs, bs).entries[s] != []
  {
    if fs != [] {
      CollectedNonEmpty(fs[..|fs| - 1], bs[..|fs| - 1]);
    }
  }

  /** A state has a collection exactly when one of its districts was walked. */
  lemma {:induction false} CollectedKeys(fs: seq<Feature>, bs: seq<Box>, s: string)
    requires |bs| == |fs|
    ensures s in Collected(fs, bs).entries <==> exists i :: 0 <= i < |fs| && fs[i].props.state == s
  {
    if fs != [] {
      var n := |fs| - 1;
      var pre, bpre := fs[..n], bs[..n];
      CollectedKeys(pre, bpre, s);
      var prev := Collected(pre, bpre);
      assert Collected(fs, bs).entries.Keys == prev.entries.Keys + {fs[n].props.state};
      if s == fs[n].props.state {
        assert 0 <= n < |fs| && fs[n].props.state == s;
      } else {
        if s in prev.entries {
          var i :| 0 <= i < n && pre[i].props.state == s;
          assert fs[i].props.state == s;
        }
        if exists i :: 0 <= i < |fs| && fs[i].props.state == s {
          var i :| 0 <= i < |fs| && fs[i].props.state == s;
          assert i < n && pre[i].props.state == s;
        }
      }
    }
  }

  /** What the walk collects for a state is exactly that state's district
      boxes, in order. */
  lemma {:induction false} CollectedByState(fs: seq<Feature>, bs: seq<Box>, s: string)
    requires |bs| == |fs|
    requires s in Collected(fs, bs).entries
    ensures Collected(fs, bs).entries[s] == BoxesOfState(fs, bs, s)
  {
    var n := |fs| - 1;
    var pre, bpre := fs[..n], bs[..n];
    var prev := Collected(pre, bpre);
    if s == fs[n].props.state {
      if s in prev.entries {
        CollectedByState(pre, bpre, s);
      } else {
        CollectedKeys(pre, bpre, s);
        BoxesOfStateEmpty(pre, bpre, s);
      }
    } else {
      CollectedByState(pre, bpre, s);
    }
  }

  lemma {:induction false} BoxesOfStateEmpty(fs: seq<Feature>, bs: seq<Box>, s: string)
    requires |bs| == |fs|
    requires forall i :: 0 <= i < |fs| ==> fs[i].props.state != s
    ensures BoxesOfState(fs, bs, s) == []
  {
    if fs != [] {
      BoxesOfStateEmpty(fs[..|fs| - 1], bs[..|fs| - 1], s);
    }
  }

  /** District `i`'s box is among the boxes collected for its state. */
  lemma {:induction false} BoxesOfStateHas(fs: seq<Feature>, bs: seq<Box>, i: nat)
    requires |bs| == |fs| && i < |fs|
    ensures bs[i] in BoxesOfState(fs, bs, fs[i].props.state)
  {
    var n := |fs| - 1;
    if i < n {
      BoxesOfStateHas(fs[..n], bs[..n], i);
    }
  }

  /** Every box collected for state `s` belongs to a district of `s`. */
  lemma {:induction false} BoxesOfStateFrom(fs: seq<Feature>, bs: seq<Box>, s: string, b: Box)
    requires |bs| == |fs| && b in BoxesOfState(fs, bs, s)
    ensures exists i :: 0 <= i < |fs| && fs[i].props.state == s && bs[i] == b
  {
    var n := |fs| - 1;
    if b in BoxesOfState(fs[..n], bs[..n], s) {
      BoxesOfStateFrom(fs[..n], bs[..n], s, b);
      var i :| 0 <= i < n && fs[..n][i].props.state == s && bs[..n][i] == b;
      assert fs[i].props.state == s && bs[i] == b;
    }
  }

  /** A state's box contains every one of its districts' boxes, and is the
      smallest box that does. */
  lemma StateBoxEnvelope(fs: seq<Feature>, bs: seq<Box>, s: string)
    requires |bs| == |fs|
    ensures s in StateBoxes(fs, bs).entries <==> exists i :: 0 <= i < |fs| && fs[i].props.state == s
    ensures s in StateBoxes(fs, bs).entries ==>
      (forall i :: 0 <= i < |fs| && fs[i].props.state == s ==>
        Contains(StateBoxes(fs, bs).entries[s], Extent(bs[i])) &&
        (WellFormed(bs[i]) ==> Contains(StateBoxes(fs, bs).entries[s], bs[i]))) &&
      (forall c :: (forall i :: 0 <= i < |fs| && fs[i].props.state == s ==> Contains(c, Extent(bs[i]))) ==>
        Contains(c, StateBoxes(fs, bs).entries[s]))
  {
    CollectedKeys(fs, bs, s);
    if s in StateBoxes(fs, bs).entries {
      CollectedByState(fs, bs, s);
      var own := BoxesOfState(fs, bs, s);
      CollectedNonEmpty(fs, bs);
      assert StateBoxes(fs, bs).entries[s] == Envelope(own);
      forall i | 0 <= i < |fs| && fs[i].props.state == s
        ensures Contains(Envelope(own), Extent(bs[i]))
        ensures WellFormed(bs[i]) ==> Contains(Envelope(own), bs[i])
      {
        BoxesOfStateHas(fs, bs, i);
        var j :| 0 <= j < |own| && own[j] == bs[i];
        EnvelopeContains(own, j);
      }
      forall c | (forall i :: 0 <= i < |fs| && fs[i].props.state == s ==> Contains(c, Extent(bs[i])))
        ensures Contains(c, Envelope(own))
      {
        forall j | 0 <= j < |own| ensures Contains(c, Extent(own[j])) {
          BoxesOfStateFrom(fs, bs, s, own[j]);
        }
        EnvelopeMinimal(own, c);
      }
    }
  }

  /** Each district key holds the box of the last district stored under it,
      and only district keys are present. */
  lemma {:induction false} DistrictBoxLookup(fs: seq<Feature>, bs: seq<Box>, i: nat)
    requires |bs| == |fs| && i < |fs|
    requires forall j :: i < j < |fs| ==> DistrictKey(fs[j]) != DistrictKey(fs[i])
    ensures DistrictKey(fs[i]) in DistrictBoxes(fs, bs).entries
    ensures DistrictBoxes(fs, bs).entries[DistrictKey(fs[i])] == bs[i]
  {
    var n := |fs| - 1;
    if i < n {
      DistrictBoxLookup(fs[..n], bs[..n], i);
    }
  }

  lemma {:induction false} DistrictBoxKeys(fs: seq<Feature>, bs: seq<Box>, k: string)
    requires |bs| == |fs|
    ensures k in DistrictBoxes(fs, bs).entries <==> exists i :: 0 <= i < |fs| && DistrictKey(fs[i]) == k
  {
    if fs != [] {
      var n := |fs| - 1;
      var pre, bpre := fs[..n], bs[..n];
      DistrictBoxKeys(pre, bpre, k);
      var prev := DistrictBoxes(pre, bpre);
      assert DistrictBoxes(fs, bs).entries.Keys == prev.entries.Keys + {DistrictKey(fs[n])};
      if k == DistrictKey(fs[n]) {
        assert 0 <= n < |fs| && DistrictKey(fs[n]) == k;
      } else {
        if k in prev.entries {
          var i :| 0 <= i < n && DistrictKey(pre[i]) == k;
          assert DistrictKey(fs[i]) == k;
        }
        if exists i :: 0 <= i < |fs| && DistrictKey(fs[i]) == k {
          var i :| 0 <= i < |fs| && DistrictKey(fs[i]) == k;
          assert i < n && DistrictKey(pre[i]) == k;
        }
      }
    }
  }

  /** Copying overwrites the copied keys with `b`'s values and leaves every
      other entry of `a` as it was. */
  lemma {:induction false} CopyKeysEntries<V>(a: Dict<V>, b: Dict<V>, ks: seq<string>)
    requires forall k :: k in ks ==> k in b.entries
    ensures var r := CopyKeys(a, b, ks);
      (forall k :: k in r.entries <==> k in a.entries || k in ks) &&
      (forall k :: k in ks ==> r.entries[k] == b.entries[k]) &&
      (forall k :: k in a.entries && k !in ks ==> r.entries[k] == a.entries[k])
  {
    if ks != [] {
      var n := |ks| - 1;
      var pre := ks[..n];
      CopyKeysEntries(a, b, pre);
      assert forall k :: k in ks <==> k in pre || k == ks[n] by {
        assert ks == pre + [ks[n]];
      }
    }
  }

  /** Copying keeps `a`'s keys in place; keys that are new to `a` follow in
      the order they were copied. */
  lemma {:induction false} CopyKeysOrder<V>(a: Dict<V>, b: Dict<V>, ks: seq<string>)
    requires forall k :: k in ks ==> k in b.entries
    requires forall k :: k in ks ==> k !in a.entries
    requires NoDuplicates(ks)
    ensures CopyKeys(a, b, ks).keys == a.keys + ks
  {
    if ks != [] {
      var n := |ks| - 1;
      var pre := ks[..n];
      CopyKeysOrder(a, b, pre);
      CopyKeysEntries(a, b, pre);
      assert ks[n] !in pre;
      assert ks == pre + [ks[n]];
    }
  }

  /** Copying into an empty dictionary reproduces the dictionary. */
  lemma CopyIntoEmpty(d: Dict<Box>)
    requires ValidDict(d)
    ensures CopyInto(EmptyDict(), d) == d
  {
    var empty: Dict<Box> := EmptyDict();
    CopyKeysEntries(empty, d, d.keys);
    CopyKeysOrder(empty, d, d.keys);
    assert CopyInto(empty, d).entries == d.entries;
  }

  /** Copying `ss` into `ds`: all entries of both, `ss` winning. */
  lemma CopyIntoEntries(ds: Dict<Box>, ss: Dict<Box>)
    requires ValidDict(ss)
    ensures CopyInto(ds, ss).entries == ds.entries + ss.entries
  {
    CopyKeysEntries(ds, ss, ss.keys);
  }

  /** Copying `ss` into `ds` when their keys are disjoint: `ds`'s keys in
      order followed by `ss`'s keys in order. */
  lemma CopyIntoOrder(ds: Dict<Box>, ss: Dict<Box>)
    requires ValidDict(ss)
    requires ds.entries.Keys !! ss.entries.Keys
    ensures CopyInto(ds, ss).keys == ds.keys + ss.keys
  {
    assert forall k :: k in ss.keys ==> k in ss.entries && k !in ds.entries;
    CopyKeysOrder(ds, ss, ss.keys);
  }

  /** The written lookup holds every district entry and every state entry;
      when no state key is also a district key, the district keys come first
      in their order, followed by the state keys in theirs. */
  lemma AllBoxesLayout(fs: seq<Feature>, bs: seq<Box>)
    requires |bs| == |fs|
    ensures var all := AllBoxes(fs, bs);
      var ds := DistrictBoxes(fs, bs);
      var ss := StateBoxes(fs, bs);
      all.entries == ds.entries + ss.entries &&
      (ds.entries.Keys !! ss.entries.Keys ==> all.keys == ds.keys + ss.keys)
  {
    var ds := DistrictBoxes(fs, bs);
    var ss := StateBoxes(fs, bs);
    DistrictBoxesValid(fs, bs);
    StateBoxesValid(fs, bs);
    CopyIntoEmpty(ds);
    CopyIntoEntries(ds, ss);
    if ds.entries.Keys !! ss.entries.Keys {
      CopyIntoOrder(ds, ss);
    }
  }

  /** State keys and district keys never collide when every state code has
      two characters and every district number at least one. */
  lemma KeysDisjoint(fs: seq<Feature>, bs: seq<Box>)
    requires |bs| == |fs|
    requires forall i :: 0 <= i < |fs| ==> |fs[i].props.state| == 2 && fs[i].props.number != []
    ensures DistrictBoxes(fs, bs).entries.Keys !! StateBoxes(fs, bs).entries.Keys
  {
    forall k | k in DistrictBoxes(fs, bs).entries ensures k !in StateBoxes(fs, bs).entries {
      DistrictBoxKeys(fs, bs, k);
      StateBoxEnvelope(fs, bs, k);
    }
  }

  /** The walk over the districts: each box is stored under its district key
      and collected for its state. */
  method WalkDistricts(fs: seq<Feature>, bs: seq<Box>)
    returns (districtBboxes: Dict<Box>, collected: Dict<seq<Box>>)
    requires |bs| == |fs|
    ensures districtBboxes == DistrictBoxes(fs, bs)
    ensures collected == Collected(fs, bs)
  {
    districtBboxes := EmptyDict();
    collected := EmptyDict();
    var i := 0;
    while i < |fs|
      invariant 0 <= i <= |fs|
      invariant districtBboxes == DistrictBoxes(fs[..i], bs[..i])
      invariant collected == Collected(fs[..i], bs[..i])
    {
      assert fs[..i + 1][..i] == fs[..i] && bs[..i + 1][..i] == bs[..i];
      var d := fs[i];
      districtBboxes := Put(districtBboxes, d.props.state + d.props.number, bs[i]);
      var s := d.props.state;
      var sofar := if s in collected.entries then collected.entries[s] else [];
      collected := Put(collected, s, sofar + [bs[i]]);
      i := i + 1;
    }
    assert fs[..i] == fs && bs[..i] == bs;
  }

  /** Replaces each state's collection by its envelope, state by state. */
  method ReplaceByEnvelopes(collected: Dict<seq<Box>>) returns (stateBboxes: Dict<Box>)
    requires ValidDict(collected)
    requires forall s :: s in collected.entries ==> collected.entries[s] != []
    ensures stateBboxes == Envelopes(collected)
  {
    var envelopes: map<string, Box> := map[];
    var j := 0;
    while j < |collected.keys|
      invariant 0 <= j <= |collected.keys|
      invariant envelopes == map s | s in collected.keys[..j] :: Envelope(collected.entries[s])
    {
      var s := collected.keys[j];
      envelopes := envelopes[s := Envelope(collected.entries[s])];
      assert collected.keys[..j + 1] == collected.keys[..j] + [s];
      j := j + 1;
    }
    assert collected.keys[..j] == collected.keys;
    stateBboxes := Dict(collected.keys, envelopes);
  }

  /** `for (k in b) a[k] = b[k]`. */
  method CopyAll(a: Dict<Box>, b: Dict<Box>) returns (r: Dict<Box>)
    requires Listed(b)
    ensures r == CopyInto(a, b)
  {
    r := a;
    var j := 0;
    while j < |b.keys|
      invariant 0 <= j <= |b.keys|
      invariant r == CopyKeys(a, b, b.keys[..j])
    {
      var k := b.keys[j];
      assert b.keys[..j + 1][..j] == b.keys[..j];
      r := Put(r, k, b.entries[k]);
      j := j + 1;
    }
    assert b.keys[..j] == b.keys;
  }

  /** The whole aggregation: the district boxes, the state envelopes, and
      the lookup holding the district entries and then the state entries. */
  method AggregateBoxes(fs: seq<Feature>, bs: seq<Box>) returns (bboxes: Dict<Box>)
    requires |bs| == |fs|
    ensures bboxes == AllBoxes(fs, bs)
  {
    var districtBboxes, collected := WalkDistricts(fs, bs);
    CollectedNonEmpty(fs, bs);
    DistrictBoxesValid(fs, bs);
    CollectedValid(fs, bs);
    StateBoxesValid(fs, bs);
    var stateBboxes := ReplaceByEnvelopes(collected);
    bboxes := CopyAll(EmptyDict(), districtBboxes);
    bboxes := CopyAll(bboxes, stateBboxes);
  }
}

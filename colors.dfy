/**
 * Color canonicalization: the map-coloring library leaves an opaque `fill`
 * token on every feature; the script renumbers the tokens densely in
 * first-seen order and replaces `fill` by that `color_index`.
 */
module Colors {
  import opened Wrappers
  import opened Features

  /** The dictionary key a feature's fill is stored under; a missing fill
      is coerced to the key "undefined", as a JavaScript object key would be. */
  function Token(f: Feature): string
  {
    match f.props.fill
    case Some(t) => t
    case None => "undefined"
  }

  function Tokens(fs: seq<Feature>): (ts: seq<string>)
    ensures |ts| == |fs| && forall i :: 0 <= i < |fs| ==> ts[i] == Token(fs[i])
  {
    seq(|fs|, i requires 0 <= i < |fs| => Token(fs[i]))
  }

  /** The distinct tokens of `ts`. */
  function Distinct(ts: seq<string>): set<string>
  {
    set t | t in ts
  }

  /** The dictionary after walking `ts`: each new token is given the number of
      entries already present. */
  function FirstSeen(ts: seq<string>): (m: map<string, nat>)
    ensures |m| <= |ts|
    ensures ts != [] ==> ts[|ts| - 1] in m
  {
    if ts == [] then map[]
    else
      var prev := FirstSeen(ts[..|ts| - 1]);
      var t := ts[|ts| - 1];
      if t in prev then prev else prev[t := |prev|]
  }

  /** The dictionary holds exactly the tokens seen. */
  lemma {:induction false} FirstSeenKeys(ts: seq<string>)
    ensures FirstSeen(ts).Keys == Distinct(ts)
  {
    if ts != [] {
      var t := ts[|ts| - 1];
      FirstSeenKeys(ts[..|ts| - 1]);
      assert ts == ts[..|ts| - 1] + [t];
      assert Distinct(ts) == Distinct(ts[..|ts| - 1]) + {t};
    }
  }

  /** The dictionary a prefix of the walk has built is part of the final one. */
  lemma {:induction false} FirstSeenPrefix(ts: seq<string>, i: nat)
    requires i <= |ts|
    ensures forall t :: t in FirstSeen(ts[..i]) ==> t in FirstSeen(ts) && FirstSeen(ts)[t] == FirstSeen(ts[..i])[t]
  {
    if i < |ts| {
      FirstSeenPrefix(ts[..|ts| - 1], i);
      assert ts[..|ts| - 1][..i] == ts[..i];
    } else {
      assert ts[..i] == ts;
    }
  }

  ghost predicate Injective(m: map<string, nat>)
  {
    forall a, b :: a in m && b in m && m[a] == m[b] ==> a == b
  }

  /** `s` is exactly the numbers 0..k-1. */
  ghost predicate IsRange(s: set<nat>, k: nat)
  {
    forall v: nat :: v in s <==> v < k
  }

  /** Adding a new key under the next free number keeps a dense one-to-one
      numbering dense and one-to-one. */
  lemma AddNextNumber(m: map<string, nat>, t: string)
    requires t !in m && Injective(m) && IsRange(m.Values, |m|)
    ensures Injective(m[t := |m|]) && IsRange(m[t := |m|].Values, |m| + 1)
    ensures |m[t := |m|]| == |m| + 1
  {
    var m' := m[t := |m|];
    assert m'.Keys == m.Keys + {t};
    forall a | a in m ensures m'[a] < |m| {
      assert m[a] in m.Values;
    }
    forall a, b | a in m' && b in m' && m'[a] == m'[b] ensures a == b {
      if a != t && b != t {
        assert m[a] == m[b];
      }
    }
    forall v: nat ensures v in m'.Values <==> v < |m| + 1 {
      if v in m'.Values {
        var a :| a in m' && m'[a] == v;
        if a != t {
          assert m[a] in m.Values;
        }
      }
      if v < |m| {
        assert v in m.Values;
        var a :| a in m && m[a] == v;
        assert m'[a] == v;
      } else if v == |m| {
        assert m'[t] == v;
      }
    }
  }

  /** The numbering is one-to-one and uses exactly 0..k-1, where k is the
      number of distinct tokens. */
  lemma {:induction false} FirstSeenDense(ts: seq<string>)
    ensures Injective(FirstSeen(ts))
    ensures IsRange(FirstSeen(ts).Values, |Distinct(ts)|)
  {
    if ts != [] {
      var pre := ts[..|ts| - 1];
      var t := ts[|ts| - 1];
      FirstSeenDense(pre);
      FirstSeenKeys(pre);
      FirstSeenKeys(ts);
      var prev := FirstSeen(pre);
      assert |prev| == |prev.Keys| == |Distinct(pre)|;
      if t !in prev {
        AddNextNumber(prev, t);
        assert |FirstSeen(ts)| == |FirstSeen(ts).Keys| == |Distinct(ts)|;
      }
    }
  }

  /** First-seen order: a token whose first occurrence is at position i is
      numbered with the count of distinct tokens before i. */
  lemma FirstSeenOrder(ts: seq<string>, i: nat)
    requires i < |ts| && ts[i] !in ts[..i]
    ensures ts[i] in FirstSeen(ts) && FirstSeen(ts)[ts[i]] == |Distinct(ts[..i])|
  {
    FirstSeenPrefix(ts, i + 1);
    assert ts[..i + 1][..i] == ts[..i];
    FirstSeenKeys(ts[..i]);
    var prev := FirstSeen(ts[..i]);
    assert |prev| == |prev.Keys| == |Distinct(ts[..i])|;
  }

  /** The feature with its fill replaced by the color index `k`. */
  function Recolor(f: Feature, k: nat): Feature
  {
    f.(props := f.props.(colorIndex := Some(k), fill := None))
  }

  /** What the walk leaves in the features: each feature recolored with the
      final number of its token. */
  function Recolored(fs: seq<Feature>): (rs: seq<Feature>)
    ensures |rs| == |fs|
    ensures forall i :: 0 <= i < |fs| ==>
      Token(fs[i]) in FirstSeen(Tokens(fs)) && rs[i] == Recolor(fs[i], FirstSeen(Tokens(fs))[Token(fs[i])])
  {
    FirstSeenKeys(Tokens(fs));
    var m := FirstSeen(Tokens(fs));
    seq(|fs|, i requires 0 <= i < |fs| =>
      assert Tokens(fs)[i] in Tokens(fs);
      Recolor(fs[i], m[Token(fs[i])]))
  }

  /** One step of the walk: from the dictionary built before position i,
      adding the token at i if it is new gives the dictionary after i, and
      the token's number there is already its final number. */
  lemma WalkStep(ts: seq<string>, i: nat, prev: map<string, nat>, next: map<string, nat>)
    requires i < |ts|
    requires prev == FirstSeen(ts[..i])
    requires next == if ts[i] in prev then prev else prev[ts[i] := |prev|]
    ensures next == FirstSeen(ts[..i + 1])
    ensures ts[i] in next && ts[i] in FirstSeen(ts) && next[ts[i]] == FirstSeen(ts)[ts[i]]
  {
    var pre := ts[..i + 1];
    assert pre[..i] == ts[..i] && pre[i] == ts[i];
    FirstSeenPrefix(ts, i + 1);
  }

  /** Sequence helper for the walk: overwriting the first not-yet-done
      element moves it into the done part. */
  lemma SpliceNext<T>(done: seq<T>, rest: seq<T>, x: T)
    requires |done| < |rest|
    ensures (done + rest[|done|..])[|done| := x] == done + [x] + rest[|done| + 1..]
  {
    var n := |done|;
    var lhs := (done + rest[n..])[n := x];
    var rhs := done + [x] + rest[n + 1..];
    assert |lhs| == |rhs|;
    forall j | 0 <= j < |lhs| ensures lhs[j] == rhs[j] {
      if j > n {
        assert rhs[j] == rest[n + 1..][j - n - 1];
      }
    }
  }

  /** Recoloring feature i with its token's final number extends the
      recolored prefix by one. */
  lemma RecoloredPrefixNext(orig: seq<Feature>, i: nat, k: nat)
    requires i < |orig|
    requires Token(orig[i]) in FirstSeen(Tokens(orig)) && k == FirstSeen(Tokens(orig))[Token(orig[i])]
    ensures Recolored(orig)[..i + 1] == Recolored(orig)[..i] + [Recolor(orig[i], k)]
  {
    var rs := Recolored(orig);
    assert rs[..i + 1] == rs[..i] + [rs[i]];
  }

  /** The walk's invariant survives one step: after position i the
      dictionary is the one built from the first i + 1 tokens, and the array
      is the first i + 1 recolored features followed by the untouched rest. */
  lemma WalkInvariantStep(orig: seq<Feature>, i: nat, prev: map<string, nat>, next: map<string, nat>)
    requires i < |orig|
    requires prev == FirstSeen(Tokens(orig)[..i])
    requires var t := Token((Recolored(orig)[..i] + orig[i..])[i]);
      next == if t in prev then prev else prev[t := |prev|]
    ensures next == FirstSeen(Tokens(orig)[..i + 1])
    ensures var cur := Recolored(orig)[..i] + orig[i..];
      Token(cur[i]) in next &&
      cur[i := Recolor(cur[i], next[Token(cur[i])])] == Recolored(orig)[..i + 1] + orig[i + 1..]
  {
    var done := Recolored(orig)[..i];
    assert (done + orig[i..])[i] == orig[i];
    var ts := Tokens(orig);
    WalkStep(ts, i, prev, next);
    var k := next[ts[i]];
    RecoloredPrefixNext(orig, i, k);
    SpliceNext(done, orig, Recolor(orig[i], k));
  }

  /** One step of the walk: gives the feature's token the next number if it
      is new, and recolors the feature with its token's number. */
  method RecolorNext(features: array<Feature>, i: int, palette: map<string, nat>)
    returns (next: map<string, nat>)
    requires 0 <= i < features.Length
    modifies features
    ensures var t := Token(old(features[i]));
      next == (if t in palette then palette else palette[t := |palette|]) &&
      features[..] == old(features[..])[i := Recolor(old(features[i]), next[t])]
  {
    var f := features[i];
    var t := Token(f);
    next := palette;
    if t !in next {
      next := next[t := |next|];
    }
    features[i] := Recolor(f, next[t]);
  }

  /** Walks the features in order, numbering each new token with the number
      of tokens already seen, and replaces every fill by its number in place.
      Returns the token dictionary. */
  method CanonicalizeColors(features: array<Feature>) returns (palette: map<string, nat>)
    modifies features
    ensures palette == FirstSeen(Tokens(old(features[..])))
    ensures features[..] == Recolored(old(features[..]))
  {
    ghost var orig := features[..];
    palette := map[];
    var i := 0;
    while i < features.Length
      invariant 0 <= i <= features.Length
      invariant palette == FirstSeen(Tokens(orig)[..i])
      invariant features[..] == Recolored(orig)[..i] + orig[i..]
    {
      ghost var prev := palette;
      palette := RecolorNext(features, i, palette);
      WalkInvariantStep(orig, i, prev, palette);
      i := i + 1;
    }
    assert Tokens(orig)[..i] == Tokens(orig);
    assert Recolored(orig)[..i] == Recolored(orig);
  }

  /** After the walk every feature carries a color index and no fill, and
      nothing else about it changed. */
  lemma RecoloredFeature(fs: seq<Feature>, i: nat)
    requires i < |fs|
    ensures var r := Recolored(fs)[i];
      r.props.colorIndex.Some? && r.props.fill.None? && r.geometry == fs[i].geometry &&
      r.props.(colorIndex := fs[i].props.colorIndex, fill := fs[i].props.fill) == fs[i].props
  {
  }

  /** Two features share a color index exactly when they shared a fill token. */
  lemma SameIndexIffSameToken(fs: seq<Feature>, i: nat, j: nat)
    requires i < |fs| && j < |fs|
    ensures Recolored(fs)[i].props.colorIndex == Recolored(fs)[j].props.colorIndex
        <==> Token(fs[i]) == Token(fs[j])
  {
    FirstSeenDense(Tokens(fs));
  }

  /** The color indices the features carry. */
  function UsedIndices(fs: seq<Feature>): set<nat>
  {
    set i | 0 <= i < |fs| && fs[i].props.colorIndex.Some? :: fs[i].props.colorIndex.value
  }

  /** The color indices in use are exactly 0..k-1, k the number of distinct tokens. */
  lemma IndicesAreDense(fs: seq<Feature>)
    ensures IsRange(UsedIndices(Recolored(fs)), |Distinct(Tokens(fs))|)
  {
    var ts := Tokens(fs);
    var m := FirstSeen(ts);
    FirstSeenDense(ts);
    FirstSeenKeys(ts);
    var used := UsedIndices(Recolored(fs));
    forall v | v in m.Values ensures v in used {
      var t :| t in m && m[t] == v;
      var i :| 0 <= i < |ts| && ts[i] == t;
      assert Recolored(fs)[i].props.colorIndex == Some(v);
    }
    forall v | v in used ensures v in m.Values {
      var i :| 0 <= i < |fs| && Recolored(fs)[i].props.colorIndex == Some(v);
      assert ts[i] in ts;
    }
  }

  /** Adjacency is a set of index pairs of features that share a border. */
  predicate ProperFills(fs: seq<Feature>, adjacent: set<(nat, nat)>)
  {
    forall e :: e in adjacent && e.0 < |fs| && e.1 < |fs| ==> Token(fs[e.0]) != Token(fs[e.1])
  }

  predicate ProperIndices(fs: seq<Feature>, adjacent: set<(nat, nat)>)
  {
    forall e :: e in adjacent && e.0 < |fs| && e.1 < |fs| ==> fs[e.0].props.colorIndex != fs[e.1].props.colorIndex
  }

  /** The renumbering keeps the coloring the library is trusted to produce:
      bordering districts that had different fills get different indices. */
  lemma AdjacencyPreserved(fs: seq<Feature>, adjacent: set<(nat, nat)>)
    requires ProperFills(fs, adjacent)
    ensures ProperIndices(Recolored(fs), adjacent)
  {
    forall e | e in adjacent && e.0 < |fs| && e.1 < |fs|
      ensures Recolored(fs)[e.0].props.colorIndex != Recolored(fs)[e.1].props.colorIndex
    {
      SameIndexIffSameToken(fs, e.0, e.1);
    }
  }
}

/** Small shared vocabulary: optional values, bytes, and facts about sequences. */
module Wrappers {

  datatype Option<+T> = None | Some(value: T)

  newtype byte = x: int | 0 <= x < 256

  type Bytes = seq<byte>
}

module SeqFacts {

  function Flatten<T>(ss: seq<seq<T>>): seq<T> {
    if ss == [] then [] else Flatten(ss[..|ss| - 1]) + ss[|ss| - 1]
  }

  /** Where segment `f` starts inside `Flatten(ss)`. */
  function Offset<T>(ss: seq<seq<T>>, f: nat): nat
    requires f <= |ss|
  {
    |Flatten(ss[..f])|
  }

  lemma OffsetNext<T>(ss: seq<seq<T>>, f: nat)
    requires f < |ss|
    ensures Offset(ss, f + 1) == Offset(ss, f) + |ss[f]|
  {
    assert ss[..f + 1][..f] == ss[..f];
  }

  lemma {:induction false} FlattenPrefix<T>(ss: seq<seq<T>>, f: nat)
    requires f <= |ss|
    ensures Flatten(ss[..f]) <= Flatten(ss)
    decreases |ss| - f
  {
    if f == |ss| {
      assert ss[..f] == ss;
    } else {
      FlattenPrefix(ss, f + 1);
      assert ss[..f + 1][..f] == ss[..f];
    }
  }

  lemma FlattenIndex<T>(ss: seq<seq<T>>, f: nat, j: nat)
    requires f < |ss| && j < |ss[f]|
    ensures Offset(ss, f) + j < |Flatten(ss)|
    ensures Flatten(ss)[Offset(ss, f) + j] == ss[f][j]
  {
    FlattenPrefix(ss, f + 1);
    assert ss[..f + 1][..f] == ss[..f];
  }

  lemma {:induction false} OffsetMonotone<T>(ss: seq<seq<T>>, f: nat, g: nat)
    requires f < g <= |ss|
    ensures Offset(ss, f) + |ss[f]| <= Offset(ss, g)
    decreases g - f
  {
    OffsetNext(ss, f);
    if f + 1 < g {
      OffsetMonotone(ss, f + 1, g);
    }
  }

  /** Distinct (segment, index) pairs land on distinct positions of the flattening. */
  lemma FlattenInjective<T>(ss: seq<seq<T>>, f: nat, j: nat, g: nat, k: nat)
    requires f < |ss| && j < |ss[f]| && g < |ss| && k < |ss[g]|
    requires Offset(ss, f) + j == Offset(ss, g) + k
    ensures f == g && j == k
  {
    if f < g {
      OffsetMonotone(ss, f, g);
    } else if g < f {
      OffsetMonotone(ss, g, f);
    }
  }

  /** Every element of the flattening sits in some segment. */
  lemma {:induction false} FlattenLocate<T>(ss: seq<seq<T>>, i: nat) returns (f: nat, j: nat)
    requires i < |Flatten(ss)|
    ensures f < |ss| && j < |ss[f]| && Offset(ss, f) + j == i
  {
    var last := |ss| - 1;
    if i < |Flatten(ss[..last])| {
      f, j := FlattenLocate(ss[..last], i);
      assert ss[..last][..f] == ss[..f];
    } else {
      f, j := last, i - |Flatten(ss[..last])|;
    }
  }

  /** `out` is what `keep` selects from `s`, in order; `at` says where each element stood. */
  ghost predicate Selects<T>(at: seq<nat>, s: seq<T>, keep: T -> bool, out: seq<T>) {
    && |at| == |out|
    && (forall i :: 0 <= i < |at| ==> at[i] < |s| && out[i] == s[at[i]])
    && (forall i, j :: 0 <= i < j < |at| ==> at[i] < at[j])
    && (forall k: nat {:trigger s[k]} :: k < |s| ==> (keep(s[k]) <==> k in at))
  }

  lemma SelectsNext<T>(at: seq<nat>, s: seq<T>, keep: T -> bool, out: seq<T>, x: T)
    requires Selects(at, s, keep, out)
    ensures Selects(at + if keep(x) then [|s|] else [], s + [x], keep, out + if keep(x) then [x] else [])
  {
    var at' := at + if keep(x) then [|s|] else [];
    forall k: nat | k < |s + [x]| ensures keep((s + [x])[k]) <==> k in at' {
      if k < |s| {
        assert (s + [x])[k] == s[k];
      }
    }
  }
}

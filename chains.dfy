/**
 * Chains of bones built from (transform, length) pairs: a running matrix is multiplied by
 * each transform, the bone's head is the matrix origin, its roll axis the matrix Z column,
 * and the matrix then moves along its own Y axis by the length to give the tail. The bones
 * are keyed `name-1`, `name-2`, ...; each bone after the first is parented to its predecessor
 * and connected to it when the predecessor's tail is within 1e-4 of its head.
 */
module Chains {
  import opened Util
  import opened Geometry
  import opened MetaBones
  import opened Tables

  /** The running matrix before step `k`: every earlier transform, each followed by its move along Y. */
  function Running(mul: (Mat4, Mat4) -> Mat4, pairs: seq<(Mat4, real)>, k: nat): Mat4
    requires k <= |pairs|
  {
    if k == 0 then Identity
    else mul(mul(Running(mul, pairs, k - 1), pairs[k - 1].0), Translation(Vec3(0.0, pairs[k - 1].1, 0.0)))
  }

  /** The matrix at the head of bone `k`. */
  function HeadFrame(mul: (Mat4, Mat4) -> Mat4, pairs: seq<(Mat4, real)>, k: nat): Mat4
    requires k < |pairs|
  {
    mul(Running(mul, pairs, k), pairs[k].0)
  }

  /** `"%s-%s" % (name, num_id)`, with `num_id` counting from 1. */
  function ChainKey(name: string, k: nat): string
  {
    name + "-" + NatToDecimal(k + 1)
  }

  /** Bone `k` of the chain, as the loop leaves it. */
  function ChainBone(mul: (Mat4, Mat4) -> Mat4, name: string, pairs: seq<(Mat4, real)>, k: nat): MetaBone
    requires k < |pairs|
  {
    var frame := HeadFrame(mul, pairs, k);
    var head := Xyz(frame.c3);
    var b := MakeBone(ChainKey(name, k), None, None);
    b.(attrs := b.attrs.(
      head := head,
      alignRoll := Xyz(frame.c2),
      tail := Xyz(Running(mul, pairs, k + 1).c3),
      parent := if k > 0 then Some(ChainKey(name, k - 1)) else None,
      useConnect := k > 0 && CloserThanTolerance(Xyz(Running(mul, pairs, k).c3), head)))
  }

  /** Bone `k` from its head frame, the running matrix after it and its predecessor's key and tail. */
  lemma ChainBoneFrom(mul: (Mat4, Mat4) -> Mat4, name: string, pairs: seq<(Mat4, real)>, k: nat, frame: Mat4, next: Mat4,
                      prev: Option<string>, prevTail: Vec3)
    requires k < |pairs| && frame == HeadFrame(mul, pairs, k) && next == Running(mul, pairs, k + 1)
    requires k == 0 ==> prev.None?
    requires k > 0 ==> prev == Some(ChainKey(name, k - 1)) && prevTail == Xyz(Running(mul, pairs, k).c3)
    ensures var b := MakeBone(ChainKey(name, k), None, None);
            ChainBone(mul, name, pairs, k) ==
              b.(attrs := b.attrs.(
                head := Xyz(frame.c3),
                alignRoll := Xyz(frame.c2),
                tail := Xyz(next.c3),
                parent := prev,
                useConnect := prev.Some? && CloserThanTolerance(prevTail, Xyz(frame.c3))))
  {
  }

  /** The map sending `keys[i]` to `values[i]` for the first `n` positions (later keys win). */
  function Assoc<V>(keys: seq<string>, values: seq<V>, n: nat): map<string, V>
    requires |keys| == |values| && n <= |keys|
  {
    if n == 0 then map[] else Assoc(keys, values, n - 1)[keys[n - 1] := values[n - 1]]
  }

  lemma {:induction false} AssocSpec<V>(keys: seq<string>, values: seq<V>, n: nat)
    requires |keys| == |values| && n <= |keys| && Distinct(keys)
    ensures forall k :: k in Assoc(keys, values, n) <==> k in keys[..n]
    ensures forall j :: 0 <= j < n ==> keys[j] in Assoc(keys, values, n) && Assoc(keys, values, n)[keys[j]] == values[j]
  {
    if n > 0 {
      AssocSpec(keys, values, n - 1);
      assert keys[..n] == keys[..n - 1] + [keys[n - 1]];
      forall j | 0 <= j < n - 1 ensures keys[j] != keys[n - 1] {
      }
    }
  }

  /** The table that stores `bones[i]` under `keys[i]` for the first `n` positions, in order. */
  function Stack(keys: seq<string>, bones: seq<MetaBone>, n: nat): BoneTable
    requires |keys| == |bones| && n <= |keys|
  {
    BoneTable(keys[..n], Assoc(keys, bones, n))
  }

  lemma StackSpec(keys: seq<string>, bones: seq<MetaBone>, n: nat)
    requires |keys| == |bones| && n <= |keys| && Distinct(keys)
    ensures var t := Stack(keys, bones, n);
            && WellFormed(t)
            && t.order == keys[..n]
            && (forall k :: 0 <= k < n ==> keys[k] in t.bones && t.bones[keys[k]] == bones[k])
  {
    AssocSpec(keys, bones, n);
    assert Distinct(keys[..n]) by {
      forall i, j | 0 <= i < j < n ensures keys[..n][i] != keys[..n][j] {
      }
    }
  }

  /** The next stack adds the next key, which is new, at the end. */
  lemma StackNext(keys: seq<string>, bones: seq<MetaBone>, n: nat)
    requires |keys| == |bones| && n < |keys| && Distinct(keys)
    ensures var t := Stack(keys, bones, n);
            && WellFormed(t)
            && t.order == keys[..n]
            && keys[n] !in t.bones
            && Stack(keys, bones, n + 1) == BoneTable(t.order + [keys[n]], t.bones[keys[n] := bones[n]])
  {
    StackSpec(keys, bones, n);
    assert keys[..n + 1] == keys[..n] + [keys[n]];
    assert keys[n] !in keys[..n] by {
      forall j | 0 <= j < n ensures keys[..n][j] != keys[n] {
      }
    }
  }

  function ChainKeys(name: string, n: nat): (r: seq<string>)
    ensures |r| == n && forall k :: 0 <= k < n ==> r[k] == ChainKey(name, k)
  {
    seq(n, k requires 0 <= k < n => ChainKey(name, k))
  }

  function ChainBones(mul: (Mat4, Mat4) -> Mat4, name: string, pairs: seq<(Mat4, real)>): (r: seq<MetaBone>)
    ensures |r| == |pairs|
    ensures forall k {:trigger ChainBone(mul, name, pairs, k)} :: 0 <= k < |pairs| ==> r[k] == ChainBone(mul, name, pairs, k)
  {
    seq(|pairs|, k requires 0 <= k < |pairs| => ChainBone(mul, name, pairs, k))
  }

  /** `MetaBoneDict.from_transform_length_pairs`. */
  function ChainTable(mul: (Mat4, Mat4) -> Mat4, name: string, pairs: seq<(Mat4, real)>): BoneTable
  {
    Stack(ChainKeys(name, |pairs|), ChainBones(mul, name, pairs), |pairs|)
  }

  /** Different steps get different keys. */
  lemma ChainKeyInjective(name: string, j: nat, k: nat)
    requires ChainKey(name, j) == ChainKey(name, k)
    ensures j == k
  {
    var s := ChainKey(name, j);
    assert NatToDecimal(j + 1) == s[|name| + 1..] == NatToDecimal(k + 1);
    NatToDecimalInjective(j + 1, k + 1);
  }

  lemma ChainKeysDistinct(name: string, n: nat)
    ensures Distinct(ChainKeys(name, n))
  {
    var ks := ChainKeys(name, n);
    forall i, j | 0 <= i < j < n ensures ks[i] != ks[j] {
      if ks[i] == ks[j] {
        ChainKeyInjective(name, i, j);
      }
    }
  }

  /** The chain table stores bone `k` under the `k`-th key. */
  lemma ChainTableSpec(mul: (Mat4, Mat4) -> Mat4, name: string, pairs: seq<(Mat4, real)>)
    ensures var t := ChainTable(mul, name, pairs);
            && WellFormed(t)
            && t.order == ChainKeys(name, |pairs|)
            && (forall k :: 0 <= k < |pairs| ==>
                  ChainKey(name, k) in t.bones && t.bones[ChainKey(name, k)] == ChainBone(mul, name, pairs, k))
  {
    var ks := ChainKeys(name, |pairs|);
    ChainKeysDistinct(name, |pairs|);
    StackSpec(ks, ChainBones(mul, name, pairs), |pairs|);
    assert ks[..|pairs|] == ks;
  }

  /**
   * The chain has one bone per pair, keyed `name-1` ... `name-n` in that order; the first has
   * no parent and is not connected; every later bone is parented to its predecessor and is
   * connected to it exactly when the predecessor's tail lies within 1e-4 of its head.
   */
  lemma ChainShape(mul: (Mat4, Mat4) -> Mat4, name: string, pairs: seq<(Mat4, real)>)
    ensures var t := ChainTable(mul, name, pairs);
            && WellFormed(t)
            && |t.order| == |pairs|
            && (forall k :: 0 <= k < |pairs| ==> t.order[k] == ChainKey(name, k))
            && (forall k :: 0 <= k < |pairs| ==>
                  && ChainKey(name, k) in t.bones
                  && var b := t.bones[ChainKey(name, k)]; b.name == ChainKey(name, k) && b.constraints == [])
            && (ChainKey(name, 0) in t.bones ==>
                  t.bones[ChainKey(name, 0)].attrs.parent.None? && !t.bones[ChainKey(name, 0)].attrs.useConnect)
            && (forall k :: 0 < k < |pairs| ==>
                  var b, prev := t.bones[ChainKey(name, k)], t.bones[ChainKey(name, k - 1)];
                  && b.attrs.parent == Some(ChainKey(name, k - 1))
                  && (b.attrs.useConnect <==> CloserThanTolerance(prev.attrs.tail, b.attrs.head)))
  {
    ChainTableSpec(mul, name, pairs);
    var t := ChainTable(mul, name, pairs);
    if ChainKey(name, 0) in t.bones {
      assert t.order[0] == ChainKey(name, 0);
    }
  }

  /** With the 4x4 product, each tail is the head moved along the head frame's Y axis by the pair's length. */
  lemma ChainTails(name: string, pairs: seq<(Mat4, real)>)
    ensures var t := ChainTable(Mul, name, pairs);
            forall k :: 0 <= k < |pairs| ==>
              ChainKey(name, k) in t.bones &&
              t.bones[ChainKey(name, k)].attrs.tail ==
                Add(t.bones[ChainKey(name, k)].attrs.head, Scale(Xyz(HeadFrame(Mul, pairs, k).c1), pairs[k].1))
  {
    ChainTableSpec(Mul, name, pairs);
    forall k | 0 <= k < |pairs|
      ensures Xyz(Running(Mul, pairs, k + 1).c3) == Add(Xyz(HeadFrame(Mul, pairs, k).c3), Scale(Xyz(HeadFrame(Mul, pairs, k).c1), pairs[k].1))
    {
      TranslateAlongY(HeadFrame(Mul, pairs, k), pairs[k].1);
    }
  }

  /** A transform that does not translate (such as a rotation) joins a bone to its predecessor. */
  lemma ConnectedWhenNotTranslated(name: string, pairs: seq<(Mat4, real)>, k: nat)
    requires 0 < k < |pairs| && pairs[k].0.c3 == Vec4(0.0, 0.0, 0.0, 1.0)
    ensures ChainBone(Mul, name, pairs, k).attrs.useConnect
  {
    MulKeepsOrigin(Running(Mul, pairs, k), pairs[k].0);
    var p := Xyz(Running(Mul, pairs, k).c3);
    assert LengthSq(Sub(p, p)) == 0.0;
  }

  /** `Phalange`: a finger or toe, its curl angle, its segment lengths and their common scale. */
  datatype Phalange = Phalange(name: string, curl: real, lengths: seq<real>, lengthsScale: real)

  /**
   * The (angle, length) pairs of a phalange: the first segment is not curled, every later
   * segment is curled by `curl`, and every length is scaled.
   */
  function PhalangePairs(p: Phalange): (r: seq<(real, real)>)
    requires |p.lengths| > 0
    ensures |r| == |p.lengths|
    ensures r[0].0 == 0.0 && r[0].1 == p.lengths[0] * p.lengthsScale
    ensures forall i :: 1 <= i < |r| ==> r[i].0 == p.curl && r[i].1 == p.lengths[i] * p.lengthsScale
  {
    seq(|p.lengths|, i requires 0 <= i < |p.lengths| => (if i == 0 then 0.0 else p.curl, p.lengths[i] * p.lengthsScale))
  }

  /** `from_angle_length_pairs`: every angle becomes a rotation about X (supplied by the host math library). */
  function RotationPairs(pairs: seq<(real, real)>, rotationX: real -> Mat4): (r: seq<(Mat4, real)>)
    ensures |r| == |pairs|
    ensures forall i :: 0 <= i < |pairs| ==> r[i] == (rotationX(pairs[i].0), pairs[i].1)
  {
    seq(|pairs|, i requires 0 <= i < |pairs| => (rotationX(pairs[i].0), pairs[i].1))
  }

  /**
   * A phalange's chain has one bone per segment, and, since rotations do not translate, every
   * segment after the first is connected to the one before.
   */
  lemma PhalangeChainConnected(p: Phalange, rotationX: real -> Mat4)
    requires |p.lengths| > 0
    requires forall a :: rotationX(a).c3 == Vec4(0.0, 0.0, 0.0, 1.0)
    ensures var t := ChainTable(Mul, p.name, RotationPairs(PhalangePairs(p), rotationX));
            && |t.order| == |p.lengths|
            && forall k :: 0 < k < |p.lengths| ==>
                 ChainKey(p.name, k) in t.bones && t.bones[ChainKey(p.name, k)].attrs.useConnect
  {
    var pairs := RotationPairs(PhalangePairs(p), rotationX);
    ChainTableSpec(Mul, p.name, pairs);
    forall k | 0 < k < |p.lengths|
      ensures ChainKey(p.name, k) in ChainTable(Mul, p.name, pairs).bones
      ensures ChainTable(Mul, p.name, pairs).bones[ChainKey(p.name, k)].attrs.useConnect
    {
      ConnectedWhenNotTranslated(p.name, pairs, k);
      assert ChainTable(Mul, p.name, pairs).bones[ChainKey(p.name, k)] == ChainBone(Mul, p.name, pairs, k);
    }
  }
}

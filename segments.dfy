/**
 * The digit-segment pickers of the hand and foot rigging: segment `s` of digit `p` is the bone
 * keyed `<name><p>-<s>.<letter>` (for instance `finger2-1.L`), digits are numbered 1 to 5, and
 * a missing key reads as no bone. The final-segment search looks among segments 3, 2 and 1;
 * the finger-rig pass also reads a fourth segment (`riggenerator.py:1371`).
 */
module Segments {
  import opened Util
  import opened MetaBones
  import opened Tables
  import opened BoneDicts

  const DigitCount: nat := 5

  /** `"%s%s-%s.%s" % (name, p, s, letter)`. */
  function SegmentKey(name: string, p: nat, s: nat, letter: string): string
  {
    name + NatToDecimal(p) + "-" + NatToDecimal(s) + "." + letter
  }

  /** The bones stored under the keys of `keys` that are present, in the order of `keys`. */
  function Present(t: BoneTable, keys: seq<string>): seq<MetaBone>
  {
    if keys == [] then []
    else
      Present(t, keys[..|keys| - 1]) + match Lookup(t, keys[|keys| - 1]) { case Some(b) => [b] case None => [] }
  }

  /** The bone under the first key of `keys` that is present, if any. */
  function FirstPresent(t: BoneTable, keys: seq<string>): Option<MetaBone>
  {
    if keys == [] then None
    else if keys[0] in t.bones then Some(t.bones[keys[0]])
    else FirstPresent(t, keys[1..])
  }

  /** Segment `s` of digits 1 to `n`. */
  function SiblingKeys(name: string, s: nat, letter: string, n: nat): (r: seq<string>)
    ensures |r| == n && forall i :: 0 <= i < n ==> r[i] == SegmentKey(name, i + 1, s, letter)
  {
    seq(n, i requires 0 <= i < n => SegmentKey(name, i + 1, s, letter))
  }

  /** The segments of digit `p`, last first: 3, 2, 1. */
  function FinalCandidates(name: string, p: nat, letter: string): seq<string>
  {
    [SegmentKey(name, p, 3, letter), SegmentKey(name, p, 2, letter), SegmentKey(name, p, 1, letter)]
  }

  /** For digits 1 to `n` in order, the last segment each digit has. */
  function FinalSegments(t: BoneTable, name: string, letter: string, n: nat): seq<MetaBone>
  {
    if n == 0 then []
    else
      FinalSegments(t, name, letter, n - 1)
      + match FirstPresent(t, FinalCandidates(name, n, letter)) { case Some(b) => [b] case None => [] }
  }

  /** `get_segment_siblings`: segment `s` of every digit that has one, in digit order. */
  method GetSegmentSiblings(d: MetaBoneDict, name: string, s: nat, letter: string) returns (siblings: seq<MetaBone>)
    ensures siblings == Present(d.Table(), SiblingKeys(name, s, letter, DigitCount))
  {
    ghost var keys := SiblingKeys(name, s, letter, DigitCount);
    siblings := [];
    var p := 1;
    while p <= DigitCount
      invariant 1 <= p <= DigitCount + 1
      invariant siblings == Present(d.Table(), keys[..p - 1])
    {
      assert keys[..p] == keys[..p - 1] + [SegmentKey(name, p, s, letter)];
      var segment := d.Get(SegmentKey(name, p, s, letter));
      if segment.Some? {
        siblings := siblings + [segment.value];
      }
      p := p + 1;
    }
    assert keys[..DigitCount] == keys;
  }

  /** `get_final_segments`: for every digit, in order, its last segment (3, else 2, else 1) if it has any. */
  method GetFinalSegments(d: MetaBoneDict, name: string, letter: string) returns (finals: seq<MetaBone>)
    ensures finals == FinalSegments(d.Table(), name, letter, DigitCount)
  {
    finals := [];
    var p := 1;
    while p <= DigitCount
      invariant 1 <= p <= DigitCount + 1
      invariant finals == FinalSegments(d.Table(), name, letter, p - 1)
    {
      var candidates := [3, 2, 1];
      var j := 0;
      while j < |candidates|
        invariant 0 <= j <= |candidates|
        invariant finals == FinalSegments(d.Table(), name, letter, p - 1)
        invariant FirstPresent(d.Table(), FinalCandidates(name, p, letter)) ==
                  FirstPresent(d.Table(), FinalCandidates(name, p, letter)[j..])
      {
        var segment := d.Get(SegmentKey(name, p, candidates[j], letter));
        assert FinalCandidates(name, p, letter)[j..][1..] == FinalCandidates(name, p, letter)[j + 1..];
        if segment.Some? {
          finals := finals + [segment.value];
          break;
        }
        j := j + 1;
      }
      p := p + 1;
    }
  }

  /** A bone is picked exactly when it is stored under one of the keys. */
  lemma {:induction false} PresentMembers(t: BoneTable, keys: seq<string>)
    ensures |Present(t, keys)| <= |keys|
    ensures forall b :: b in Present(t, keys) <==> exists i :: 0 <= i < |keys| && keys[i] in t.bones && t.bones[keys[i]] == b
  {
    if keys != [] {
      var keys' := keys[..|keys| - 1];
      PresentMembers(t, keys');
      forall b ensures b in Present(t, keys) <==> exists i :: 0 <= i < |keys| && keys[i] in t.bones && t.bones[keys[i]] == b {
        if exists i :: 0 <= i < |keys'| && keys'[i] in t.bones && t.bones[keys'[i]] == b {
          var i :| 0 <= i < |keys'| && keys'[i] in t.bones && t.bones[keys'[i]] == b;
          assert keys[i] == keys'[i];
        }
        if exists i :: 0 <= i < |keys| && keys[i] in t.bones && t.bones[keys[i]] == b {
          var i :| 0 <= i < |keys| && keys[i] in t.bones && t.bones[keys[i]] == b;
          if i < |keys'| {
            assert keys'[i] == keys[i];
          }
        }
      }
    }
  }

  /** The first present key decides: every key before it is absent. */
  lemma {:induction false} FirstPresentSpec(t: BoneTable, keys: seq<string>)
    ensures var r := FirstPresent(t, keys);
            && (r.Some? <==> exists i :: 0 <= i < |keys| && keys[i] in t.bones)
            && (r.Some? ==> exists i :: && 0 <= i < |keys| && keys[i] in t.bones && r.value == t.bones[keys[i]]
                                        && forall j :: 0 <= j < i ==> keys[j] !in t.bones)
  {
    if keys != [] && keys[0] !in t.bones {
      FirstPresentSpec(t, keys[1..]);
      var r := FirstPresent(t, keys);
      if r.Some? {
        var i :| && 0 <= i < |keys[1..]| && keys[1..][i] in t.bones && r.value == t.bones[keys[1..][i]]
                 && forall j :: 0 <= j < i ==> keys[1..][j] !in t.bones;
        assert keys[i + 1] == keys[1..][i];
        forall j | 0 <= j < i + 1 ensures keys[j] !in t.bones {
          if j > 0 {
            assert keys[j] == keys[1..][j - 1];
          }
        }
      } else {
        forall i | 0 <= i < |keys| ensures keys[i] !in t.bones {
          if i > 0 {
            assert keys[i] == keys[1..][i - 1];
          }
        }
      }
    }
  }

  /** Single-digit numbers print as one character. */
  lemma OneDigit(n: nat)
    requires n < 10
    ensures NatToDecimal(n) == [DigitChar(n)]
  {
  }

  /** For digit and segment numbers below ten, different positions give different keys. */
  lemma SegmentKeyInjective(name: string, p: nat, s: nat, p': nat, s': nat, letter: string)
    requires p < 10 && s < 10 && p' < 10 && s' < 10
    requires SegmentKey(name, p, s, letter) == SegmentKey(name, p', s', letter)
    ensures p == p' && s == s'
  {
    OneDigit(p);
    OneDigit(s);
    OneDigit(p');
    OneDigit(s');
    var k, k' := SegmentKey(name, p, s, letter), SegmentKey(name, p', s', letter);
    assert k[|name|] == DigitChar(p) && k'[|name|] == DigitChar(p');
    assert k[|name| + 2] == DigitChar(s) && k'[|name| + 2] == DigitChar(s');
    DigitCharInjective(p, p');
    DigitCharInjective(s, s');
  }

  /**
   * The siblings are the segment-`s` bones of the digits that have one: a bone is picked
   * exactly when it is that segment of some digit from 1 to 5, and there are at most five.
   */
  lemma SiblingsSpec(t: BoneTable, name: string, s: nat, letter: string)
    ensures var r := Present(t, SiblingKeys(name, s, letter, DigitCount));
            && |r| <= DigitCount
            && forall b :: b in r <==> exists p :: 1 <= p <= DigitCount && SegmentKey(name, p, s, letter) in t.bones
                                                 && t.bones[SegmentKey(name, p, s, letter)] == b
  {
    var keys := SiblingKeys(name, s, letter, DigitCount);
    PresentMembers(t, keys);
    forall p | 1 <= p <= DigitCount && SegmentKey(name, p, s, letter) in t.bones
      ensures exists i :: 0 <= i < |keys| && keys[i] in t.bones && t.bones[keys[i]] == t.bones[SegmentKey(name, p, s, letter)]
    {
      assert keys[p - 1] == SegmentKey(name, p, s, letter);
    }
  }

  /**
   * The last segment of a digit: the bone of the highest-numbered segment (of 3, 2, 1) the
   * digit has, none when it has none.
   */
  lemma FinalCandidateSpec(t: BoneTable, name: string, p: nat, letter: string)
    ensures var r := FirstPresent(t, FinalCandidates(name, p, letter));
            && (r.Some? <==> exists s :: 1 <= s <= 3 && SegmentKey(name, p, s, letter) in t.bones)
            && (r.Some? ==> exists s :: && 1 <= s <= 3 && SegmentKey(name, p, s, letter) in t.bones
                                        && r.value == t.bones[SegmentKey(name, p, s, letter)]
                                        && forall s' :: s < s' <= 3 ==> SegmentKey(name, p, s', letter) !in t.bones)
  {
    var keys := FinalCandidates(name, p, letter);
    FirstPresentSpec(t, keys);
    assert forall i :: 0 <= i < 3 ==> keys[i] == SegmentKey(name, p, 3 - i, letter);
    var r := FirstPresent(t, keys);
    if exists s :: 1 <= s <= 3 && SegmentKey(name, p, s, letter) in t.bones {
      var s :| 1 <= s <= 3 && SegmentKey(name, p, s, letter) in t.bones;
      assert keys[3 - s] in t.bones;
    }
    if r.Some? {
      var i :| && 0 <= i < 3 && keys[i] in t.bones && r.value == t.bones[keys[i]]
               && forall j :: 0 <= j < i ==> keys[j] !in t.bones;
      assert forall s' :: 3 - i < s' <= 3 ==> keys[3 - s'] == SegmentKey(name, p, s', letter);
    }
  }

  /** Every final segment comes from a distinct digit: there is at most one per digit. */
  lemma {:induction false} FinalSegmentsCount(t: BoneTable, name: string, letter: string, n: nat)
    ensures |FinalSegments(t, name, letter, n)| <= n
    ensures forall b :: b in FinalSegments(t, name, letter, n) ==>
              exists p :: 1 <= p <= n && FirstPresent(t, FinalCandidates(name, p, letter)) == Some(b)
  {
    if n > 0 {
      FinalSegmentsCount(t, name, letter, n - 1);
    }
  }
}

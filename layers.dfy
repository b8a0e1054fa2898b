/**
 * Armature-layer classification of a pose channel (`organize_pchan_layer`). Informational
 * layers come from the deform and BEPUik flags and from being a BEPUik target; a channel whose
 * every pose channel is locked is mechanical, any other is animatable; an animatable channel
 * also gets at most one body-region layer, taken from the first substring set, in priority
 * order, that occurs in its hint (by default its base name) and that maps the channel's side
 * letter to a layer.
 */
module Layers {
  import opened Util
  import opened Suffix
  import opened MetaBones

  const LayerCount: nat := 32

  const Animatable: nat := 0
  const Target: nat := 1
  const Deformer: nat := 2
  const Mechanical: nat := 3
  const BepuikBone: nat := 4
  const Head: nat := 16
  const Spine: nat := 17
  const Root: nat := 18
  const ArmL: nat := 8
  const HandL: nat := 9
  const LegL: nat := 10
  const FootL: nat := 11
  const RibL: nat := 12
  /** The right-side layers sit 16 slots after the left-side ones. */
  const ArmR: nat := ArmL + 16
  const HandR: nat := HandL + 16
  const LegR: nat := LegL + 16
  const FootR: nat := FootL + 16
  const RibR: nat := RibL + 16

  /** The substring sets, one per body region. */
  datatype Region = HandRegion | ArmRegion | LegRegion | FootRegion | TorsoRegion | RibRegion
                  | HeadRegion | RootRegion | TargetRegion

  function Substrings(r: Region): seq<string>
  {
    match r
    case ArmRegion => ["shoulder", "clavicle", "loarm", "uparm", "hand", "elbow"]
    case LegRegion => ["leg", "foot", "knee", "heel", "ball"]
    case FootRegion => ["toe"]
    case TorsoRegion => ["spine", "hip", "chest", "torso"]
    case RibRegion => ["rib"]
    case HandRegion => ["finger", "thumb", "palm"]
    case HeadRegion => ["head", "neck", "eye", "jaw"]
    case RootRegion => ["root"]
    case TargetRegion => ["target"]
  }

  /** The order in which the substring sets are tried. */
  const SubstringSets: seq<Region> :=
    [HandRegion, ArmRegion, LegRegion, FootRegion, TorsoRegion, RibRegion, HeadRegion, RootRegion, TargetRegion]

  /**
   * The (substring set, side letter) table. `None` is a name without a side suffix; the
   * table's entries for the empty letter are never looked up, because a side letter is
   * never empty.
   */
  function RegionLayer(r: Region, letter: Option<char>): Option<nat>
  {
    match (r, letter)
    case (ArmRegion, Some('L')) => Some(ArmL)
    case (HandRegion, Some('L')) => Some(HandL)
    case (LegRegion, Some('L')) => Some(LegL)
    case (FootRegion, Some('L')) => Some(FootL)
    case (RibRegion, Some('L')) => Some(RibL)
    case (ArmRegion, Some('R')) => Some(ArmR)
    case (HandRegion, Some('R')) => Some(HandR)
    case (LegRegion, Some('R')) => Some(LegR)
    case (FootRegion, Some('R')) => Some(FootR)
    case (RibRegion, Some('R')) => Some(RibR)
    case (TorsoRegion, None) => Some(Spine)
    case (TorsoRegion, Some('L')) => Some(Spine)
    case (TorsoRegion, Some('R')) => Some(Spine)
    case (RootRegion, None) => Some(Root)
    case (HeadRegion, None) => Some(Head)
    case (HeadRegion, Some('L')) => Some(Head)
    case (HeadRegion, Some('R')) => Some(Head)
    case (TargetRegion, Some('L')) => Some(Target)
    case (TargetRegion, Some('R')) => Some(Target)
    case _ => None
  }

  /** The layers a body region can be classified into. */
  predicate IsRegionLayer(l: nat)
  {
    l in {ArmL, HandL, LegL, FootL, RibL, ArmR, HandR, LegR, FootR, RibR, Spine, Root, Head, Target}
  }

  lemma RegionLayerIsRegion(r: Region, letter: Option<char>)
    ensures RegionLayer(r, letter).Some? ==> IsRegionLayer(RegionLayer(r, letter).value)
  {
  }

  /** The pose-channel and bone attributes the classification reads. */
  datatype PoseChannel = PoseChannel(
    name: string,
    basename: string,
    useDeform: bool,
    useBepuik: bool,
    rotationMode: string,
    lockRotations4d: bool,
    lockLocation: Locks,
    lockRotation: Locks,
    lockRotationW: bool,
    lockScale: Locks)

  /** Rotation is locked: with a 4-D rotation and 4-D locks, the W lock counts too. */
  predicate RotationLocked(p: PoseChannel)
  {
    if (p.rotationMode == "QUATERNION" || p.rotationMode == "AXIS_ANGLE") && p.lockRotations4d then
      p.lockRotation.All() && p.lockRotationW
    else
      p.lockRotation.All()
  }

  /** Every pose channel is locked: the bone cannot be animated. */
  predicate FullyLocked(p: PoseChannel)
  {
    RotationLocked(p) && p.lockScale.All() && p.lockLocation.All()
  }

  /** Some substring of `subs` occurs in the hint (Python's `any(sub in hint for sub in subs)`). */
  predicate AnyIn(hint: string, subs: seq<string>)
  {
    subs != [] && (Contains(hint, subs[0]) || AnyIn(hint, subs[1..]))
  }

  /** Some substring of the set occurs in the hint. */
  predicate Matches(hint: string, r: Region)
  {
    AnyIn(hint, Substrings(r))
  }

  lemma {:induction false} AnyInSpec(hint: string, subs: seq<string>)
    ensures AnyIn(hint, subs) <==> exists i :: 0 <= i < |subs| && Contains(hint, subs[i])
  {
    if subs != [] {
      AnyInSpec(hint, subs[1..]);
      if exists i :: 0 <= i < |subs| && Contains(hint, subs[i]) {
        var i :| 0 <= i < |subs| && Contains(hint, subs[i]);
        if i > 0 {
          assert subs[1..][i - 1] == subs[i];
        }
      }
    }
  }

  /**
   * The layer of the first substring set of `sets` that occurs in the hint and maps the side
   * letter; a set that occurs but has no layer for the letter is passed over.
   */
  function FirstRegionLayer(hint: string, letter: Option<char>, sets: seq<Region>): Option<nat>
  {
    if sets == [] then None
    else if Matches(hint, sets[0]) && RegionLayer(sets[0], letter).Some? then RegionLayer(sets[0], letter)
    else FirstRegionLayer(hint, letter, sets[1..])
  }

  /** The informational layers: deform, BEPUik bone, BEPUik target. */
  function FlagLayers(p: PoseChannel, isBepuikTarget: bool): set<nat>
  {
    (if p.useDeform then {Deformer} else {})
    + (if p.useBepuik then {BepuikBone} else {})
    + (if isBepuikTarget then {Target} else {})
  }

  /** An empty hint (Python's `None` or "") falls back to the bone's base name. */
  function EffectiveHint(p: PoseChannel, hint: string): string
  {
    if hint == "" then p.basename else hint
  }

  /** The layer indices `organize_pchan_layer` collects. */
  function LayerIndices(p: PoseChannel, hint: string, isBepuikTarget: bool): (r: set<nat>)
    requires SplitDefined(p.name)
    ensures forall i :: i in r ==> i < LayerCount
    ensures (Deformer in r <==> p.useDeform) && (BepuikBone in r <==> p.useBepuik)
  {
    FirstRegionLayerIsRegion(EffectiveHint(p, hint), GetSuffixLetter(p.name), SubstringSets);
    if FullyLocked(p) then
      FlagLayers(p, isBepuikTarget) + {Mechanical}
    else
      var region := FirstRegionLayer(EffectiveHint(p, hint), GetSuffixLetter(p.name), SubstringSets);
      FlagLayers(p, isBepuikTarget) + {Animatable} + (if region.Some? then {region.value} else {})
  }

  /**
   * `organize_pchan_layer`: collects the layer indices and returns the 32-slot layer vector,
   * true exactly at the collected indices.
   */
  method OrganizePchanLayer(p: PoseChannel, hint: string, isBepuikTarget: bool) returns (layers: seq<bool>)
    requires SplitDefined(p.name)
    ensures |layers| == LayerCount
    ensures forall i :: 0 <= i < LayerCount ==> (layers[i] <==> i in LayerIndices(p, hint, isBepuikTarget))
  {
    var letter := GetSuffixLetter(p.name);
    var indices: set<nat> := {};
    var excludeFromBodyLayers := false;
    if p.useDeform {
      indices := indices + {Deformer};
    }
    if p.useBepuik {
      indices := indices + {BepuikBone};
    }
    if isBepuikTarget {
      indices := indices + {Target};
    }
    var lockRotation;
    if (p.rotationMode == "QUATERNION" || p.rotationMode == "AXIS_ANGLE") && p.lockRotations4d {
      lockRotation := p.lockRotation.All() && p.lockRotationW;
    } else {
      lockRotation := p.lockRotation.All();
    }
    if !lockRotation || !p.lockScale.All() || !p.lockLocation.All() {
      indices := indices + {Animatable};
    } else {
      indices := indices + {Mechanical};
      excludeFromBodyLayers := true;
    }
    assert indices == FlagLayers(p, isBepuikTarget) + (if FullyLocked(p) then {Mechanical} else {Animatable});
    if !excludeFromBodyLayers {
      var region := SearchRegions(EffectiveHint(p, hint), letter, SubstringSets);
      if region.Some? {
        indices := indices + {region.value};
      }
    }
    layers := seq(LayerCount, i requires 0 <= i < LayerCount => i in indices);
  }

  /** The search loop of `organize_pchan_layer`: the layer of the first set that matches and has one. */
  method SearchRegions(h: string, letter: Option<char>, sets: seq<Region>) returns (region: Option<nat>)
    ensures region == FirstRegionLayer(h, letter, sets)
  {
    region := None;
    var i := 0;
    while i < |sets|
      invariant 0 <= i <= |sets|
      invariant FirstRegionLayer(h, letter, sets) == FirstRegionLayer(h, letter, sets[i..])
    {
      var r := sets[i];
      assert sets[i..][1..] == sets[i + 1..];
      if Matches(h, r) && RegionLayer(r, letter).Some? {
        region := RegionLayer(r, letter);
        return;
      }
      i := i + 1;
    }
  }

  /** The first-match rule: a layer is chosen iff some set qualifies, and it is the first such set's. */
  lemma {:induction false} FirstRegionLayerSpec(hint: string, letter: Option<char>, sets: seq<Region>)
    ensures var r := FirstRegionLayer(hint, letter, sets);
            && (r.Some? <==> exists k :: 0 <= k < |sets| && Matches(hint, sets[k]) && RegionLayer(sets[k], letter).Some?)
            && (r.Some? ==> exists k :: && 0 <= k < |sets| && Matches(hint, sets[k]) && RegionLayer(sets[k], letter) == r
                                       && forall j :: 0 <= j < k ==> !(Matches(hint, sets[j]) && RegionLayer(sets[j], letter).Some?))
            && (r.Some? ==> IsRegionLayer(r.value))
  {
    if sets != [] {
      FirstRegionLayerSpec(hint, letter, sets[1..]);
      RegionLayerIsRegion(sets[0], letter);
      var r := FirstRegionLayer(hint, letter, sets);
      if !(Matches(hint, sets[0]) && RegionLayer(sets[0], letter).Some?) {
        if r.Some? {
          var k :| && 0 <= k < |sets[1..]| && Matches(hint, sets[1..][k]) && RegionLayer(sets[1..][k], letter) == r
                   && forall j :: 0 <= j < k ==> !(Matches(hint, sets[1..][j]) && RegionLayer(sets[1..][j], letter).Some?);
          assert sets[k + 1] == sets[1..][k];
          forall j | 0 <= j < k + 1 ensures !(Matches(hint, sets[j]) && RegionLayer(sets[j], letter).Some?) {
            if j > 0 {
              assert sets[j] == sets[1..][j - 1];
            }
          }
        } else {
          forall k | 0 < k < |sets| ensures !(Matches(hint, sets[k]) && RegionLayer(sets[k], letter).Some?) {
            assert sets[k] == sets[1..][k - 1];
          }
        }
      }
    }
  }

  /** Whatever layer the search chooses is a body-region layer. */
  lemma {:induction false} FirstRegionLayerIsRegion(hint: string, letter: Option<char>, sets: seq<Region>)
    ensures var r := FirstRegionLayer(hint, letter, sets);
            r.Some? ==> IsRegionLayer(r.value)
  {
    if sets != [] {
      RegionLayerIsRegion(sets[0], letter);
      FirstRegionLayerIsRegion(hint, letter, sets[1..]);
    }
  }

  /**
   * Exactly one of the animatable and mechanical layers is set, and the mechanical one
   * exactly when every pose channel is locked.
   */
  lemma AnimatableOrMechanical(p: PoseChannel, hint: string, isBepuikTarget: bool)
    requires SplitDefined(p.name)
    ensures var l := LayerIndices(p, hint, isBepuikTarget);
            && (Animatable in l <==> !FullyLocked(p))
            && (Mechanical in l <==> FullyLocked(p))
  {
    if !FullyLocked(p) {
      FirstRegionLayerIsRegion(EffectiveHint(p, hint), GetSuffixLetter(p.name), SubstringSets);
    }
  }

  /** A fully locked channel gets the mechanical layer and no body-region layer. */
  lemma FullyLockedHasNoRegion(p: PoseChannel, hint: string, isBepuikTarget: bool)
    requires SplitDefined(p.name) && FullyLocked(p)
    ensures LayerIndices(p, hint, isBepuikTarget) == FlagLayers(p, isBepuikTarget) + {Mechanical}
    ensures forall l :: l in LayerIndices(p, hint, isBepuikTarget) && IsRegionLayer(l) ==> l == Target && isBepuikTarget
  {
  }

  /**
   * Any other channel is animatable and gets at most one body-region layer: the layer of the
   * first substring set that qualifies (`FirstRegionLayerSpec`), when there is one.
   */
  lemma UnlockedRegion(p: PoseChannel, hint: string, isBepuikTarget: bool)
    requires SplitDefined(p.name) && !FullyLocked(p)
    ensures var l, region := LayerIndices(p, hint, isBepuikTarget),
                             FirstRegionLayer(EffectiveHint(p, hint), GetSuffixLetter(p.name), SubstringSets);
            && Animatable in l && Mechanical !in l
            && (region.Some? ==> region.value in l)
            && (forall x :: x in l && x !in FlagLayers(p, isBepuikTarget) && x != Animatable ==> region == Some(x))
  {
    FirstRegionLayerIsRegion(EffectiveHint(p, hint), GetSuffixLetter(p.name), SubstringSets);
  }

  /** "foot" occurs in the leg set and in none before it. */
  lemma FootIsLeg()
    ensures !Matches("foot", HandRegion) && !Matches("foot", ArmRegion) && Matches("foot", LegRegion)
  {
    assert StartsWith("foot", "foot");
    NotContainsShort("foot", "finger");
    NotContainsShort("foot", "thumb");
    NotContainsShort("foot", "palm");
    NotContainsShort("foot", "shoulder");
    NotContainsShort("foot", "clavicle");
    NotContainsShort("foot", "loarm");
    NotContainsShort("foot", "uparm");
    NotContainsShort("foot", "hand");
    NotContainsShort("foot", "elbow");
  }

  /** The left foot is classified by the leg set. */
  lemma FootLeftRegion()
    ensures FirstRegionLayer("foot", Some('L'), SubstringSets) == Some(LegL)
  {
    FootIsLeg();
    var s0 := SubstringSets;
    var s1 := [ArmRegion, LegRegion, FootRegion, TorsoRegion, RibRegion, HeadRegion, RootRegion, TargetRegion];
    var s2 := [LegRegion, FootRegion, TorsoRegion, RibRegion, HeadRegion, RootRegion, TargetRegion];
    assert s0[1..] == s1 && s1[1..] == s2;
    assert FirstRegionLayer("foot", Some('L'), s0) == FirstRegionLayer("foot", Some('L'), s1);
    assert FirstRegionLayer("foot", Some('L'), s1) == FirstRegionLayer("foot", Some('L'), s2);
  }

  /**
   * A movable bone named "foot.L" (base name "foot") with no hint lands on the left-leg layer
   * and on no other body-region layer, and not on the mechanical one.
   */
  lemma FootLeftIsLeg(p: PoseChannel, isBepuikTarget: bool)
    requires p.name == "foot.L" && p.basename == "foot" && !FullyLocked(p)
    ensures SplitDefined(p.name)
    ensures LegL in LayerIndices(p, "", isBepuikTarget) && Mechanical !in LayerIndices(p, "", isBepuikTarget)
    ensures forall l :: l in LayerIndices(p, "", isBepuikTarget) && IsRegionLayer(l) ==> l == LegL || (l == Target && isBepuikTarget)
  {
    SuffixedRoundTrip("foot", 'L');
    assert Suffixed("foot", "L") == p.name;
    assert GetSuffixLetter(p.name) == Some('L') && EffectiveHint(p, "") == "foot";
    FootLeftRegion();
    UnlockedRegion(p, "", isBepuikTarget);
  }

  /**
   * A set that matches but has no layer for the letter does not stop the search: on a
   * left-side bone whose hint matches none of the sets before the root set, but matches the
   * root set (which has no left-side layer) and the target set, the target set decides.
   */
  lemma UnmappedMatchPassesOn(hint: string)
    requires forall k :: 0 <= k < 7 ==> !Matches(hint, SubstringSets[k])
    requires Matches(hint, RootRegion) && Matches(hint, TargetRegion)
    ensures RegionLayer(RootRegion, Some('L')).None?
    ensures FirstRegionLayer(hint, Some('L'), SubstringSets) == Some(Target)
  {
    var l := Some('L');
    var s := SubstringSets;
    var k := 0;
    while k < 7
      invariant 0 <= k <= 7
      invariant FirstRegionLayer(hint, l, s) == FirstRegionLayer(hint, l, s[k..])
    {
      assert !Matches(hint, s[k]);
      assert s[k..][1..] == s[k + 1..];
      k := k + 1;
    }
    assert s[7..] == [RootRegion, TargetRegion];
    assert s[7..][1..] == [TargetRegion];
  }
}

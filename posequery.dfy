/**
 * The pose-bone helpers of the add-on's operators: name filters over pose channels, searches
 * through a pose channel's constraint list, the in-place clearing of control rigidities, and
 * the naming of the targets that "Create Control and Target" adds.
 *
 * A pose is the sequence of its pose channels; a pose channel refers to its parent by name,
 * and its children are the channels naming it as parent, in pose order.
 */
module PoseQuery {
  import opened Util
  import opened Geometry

  const ControlKind: string := "BEPUIK_CONTROL"

  /** The head (0, 0, 0) and tail (0, 1, 0) of a bone in its own normalised frame. */
  const HeadPoint: Vec3 := Vec3(0.0, 0.0, 0.0)
  const TailPoint: Vec3 := Vec3(0.0, 1.0, 0.0)

  datatype PoseConstraint = PoseConstraint(
    kind: string,
    name: string,
    subtarget: string,
    pulledPoint: Vec3,
    bepuikRigidity: real,
    orientationRigidity: real,
    useHardRigidity: bool)

  /** A pose channel with the rest head and tail of its bone. */
  datatype PoseBone = PoseBone(
    name: string,
    constraints: seq<PoseConstraint>,
    parent: Option<string>,
    head: Vec3,
    tail: Vec3)

  // ---------------------------------------------------------------------------------------
  // Name patterns: `re.match` anchors at the start only, so each pattern is a prefix test.

  predicate IsDigit(c: char)
  {
    '0' <= c <= '9'
  }

  /** Every character from `lo` up to `hi` is a digit. */
  predicate DigitsBetween(s: string, lo: nat, hi: nat)
    requires lo <= hi <= |s|
  {
    forall k :: lo <= k < hi ==> IsDigit(s[k])
  }

  /** The length of the run of digits that starts at `i`. */
  function DigitRun(s: string, i: nat): (n: nat)
    requires i <= |s|
    ensures i + n <= |s| && DigitsBetween(s, i, i + n)
    ensures i + n == |s| || !IsDigit(s[i + n])
    decreases |s| - i
  {
    if i < |s| && IsDigit(s[i]) then 1 + DigitRun(s, i + 1) else 0
  }

  /** `[0-9]+-[0-9]+` matches at `i`, with `a` digits before the dash and `b` after it. */
  predicate DashPairAt(s: string, i: nat, a: nat, b: nat)
  {
    && 1 <= a && 1 <= b && i + a + 1 + b <= |s|
    && DigitsBetween(s, i, i + a) && s[i + a] == '-' && DigitsBetween(s, i + a + 1, i + a + 1 + b)
  }

  /** Where the match of `[0-9]+-[0-9]+` at `i` ends, when there is one; both runs are taken whole. */
  function DashPairEnd(s: string, i: nat): Option<nat>
    requires i <= |s|
  {
    var a := DigitRun(s, i);
    if a == 0 || i + a == |s| || s[i + a] != '-' then None
    else
      var b := DigitRun(s, i + a + 1);
      if b == 0 then None else Some(i + a + 1 + b)
  }

  /** `<prefix>[0-9]+-[0-9]+` matches at the start of `s`. */
  predicate PrefixDashPair(s: string, prefix: string)
  {
    StartsWith(s, prefix) && DashPairEnd(s, |prefix|).Some?
  }

  /** `finger[0-9]+-[0-9]+ rot` matches at the start of `s`. */
  predicate FingerRotatorName(s: string)
  {
    StartsWith(s, "finger") && DashPairEnd(s, 6).Some? && StartsWith(s[DashPairEnd(s, 6).value..], " rot")
  }

  /** `finger[0-9]+-1` matches at the start of `s`. */
  predicate PalmName(s: string)
  {
    && StartsWith(s, "finger")
    && var a := DigitRun(s, 6);
       1 <= a && 6 + a + 2 <= |s| && s[6 + a] == '-' && s[6 + a + 1] == '1'
  }

  lemma {:induction false} DigitRunExact(s: string, i: nat, a: nat)
    requires i + a <= |s| && DigitsBetween(s, i, i + a) && (i + a == |s| || !IsDigit(s[i + a]))
    ensures DigitRun(s, i) == a
    decreases a
  {
    if a > 0 {
      DigitRunExact(s, i + 1, a - 1);
    }
  }

  lemma {:induction false} DigitRunAtLeast(s: string, i: nat, b: nat)
    requires i + b <= |s| && DigitsBetween(s, i, i + b)
    ensures DigitRun(s, i) >= b
    decreases b
  {
    if b > 0 {
      DigitRunAtLeast(s, i + 1, b - 1);
    }
  }

  /**
   * The greedy matcher agrees with the pattern: `[0-9]+-[0-9]+` matches at `i` exactly when
   * some split into digits, dash, digits exists, and the match ends where the second run does.
   */
  lemma DashPairEndSpec(s: string, i: nat)
    requires i <= |s|
    ensures DashPairEnd(s, i).Some? <==> exists a, b :: DashPairAt(s, i, a, b)
    ensures DashPairEnd(s, i).Some? ==>
              exists a, b :: DashPairAt(s, i, a, b) && DashPairEnd(s, i).value == i + a + 1 + b
                             && (i + a + 1 + b == |s| || !IsDigit(s[i + a + 1 + b]))
  {
    if exists a, b :: DashPairAt(s, i, a, b) {
      var a: nat, b: nat :| DashPairAt(s, i, a, b);
      DigitRunExact(s, i, a);
      DigitRunAtLeast(s, i + a + 1, b);
    }
    if DashPairEnd(s, i).Some? {
      var a := DigitRun(s, i);
      var b := DigitRun(s, i + a + 1);
      assert DashPairAt(s, i, a, b);
    }
  }

  /** `[0-9]+-[0-9]+ rot` matches at 6 with `a` digits before the dash and `b` after it. */
  predicate RotatorAt(s: string, a: nat, b: nat)
  {
    DashPairAt(s, 6, a, b) && StartsWith(s[6 + a + 1 + b..], " rot")
  }

  lemma RotatorAtMatched(s: string, a: nat, b: nat)
    requires StartsWith(s, "finger") && RotatorAt(s, a, b)
    ensures DashPairEnd(s, 6) == Some(6 + a + 1 + b)
  {
    assert s[6 + a + 1 + b..][0] == ' ';
    DigitRunExact(s, 6, a);
    DigitRunExact(s, 6 + a + 1, b);
  }

  /**
   * `finger[0-9]+-[0-9]+ rot` matches exactly when the name splits into "finger", digits, a
   * dash, digits and " rot": the space cannot be a digit, so the second run is taken whole.
   */
  lemma FingerRotatorNameSpec(s: string)
    ensures FingerRotatorName(s) <==> StartsWith(s, "finger") && exists a, b :: RotatorAt(s, a, b)
  {
    if StartsWith(s, "finger") {
      if exists a, b :: RotatorAt(s, a, b) {
        var a: nat, b: nat :| RotatorAt(s, a, b);
        RotatorAtMatched(s, a, b);
      }
      if FingerRotatorName(s) {
        var a := DigitRun(s, 6);
        assert RotatorAt(s, a, DigitRun(s, 6 + a + 1));
      }
    }
  }

  /** `[0-9]+-1` matches at 6 with `a` digits before the dash. */
  predicate PalmAt(s: string, a: nat)
  {
    1 <= a && 6 + a + 2 <= |s| && DigitsBetween(s, 6, 6 + a) && s[6 + a] == '-' && s[6 + a + 1] == '1'
  }

  /** `finger[0-9]+-1` matches exactly when the name splits into "finger", digits, "-1" and a rest. */
  lemma PalmNameSpec(s: string)
    ensures PalmName(s) <==> StartsWith(s, "finger") && exists a :: PalmAt(s, a)
  {
    if StartsWith(s, "finger") {
      if exists a :: PalmAt(s, a) {
        var a :| PalmAt(s, a);
        DigitRunExact(s, 6, a);
      }
      if PalmName(s) {
        assert PalmAt(s, DigitRun(s, 6));
      }
    }
  }

  /** Palm bones and finger rotators are both finger names. */
  lemma PalmAndRotatorAreFingers(s: string)
    ensures PalmName(s) ==> PrefixDashPair(s, "finger")
    ensures FingerRotatorName(s) ==> PrefixDashPair(s, "finger")
  {
    if PalmName(s) {
      var a := DigitRun(s, 6);
      DigitRunAtLeast(s, 6 + a + 1, 1);
    }
  }

  // ---------------------------------------------------------------------------------------
  // The four name filters.

  /** Which of `get_toes`, `get_fingers`, `get_finger_rotators` and `get_palm_bones` is meant. */
  datatype NamePattern = Toes | Fingers | FingerRotators | PalmBones

  predicate Wanted(pattern: NamePattern, name: string, suffix: string)
  {
    && EndsWith(name, suffix)
    && match pattern
       case Toes => PrefixDashPair(name, "toe")
       case Fingers => PrefixDashPair(name, "finger")
       case FingerRotators => FingerRotatorName(name)
       case PalmBones => PalmName(name) && !FingerRotatorName(name)
  }

  /** The wanted pose channels, in pose order. */
  function Selected(pchans: seq<PoseBone>, pattern: NamePattern, suffix: string): seq<PoseBone>
  {
    if pchans == [] then []
    else
      var last := pchans[|pchans| - 1];
      Selected(pchans[..|pchans| - 1], pattern, suffix) + if Wanted(pattern, last.name, suffix) then [last] else []
  }

  /** The loop shared by the four filters: keep each pose channel whose name is wanted. */
  method SelectPoseBones(pchans: seq<PoseBone>, pattern: NamePattern, suffix: string) returns (selected: seq<PoseBone>)
    ensures selected == Selected(pchans, pattern, suffix)
  {
    selected := [];
    var i := 0;
    while i < |pchans|
      invariant 0 <= i <= |pchans|
      invariant selected == Selected(pchans[..i], pattern, suffix)
    {
      assert pchans[..i + 1][..i] == pchans[..i];
      if Wanted(pattern, pchans[i].name, suffix) {
        selected := selected + [pchans[i]];
      }
      i := i + 1;
    }
    assert pchans[..i] == pchans;
  }

  /** Exactly the wanted pose channels are kept. */
  lemma {:induction false} SelectedMembers(pchans: seq<PoseBone>, pattern: NamePattern, suffix: string)
    ensures |Selected(pchans, pattern, suffix)| <= |pchans|
    ensures forall b :: b in Selected(pchans, pattern, suffix) <==> b in pchans && Wanted(pattern, b.name, suffix)
  {
    if pchans != [] {
      var init := pchans[..|pchans| - 1];
      SelectedMembers(init, pattern, suffix);
      assert pchans == init + [pchans[|pchans| - 1]];
    }
  }

  /** Filtering distributes over concatenation, so the kept channels stay in pose order. */
  lemma {:induction false} SelectedAppend(a: seq<PoseBone>, b: seq<PoseBone>, pattern: NamePattern, suffix: string)
    ensures Selected(a + b, pattern, suffix) == Selected(a, pattern, suffix) + Selected(b, pattern, suffix)
  {
    if b == [] {
      assert a + b == a;
    } else {
      var b' := b[..|b| - 1];
      assert (a + b)[..|a + b| - 1] == a + b';
      SelectedAppend(a, b', pattern, suffix);
    }
  }

  // ---------------------------------------------------------------------------------------
  // Lookups.

  predicate HasBone(pchans: seq<PoseBone>, name: string)
  {
    exists i :: 0 <= i < |pchans| && pchans[i].name == name
  }

  /** The pose channel called `name`. */
  function FindByName(pchans: seq<PoseBone>, name: string): (r: Option<PoseBone>)
    ensures r.Some? <==> HasBone(pchans, name)
    ensures r.Some? ==> r.value in pchans && r.value.name == name
  {
    if pchans == [] then None
    else if pchans[0].name == name then Some(pchans[0])
    else
      var r := FindByName(pchans[1..], name);
      assert forall i :: 1 <= i < |pchans| ==> pchans[i] == pchans[1..][i - 1];
      r
  }

  /** `get_bone`: the pose channel called `name + suffix`, or none. */
  function GetBone(pchans: seq<PoseBone>, name: string, suffix: string): (r: Option<PoseBone>)
    ensures r.Some? <==> exists i :: 0 <= i < |pchans| && pchans[i].name == name + suffix
    ensures r.Some? ==> r.value in pchans && r.value.name == name + suffix
  {
    FindByName(pchans, name + suffix)
  }

  /** `is_unique_bone_name`: no bone of the armature is called `name`. */
  method IsUniqueBoneName(boneNames: seq<string>, name: string) returns (unique: bool)
    ensures unique <==> name !in boneNames
  {
    var i := 0;
    while i < |boneNames|
      invariant 0 <= i <= |boneNames|
      invariant name !in boneNames[..i]
    {
      if boneNames[i] == name {
        return false;
      }
      assert boneNames[..i + 1] == boneNames[..i] + [boneNames[i]];
      i := i + 1;
    }
    assert boneNames[..i] == boneNames;
    return true;
  }

  // ---------------------------------------------------------------------------------------
  // Constraint searches.

  predicate IsControlFor(c: PoseConstraint, target: string)
  {
    c.kind == ControlKind && c.subtarget == target
  }

  /** A control whose target is a bone of the pose and which pulls the point `p`. */
  predicate IsPullingControl(pchans: seq<PoseBone>, c: PoseConstraint, p: Vec3)
  {
    c.kind == ControlKind && HasBone(pchans, c.subtarget) && c.pulledPoint == p
  }

  /** `find_control_with_target`: the first control of `pchan` whose target is `target`, or none. */
  method FindControlWithTarget(pchan: PoseBone, target: string) returns (r: Option<PoseConstraint>)
    ensures r.Some? <==> exists i :: 0 <= i < |pchan.constraints| && IsControlFor(pchan.constraints[i], target)
    ensures r.Some? ==>
              exists i :: && 0 <= i < |pchan.constraints| && pchan.constraints[i] == r.value
                          && IsControlFor(r.value, target)
                          && forall j :: 0 <= j < i ==> !IsControlFor(pchan.constraints[j], target)
  {
    var cs := pchan.constraints;
    var i := 0;
    while i < |cs|
      invariant 0 <= i <= |cs|
      invariant forall j :: 0 <= j < i ==> !IsControlFor(cs[j], target)
    {
      if cs[i].kind == ControlKind && cs[i].subtarget == target {
        return Some(cs[i]);
      }
      i := i + 1;
    }
    return None;
  }

  /** The first control of `cs` that pulls `p` towards a bone of the pose. */
  function FirstPullingControl(pchans: seq<PoseBone>, cs: seq<PoseConstraint>, p: Vec3): (r: Option<PoseConstraint>)
    ensures r.Some? <==> exists i :: 0 <= i < |cs| && IsPullingControl(pchans, cs[i], p)
    ensures r.Some? ==>
              exists i :: && 0 <= i < |cs| && cs[i] == r.value && IsPullingControl(pchans, r.value, p)
                          && forall j :: 0 <= j < i ==> !IsPullingControl(pchans, cs[j], p)
  {
    if cs == [] then None
    else if IsPullingControl(pchans, cs[0], p) then Some(cs[0])
    else
      var r := FirstPullingControl(pchans, cs[1..], p);
      assert forall i :: 1 <= i < |cs| ==> cs[i] == cs[1..][i - 1];
      r
  }

  /** `pchan_get_first_control_with_pulled_point`. */
  method FirstControlWithPulledPoint(pchans: seq<PoseBone>, pchan: PoseBone, p: Vec3) returns (r: Option<PoseConstraint>)
    ensures r == FirstPullingControl(pchans, pchan.constraints, p)
  {
    var cs := pchan.constraints;
    var i := 0;
    while i < |cs|
      invariant 0 <= i <= |cs|
      invariant FirstPullingControl(pchans, cs, p) == FirstPullingControl(pchans, cs[i..], p)
    {
      assert cs[i..][1..] == cs[i + 1..];
      if cs[i].kind == ControlKind && HasBone(pchans, cs[i].subtarget) && cs[i].pulledPoint == p {
        return Some(cs[i]);
      }
      i := i + 1;
    }
    return None;
  }

  /**
   * `phcan_get_any_head_control`: a control that pins the bone's head. The bone's own head
   * control wins; otherwise the parent's tail control counts when the parent's tail lies within
   * 1e-4 of the head.
   */
  function AnyHeadControl(pchans: seq<PoseBone>, pchan: PoseBone): (r: Option<PoseConstraint>)
    ensures FirstPullingControl(pchans, pchan.constraints, HeadPoint).Some? ==>
              r.Some? && r.value in pchan.constraints && IsPullingControl(pchans, r.value, HeadPoint)
    ensures r.Some? ==>
              || (r.value in pchan.constraints && IsPullingControl(pchans, r.value, HeadPoint))
              || (&& pchan.parent.Some?
                  && exists par :: && par in pchans && par.name == pchan.parent.value
                                   && r.value in par.constraints && IsPullingControl(pchans, r.value, TailPoint)
                                   && WithinTolerance(par.tail, pchan.head))
    ensures r.None? && pchan.parent.Some? && HasBone(pchans, pchan.parent.value) ==>
              var par := FindByName(pchans, pchan.parent.value).value;
              FirstPullingControl(pchans, par.constraints, TailPoint).None? || !WithinTolerance(par.tail, pchan.head)
  {
    var own := FirstPullingControl(pchans, pchan.constraints, HeadPoint);
    if own.Some? then own
    else if pchan.parent.Some? && FindByName(pchans, pchan.parent.value).Some? then
      var par := FindByName(pchans, pchan.parent.value).value;
      var control := FirstPullingControl(pchans, par.constraints, TailPoint);
      if control.Some? && WithinTolerance(par.tail, pchan.head) then control else None
    else None
  }

  /** The pose channels whose parent is called `name`, in pose order. */
  function ChildrenOf(pchans: seq<PoseBone>, name: string): (r: seq<PoseBone>)
    ensures forall c :: c in r <==> c in pchans && c.parent == Some(name)
  {
    if pchans == [] then []
    else
      var last := pchans[|pchans| - 1];
      assert pchans == pchans[..|pchans| - 1] + [last];
      ChildrenOf(pchans[..|pchans| - 1], name) + if last.parent == Some(name) then [last] else []
  }

  /** The head control of the first child whose head lies within 1e-4 of `pchan`'s tail. */
  function ChildTailControl(pchans: seq<PoseBone>, pchan: PoseBone, children: seq<PoseBone>): (r: Option<PoseConstraint>)
    ensures r.Some? <==>
              exists k :: && 0 <= k < |children| && FirstPullingControl(pchans, children[k].constraints, HeadPoint).Some?
                          && WithinTolerance(children[k].head, pchan.tail)
    ensures r.Some? ==>
              exists k :: && 0 <= k < |children| && r == FirstPullingControl(pchans, children[k].constraints, HeadPoint)
                          && WithinTolerance(children[k].head, pchan.tail)
  {
    if children == [] then None
    else
      var control := FirstPullingControl(pchans, children[0].constraints, HeadPoint);
      if control.Some? && WithinTolerance(children[0].head, pchan.tail) then control
      else
        var r := ChildTailControl(pchans, pchan, children[1..]);
        assert forall k :: 1 <= k < |children| ==> children[k] == children[1..][k - 1];
        r
  }

  /**
   * `phcan_get_any_tail_control`, corrected: a control that pins the bone's tail. The bone's
   * own tail control wins; otherwise the head control of a child whose head lies within 1e-4
   * of the tail.
   */
  function AnyTailControl(pchans: seq<PoseBone>, pchan: PoseBone): (r: Option<PoseConstraint>)
    ensures FirstPullingControl(pchans, pchan.constraints, TailPoint).Some? ==>
              r.Some? && r.value in pchan.constraints && IsPullingControl(pchans, r.value, TailPoint)
    ensures r.Some? ==>
              || (r.value in pchan.constraints && IsPullingControl(pchans, r.value, TailPoint))
              || exists child :: && child in pchans && child.parent == Some(pchan.name)
                                 && r.value in child.constraints && IsPullingControl(pchans, r.value, HeadPoint)
                                 && WithinTolerance(child.head, pchan.tail)
    ensures r.None? ==>
              forall child :: child in pchans && child.parent == Some(pchan.name) && WithinTolerance(child.head, pchan.tail) ==>
                FirstPullingControl(pchans, child.constraints, HeadPoint).None?
  {
    var own := FirstPullingControl(pchans, pchan.constraints, TailPoint);
    if own.Some? then own
    else
      var children := ChildrenOf(pchans, pchan.name);
      var r := ChildTailControl(pchans, pchan, children);
      if r.None? then
        assert forall child :: child in children ==> exists k :: 0 <= k < |children| && children[k] == child;
        r
      else
        r
  }

  /** The loop of `phcan_get_any_tail_control`, with the child's own head control looked up. */
  method GetAnyTailControl(pchans: seq<PoseBone>, pchan: PoseBone) returns (r: Option<PoseConstraint>)
    ensures r == AnyTailControl(pchans, pchan)
  {
    r := FirstControlWithPulledPoint(pchans, pchan, TailPoint);
    if r.Some? {
      return;
    }
    var children := ChildrenOf(pchans, pchan.name);
    var k := 0;
    while k < |children|
      invariant 0 <= k <= |children|
      invariant ChildTailControl(pchans, pchan, children) == ChildTailControl(pchans, pchan, children[k..])
    {
      assert children[k..][1..] == children[k + 1..];
      var control := FirstControlWithPulledPoint(pchans, children[k], HeadPoint);
      if control.Some? && LengthSq(Sub(children[k].head, pchan.tail)) <= ToleranceSq {
        return control;
      }
      k := k + 1;
    }
    return None;
  }

  /** The child loop as written: every child looks up `pchan`'s own head control, not its own. */
  function ChildTailControlAsWritten(pchans: seq<PoseBone>, pchan: PoseBone, children: seq<PoseBone>): (r: Option<PoseConstraint>)
    ensures r.Some? ==> r == FirstPullingControl(pchans, pchan.constraints, HeadPoint)
    ensures r.Some? <==>
              && FirstPullingControl(pchans, pchan.constraints, HeadPoint).Some?
              && exists k :: 0 <= k < |children| && WithinTolerance(children[k].head, pchan.tail)
  {
    if children == [] then None
    else
      var control := FirstPullingControl(pchans, pchan.constraints, HeadPoint);
      if control.Some? && WithinTolerance(children[0].head, pchan.tail) then control
      else
        var r := ChildTailControlAsWritten(pchans, pchan, children[1..]);
        assert forall k :: 1 <= k < |children| ==> children[k] == children[1..][k - 1];
        r
  }

  /**
   * `phcan_get_any_tail_control` as written: the bone's own tail control, else its own head
   * control as soon as some child's head lies within 1e-4 of the tail.
   */
  function AnyTailControlAsWritten(pchans: seq<PoseBone>, pchan: PoseBone): (r: Option<PoseConstraint>)
    ensures r.Some? ==> r.value in pchan.constraints
    ensures r.Some? <==>
              || FirstPullingControl(pchans, pchan.constraints, TailPoint).Some?
              || (&& FirstPullingControl(pchans, pchan.constraints, HeadPoint).Some?
                  && exists child :: && child in pchans && child.parent == Some(pchan.name)
                                     && WithinTolerance(child.head, pchan.tail))
  {
    var own := FirstPullingControl(pchans, pchan.constraints, TailPoint);
    if own.Some? then own
    else
      var children := ChildrenOf(pchans, pchan.name);
      assert forall child :: child in children ==> exists k :: 0 <= k < |children| && children[k] == child;
      ChildTailControlAsWritten(pchans, pchan, children)
  }

  /**
   * A bone whose child is connected at its tail and pinned there by the child's head control:
   * the tail search as written misses that control, and the corrected one finds it.
   */
  lemma TailControlAsWrittenMissesChildControl()
    ensures var control := PoseConstraint(ControlKind, "control", "target", HeadPoint, 1.0, 1.0, false);
            var upper := PoseBone("upper", [], None, Vec3(0.0, 0.0, 0.0), Vec3(0.0, 1.0, 0.0));
            var lower := PoseBone("lower", [control], Some("upper"), Vec3(0.0, 1.0, 0.0), Vec3(0.0, 2.0, 0.0));
            var target := PoseBone("target", [], None, Vec3(0.0, 1.0, 0.0), Vec3(0.0, 1.5, 0.0));
            var pose := [upper, lower, target];
            AnyTailControlAsWritten(pose, upper) == None && AnyTailControl(pose, upper) == Some(control)
  {
    var control := PoseConstraint(ControlKind, "control", "target", HeadPoint, 1.0, 1.0, false);
    var upper := PoseBone("upper", [], None, Vec3(0.0, 0.0, 0.0), Vec3(0.0, 1.0, 0.0));
    var lower := PoseBone("lower", [control], Some("upper"), Vec3(0.0, 1.0, 0.0), Vec3(0.0, 2.0, 0.0));
    var target := PoseBone("target", [], None, Vec3(0.0, 1.0, 0.0), Vec3(0.0, 1.5, 0.0));
    var pose := [upper, lower, target];
    assert pose[2].name == "target";
    assert IsPullingControl(pose, control, HeadPoint);
    assert pose[..2] == [upper, lower] && pose[..2][..1] == [upper] && pose[..2][..1][..0] == [];
    assert ChildrenOf([upper], "upper") == [];
    assert ChildrenOf([upper, lower], "upper") == [lower];
    assert ChildrenOf(pose, "upper") == [lower];
    assert FirstPullingControl(pose, lower.constraints, HeadPoint) == Some(control);
  }

  // ---------------------------------------------------------------------------------------
  // Clearing control rigidities in place.

  /** A constraint after `clear_pchan_control_rigidities`: controls lose all rigidity. */
  function Cleared(c: PoseConstraint): PoseConstraint
  {
    if c.kind == ControlKind then c.(bepuikRigidity := 0.0, orientationRigidity := 0.0, useHardRigidity := false) else c
  }

  function ClearedAll(cs: seq<PoseConstraint>): (r: seq<PoseConstraint>)
    ensures |r| == |cs| && forall i :: 0 <= i < |cs| ==> r[i] == Cleared(cs[i])
  {
    if cs == [] then [] else [Cleared(cs[0])] + ClearedAll(cs[1..])
  }

  /** `clear_pchan_control_rigidities` on the constraint list of one pose channel. */
  method ClearControlRigidities(cs: array<PoseConstraint>)
    modifies cs
    ensures cs[..] == ClearedAll(old(cs[..]))
  {
    var i := 0;
    while i < cs.Length
      invariant 0 <= i <= cs.Length
      invariant forall j :: 0 <= j < i ==> cs[j] == Cleared(old(cs[j]))
      invariant forall j :: i <= j < cs.Length ==> cs[j] == old(cs[j])
    {
      if cs[i].kind == ControlKind {
        cs[i] := cs[i].(bepuikRigidity := 0.0, orientationRigidity := 0.0, useHardRigidity := false);
      }
      i := i + 1;
    }
  }

  /** No control keeps any rigidity. */
  predicate Slack(cs: seq<PoseConstraint>)
  {
    forall i :: 0 <= i < |cs| && cs[i].kind == ControlKind ==>
      cs[i].bepuikRigidity == 0.0 && cs[i].orientationRigidity == 0.0 && !cs[i].useHardRigidity
  }

  /**
   * Clearing leaves every control slack, changes nothing but the three rigidity fields of the
   * controls, and a second clearing changes nothing.
   */
  lemma ClearedAllSpec(cs: seq<PoseConstraint>)
    ensures Slack(ClearedAll(cs))
    ensures forall i :: 0 <= i < |cs| ==>
              var c, c' := cs[i], ClearedAll(cs)[i];
              && c'.kind == c.kind && c'.name == c.name && c'.subtarget == c.subtarget && c'.pulledPoint == c.pulledPoint
              && (c.kind != ControlKind ==> c' == c)
    ensures ClearedAll(ClearedAll(cs)) == ClearedAll(cs)
    ensures Slack(cs) ==> ClearedAll(cs) == cs
  {
    var r := ClearedAll(cs);
    forall i | 0 <= i < |r| ensures ClearedAll(r)[i] == r[i] {
      assert r[i] == Cleared(cs[i]);
    }
    if Slack(cs) {
      forall i | 0 <= i < |cs| ensures r[i] == cs[i] {
      }
    }
  }

  /** Clearing does not change which control the pulled-point search finds, only its rigidities. */
  lemma {:induction false} ClearedKeepsPullingControl(pchans: seq<PoseBone>, cs: seq<PoseConstraint>, p: Vec3)
    ensures var r := FirstPullingControl(pchans, cs, p);
            FirstPullingControl(pchans, ClearedAll(cs), p) == if r.Some? then Some(Cleared(r.value)) else None
  {
    if cs != [] {
      assert ClearedAll(cs)[1..] == ClearedAll(cs[1..]);
      ClearedKeepsPullingControl(pchans, cs[1..], p);
    }
  }

  // ---------------------------------------------------------------------------------------
  // "Create Control and Target": which bones already have a control, and the target names.

  /** The operator's settings that bear on naming. */
  datatype ControlOptions = ControlOptions(name: string, presuffix: string, headTail: real, createEmpties: bool)

  /** The word inserted when a presuffix is needed but none was given. */
  function DefaultPresuffix(o: ControlOptions): string
  {
    if o.createEmpties then "target"
    else if o.headTail == 1.0 then "tail target"
    else if o.headTail == 0.0 then "target"
    else "mid target"
  }

  /** Empty targets are objects and carry the armature object's name in front. */
  function TargetPrefix(o: ControlOptions, obName: string): string
  {
    if o.createEmpties then obName + " " else ""
  }

  /** The bone's own tail control, or its own head control with a child connected at its tail. */
  predicate TailPinnedAsWritten(pchans: seq<PoseBone>, p: PoseBone)
  {
    || FirstPullingControl(pchans, p.constraints, TailPoint).Some?
    || (&& FirstPullingControl(pchans, p.constraints, HeadPoint).Some?
        && exists child :: child in pchans && child.parent == Some(p.name) && WithinTolerance(child.head, p.tail))
  }

  /** The bone's own head control, or the tail control of a parent whose tail lies at its head. */
  predicate HeadPinned(pchans: seq<PoseBone>, p: PoseBone)
  {
    || FirstPullingControl(pchans, p.constraints, HeadPoint).Some?
    || (&& p.parent.Some? && HasBone(pchans, p.parent.value)
        && var par := FindByName(pchans, p.parent.value).value;
           FirstPullingControl(pchans, par.constraints, TailPoint).Some? && WithinTolerance(par.tail, p.head))
  }

  /**
   * The selected pose channels that already have a control where the target would go, as the
   * operator computes them: at the tail for a head-to-tail of 1 (with the tail search as
   * written), at the head for 0; none for empties or other positions.
   */
  function BonesWithControls(pchans: seq<PoseBone>, selected: seq<PoseBone>, o: ControlOptions): (r: set<string>)
    ensures forall n :: n in r ==> exists p :: p in selected && p.name == n
    ensures o.createEmpties || (o.headTail != 0.0 && o.headTail != 1.0) ==> r == {}
    ensures !o.createEmpties && o.headTail == 0.0 ==>
              forall n :: n in r <==> exists p :: p in selected && p.name == n && HeadPinned(pchans, p)
    ensures !o.createEmpties && o.headTail == 1.0 ==>
              forall n :: n in r <==> exists p :: p in selected && p.name == n && TailPinnedAsWritten(pchans, p)
  {
    if o.createEmpties then {}
    else if o.headTail == 1.0 then set p | p in selected && AnyTailControlAsWritten(pchans, p).Some? :: p.name
    else if o.headTail == 0.0 then
      assert forall p :: AnyHeadControl(pchans, p).Some? <==> HeadPinned(pchans, p);
      set p | p in selected && AnyHeadControl(pchans, p).Some? :: p.name
    else {}
  }

  /**
   * `BonesWithControls` with the corrected tail search: at head-to-tail 1 a selected channel
   * also counts when a child whose head lies at its tail has a head control of its own.
   */
  function BonesWithControlsCorrected(pchans: seq<PoseBone>, selected: seq<PoseBone>, o: ControlOptions): (r: set<string>)
    ensures forall n :: n in r ==> exists p :: p in selected && p.name == n
    ensures !(!o.createEmpties && o.headTail == 1.0) ==> r == BonesWithControls(pchans, selected, o)
    ensures !o.createEmpties && o.headTail == 1.0 ==>
              forall p :: p in selected && FirstPullingControl(pchans, p.constraints, TailPoint).Some? ==> p.name in r
    ensures !o.createEmpties && o.headTail == 1.0 ==>
              forall p, child ::
                (&& p in selected && child in pchans && child.parent == Some(p.name)
                 && WithinTolerance(child.head, p.tail)
                 && FirstPullingControl(pchans, child.constraints, HeadPoint).Some?) ==> p.name in r
  {
    if !o.createEmpties && o.headTail == 1.0 then set p | p in selected && AnyTailControl(pchans, p).Some? :: p.name
    else BonesWithControls(pchans, selected, o)
  }

  /**
   * On the pose of `TailControlAsWrittenMissesChildControl`, with "upper" selected and
   * head-to-tail 1, the operator finds no bone with a control and so adds a second one; the
   * corrected search reports "upper".
   */
  lemma OperatorMissesChildControl()
    ensures var control := PoseConstraint(ControlKind, "control", "target", HeadPoint, 1.0, 1.0, false);
            var upper := PoseBone("upper", [], None, Vec3(0.0, 0.0, 0.0), Vec3(0.0, 1.0, 0.0));
            var lower := PoseBone("lower", [control], Some("upper"), Vec3(0.0, 1.0, 0.0), Vec3(0.0, 2.0, 0.0));
            var target := PoseBone("target", [], None, Vec3(0.0, 1.0, 0.0), Vec3(0.0, 1.5, 0.0));
            var pose := [upper, lower, target];
            var o := ControlOptions("", "", 1.0, false);
            BonesWithControls(pose, [upper], o) == {} && BonesWithControlsCorrected(pose, [upper], o) == {"upper"}
  {
    var control := PoseConstraint(ControlKind, "control", "target", HeadPoint, 1.0, 1.0, false);
    var upper := PoseBone("upper", [], None, Vec3(0.0, 0.0, 0.0), Vec3(0.0, 1.0, 0.0));
    var lower := PoseBone("lower", [control], Some("upper"), Vec3(0.0, 1.0, 0.0), Vec3(0.0, 2.0, 0.0));
    var target := PoseBone("target", [], None, Vec3(0.0, 1.0, 0.0), Vec3(0.0, 1.5, 0.0));
    var pose := [upper, lower, target];
    TailControlAsWrittenMissesChildControl();
    SingleTailSelection(pose, upper, ControlOptions("", "", 1.0, false));
  }

  /** With one channel selected at head-to-tail 1, each search reports it exactly when it finds a control. */
  lemma SingleTailSelection(pchans: seq<PoseBone>, p: PoseBone, o: ControlOptions)
    requires !o.createEmpties && o.headTail == 1.0
    ensures BonesWithControls(pchans, [p], o) == if AnyTailControlAsWritten(pchans, p).Some? then {p.name} else {}
    ensures BonesWithControlsCorrected(pchans, [p], o) == if AnyTailControl(pchans, p).Some? then {p.name} else {}
  {
  }

  /** `ebone.name[len(ebone.basename):]`, with Python's clamping of an over-long start. */
  function NameSuffix(name: string, basename: string): (r: string)
    ensures StartsWith(name, basename) ==> name == basename + r
  {
    if |basename| <= |name| then name[|basename|..] else ""
  }

  /** The base of the target name: the explicit name, else the bone's base name. */
  function TargetBase(o: ControlOptions, basename: string): string
  {
    if o.name != "" then o.name else basename
  }

  /**
   * A presuffix is needed when no explicit name was given, or when the plain name is taken: an
   * object of the armature's name for empties, a bone of `base + suffix` otherwise.
   */
  predicate NeedsPresuffix(o: ControlOptions, obName: string, objectNames: set<string>, boneNames: seq<string>,
                           base: string, suffix: string)
  {
    || o.name == ""
    || (o.createEmpties && obName in objectNames)
    || (!o.createEmpties && base + suffix in boneNames)
  }

  /** The explicit presuffix, else the default one when needed, else nothing; a space in front. */
  function ChosenPresuffix(o: ControlOptions, need: bool): (r: string)
    ensures r == "" <==> o.presuffix == "" && !need
  {
    if o.presuffix != "" then " " + o.presuffix
    else if need then " " + DefaultPresuffix(o)
    else ""
  }

  /** The name of the target created for the edit bone `name` with base name `basename`. */
  function TargetName(o: ControlOptions, obName: string, objectNames: set<string>, boneNames: seq<string>,
                      name: string, basename: string): (r: string)
    ensures o.createEmpties ==> StartsWith(r, obName + " ")
    ensures !o.createEmpties && o.name != "" ==> StartsWith(r, o.name)
    ensures StartsWith(name, basename) ==> EndsWith(r, name[|basename|..])
  {
    var base := TargetBase(o, basename);
    var suffix := NameSuffix(name, basename);
    var need := NeedsPresuffix(o, obName, objectNames, boneNames, base, suffix);
    TargetPrefix(o, obName) + base + ChosenPresuffix(o, need) + suffix
  }

  /**
   * For target bones, the plain name `name + suffix` is used exactly when an explicit name was
   * given, no presuffix was asked for, and no bone has that name yet.
   */
  lemma TargetNamePlainExactly(o: ControlOptions, obName: string, objectNames: set<string>, boneNames: seq<string>,
                               name: string, basename: string)
    requires !o.createEmpties
    ensures var suffix := NameSuffix(name, basename);
            TargetName(o, obName, objectNames, boneNames, name, basename) == o.name + suffix <==>
              o.name != "" && o.presuffix == "" && o.name + suffix !in boneNames
  {
    var base := TargetBase(o, basename);
    var suffix := NameSuffix(name, basename);
    var need := NeedsPresuffix(o, obName, objectNames, boneNames, base, suffix);
    var t := TargetName(o, obName, objectNames, boneNames, name, basename);
    assert t == base + ChosenPresuffix(o, need) + suffix;
    assert (o.name == "" || o.presuffix != "" || o.name + suffix in boneNames) ==> ChosenPresuffix(o, need) != "";
    assert |t| == |base| + |ChosenPresuffix(o, need)| + |suffix|;
  }

  /** A target bone named from the bone's own base name never takes the bone's own name. */
  lemma TargetNameDiffersFromBone(o: ControlOptions, obName: string, objectNames: set<string>, boneNames: seq<string>,
                                  name: string, basename: string)
    requires !o.createEmpties && o.name == "" && StartsWith(name, basename)
    ensures TargetName(o, obName, objectNames, boneNames, name, basename) != name
  {
    var suffix := NameSuffix(name, basename);
    var need := NeedsPresuffix(o, obName, objectNames, boneNames, basename, suffix);
    assert ChosenPresuffix(o, need) != "";
    assert |TargetName(o, obName, objectNames, boneNames, name, basename)| > |basename + suffix|;
  }

  /**
   * Which targets the operator adds: an empty only when no object has its name, a target bone
   * only when no bone has its name and the bone has no control there yet. The pair is the
   * controlled bone's name and the target's name.
   */
  function NewTarget(o: ControlOptions, obName: string, objectNames: set<string>, boneNames: seq<string>,
                     withControls: set<string>, name: string, basename: string): (r: Option<(string, string)>)
    ensures r.Some? ==> r.value.0 == name && r.value.1 == TargetName(o, obName, objectNames, boneNames, name, basename)
    ensures r.Some? && o.createEmpties ==> r.value.1 !in objectNames
    ensures r.Some? && !o.createEmpties ==> r.value.1 !in boneNames && name !in withControls
    ensures r.None? <==>
              var t := TargetName(o, obName, objectNames, boneNames, name, basename);
              if o.createEmpties then t in objectNames else t in boneNames || name in withControls
  {
    var t := TargetName(o, obName, objectNames, boneNames, name, basename);
    if o.createEmpties then
      if t !in objectNames then Some((name, t)) else None
    else
      if t !in boneNames && name !in withControls then Some((name, t)) else None
  }
}

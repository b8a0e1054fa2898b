/**
 * Rig-authoring rules. In the rig builder each rule assigns fields of the bones it is given
 * and appends constraint records to them; here a bone is a value, so a rule on one bone is a
 * function from the bone before to the bone after, and a rule that touches several bones is
 * a function on the table, applying its assignments in the source's order (so a bone passed
 * twice sees both). Angles are in degrees, as the rig builder writes them.
 */
module Rules {
  import opened Util
  import opened Geometry
  import opened MetaBones
  import opened Tables
  import opened Push

  const MechanicalPrefix: string := "MCH-"

  /** `BEPUIK_BALL_SOCKET_RIGIDITY_DEFAULT`. */
  const BallSocketRigidityDefault: real := 16.0

  /**
   * `flag_bone_mechanical`: every location, rotation and scale axis is locked, and so is the
   * quaternion W; the name gains the `MCH-` prefix unless it already has it. Nothing else changes.
   */
  function FlagMechanical(b: MetaBone): (r: MetaBone)
    ensures r.attrs.lockLocation.All() && r.attrs.lockRotation.All() && r.attrs.lockScale.All() && r.attrs.lockRotationW
    ensures StartsWith(r.name, MechanicalPrefix)
    ensures r.name == if StartsWith(b.name, MechanicalPrefix) then b.name else MechanicalPrefix + b.name
    ensures r.constraints == b.constraints && r.rig == b.rig
    ensures r.attrs.(lockLocation := b.attrs.lockLocation, lockRotation := b.attrs.lockRotation,
                     lockRotationW := b.attrs.lockRotationW, lockScale := b.attrs.lockScale) == b.attrs
  {
    var a := b.attrs.(lockRotation := AllLocked, lockLocation := AllLocked, lockScale := AllLocked, lockRotationW := true);
    var name := if StartsWith(b.name, MechanicalPrefix) then b.name else MechanicalPrefix + b.name;
    b.(attrs := a, name := name)
  }

  /** Flagging a bone mechanical twice is the same as once: in particular the prefix is not doubled. */
  lemma FlagMechanicalIdempotent(b: MetaBone)
    ensures FlagMechanical(FlagMechanical(b)) == FlagMechanical(b)
  {
    var once := FlagMechanical(b);
    assert StartsWith(once.name, MechanicalPrefix);
    assert once.attrs.(lockRotation := AllLocked, lockLocation := AllLocked, lockScale := AllLocked, lockRotationW := true) == once.attrs;
  }

  /**
   * `flag_bone_deforming_ballsocket_bepuik`: the bone deforms, takes part in the BEPUik solve,
   * and gets the default ball-socket rigidity. Nothing else changes.
   */
  function FlagDeformingBallsocket(b: MetaBone): (r: MetaBone)
    ensures r.attrs.useDeform && r.attrs.useBepuik && r.attrs.ballSocketRigidity == BallSocketRigidityDefault
    ensures r.name == b.name && r.constraints == b.constraints && r.rig == b.rig
    ensures r.attrs.(useDeform := b.attrs.useDeform, useBepuik := b.attrs.useBepuik,
                     ballSocketRigidity := b.attrs.ballSocketRigidity) == b.attrs
  {
    b.(attrs := b.attrs.(useDeform := true, useBepuik := true, ballSocketRigidity := BallSocketRigidityDefault))
  }

  lemma FlagDeformingBallsocketIdempotent(b: MetaBone)
    ensures FlagDeformingBallsocket(FlagDeformingBallsocket(b)) == FlagDeformingBallsocket(b)
  {
    var once := FlagDeformingBallsocket(b);
    assert once.attrs.(useDeform := true, useBepuik := true, ballSocketRigidity := BallSocketRigidityDefault) == once.attrs;
  }

  /** The constraint a rule just appended. */
  function Last(b: MetaBone): MetaConstraint
    requires b.constraints != []
  {
    b.constraints[|b.constraints| - 1]
  }

  /** `b` is `before` with `c` appended to its constraints, and nothing else changed. */
  ghost predicate Appended(before: MetaBone, b: MetaBone, c: MetaConstraint)
  {
    b == before.(constraints := before.constraints + [c])
  }

  /** The attributes `rig_twist_limit` sets. */
  function TwistAttrs(aKey: string, bKey: string, twist: real): map<string, AttrValue>
  {
    map["axis_a" := BoneAxis(aKey, "Y"), "axis_b" := BoneAxis(bKey, "Y"),
        "measurement_axis_a" := BoneAxis(aKey, "Z"), "measurement_axis_b" := BoneAxis(bKey, "Z"),
        "max_twist" := Number(twist)]
  }

  /** The attributes of a swing limit of `swing` degrees between `axisOwner`'s and `bKey`'s Y axes. */
  function SwingAttrs(axisOwner: string, bKey: string, swing: real): map<string, AttrValue>
  {
    map["axis_a" := BoneAxis(axisOwner, "Y"), "axis_b" := BoneAxis(bKey, "Y"), "max_swing" := Number(swing)]
  }

  /** The attributes of a revolute joint free about `owner`'s X axis. */
  function RevoluteAttrs(owner: string): map<string, AttrValue>
  {
    map["free_axis" := BoneAxis(owner, "X")]
  }

  /**
   * Bone `a` (keyed `aKey`) gained exactly one constraint of `kind` towards `bKey`, under the
   * default name, carrying `attrs`.
   */
  ghost predicate GainedDefault(a: MetaBone, r: MetaBone, aKey: string, kind: string, bKey: string,
                                attrs: map<string, AttrValue>)
  {
    && r.constraints != [] && Appended(a, r, Last(r))
    && var c := Last(r);
       && c.kind == kind && c.name == DefaultConstraintName(kind, |a.constraints|)
       && c.connectionA == aKey && c.connectionB == bKey && c.attrs == attrs
  }

  /** `rig_twist_limit`: bone `a` (keyed `aKey`) gets a BEPUik twist limit of `twist` degrees towards `bKey`. */
  function TwistLimit(a: MetaBone, aKey: string, bKey: string, twist: real): (r: MetaBone)
    ensures GainedDefault(a, r, aKey, "BEPUIK_TWIST_LIMIT", bKey, TwistAttrs(aKey, bKey, twist))
  {
    NewConstraint(a, aKey, "BEPUIK_TWIST_LIMIT", bKey, "", TwistAttrs(aKey, bKey, twist))
  }

  /**
   * A BEPUik swing limit of `swing` degrees on `a` towards `bKey`, between `axisOwner`'s Y
   * axis and `bKey`'s.
   */
  function SwingLimitAbout(a: MetaBone, aKey: string, axisOwner: string, bKey: string, swing: real): (r: MetaBone)
    ensures GainedDefault(a, r, aKey, "BEPUIK_SWING_LIMIT", bKey, SwingAttrs(axisOwner, bKey, swing))
  {
    NewConstraint(a, aKey, "BEPUIK_SWING_LIMIT", bKey, "", SwingAttrs(axisOwner, bKey, swing))
  }

  /** `rig_swing_limit`: bone `a` gets a swing limit of `swing` degrees between its own Y axis and `bKey`'s. */
  function SwingLimit(a: MetaBone, aKey: string, bKey: string, swing: real): (r: MetaBone)
    ensures GainedDefault(a, r, aKey, "BEPUIK_SWING_LIMIT", bKey, SwingAttrs(aKey, bKey, swing))
  {
    SwingLimitAbout(a, aKey, aKey, bKey, swing)
  }

  /** A BEPUik revolute joint on `a` towards `bKey`, free about `a`'s X axis. */
  function RevoluteJoint(a: MetaBone, aKey: string, bKey: string): (r: MetaBone)
    ensures GainedDefault(a, r, aKey, "BEPUIK_REVOLUTE_JOINT", bKey, RevoluteAttrs(aKey))
  {
    NewConstraint(a, aKey, "BEPUIK_REVOLUTE_JOINT", bKey, "", RevoluteAttrs(aKey))
  }

  /** The default angle by which `antiparallel_limiter` keeps two bones from folding onto each other. */
  const AntiparallelDefault: real := 20.0

  /**
   * `antiparallel_limiter`: a swing limit between the two Y axes whose cone stops `degrees`
   * short of the axes pointing opposite ways; for an angle within a half turn the cone is
   * within a half turn too.
   */
  function AntiparallelLimiter(a: MetaBone, aKey: string, bKey: string, degrees: real): (r: MetaBone)
    ensures GainedDefault(a, r, aKey, "BEPUIK_SWING_LIMIT", bKey, SwingAttrs(aKey, bKey, 180.0 - degrees))
    ensures 0.0 <= degrees <= 180.0 ==> 0.0 <= 180.0 - degrees <= 180.0
  {
    SwingLimitAbout(a, aKey, aKey, bKey, 180.0 - degrees)
  }

  lemma SwingLimitKindIsBepuik()
    ensures IsBepuikKind("BEPUIK_SWING_LIMIT")
  {
    assert "BEPUIK_SWING_LIMIT"[..|"BEPUIK_"|] == "BEPUIK_";
  }

  lemma TwistLimitKindIsBepuik()
    ensures IsBepuikKind("BEPUIK_TWIST_LIMIT")
  {
    assert "BEPUIK_TWIST_LIMIT"[..|"BEPUIK_"|] == "BEPUIK_";
  }

  /** What a twist limit of `twist` degrees from `c.connectionA` to `c.connectionB` should write on the host. */
  function TwistWrites(t: BoneTable, c: MetaConstraint, twist: real): set<Write>
  {
    ConnectionWrites(t, c) + AxisWrites(t, "axis_a", c.connectionA, "Y") + AxisWrites(t, "axis_b", c.connectionB, "Y")
    + AxisWrites(t, "measurement_axis_a", c.connectionA, "Z") + AxisWrites(t, "measurement_axis_b", c.connectionB, "Z")
    + {("max_twist", RadiansOf(twist))}
  }

  /** Each attribute of a twist limit writes only what `TwistWrites` lists. */
  lemma TwistAttrCovered(t: BoneTable, c: MetaConstraint, twist: real, k: string)
    requires c.attrs == TwistAttrs(c.connectionA, c.connectionB, twist) && k in c.attrs
    ensures k !in ExcludedAttrs && AttrWrites(t, k, c.attrs[k]) <= TwistWrites(t, c, twist)
  {
    if k == "axis_a" {
      assert AttrWrites(t, k, c.attrs[k]) == AxisWrites(t, "axis_a", c.connectionA, "Y");
    } else if k == "axis_b" {
      assert AttrWrites(t, k, c.attrs[k]) == AxisWrites(t, "axis_b", c.connectionB, "Y");
    } else if k == "measurement_axis_a" {
      assert AttrWrites(t, k, c.attrs[k]) == AxisWrites(t, "measurement_axis_a", c.connectionA, "Z");
    } else if k == "measurement_axis_b" {
      assert AttrWrites(t, k, c.attrs[k]) == AxisWrites(t, "measurement_axis_b", c.connectionB, "Z");
    } else {
      assert AttrWrites(t, k, c.attrs[k]) == {("max_twist", RadiansOf(twist))};
    }
  }

  /** Every write `TwistWrites` lists comes from the connection or from one of the attributes. */
  lemma TwistWriteSourced(t: BoneTable, c: MetaConstraint, twist: real, x: Write)
    requires c.attrs == TwistAttrs(c.connectionA, c.connectionB, twist) && x in TwistWrites(t, c, twist)
    ensures x in ConnectionWrites(t, c) || exists k :: k in c.attrs && x in AttrWrites(t, k, c.attrs[k])
  {
    if x in AxisWrites(t, "axis_a", c.connectionA, "Y") {
      assert x in AttrWrites(t, "axis_a", c.attrs["axis_a"]);
    } else if x in AxisWrites(t, "axis_b", c.connectionB, "Y") {
      assert x in AttrWrites(t, "axis_b", c.attrs["axis_b"]);
    } else if x in AxisWrites(t, "measurement_axis_a", c.connectionA, "Z") {
      assert x in AttrWrites(t, "measurement_axis_a", c.attrs["measurement_axis_a"]);
    } else if x in AxisWrites(t, "measurement_axis_b", c.connectionB, "Z") {
      assert x in AttrWrites(t, "measurement_axis_b", c.attrs["measurement_axis_b"]);
    } else if x !in ConnectionWrites(t, c) {
      assert x in AttrWrites(t, "max_twist", c.attrs["max_twist"]);
    }
  }

  /**
   * On the host a twist limit connects to its second bone, aims both alignment axes (Y) and
   * both measurement axes (Z) at the two bones by name, and sets `max_twist` in radians;
   * nothing else is written.
   */
  lemma TwistLimitOnHost(t: BoneTable, c: MetaConstraint, twist: real)
    requires c.kind == "BEPUIK_TWIST_LIMIT" && c.attrs == TwistAttrs(c.connectionA, c.connectionB, twist)
    ensures ConstraintWrites(t, c) == TwistWrites(t, c, twist)
  {
    TwistLimitKindIsBepuik();
    forall k | k in c.attrs ensures k !in ExcludedAttrs && AttrWrites(t, k, c.attrs[k]) <= TwistWrites(t, c, twist) {
      TwistAttrCovered(t, c, twist, k);
    }
    forall x | x in TwistWrites(t, c, twist)
      ensures x in ConnectionWrites(t, c) || exists k :: k in c.attrs && x in AttrWrites(t, k, c.attrs[k])
    {
      TwistWriteSourced(t, c, twist, x);
    }
    WritesExactly(t, c, TwistWrites(t, c, twist));
  }

  /** What a swing limit of `swing` degrees between the Y axes should write on the host. */
  function SwingWrites(t: BoneTable, c: MetaConstraint, axisOwner: string, swing: real): set<Write>
  {
    ConnectionWrites(t, c) + AxisWrites(t, "axis_a", axisOwner, "Y") + AxisWrites(t, "axis_b", c.connectionB, "Y")
    + {("max_swing", RadiansOf(swing))}
  }

  /** Each attribute of a swing limit writes only what `SwingWrites` lists. */
  lemma SwingAttrCovered(t: BoneTable, c: MetaConstraint, axisOwner: string, swing: real, k: string)
    requires c.attrs == SwingAttrs(axisOwner, c.connectionB, swing) && k in c.attrs
    ensures k !in ExcludedAttrs && AttrWrites(t, k, c.attrs[k]) <= SwingWrites(t, c, axisOwner, swing)
  {
    if k == "axis_a" {
      assert AttrWrites(t, k, c.attrs[k]) == AxisWrites(t, "axis_a", axisOwner, "Y");
    } else if k == "axis_b" {
      assert AttrWrites(t, k, c.attrs[k]) == AxisWrites(t, "axis_b", c.connectionB, "Y");
    } else {
      assert AttrWrites(t, k, c.attrs[k]) == {("max_swing", RadiansOf(swing))};
    }
  }

  /** Every write `SwingWrites` lists comes from the connection or from one of the attributes. */
  lemma SwingWriteSourced(t: BoneTable, c: MetaConstraint, axisOwner: string, swing: real, x: Write)
    requires c.attrs == SwingAttrs(axisOwner, c.connectionB, swing) && x in SwingWrites(t, c, axisOwner, swing)
    ensures x in ConnectionWrites(t, c) || exists k :: k in c.attrs && x in AttrWrites(t, k, c.attrs[k])
  {
    if x in AxisWrites(t, "axis_a", axisOwner, "Y") {
      assert x in AttrWrites(t, "axis_a", c.attrs["axis_a"]);
    } else if x in AxisWrites(t, "axis_b", c.connectionB, "Y") {
      assert x in AttrWrites(t, "axis_b", c.attrs["axis_b"]);
    } else if x !in ConnectionWrites(t, c) {
      assert x in AttrWrites(t, "max_swing", c.attrs["max_swing"]);
    }
  }

  /**
   * On the host a swing limit connects to its second bone, aims both axes at their bones by
   * name, and sets `max_swing` in radians; nothing else is written.
   */
  lemma SwingLimitOnHost(t: BoneTable, c: MetaConstraint, axisOwner: string, swing: real)
    requires c.kind == "BEPUIK_SWING_LIMIT" && c.attrs == SwingAttrs(axisOwner, c.connectionB, swing)
    ensures ConstraintWrites(t, c) == SwingWrites(t, c, axisOwner, swing)
  {
    SwingLimitKindIsBepuik();
    forall k | k in c.attrs ensures k !in ExcludedAttrs && AttrWrites(t, k, c.attrs[k]) <= SwingWrites(t, c, axisOwner, swing) {
      SwingAttrCovered(t, c, axisOwner, swing, k);
    }
    forall x | x in SwingWrites(t, c, axisOwner, swing)
      ensures x in ConnectionWrites(t, c) || exists k :: k in c.attrs && x in AttrWrites(t, k, c.attrs[k])
    {
      SwingWriteSourced(t, c, axisOwner, swing, x);
    }
    WritesExactly(t, c, SwingWrites(t, c, axisOwner, swing));
  }

  /**
   * With the default 20 degrees the cone is 160 degrees wide, and on the host the limit
   * arrives as 160 degrees converted to radians, the only value written to `max_swing`.
   */
  lemma AntiparallelDefaultOnHost(t: BoneTable, a: MetaBone, aKey: string, bKey: string)
    ensures var c := Last(AntiparallelLimiter(a, aKey, bKey, AntiparallelDefault));
            && c.attrs == SwingAttrs(aKey, bKey, 160.0)
            && ConstraintWrites(t, c) == SwingWrites(t, c, aKey, 160.0)
  {
    var c := Last(AntiparallelLimiter(a, aKey, bKey, AntiparallelDefault));
    assert c.connectionB == bKey;
    SwingLimitOnHost(t, c, aKey, 160.0);
  }

  /** The attributes of the control a target exerts on an affected bone. */
  function ControlAttrs(headTail: real, positionRigidity: real, orientationRigidity: real): map<string, AttrValue>
  {
    map["orientation_rigidity" := Number(orientationRigidity),
        "bepuik_rigidity" := Number(positionRigidity),
        "pulled_point" := Triple(Vec3(0.0, headTail, 0.0))]
  }

  /** A target is drawn as wire and cannot be scaled. */
  function MarkTarget(b: MetaBone): (r: MetaBone)
    ensures r.attrs.showWire && r.attrs.lockScale.All()
    ensures r.name == b.name && r.constraints == b.constraints && r.rig == b.rig
    ensures r.attrs.(showWire := b.attrs.showWire, lockScale := b.attrs.lockScale) == b.attrs
  {
    b.(attrs := b.attrs.(showWire := true, lockScale := AllLocked))
  }

  /**
   * `rig_target_affected`: the affected bone gets a BEPUik control towards the target, named
   * after the target, and then the target is marked. Only those two bones change.
   */
  function TargetAffected(t: BoneTable, target: string, affected: string, headTail: real,
                          positionRigidity: real, orientationRigidity: real): (r: BoneTable)
    requires target in t.bones && affected in t.bones
    ensures r.order == t.order && r.bones.Keys == t.bones.Keys
    ensures forall k :: k in t.bones && k != target && k != affected ==> r.bones[k] == t.bones[k]
    ensures r.bones[target].attrs.showWire && r.bones[target].attrs.lockScale.All()
  {
    var control := NewConstraint(t.bones[affected], affected, "BEPUIK_CONTROL", target, t.bones[target].name,
                                 ControlAttrs(headTail, positionRigidity, orientationRigidity));
    var t1 := Update(t, affected, control);
    Update(t1, target, MarkTarget(t1.bones[target]))
  }

  /**
   * For two different bones the affected bone keeps everything else and gains exactly one
   * constraint: a BEPUik control from it to the target, named after the target (by default
   * when the target's name is empty), with the given rigidities and pulled point; the target
   * gains no constraint.
   */
  lemma TargetAffectedControl(t: BoneTable, target: string, affected: string, headTail: real,
                              positionRigidity: real, orientationRigidity: real)
    requires target in t.bones && affected in t.bones && target != affected
    ensures var r, b := TargetAffected(t, target, affected, headTail, positionRigidity, orientationRigidity), t.bones[affected];
            && r.bones[affected].constraints != []
            && Appended(b, r.bones[affected], Last(r.bones[affected]))
            && r.bones[target] == MarkTarget(t.bones[target])
            && var c := Last(r.bones[affected]);
               && c.kind == "BEPUIK_CONTROL" && c.connectionA == affected && c.connectionB == target
               && c.name == (if t.bones[target].name != "" then t.bones[target].name
                             else DefaultConstraintName("BEPUIK_CONTROL", |b.constraints|))
               && c.attrs == ControlAttrs(headTail, positionRigidity, orientationRigidity)
  {
  }

  lemma ControlKindIsBepuik()
    ensures IsBepuikKind("BEPUIK_CONTROL")
  {
    assert "BEPUIK_CONTROL"[..|"BEPUIK_"|] == "BEPUIK_";
  }

  /**
   * On the host the control connects to the target by name and sets its orientation and
   * position rigidities and its pulled point as given; nothing else is written.
   */
  lemma TargetAffectedOnHost(t: BoneTable, c: MetaConstraint, headTail: real, positionRigidity: real, orientationRigidity: real)
    requires c.kind == "BEPUIK_CONTROL" && c.attrs == ControlAttrs(headTail, positionRigidity, orientationRigidity)
    ensures ConstraintWrites(t, c) ==
              ConnectionWrites(t, c)
              + {("orientation_rigidity", RealValue(orientationRigidity)), ("bepuik_rigidity", RealValue(positionRigidity)),
                 ("pulled_point", VectorValue(Vec3(0.0, headTail, 0.0)))}
  {
    var o, p, q := ("orientation_rigidity", RealValue(orientationRigidity)), ("bepuik_rigidity", RealValue(positionRigidity)),
                   ("pulled_point", VectorValue(Vec3(0.0, headTail, 0.0)));
    var e := ConnectionWrites(t, c) + {o, p, q};
    ControlKindIsBepuik();
    forall k | k in c.attrs ensures k !in ExcludedAttrs && AttrWrites(t, k, c.attrs[k]) <= e {
    }
    forall x | x in e ensures x in ConnectionWrites(t, c) || exists k :: k in c.attrs && x in AttrWrites(t, k, c.attrs[k]) {
      if x == o {
        assert x in AttrWrites(t, "orientation_rigidity", c.attrs["orientation_rigidity"]);
      } else if x == p {
        assert x in AttrWrites(t, "bepuik_rigidity", c.attrs["bepuik_rigidity"]);
      } else if x == q {
        assert x in AttrWrites(t, "pulled_point", c.attrs["pulled_point"]);
      }
    }
    WritesExactly(t, c, e);
  }

  /** The angle `rig_bone_to_bone_revolute_swing_center` turns the swing centre to: the middle of the range. */
  function SwingCentreAngle(angleMax: real, angleMin: real): real
  {
    (angleMax + angleMin) / 2.0
  }

  /** The swing limit about the centre: half the width of the range. */
  function SwingHalfWidth(angleMax: real, angleMin: real): (r: real)
    ensures r >= 0.0
  {
    (if angleMax >= angleMin then angleMax - angleMin else angleMin - angleMax) / 2.0
  }

  /**
   * The cone of the half-width about the centre reaches exactly from the smaller authored bound
   * to the larger, whichever of the two is given as the maximum.
   */
  lemma SwingCentreCoversRange(angleMax: real, angleMin: real)
    ensures var c, w := SwingCentreAngle(angleMax, angleMin), SwingHalfWidth(angleMax, angleMin);
            && c - w == (if angleMax <= angleMin then angleMax else angleMin)
            && c + w == (if angleMax <= angleMin then angleMin else angleMax)
  {
  }

  /** The swing centre starts at `at`, points along `offset` and hangs from `fa`, as a mechanical bone. */
  function PlaceSwingCentre(s: MetaBone, fa: string, at: Vec3, offset: Vec3): (r: MetaBone)
    ensures r.attrs.head == at && r.attrs.tail == Add(at, offset) && r.attrs.parent == Some(fa)
    ensures FlagMechanical(r) == r
  {
    var r := FlagMechanical(s.(attrs := s.attrs.(head := at, tail := Add(at, offset), parent := Some(fa))));
    FlagMechanicalIdempotent(s.(attrs := s.attrs.(head := at, tail := Add(at, offset), parent := Some(fa))));
    r
  }

  /**
   * `rig_bone_to_bone_revolute_swing_center`: `fa` gets a revolute joint towards `fb`; the
   * swing-centre bone `sc` is placed at `fa`'s tail, pointing along `offset` of the centre
   * angle (on the host, `fa`'s Y axis turned about its X axis by that angle, times `fa`'s
   * length), hung from `fa` and flagged mechanical; then `fa` gets a swing limit of the
   * half-width between `sc`'s Y axis and `fb`'s. Only `fa` and `sc` change.
   */
  function RevoluteSwingCentre(t: BoneTable, fa: string, fb: string, sc: string, angleMax: real, angleMin: real,
                               offset: real -> Vec3): (r: BoneTable)
    requires fa in t.bones && sc in t.bones
    ensures r.order == t.order && r.bones.Keys == t.bones.Keys
    ensures forall k :: k in t.bones && k != fa && k != sc ==> r.bones[k] == t.bones[k]
  {
    var t1 := Update(t, fa, RevoluteJoint(t.bones[fa], fa, fb));
    var t2 := Update(t1, sc, PlaceSwingCentre(t1.bones[sc], fa, t1.bones[fa].attrs.tail,
                                              offset(SwingCentreAngle(angleMax, angleMin))));
    Update(t2, fa, SwingLimitAbout(t2.bones[fa], fa, sc, fb, SwingHalfWidth(angleMax, angleMin)))
  }

  /**
   * A revolute joint followed by a swing limit, both towards `fb`: the bone keeps its name and
   * attributes and its earlier constraints, and gains exactly those two, in that order.
   */
  lemma JointThenSwingLimit(a: MetaBone, fa: string, fb: string, axisOwner: string, swing: real)
    ensures var cs, n := SwingLimitAbout(RevoluteJoint(a, fa, fb), fa, axisOwner, fb, swing).constraints, |a.constraints|;
            && SwingLimitAbout(RevoluteJoint(a, fa, fb), fa, axisOwner, fb, swing).attrs == a.attrs
            && |cs| == n + 2 && cs[..n] == a.constraints
            && cs[n].kind == "BEPUIK_REVOLUTE_JOINT" && cs[n].connectionB == fb && cs[n].attrs == RevoluteAttrs(fa)
            && cs[n + 1].kind == "BEPUIK_SWING_LIMIT" && cs[n + 1].connectionB == fb
            && cs[n + 1].attrs == SwingAttrs(axisOwner, fb, swing)
  {
    var a1 := RevoluteJoint(a, fa, fb);
    var a2 := SwingLimitAbout(a1, fa, axisOwner, fb, swing);
    assert a2.constraints == a.constraints + [Last(a1), Last(a2)];
  }

  /**
   * For a swing centre other than `fa`, `fa` receives the two constraints in order (so that,
   * by `JointThenSwingLimit`, it gains exactly a revolute joint and a swing limit of the
   * half-width towards `fb`), and the swing centre is placed from `fa`'s tail before either
   * (so that, by `PlaceSwingCentre`, it starts there, hangs from `fa` and is mechanical).
   */
  lemma RevoluteSwingCentreParts(t: BoneTable, fa: string, fb: string, sc: string, angleMax: real, angleMin: real,
                                 offset: real -> Vec3)
    requires fa in t.bones && sc in t.bones && fa != sc
    ensures var r, a := RevoluteSwingCentre(t, fa, fb, sc, angleMax, angleMin, offset), t.bones[fa];
            && r.bones[fa] == SwingLimitAbout(RevoluteJoint(a, fa, fb), fa, sc, fb, SwingHalfWidth(angleMax, angleMin))
            && r.bones[sc] == PlaceSwingCentre(t.bones[sc], fa, a.attrs.tail, offset(SwingCentreAngle(angleMax, angleMin)))
  {
    var a1 := RevoluteJoint(t.bones[fa], fa, fb);
    var t1 := Update(t, fa, a1);
    var t2 := Update(t1, sc, PlaceSwingCentre(t1.bones[sc], fa, a1.attrs.tail, offset(SwingCentreAngle(angleMax, angleMin))));
    assert t2.bones[fa] == a1;
  }

  /**
   * Python truthiness of a number: it is not zero. The rig builder always sets a palm's swing
   * before `rig_finger` reads it.
   */
  predicate Truthy(x: real)
  {
    x != 0.0
  }

  function MaxReal(x: real, y: real): (r: real)
    ensures r >= x && r >= y && (r == x || r == y)
  {
    if x >= y then x else y
  }

  function WithAlignRoll(b: MetaBone, alignRoll: Vec3): MetaBone
  {
    b.(attrs := b.attrs.(alignRoll := alignRoll))
  }

  function HangFrom(b: MetaBone, parent: string): MetaBone
  {
    b.(attrs := b.attrs.(parent := Some(parent)))
  }

  function WithParent(b: MetaBone, parent: string, connect: bool): MetaBone
  {
    b.(attrs := b.attrs.(useConnect := connect, parent := Some(parent)))
  }

  /** A palm without a swing deforms but is driven mechanically. */
  function DeformingMechanical(b: MetaBone): (r: MetaBone)
    ensures r.attrs.useDeform && FlagMechanical(r) == r
  {
    var d := b.(attrs := b.attrs.(useDeform := true));
    FlagMechanicalIdempotent(d);
    FlagMechanical(d)
  }

  /**
   * The hand and the four bones of a finger take the finger's roll alignment. Assigning the same
   * alignment again changes nothing, so the five assignments are one update whichever keys coincide.
   */
  function AlignFinger(t: BoneTable, hand: string, s1: string, s2: string, s3: string, s4: string,
                       alignRoll: Vec3): (r: BoneTable)
    requires hand in t.bones && s1 in t.bones && s2 in t.bones && s3 in t.bones && s4 in t.bones
    ensures r.order == t.order && r.bones.Keys == t.bones.Keys
    ensures forall k :: k in t.bones && k !in {hand, s1, s2, s3, s4} ==> r.bones[k] == t.bones[k]
    ensures forall k :: k in {hand, s1, s2, s3, s4} ==> r.bones[k] == WithAlignRoll(t.bones[k], alignRoll)
  {
    var aligned := {hand, s1, s2, s3, s4};
    BoneTable(t.order, map k | k in t.bones :: if k in aligned then WithAlignRoll(t.bones[k], alignRoll) else t.bones[k])
  }

  /** The five bones of `rig_finger` are stored, and the palm `s1` has its swing set. */
  predicate FingerBones(t: BoneTable, hand: string, s1: string, s2: string, s3: string, s4: string)
  {
    hand in t.bones && s1 in t.bones && s2 in t.bones && s3 in t.bones && s4 in t.bones && t.bones[s1].rig.swing.Some?
  }

  /** Five distinct keys differ pairwise. */
  lemma FiveDistinct(a: string, b: string, c: string, d: string, e: string)
    requires Distinct([a, b, c, d, e])
    ensures a != b && a != c && a != d && a != e && b != c && b != d && b != e && c != d && c != e && d != e
  {
    var s := [a, b, c, d, e];
    assert s[0] != s[1] && s[0] != s[2] && s[0] != s[3] && s[0] != s[4];
    assert s[1] != s[2] && s[1] != s[3] && s[1] != s[4] && s[2] != s[3] && s[2] != s[4] && s[3] != s[4];
  }

  /**
   * The palm part of `rig_finger`: the roll alignment is copied to the hand and the four
   * finger bones; the palm bone `s1` hangs from the hand. A palm with a swing becomes a deforming
   * ball socket, the hand gets a revolute joint and a swing limit of the larger of the
   * measured hand-to-palm angle and the palm's swing, both towards the palm, and the first
   * finger segment `s2` hangs from the palm, connected; a palm without a swing becomes a
   * deforming mechanical bone and `s2` hangs from the hand, unconnected.
   */
  function FingerPalm(t: BoneTable, hand: string, s1: string, s2: string, s3: string, s4: string,
                      alignRoll: Vec3, handToPalmDegrees: real): (r: BoneTable)
    requires FingerBones(t, hand, s1, s2, s3, s4)
    ensures r.order == t.order && r.bones.Keys == t.bones.Keys
    ensures forall k :: k in t.bones && k !in {hand, s1, s2, s3, s4} ==> r.bones[k] == t.bones[k]
  {
    var t0 := AlignFinger(t, hand, s1, s2, s3, s4, alignRoll);
    var t1 := Update(t0, s1, HangFrom(t0.bones[s1], hand));
    var swing := t.bones[s1].rig.swing.value;
    if Truthy(swing) then SwingingPalm(t1, hand, s1, s2, MaxReal(handToPalmDegrees, swing))
    else RigidPalm(t1, hand, s1, s2)
  }

  /** The swinging branch of the palm rule: only the hand, the palm and the first segment change. */
  function SwingingPalm(t: BoneTable, hand: string, s1: string, s2: string, limit: real): (r: BoneTable)
    requires hand in t.bones && s1 in t.bones && s2 in t.bones
    ensures r.order == t.order && r.bones.Keys == t.bones.Keys
    ensures forall k :: k in t.bones && k !in {hand, s1, s2} ==> r.bones[k] == t.bones[k]
  {
    var t2 := Update(t, s1, FlagDeformingBallsocket(t.bones[s1]));
    var t3 := Update(t2, hand, RevoluteJoint(t2.bones[hand], hand, s1));
    var t4 := Update(t3, hand, SwingLimitAbout(t3.bones[hand], hand, hand, s1, limit));
    Update(t4, s2, WithParent(t4.bones[s2], s1, true))
  }

  /** The branch of the palm rule for a palm without swing: only the palm and the first segment change. */
  function RigidPalm(t: BoneTable, hand: string, s1: string, s2: string): (r: BoneTable)
    requires s1 in t.bones && s2 in t.bones
    ensures r.order == t.order && r.bones.Keys == t.bones.Keys
    ensures forall k :: k in t.bones && k !in {s1, s2} ==> r.bones[k] == t.bones[k]
  {
    var t2 := Update(t, s1, DeformingMechanical(t.bones[s1]));
    Update(t2, s2, WithParent(t2.bones[s2], hand, false))
  }

  /** The bones a swinging palm changes, each as the composition of the rules applied to it, in order. */
  lemma FingerPalmSwingingParts(t: BoneTable, hand: string, s1: string, s2: string, s3: string, s4: string,
                                alignRoll: Vec3, handToPalmDegrees: real)
    requires FingerBones(t, hand, s1, s2, s3, s4) && Distinct([hand, s1, s2, s3, s4])
    requires Truthy(t.bones[s1].rig.swing.value)
    ensures var r, swing := FingerPalm(t, hand, s1, s2, s3, s4, alignRoll, handToPalmDegrees), t.bones[s1].rig.swing.value;
            && r.bones[s1] == FlagDeformingBallsocket(HangFrom(WithAlignRoll(t.bones[s1], alignRoll), hand))
            && r.bones[hand] == SwingLimitAbout(RevoluteJoint(WithAlignRoll(t.bones[hand], alignRoll), hand, s1),
                                                hand, hand, s1, MaxReal(handToPalmDegrees, swing))
            && r.bones[s2] == WithParent(WithAlignRoll(t.bones[s2], alignRoll), s1, true)
            && r.bones[s3] == WithAlignRoll(t.bones[s3], alignRoll)
            && r.bones[s4] == WithAlignRoll(t.bones[s4], alignRoll)
  {
    FiveDistinct(hand, s1, s2, s3, s4);
    var t0 := AlignFinger(t, hand, s1, s2, s3, s4, alignRoll);
    var t1 := Update(t0, s1, HangFrom(t0.bones[s1], hand));
    var swing := t.bones[s1].rig.swing.value;
    var p2 := FlagDeformingBallsocket(t1.bones[s1]);
    var t2 := Update(t1, s1, p2);
    var h3 := RevoluteJoint(t2.bones[hand], hand, s1);
    var t3 := Update(t2, hand, h3);
    var t4 := Update(t3, hand, SwingLimitAbout(h3, hand, hand, s1, MaxReal(handToPalmDegrees, swing)));
    assert t4.bones[s1] == p2;
  }

  /** The bones a palm without swing changes, each as the composition of the rules applied to it. */
  lemma FingerPalmRigidParts(t: BoneTable, hand: string, s1: string, s2: string, s3: string, s4: string,
                             alignRoll: Vec3, handToPalmDegrees: real)
    requires FingerBones(t, hand, s1, s2, s3, s4) && Distinct([hand, s1, s2, s3, s4])
    requires !Truthy(t.bones[s1].rig.swing.value)
    ensures var r := FingerPalm(t, hand, s1, s2, s3, s4, alignRoll, handToPalmDegrees);
            && r.bones[s1] == DeformingMechanical(HangFrom(WithAlignRoll(t.bones[s1], alignRoll), hand))
            && r.bones[hand] == WithAlignRoll(t.bones[hand], alignRoll)
            && r.bones[s2] == WithParent(WithAlignRoll(t.bones[s2], alignRoll), hand, false)
            && r.bones[s3] == WithAlignRoll(t.bones[s3], alignRoll)
            && r.bones[s4] == WithAlignRoll(t.bones[s4], alignRoll)
  {
    FiveDistinct(hand, s1, s2, s3, s4);
    var t0 := AlignFinger(t, hand, s1, s2, s3, s4, alignRoll);
    var t1 := Update(t0, s1, HangFrom(t0.bones[s1], hand));
    var t2 := Update(t1, s1, DeformingMechanical(t1.bones[s1]));
    assert t2.bones[hand] == t0.bones[hand];
  }

  /**
   * For five different bones: the palm hangs from the hand; the first segment hangs from the
   * palm and is connected exactly when the palm swings, and otherwise hangs from the hand; a
   * swinging palm is a deforming BEPUik ball socket and the hand gains exactly a revolute joint
   * and a swing limit towards the palm, at least as wide as both the palm's swing and the
   * measured angle; a palm without swing is mechanical and deforming, and the hand gains no
   * constraint.
   */
  lemma FingerPalmBranches(t: BoneTable, hand: string, s1: string, s2: string, s3: string, s4: string,
                           alignRoll: Vec3, handToPalmDegrees: real)
    requires FingerBones(t, hand, s1, s2, s3, s4) && Distinct([hand, s1, s2, s3, s4])
    ensures var r, swing := FingerPalm(t, hand, s1, s2, s3, s4, alignRoll, handToPalmDegrees), t.bones[s1].rig.swing.value;
            && r.bones[s1].attrs.parent == Some(hand) && r.bones[s1].attrs.useDeform
            && r.bones[hand].attrs.alignRoll == alignRoll && r.bones[s1].attrs.alignRoll == alignRoll
            && r.bones[s2].attrs.alignRoll == alignRoll && r.bones[s3].attrs.alignRoll == alignRoll
            && r.bones[s4].attrs.alignRoll == alignRoll
            && r.bones[s3].constraints == t.bones[s3].constraints && r.bones[s4].constraints == t.bones[s4].constraints
            && (r.bones[s2].attrs.parent == if Truthy(swing) then Some(s1) else Some(hand))
            && (r.bones[s2].attrs.useConnect <==> Truthy(swing))
            && (Truthy(swing) ==>
                  && r.bones[s1].attrs.useBepuik
                  && var cs, n := r.bones[hand].constraints, |t.bones[hand].constraints|;
                     && |cs| == n + 2 && cs[..n] == t.bones[hand].constraints
                     && cs[n].kind == "BEPUIK_REVOLUTE_JOINT" && cs[n].connectionB == s1
                     && cs[n + 1].kind == "BEPUIK_SWING_LIMIT" && cs[n + 1].connectionB == s1
                     && cs[n + 1].attrs == SwingAttrs(hand, s1, MaxReal(handToPalmDegrees, swing))
                     && MaxReal(handToPalmDegrees, swing) >= swing
                     && MaxReal(handToPalmDegrees, swing) >= handToPalmDegrees)
            && (!Truthy(swing) ==>
                  && FlagMechanical(r.bones[s1]) == r.bones[s1]
                  && r.bones[hand].constraints == t.bones[hand].constraints)
  {
    FiveDistinct(hand, s1, s2, s3, s4);
    var swing := t.bones[s1].rig.swing.value;
    if Truthy(swing) {
      FingerPalmSwingingParts(t, hand, s1, s2, s3, s4, alignRoll, handToPalmDegrees);
      JointThenSwingLimit(WithAlignRoll(t.bones[hand], alignRoll), hand, s1, hand, MaxReal(handToPalmDegrees, swing));
    } else {
      FingerPalmRigidParts(t, hand, s1, s2, s3, s4, alignRoll, handToPalmDegrees);
    }
  }
}

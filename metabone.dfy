/**
 * The host-independent bone record ("meta-bone") and its authored constraint records.
 * A bone refers to other bones (its parent, a constraint's endpoints, axis references)
 * by their key in the owning table, never by object identity.
 */
module MetaBones {
  import opened Util
  import opened Geometry

  /** One boolean per axis, as in the lock tuples `(x, y, z)`. */
  datatype Locks = Locks(x: bool, y: bool, z: bool)
  {
    predicate All()
    {
      x && y && z
    }
  }

  const Unlocked: Locks := Locks(false, false, false)
  const AllLocked: Locks := Locks(true, true, true)

  /**
   * The attributes copied between edit bones, pose channels and meta-bones: the edit-bone
   * attributes, the pose-channel attributes, the one bone attribute and the two special ones.
   * `None` stands for the attributes whose default is Python's `None`.
   */
  datatype BoneAttrs = BoneAttrs(
    head: Vec3,
    tail: Vec3,
    roll: real,
    tailRadius: Option<real>,
    headRadius: Option<real>,
    bboneX: Option<real>,
    bboneZ: Option<real>,
    bboneIn: real,
    bboneOut: real,
    bboneSegments: int,
    useConnect: bool,
    useDeform: bool,
    useEnvelopeMultiply: bool,
    envelopeDistance: Option<real>,
    useBepuik: bool,
    useBepuikAlwaysSolve: bool,
    ballSocketRigidity: real,
    rotationalHeaviness: real,
    lockLocation: Locks,
    lockRotation: Locks,
    lockRotationW: bool,
    lockScale: Locks,
    customShape: Option<string>,
    rotationMode: string,
    showWire: bool,
    alignRoll: Vec3,
    parent: Option<string>)

  /** The defaults a freshly made bone starts from. */
  const DefaultAttrs: BoneAttrs := BoneAttrs(
    Vec3(0.0, 0.0, 0.0), Vec3(0.0, 1.0, 0.0), 0.0,
    None, None, None, None,
    0.0, 0.0, 1,
    false, false, false, None,
    false, false, 0.0, 2.5,
    Unlocked, Unlocked, false, Unlocked,
    None, "QUATERNION",
    false,
    Vec3(0.0, 0.0, 1.0), None)

  /**
   * The per-bone values the rig builder attaches as it goes (a palm swing, the 2-D swing
   * limits, a swing-centre bone and its angle range); `None` when an attribute was never set.
   */
  datatype RigInfo = RigInfo(
    swing: Option<real>,
    swingX: Option<real>,
    swingY: Option<real>,
    swingCenter: Option<string>,
    swingAngleMax: Option<real>,
    swingAngleMin: Option<real>)

  const NoRigInfo: RigInfo := RigInfo(None, None, None, None, None, None)

  /** A value given to a constraint attribute, tagged by the shape the host dispatch looks at. */
  datatype AttrValue =
    | Number(n: real)
    | Flag(b: bool)
    | Triple(p: Vec3)
    | BoneRef(bone: string)
    | BoneAxis(bone: string, axis: string)
    | BonePoint(bone: string, headTail: real)

  /** A declarative constraint record owned by `connectionA`, aimed at `connectionB`. */
  datatype MetaConstraint = MetaConstraint(
    kind: string,
    name: string,
    connectionA: string,
    connectionB: string,
    attrs: map<string, AttrValue>)

  datatype MetaBone = MetaBone(
    name: string,
    attrs: BoneAttrs,
    constraints: seq<MetaConstraint>,
    rig: RigInfo)

  /**
   * A new bone called `name`: a copy of the shareable attributes of `source` (or the
   * defaults), moved by `transform` when one is given, with no constraints and no rig info.
   */
  function MakeBone(name: string, source: Option<MetaBone>, transform: Option<Transform>): (r: MetaBone)
    ensures r.name == name && r.constraints == [] && r.rig == NoRigInfo
    ensures source.None? && transform.None? ==> r.attrs == DefaultAttrs
    ensures source.Some? && transform.None? ==> r.attrs == source.value.attrs
  {
    var base := if source.Some? then source.value.attrs else DefaultAttrs;
    var moved :=
      if transform.Some? then
        base.(head := transform.value.point(base.head),
              tail := transform.value.point(base.tail),
              alignRoll := transform.value.direction(base.alignRoll))
      else base;
    MetaBone(name, moved, [], NoRigInfo)
  }

  /**
   * A matrix transform moves the head and tail as points and turns the roll axis as a
   * direction; every other attribute is the source's (or the default).
   */
  lemma MakeBoneMoved(name: string, source: Option<MetaBone>, m: Mat4)
    ensures var r, base := MakeBone(name, source, Some(MatrixTransform(m))), if source.Some? then source.value.attrs else DefaultAttrs;
            && r.attrs == base.(head := r.attrs.head, tail := r.attrs.tail, alignRoll := r.attrs.alignRoll)
            && r.attrs.head == ApplyPoint(m, base.head)
            && r.attrs.tail == ApplyPoint(m, base.tail)
            && r.attrs.alignRoll == ApplyDirection(m, base.alignRoll)
  {
  }

  /** `length() > 0.0001`: a bone this short is only a geometric reference and is never materialised. */
  predicate IsValid(b: MetaBone)
    ensures IsValid(b) ==> b.attrs.head != b.attrs.tail
  {
    LengthSq(Sub(b.attrs.tail, b.attrs.head)) > ToleranceSq
  }

  /** The name a constraint gets when none is given: the lower-cased type, '_', and the new count. */
  function DefaultConstraintName(kind: string, count: nat): (r: string)
    ensures StartsWith(r, Lower(kind) + "_")
    ensures EndsWith(r, NatToDecimal(count + 1))
  {
    Lower(kind) + "_" + NatToDecimal(count + 1)
  }

  /**
   * `new_meta_blender_constraint`: appends one record of type `kind`, owned by the bone keyed
   * `owner` and aimed at the bone keyed `target`, with the given attributes. An empty `name`
   * (Python's `None` or "") selects the default name.
   */
  function NewConstraint(b: MetaBone, owner: string, kind: string, target: string, name: string,
                         attrs: map<string, AttrValue>): (r: MetaBone)
    ensures r.name == b.name && r.attrs == b.attrs && r.rig == b.rig
    ensures |r.constraints| == |b.constraints| + 1 && r.constraints[..|b.constraints|] == b.constraints
    ensures var c := r.constraints[|b.constraints|];
            && c.kind == kind && c.connectionA == owner && c.connectionB == target && c.attrs == attrs
            && (name != "" ==> c.name == name)
            && (name == "" ==> c.name == DefaultConstraintName(kind, |b.constraints|))
  {
    var cname := if name != "" then name else DefaultConstraintName(kind, |b.constraints|);
    b.(constraints := b.constraints + [MetaConstraint(kind, cname, owner, target, attrs)])
  }

  /** The trailing run of decimal digits of a string. */
  function DigitSuffix(s: string): (r: string)
    ensures EndsWith(s, r)
  {
    if s != [] && '0' <= s[|s| - 1] <= '9' then DigitSuffix(s[..|s| - 1]) + [s[|s| - 1]] else []
  }

  lemma {:induction false} DigitSuffixAfterUnderscore(p: string, d: string)
    requires forall i :: 0 <= i < |d| ==> '0' <= d[i] <= '9'
    ensures DigitSuffix(p + "_" + d) == d
  {
    var s := p + "_" + d;
    if d == [] {
      assert s[|s| - 1] == '_';
    } else {
      var d' := d[..|d| - 1];
      assert s[..|s| - 1] == p + "_" + d';
      DigitSuffixAfterUnderscore(p, d');
      assert d == d' + [d[|d| - 1]];
    }
  }

  lemma SameDigitTail(p1: string, d1: string, p2: string, d2: string)
    requires forall i :: 0 <= i < |d1| ==> '0' <= d1[i] <= '9'
    requires forall i :: 0 <= i < |d2| ==> '0' <= d2[i] <= '9'
    ensures p1 + "_" + d1 == p2 + "_" + d2 ==> d1 == d2
  {
    DigitSuffixAfterUnderscore(p1, d1);
    DigitSuffixAfterUnderscore(p2, d2);
  }

  /**
   * Default names made at different counts never coincide, whatever the types: a bone whose
   * constraints all take default names has no two constraints with the same name.
   */
  lemma DefaultNamesDiffer(kind1: string, n1: nat, kind2: string, n2: nat)
    requires n1 != n2
    ensures DefaultConstraintName(kind1, n1) != DefaultConstraintName(kind2, n2)
  {
    var d1, d2 := NatToDecimal(n1 + 1), NatToDecimal(n2 + 1);
    SameDigitTail(Lower(kind1), d1, Lower(kind2), d2);
    if d1 == d2 {
      NatToDecimalInjective(n1 + 1, n2 + 1);
    }
  }
}

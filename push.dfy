/**
 * Materialising a bone table onto a host armature (`MetaBoneDict.to_ob`). The host is seen
 * through what the four passes observe and change: the set of bone names it holds, the names
 * of the constraints on each of its pose channels, and the calls made on it, in order.
 *   1. every valid bone whose name the host lacks is created (its creators are remembered);
 *   2. every creator whose parent is valid is parented to that parent's host bone;
 *   3. every creator's pose attributes are written;
 *   4. every valid bone adds each of its constraints whose name its pose channel lacks.
 */
module Push {
  import opened Util
  import opened Geometry
  import opened MetaBones
  import opened Tables

  /** The edit-bone attributes written when a bone is created (the radii are not modelled). */
  datatype EditData = EditData(
    head: Vec3, tail: Vec3, roll: real, bboneIn: real, bboneOut: real, bboneSegments: int,
    useConnect: bool, useDeform: bool, useEnvelopeMultiply: bool, alignRoll: Vec3)

  /** The pose-channel and bone attributes written by `apply_data_to_pchan`. */
  datatype PoseData = PoseData(
    useBepuik: bool, useBepuikAlwaysSolve: bool, ballSocketRigidity: real, rotationalHeaviness: real,
    lockLocation: Locks, lockRotation: Locks, lockRotationW: bool, lockScale: Locks,
    customShape: Option<string>, rotationMode: string, showWire: bool)

  /** A value assigned to a host constraint attribute. */
  datatype HostValue =
    | RealValue(r: real)
    | BoolValue(b: bool)
    | VectorValue(v: Vec3)
    | NameValue(s: string)
    | RadiansOf(degrees: real)
    | ContextObject
    | RawValue(a: AttrValue)

  type Write = (string, HostValue)

  datatype SinkCall =
    | CreateBone(name: string, edit: EditData)
    | SetParent(child: string, parent: string)
    | ApplyPose(name: string, pose: PoseData)
    | AddConstraint(bone: string, constraint: string, kind: string, writes: set<Write>)

  /** The host armature as the passes see it. */
  datatype Sink = Sink(bones: set<string>, constraintNames: map<string, set<string>>, log: seq<SinkCall>)

  function EditDataOf(b: MetaBone): EditData
  {
    var a := b.attrs;
    EditData(a.head, a.tail, a.roll, a.bboneIn, a.bboneOut, a.bboneSegments,
             a.useConnect, a.useDeform, a.useEnvelopeMultiply, a.alignRoll)
  }

  function PoseDataOf(b: MetaBone): PoseData
  {
    var a := b.attrs;
    PoseData(a.useBepuik, a.useBepuikAlwaysSolve, a.ballSocketRigidity, a.rotationalHeaviness,
             a.lockLocation, a.lockRotation, a.lockRotationW, a.lockScale,
             a.customShape, a.rotationMode, a.showWire)
  }

  /** The attribute names the dispatch never copies under their own name. */
  const ExcludedAttrs: set<string> := {"name", "type", "connection_a", "connection_b", "subtarget", "rigidity"}

  /** The attributes given in degrees that the host expects in radians. */
  const AngleAttrs: set<string> := {"max_swing", "max_twist"}

  /** The BEPUik constraint types are the ones whose type name starts with `BEPUIK_`. */
  predicate IsBepuikKind(kind: string)
  {
    StartsWith(kind, "BEPUIK_")
  }

  /** The writes that aim the axis attribute `attr` at the bone stored under `bone`, along `axis`. */
  function AxisWrites(t: BoneTable, attr: string, bone: string, axis: string): set<Write>
  {
    {(attr + "_target", ContextObject), (attr + "_subtarget", NameValue(ResolveName(t, bone))), (attr, NameValue(axis))}
  }

  /** The writes that connect a BEPUik constraint to the armature and its second bone. */
  function ConnectionWrites(t: BoneTable, c: MetaConstraint): set<Write>
  {
    {("connection_target", ContextObject), ("connection_subtarget", NameValue(ResolveName(t, c.connectionB)))}
  }

  /**
   * The host writes made for one attribute of a BEPUik constraint: angles are converted to
   * radians, a bone reference becomes the referenced bone's name in `<attr>_subtarget`, a
   * (bone, axis) pair and a (bone, head-to-tail) pair also aim `<attr>_target` at the armature.
   */
  function AttrWrites(t: BoneTable, attr: string, v: AttrValue): (r: set<Write>)
    ensures attr in AngleAttrs && v.Number? ==> r == {(attr, RadiansOf(v.n))}
    ensures v.BoneRef? ==> r == {(attr + "_subtarget", NameValue(ResolveName(t, v.bone)))}
    ensures forall w :: w in r ==>
              w.0 == attr || w.0 == attr + "_subtarget" || w.0 == attr + "_target" || w.0 == attr + "_head_tail"
  {
    if attr in AngleAttrs && v.Number? then {(attr, RadiansOf(v.n))}
    else
      match v
      case Number(n) => {(attr, RealValue(n))}
      case Flag(b) => {(attr, BoolValue(b))}
      case Triple(p) => {(attr, VectorValue(p))}
      case BoneRef(b) => {(attr + "_subtarget", NameValue(ResolveName(t, b)))}
      case BoneAxis(b, axis) => AxisWrites(t, attr, b, axis)
      case BonePoint(b, h) =>
        {(attr + "_target", ContextObject), (attr + "_subtarget", NameValue(ResolveName(t, b))), (attr + "_head_tail", RealValue(h))}
  }

  /**
   * `MetaBlenderConstraint.apply_data_to_pchan`: what is written on the new host constraint.
   * A BEPUik constraint connects to the armature and the target bone by name, takes a
   * `rigidity` attribute as its BEPUik rigidity, and dispatches every other attribute; any
   * other constraint targets the armature and the target bone and copies attributes as they are.
   */
  function ConstraintWrites(t: BoneTable, c: MetaConstraint): (r: set<Write>)
    ensures IsBepuikKind(c.kind) ==>
              && ("connection_target", ContextObject) in r
              && ("connection_subtarget", NameValue(ResolveName(t, c.connectionB))) in r
              && ("rigidity" in c.attrs ==> ("bepuik_rigidity", RawValue(c.attrs["rigidity"])) in r)
              && (forall a :: a in c.attrs && a !in ExcludedAttrs ==> AttrWrites(t, a, c.attrs[a]) <= r)
    ensures !IsBepuikKind(c.kind) ==>
              && ("target", ContextObject) in r
              && ("subtarget", NameValue(ResolveName(t, c.connectionB))) in r
              && (forall a :: a in c.attrs && a !in ExcludedAttrs ==> (a, RawValue(c.attrs[a])) in r)
    ensures IsBepuikKind(c.kind) ==>
              forall w :: w in r ==>
                || w == ("connection_target", ContextObject)
                || w == ("connection_subtarget", NameValue(ResolveName(t, c.connectionB)))
                || ("rigidity" in c.attrs && w == ("bepuik_rigidity", RawValue(c.attrs["rigidity"])))
                || exists a :: a in c.attrs && a !in ExcludedAttrs && w in AttrWrites(t, a, c.attrs[a])
    ensures !IsBepuikKind(c.kind) ==>
              forall w :: w in r ==>
                || w == ("target", ContextObject)
                || w == ("subtarget", NameValue(ResolveName(t, c.connectionB)))
                || exists a :: a in c.attrs && a !in ExcludedAttrs && w == (a, RawValue(c.attrs[a]))
  {
    var target := NameValue(ResolveName(t, c.connectionB));
    if IsBepuikKind(c.kind) then
      ConnectionWrites(t, c)
      + (if "rigidity" in c.attrs then {("bepuik_rigidity", RawValue(c.attrs["rigidity"]))} else {})
      + (set a, w | a in c.attrs && a !in ExcludedAttrs && w in AttrWrites(t, a, c.attrs[a]) :: w)
    else
      {("target", ContextObject), ("subtarget", target)}
      + (set a | a in c.attrs && a !in ExcludedAttrs :: (a, RawValue(c.attrs[a])))
  }

  /** No write made for another attribute lands on an angle attribute. */
  lemma AngleNotDerived(a: string, a': string)
    requires a in AngleAttrs
    ensures a != a' + "_subtarget" && a != a' + "_target" && a != a' + "_head_tail"
  {
    // Both angle attributes have nine characters, the third of which is 'x'.
    assert |a| == 9 && a[2] == 'x';
    assert |a' + "_target"| == |a'| + 7 && (|a'| == 2 ==> (a' + "_target")[2] == '_');
  }

  /**
   * A BEPUik angle limit given in degrees reaches the host converted to radians, and that is
   * the only value written to the attribute.
   */
  lemma AngleLimitInRadians(t: BoneTable, c: MetaConstraint, a: string)
    requires IsBepuikKind(c.kind) && a in c.attrs && a in AngleAttrs && c.attrs[a].Number?
    ensures (a, RadiansOf(c.attrs[a].n)) in ConstraintWrites(t, c)
    ensures forall w :: w in ConstraintWrites(t, c) && w.0 == a ==> w.1 == RadiansOf(c.attrs[a].n)
  {
    assert (a, RadiansOf(c.attrs[a].n)) in AttrWrites(t, a, c.attrs[a]);
    forall w | w in ConstraintWrites(t, c) && w.0 == a
      ensures w.1 == RadiansOf(c.attrs[a].n)
    {
      if exists a' :: a' in c.attrs && a' !in ExcludedAttrs && w in AttrWrites(t, a', c.attrs[a']) {
        var a' :| a' in c.attrs && a' !in ExcludedAttrs && w in AttrWrites(t, a', c.attrs[a']);
        AngleNotDerived(a, a');
      }
    }
  }

  /**
   * The writes of a BEPUik constraint without a `rigidity` attribute and without excluded
   * attributes are exactly `e` when `e` holds the connection writes and each attribute's
   * writes, and nothing else.
   */
  lemma WritesExactly(t: BoneTable, c: MetaConstraint, e: set<Write>)
    requires IsBepuikKind(c.kind) && "rigidity" !in c.attrs
    requires forall a :: a in c.attrs ==> a !in ExcludedAttrs && AttrWrites(t, a, c.attrs[a]) <= e
    requires ConnectionWrites(t, c) <= e
    requires forall x :: x in e ==> x in ConnectionWrites(t, c) || exists a :: a in c.attrs && x in AttrWrites(t, a, c.attrs[a])
    ensures ConstraintWrites(t, c) == e
  {
  }

  /** The names of the valid bones among `keys`. */
  function ValidNames(t: BoneTable, keys: seq<string>): set<string>
  {
    set k | k in keys && k in t.bones && IsValid(t.bones[k]) :: t.bones[k].name
  }

  lemma ValidNamesSnoc(t: BoneTable, keys: seq<string>, k: string)
    requires k in t.bones
    ensures ValidNames(t, keys + [k]) == ValidNames(t, keys) + (if IsValid(t.bones[k]) then {t.bones[k].name} else {})
  {
    var l, r := ValidNames(t, keys + [k]), ValidNames(t, keys) + (if IsValid(t.bones[k]) then {t.bones[k].name} else {});
    forall n | n in l ensures n in r {
      var j :| j in keys + [k] && j in t.bones && IsValid(t.bones[j]) && t.bones[j].name == n;
      if j != k {
        assert j in keys;
      }
    }
    forall n | n in r ensures n in l {
      if n in ValidNames(t, keys) {
        var j :| j in keys && j in t.bones && IsValid(t.bones[j]) && t.bones[j].name == n;
        assert j in keys + [k];
      } else {
        assert k in keys + [k];
      }
    }
  }

  /** `ValidNames` of a non-empty key sequence, split at its last key. */
  lemma ValidNamesLast(t: BoneTable, keys: seq<string>)
    requires keys != [] && keys[|keys| - 1] in t.bones
    ensures var k := keys[|keys| - 1];
            ValidNames(t, keys) == ValidNames(t, keys[..|keys| - 1]) + (if IsValid(t.bones[k]) then {t.bones[k].name} else {})
  {
    ValidNamesSnoc(t, keys[..|keys| - 1], keys[|keys| - 1]);
    assert keys == keys[..|keys| - 1] + [keys[|keys| - 1]];
  }

  function Names(t: BoneTable, keys: seq<string>): (r: seq<string>)
    requires forall k :: k in keys ==> k in t.bones
    ensures |r| == |keys| && forall i :: 0 <= i < |keys| ==> r[i] == t.bones[keys[i]].name
  {
    seq(|keys|, i requires 0 <= i < |keys| => t.bones[keys[i]].name)
  }

  lemma NamesSnoc(t: BoneTable, keys: seq<string>, k: string)
    requires k in t.bones && forall j :: j in keys ==> j in t.bones
    ensures Names(t, keys + [k]) == Names(t, keys) + [t.bones[k].name]
  {
  }

  function CreateCalls(t: BoneTable, keys: seq<string>): (r: seq<SinkCall>)
    requires forall k :: k in keys ==> k in t.bones
    ensures |r| == |keys|
    ensures forall i :: 0 <= i < |keys| ==> r[i] == CreateBone(t.bones[keys[i]].name, EditDataOf(t.bones[keys[i]]))
  {
    seq(|keys|, i requires 0 <= i < |keys| => CreateBone(t.bones[keys[i]].name, EditDataOf(t.bones[keys[i]])))
  }

  /**
   * The first pass over `keys`: a valid bone whose name the host lacks is created and
   * remembered; only the bones and the log change.
   */
  function CreatePass(t: BoneTable, keys: seq<string>, s: Sink): (r: (Sink, seq<string>))
    requires forall k :: k in keys ==> k in t.bones
    ensures r.0.constraintNames == s.constraintNames
    ensures forall k :: k in r.1 ==> k in keys && IsValid(t.bones[k])
    ensures r.0.log == s.log + CreateCalls(t, r.1)
  {
    if keys == [] then (s, [])
    else
      var keys' := keys[..|keys| - 1];
      var key := keys[|keys| - 1];
      var (s', cr) := CreatePass(t, keys', s);
      var b := t.bones[key];
      assert forall k :: k in cr ==> k in keys by {
        assert keys == keys' + [key];
      }
      if b.name !in s'.bones && IsValid(b) then
        assert CreateCalls(t, cr + [key]) == CreateCalls(t, cr) + [CreateBone(b.name, EditDataOf(b))];
        (s'.(bones := s'.bones + {b.name}, log := s'.log + [CreateBone(b.name, EditDataOf(b))]), cr + [key])
      else
        (s', cr)
  }

  /**
   * After the first pass the host holds every valid name; the bones created are exactly the
   * valid bones whose names it lacked, each name once, in order.
   */
  lemma {:induction false} CreatePassSpec(t: BoneTable, keys: seq<string>, s: Sink)
    requires forall k :: k in keys ==> k in t.bones
    ensures var r := CreatePass(t, keys, s);
            && r.0.bones == s.bones + ValidNames(t, keys)
            && Distinct(Names(t, r.1))
            && forall n :: n in Names(t, r.1) <==> n in ValidNames(t, keys) && n !in s.bones
  {
    if keys != [] {
      var keys' := keys[..|keys| - 1];
      var key := keys[|keys| - 1];
      CreatePassSpec(t, keys', s);
      var (s', cr) := CreatePass(t, keys', s);
      var b := t.bones[key];
      ValidNamesLast(t, keys);
      if b.name !in s'.bones && IsValid(b) {
        NamesSnoc(t, cr, key);
        DistinctAppend(Names(t, cr), b.name);
      }
    }
  }

  /** `c` parents one of the creators to that creator's parent, which is a valid bone of the table. */
  ghost predicate ParentLink(t: BoneTable, creators: seq<string>, c: SinkCall)
  {
    exists k, p :: k in creators && k in t.bones && t.bones[k].attrs.parent == Some(p) && p in t.bones && IsValid(t.bones[p])
                 && c == SetParent(t.bones[k].name, t.bones[p].name)
  }

  /** The second pass: each creator whose parent is a valid bone of the table is parented to it. */
  function ParentCalls(t: BoneTable, creators: seq<string>): (r: seq<SinkCall>)
    requires forall k :: k in creators ==> k in t.bones
    ensures forall i :: 0 <= i < |r| ==> r[i].SetParent? && ParentLink(t, creators, r[i])
  {
    if creators == [] then []
    else
      var b := t.bones[creators[|creators| - 1]];
      var rest := ParentCalls(t, creators[..|creators| - 1]);
      match b.attrs.parent
      case Some(p) =>
        if p in t.bones && IsValid(t.bones[p]) then rest + [SetParent(b.name, t.bones[p].name)] else rest
      case None => rest
  }

  function PoseCalls(t: BoneTable, creators: seq<string>): (r: seq<SinkCall>)
    requires forall k :: k in creators ==> k in t.bones
    ensures |r| == |creators|
    ensures forall i :: 0 <= i < |creators| ==> r[i] == ApplyPose(t.bones[creators[i]].name, PoseDataOf(t.bones[creators[i]]))
  {
    seq(|creators|, i requires 0 <= i < |creators| => ApplyPose(t.bones[creators[i]].name, PoseDataOf(t.bones[creators[i]])))
  }

  predicate HasConstraint(s: Sink, bone: string, name: string)
  {
    bone in s.constraintNames && name in s.constraintNames[bone]
  }

  function AddConstraintName(s: Sink, bone: string, name: string): Sink
  {
    var present := if bone in s.constraintNames then s.constraintNames[bone] else {};
    s.(constraintNames := s.constraintNames[bone := present + {name}])
  }

  /** The log of `s'` extends that of `s` by calls that add constraints to the bones `on` only. */
  ghost predicate AppendsConstraints(s: Sink, s': Sink, on: set<string>)
  {
    && |s.log| <= |s'.log| && s'.log[..|s.log|] == s.log
    && forall i :: |s.log| <= i < |s'.log| ==> s'.log[i].AddConstraint? && s'.log[i].bone in on
  }

  lemma AppendsConstraintsTrans(s: Sink, s': Sink, s'': Sink, on: set<string>, on': set<string>)
    requires AppendsConstraints(s, s', on) && AppendsConstraints(s', s'', on')
    ensures AppendsConstraints(s, s'', on + on')
  {
    assert s''.log[..|s.log|] == s''.log[..|s'.log|][..|s.log|];
    forall i | |s.log| <= i < |s''.log| ensures s''.log[i].AddConstraint? && s''.log[i].bone in on + on' {
      if i < |s'.log| {
        assert s''.log[i] == s''.log[..|s'.log|][i];
      }
    }
  }

  /**
   * `apply_data_to_pchan_constraints` for one bone: each constraint whose name the pose channel
   * lacks is added; one whose name is present is skipped. Afterwards every name is present and
   * nothing that was present is lost.
   */
  function ConstraintsForBone(t: BoneTable, bone: string, cs: seq<MetaConstraint>, s: Sink): (r: Sink)
    ensures r.bones == s.bones
    ensures AppendsConstraints(s, r, {bone})
    ensures forall b, n :: HasConstraint(s, b, n) ==> HasConstraint(r, b, n)
    ensures forall i :: 0 <= i < |cs| ==> HasConstraint(r, bone, cs[i].name)
    ensures forall b, n :: HasConstraint(r, b, n) && !HasConstraint(s, b, n) ==>
              b == bone && exists i :: 0 <= i < |cs| && cs[i].name == n
  {
    if cs == [] then s
    else
      var s' := ConstraintsForBone(t, bone, cs[..|cs| - 1], s);
      var c := cs[|cs| - 1];
      if HasConstraint(s', bone, c.name) then s'
      else
        var s'' := AddConstraintName(s', bone, c.name);
        var r := s''.(log := s'.log + [AddConstraint(bone, c.name, c.kind, ConstraintWrites(t, c))]);
        AppendsConstraintsTrans(s, s', r, {bone}, {bone});
        r
  }

  /** The fourth pass over `keys`: every valid bone's constraints are added by name. */
  function ConstraintPass(t: BoneTable, keys: seq<string>, s: Sink): (r: Sink)
    requires forall k :: k in keys ==> k in t.bones
    ensures r.bones == s.bones
    ensures AppendsConstraints(s, r, ValidNames(t, keys))
    ensures forall b, n :: HasConstraint(s, b, n) ==> HasConstraint(r, b, n)
    ensures forall k, i :: k in keys && IsValid(t.bones[k]) && 0 <= i < |t.bones[k].constraints| ==>
              HasConstraint(r, t.bones[k].name, t.bones[k].constraints[i].name)
  {
    if keys == [] then s
    else
      var s' := ConstraintPass(t, keys[..|keys| - 1], s);
      var b := t.bones[keys[|keys| - 1]];
      assert forall k :: k in keys ==> k in keys[..|keys| - 1] || k == keys[|keys| - 1];
      ValidNamesSnoc(t, keys[..|keys| - 1], keys[|keys| - 1]);
      assert keys == keys[..|keys| - 1] + [keys[|keys| - 1]];
      if IsValid(b) then
        var r := ConstraintsForBone(t, b.name, b.constraints, s');
        AppendsConstraintsTrans(s, s', r, ValidNames(t, keys[..|keys| - 1]), {b.name});
        r
      else s'
  }

  /** `to_ob`: the four passes in turn. */
  function Push(t: BoneTable, s: Sink): (r: Sink)
    requires WellFormed(t)
    ensures r.bones == s.bones + ValidNames(t, t.order)
    ensures forall k, i :: k in t.order && IsValid(t.bones[k]) && 0 <= i < |t.bones[k].constraints| ==>
              HasConstraint(r, t.bones[k].name, t.bones[k].constraints[i].name)
  {
    CreatePassSpec(t, t.order, s);
    ConstraintPass(t, t.order, Staged(t, s))
  }

  /** The bones the first pass creates, in order. */
  function Creators(t: BoneTable, s: Sink): seq<string>
    requires WellFormed(t)
  {
    CreatePass(t, t.order, s).1
  }

  /** The host after the first three passes. */
  function Staged(t: BoneTable, s: Sink): Sink
    requires WellFormed(t)
  {
    var s1 := CreatePass(t, t.order, s).0;
    var cr := Creators(t, s);
    s1.(log := s1.log + ParentCalls(t, cr) + PoseCalls(t, cr))
  }

  /** Creating comes before parenting, parenting before posing, posing before constraints. */
  function Rank(c: SinkCall): nat
  {
    match c
    case CreateBone(_, _) => 0
    case SetParent(_, _) => 1
    case ApplyPose(_, _) => 2
    case AddConstraint(_, _, _, _) => 3
  }

  /** The calls a bone name must exist on the host for: every call of the passes names host bones. */
  predicate NamesHostBones(c: SinkCall, bones: set<string>)
  {
    match c
    case CreateBone(n, _) => n in bones
    case SetParent(child, parent) => child in bones && parent in bones
    case ApplyPose(n, _) => n in bones
    case AddConstraint(b, _, _, _) => b in bones
  }

  /** Indexing into a log made of a prefix and four appended runs. */
  lemma RunAt(l0: seq<SinkCall>, c: seq<SinkCall>, p: seq<SinkCall>, a: seq<SinkCall>, d: seq<SinkCall>, i: int)
    requires |l0| <= i < |l0 + c + p + a + d|
    ensures var l, b1 := l0 + c + p + a + d, |l0| + |c|;
            var b2 := b1 + |p|;
            var b3 := b2 + |a|;
            && (i < b1 ==> l[i] == c[i - |l0|])
            && (b1 <= i < b2 ==> l[i] == p[i - b1])
            && (b2 <= i < b3 ==> l[i] == a[i - b2])
            && (b3 <= i ==> l[i] == d[i - b3])
  {
  }

  /** The log after the first three passes: the creations, the parentings and the posings, appended in turn. */
  lemma StagedLog(t: BoneTable, s: Sink)
    requires WellFormed(t)
    ensures var cr := Creators(t, s);
            Staged(t, s).log == s.log + CreateCalls(t, cr) + ParentCalls(t, cr) + PoseCalls(t, cr)
  {
  }

  /** The fourth pass keeps the log of the first three and appends constraint calls on valid bones. */
  lemma PushExtendsStaged(t: BoneTable, s: Sink)
    requires WellFormed(t)
    ensures AppendsConstraints(Staged(t, s), Push(t, s), ValidNames(t, t.order))
  {
  }

  /**
   * The log after `to_ob`: the old log, then the creations, the parentings, the posings, and
   * last the constraint additions, every one on a valid bone.
   */
  lemma PushLog(t: BoneTable, s: Sink)
    requires WellFormed(t)
    ensures var cr, r := Creators(t, s), Push(t, s);
            var n := |s.log| + |cr| + |ParentCalls(t, cr)| + |cr|;
            && n <= |r.log|
            && r.log == s.log + CreateCalls(t, cr) + ParentCalls(t, cr) + PoseCalls(t, cr) + r.log[n..]
            && forall i :: n <= i < |r.log| ==> r.log[i].AddConstraint? && r.log[i].bone in ValidNames(t, t.order)
  {
    var st, r, cr := Staged(t, s), Push(t, s), Creators(t, s);
    StagedLog(t, s);
    PushExtendsStaged(t, s);
    assert r.log == r.log[..|st.log|] + r.log[|st.log|..];
  }

  /**
   * A log made of a prefix, a run of creations, a run of parentings, a run of posings and a
   * tail of constraint additions is ordered by rank past the prefix.
   */
  lemma LogRanked(l0: seq<SinkCall>, c: seq<SinkCall>, p: seq<SinkCall>, a: seq<SinkCall>, l: seq<SinkCall>)
    requires |l0| + |c| + |p| + |a| <= |l| && l == l0 + c + p + a + l[|l0| + |c| + |p| + |a|..]
    requires forall i :: 0 <= i < |c| ==> c[i].CreateBone?
    requires forall i :: 0 <= i < |p| ==> p[i].SetParent?
    requires forall i :: 0 <= i < |a| ==> a[i].ApplyPose?
    requires forall i :: |l0| + |c| + |p| + |a| <= i < |l| ==> l[i].AddConstraint?
    ensures l[..|l0|] == l0
    ensures forall i, j :: |l0| <= i < j < |l| ==> Rank(l[i]) <= Rank(l[j])
  {
    var b1 := |l0| + |c|;
    var b2 := b1 + |p|;
    var b3 := b2 + |a|;
    var d := l[b3..];
    forall i | |l0| <= i < |l|
      ensures Rank(l[i]) == if i < b1 then 0 else if i < b2 then 1 else if i < b3 then 2 else 3
    {
      RunAt(l0, c, p, a, d, i);
    }
    assert l[..|l0|] == (l0 + c + p + a + d)[..|l0|];
  }

  /** `to_ob` only appends to the log, in four phases: creating, parenting, posing, constraints. */
  lemma PushPhasesInOrder(t: BoneTable, s: Sink)
    requires WellFormed(t)
    ensures var r := Push(t, s);
            && |s.log| <= |r.log| && r.log[..|s.log|] == s.log
            && forall i, j :: |s.log| <= i < j < |r.log| ==> Rank(r.log[i]) <= Rank(r.log[j])
  {
    var cr := Creators(t, s);
    PushLog(t, s);
    LogRanked(s.log, CreateCalls(t, cr), ParentCalls(t, cr), PoseCalls(t, cr), Push(t, s).log);
  }

  /**
   * The creations in `l` from position `from` on are exactly `names`, in that order, in a
   * block at its start.
   */
  ghost predicate CreatesInOrder(l: seq<SinkCall>, from: nat, names: seq<string>)
  {
    && from + |names| <= |l|
    && (forall k :: 0 <= k < |names| ==> l[from + k].CreateBone? && l[from + k].name == names[k])
    && (forall i :: from <= i < |l| && l[i].CreateBone? ==> i < from + |names| && l[i].name == names[i - from])
  }

  /** In such a log every creation past the prefix is one of the run of creations, at its position. */
  lemma CreationsInFirstRun(l0: seq<SinkCall>, c: seq<SinkCall>, p: seq<SinkCall>, a: seq<SinkCall>, l: seq<SinkCall>,
                            names: seq<string>)
    requires |l0| + |c| + |p| + |a| <= |l| && l == l0 + c + p + a + l[|l0| + |c| + |p| + |a|..]
    requires |c| == |names| && forall i :: 0 <= i < |c| ==> c[i].CreateBone? && c[i].name == names[i]
    requires forall i :: 0 <= i < |p| ==> p[i].SetParent?
    requires forall i :: 0 <= i < |a| ==> a[i].ApplyPose?
    requires forall i :: |l0| + |c| + |p| + |a| <= i < |l| ==> l[i].AddConstraint?
    ensures CreatesInOrder(l, |l0|, names)
  {
    var d := l[|l0| + |c| + |p| + |a|..];
    forall i | |l0| <= i < |l| && l[i].CreateBone? ensures i < |l0| + |c| && l[i].name == names[i - |l0|] {
      RunAt(l0, c, p, a, d, i);
    }
    forall k | 0 <= k < |names| ensures l[|l0| + k].CreateBone? && l[|l0| + k].name == names[k] {
      RunAt(l0, c, p, a, d, |l0| + k);
    }
  }

  /** Every creation in the new log is one of the first pass's, at its position. */
  lemma PushCreationIndex(t: BoneTable, s: Sink)
    requires WellFormed(t)
    ensures CreatesInOrder(Push(t, s).log, |s.log|, Names(t, Creators(t, s)))
  {
    var cr := Creators(t, s);
    PushLog(t, s);
    CreationsInFirstRun(s.log, CreateCalls(t, cr), ParentCalls(t, cr), PoseCalls(t, cr), Push(t, s).log, Names(t, cr));
  }

  /**
   * Afterwards the host holds every valid bone's name; the bones created are exactly the valid
   * bones whose names it lacked, and no name is created twice.
   */
  lemma {:induction false} PushCreatesMissingValidBones(t: BoneTable, s: Sink)
    requires WellFormed(t)
    ensures var r := Push(t, s);
            && r.bones == s.bones + ValidNames(t, t.order)
            && (forall n :: (exists i :: |s.log| <= i < |r.log| && r.log[i].CreateBone? && r.log[i].name == n)
                  <==> n in ValidNames(t, t.order) && n !in s.bones)
            && (forall i, j :: |s.log| <= i < j < |r.log| && r.log[i].CreateBone? && r.log[j].CreateBone?
                  ==> r.log[i].name != r.log[j].name)
  {
    var cr, r := Creators(t, s), Push(t, s);
    var names := Names(t, cr);
    CreatePassSpec(t, t.order, s);
    PushCreationIndex(t, s);
    forall m | m in ValidNames(t, t.order) && m !in s.bones
      ensures exists i :: |s.log| <= i < |r.log| && r.log[i].CreateBone? && r.log[i].name == m
    {
      var k :| 0 <= k < |cr| && names[k] == m;
      assert r.log[|s.log| + k].name == m;
    }
  }

  /** Every call in `l` from position `from` on names bones in `bones`. */
  ghost predicate AllNameHostBones(l: seq<SinkCall>, from: nat, bones: set<string>)
  {
    forall i :: from <= i < |l| ==> NamesHostBones(l[i], bones)
  }

  /** In such a log, when every run names host bones, every call past the prefix does. */
  lemma LogNamesHostBones(l0: seq<SinkCall>, c: seq<SinkCall>, p: seq<SinkCall>, a: seq<SinkCall>, l: seq<SinkCall>,
                          on: set<string>, bones: set<string>)
    requires |l0| + |c| + |p| + |a| <= |l| && l == l0 + c + p + a + l[|l0| + |c| + |p| + |a|..]
    requires forall i :: 0 <= i < |c| ==> NamesHostBones(c[i], bones)
    requires forall i :: 0 <= i < |p| ==> NamesHostBones(p[i], bones)
    requires forall i :: 0 <= i < |a| ==> NamesHostBones(a[i], bones)
    requires forall i :: |l0| + |c| + |p| + |a| <= i < |l| ==> l[i].AddConstraint? && l[i].bone in on
    requires on <= bones
    ensures AllNameHostBones(l, |l0|, bones)
  {
    var d := l[|l0| + |c| + |p| + |a|..];
    forall i | |l0| <= i < |l| ensures NamesHostBones(l[i], bones) {
      RunAt(l0, c, p, a, d, i);
    }
  }

  /** The calls of the first three passes name only bones whose names are in `bones`. */
  lemma StagedCallsNameHostBones(t: BoneTable, cr: seq<string>, bones: set<string>)
    requires forall k :: k in cr ==> k in t.bones && t.bones[k].name in bones
    requires forall k :: k in t.bones && IsValid(t.bones[k]) ==> t.bones[k].name in bones
    ensures forall i :: 0 <= i < |CreateCalls(t, cr)| ==> NamesHostBones(CreateCalls(t, cr)[i], bones)
    ensures forall i :: 0 <= i < |ParentCalls(t, cr)| ==> NamesHostBones(ParentCalls(t, cr)[i], bones)
    ensures forall i :: 0 <= i < |PoseCalls(t, cr)| ==> NamesHostBones(PoseCalls(t, cr)[i], bones)
  {
    var c, p, a := CreateCalls(t, cr), ParentCalls(t, cr), PoseCalls(t, cr);
    forall i | 0 <= i < |c| ensures NamesHostBones(c[i], bones) {
      assert cr[i] in cr;
    }
    forall i | 0 <= i < |p| ensures NamesHostBones(p[i], bones) {
      assert ParentLink(t, cr, p[i]);
    }
    forall i | 0 <= i < |a| ensures NamesHostBones(a[i], bones) {
      assert cr[i] in cr;
    }
  }

  /** Every call names bones the host holds: parents, posed bones and constrained bones all exist. */
  lemma PushTargetsExist(t: BoneTable, s: Sink)
    requires WellFormed(t)
    ensures AllNameHostBones(Push(t, s).log, |s.log|, Push(t, s).bones)
  {
    var cr, r := Creators(t, s), Push(t, s);
    PushLog(t, s);
    assert forall k :: k in t.bones && IsValid(t.bones[k]) ==> t.bones[k].name in ValidNames(t, t.order);
    StagedCallsNameHostBones(t, cr, r.bones);
    LogNamesHostBones(s.log, CreateCalls(t, cr), ParentCalls(t, cr), PoseCalls(t, cr), r.log, ValidNames(t, t.order), r.bones);
  }

  lemma {:induction false} CreatePassNoop(t: BoneTable, keys: seq<string>, s: Sink)
    requires forall k :: k in keys ==> k in t.bones
    requires ValidNames(t, keys) <= s.bones
    ensures CreatePass(t, keys, s) == (s, [])
  {
    if keys != [] {
      var keys' := keys[..|keys| - 1];
      ValidNamesSnoc(t, keys', keys[|keys| - 1]);
      assert keys == keys' + [keys[|keys| - 1]];
      CreatePassNoop(t, keys', s);
    }
  }

  lemma {:induction false} ConstraintsForBoneNoop(t: BoneTable, bone: string, cs: seq<MetaConstraint>, s: Sink)
    requires forall i :: 0 <= i < |cs| ==> HasConstraint(s, bone, cs[i].name)
    ensures ConstraintsForBone(t, bone, cs, s) == s
  {
    if cs != [] {
      ConstraintsForBoneNoop(t, bone, cs[..|cs| - 1], s);
    }
  }

  lemma {:induction false} ConstraintPassNoop(t: BoneTable, keys: seq<string>, s: Sink)
    requires forall k :: k in keys ==> k in t.bones
    requires forall k, i :: k in keys && IsValid(t.bones[k]) && 0 <= i < |t.bones[k].constraints| ==>
               HasConstraint(s, t.bones[k].name, t.bones[k].constraints[i].name)
    ensures ConstraintPass(t, keys, s) == s
  {
    if keys != [] {
      var k := keys[|keys| - 1];
      ConstraintPassNoop(t, keys[..|keys| - 1], s);
      if IsValid(t.bones[k]) {
        ConstraintsForBoneNoop(t, t.bones[k].name, t.bones[k].constraints, s);
      }
    }
  }

  /** Materialising the same table twice changes nothing the second time: no call is made. */
  lemma {:induction false} PushIdempotent(t: BoneTable, s: Sink)
    requires WellFormed(t)
    ensures Push(t, Push(t, s)) == Push(t, s)
  {
    var r := Push(t, s);
    CreatePassNoop(t, t.order, r);
    assert r.(log := r.log + ParentCalls(t, []) + PoseCalls(t, [])) == r;
    ConstraintPassNoop(t, t.order, r);
  }
}

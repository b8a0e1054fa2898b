/**
 * The four loops of `MetaBoneDict.to_ob`, one method per loop, each proved against the pass
 * it computes (`Push.CreatePass`, `Push.ParentCalls`, `Push.PoseCalls`, `Push.ConstraintPass`).
 */
module Passes {
  import opened Util
  import opened MetaBones
  import opened Tables
  import opened Push

  /** The first pass over a non-empty key sequence, split at its last key. */
  lemma CreatePassLast(t: BoneTable, keys: seq<string>, s: Sink)
    requires keys != [] && forall k :: k in keys ==> k in t.bones
    ensures var prev, b := CreatePass(t, keys[..|keys| - 1], s), t.bones[keys[|keys| - 1]];
            CreatePass(t, keys, s) ==
              if b.name !in prev.0.bones && IsValid(b) then
                (prev.0.(bones := prev.0.bones + {b.name}, log := prev.0.log + [CreateBone(b.name, EditDataOf(b))]),
                 prev.1 + [keys[|keys| - 1]])
              else prev
  {
  }

  /**
   * The first loop: every bone, in key order, whose name the host lacks and which is valid
   * is created, and its key is remembered.
   */
  method CreateEbones(t: BoneTable, s: Sink) returns (r: Sink, creators: seq<string>)
    requires WellFormed(t)
    ensures r == CreatePass(t, t.order, s).0 && creators == CreatePass(t, t.order, s).1
  {
    r, creators := s, [];
    var i := 0;
    while i < |t.order|
      invariant 0 <= i <= |t.order|
      invariant r == CreatePass(t, t.order[..i], s).0 && creators == CreatePass(t, t.order[..i], s).1
    {
      var key := t.order[i];
      var b := t.bones[key];
      assert t.order[..i + 1][..i] == t.order[..i];
      CreatePassLast(t, t.order[..i + 1], s);
      if b.name !in r.bones && IsValid(b) {
        r := r.(bones := r.bones + {b.name}, log := r.log + [CreateBone(b.name, EditDataOf(b))]);
        creators := creators + [key];
      }
      i := i + 1;
    }
    assert t.order[..i] == t.order;
  }

  /** The second loop: every creator whose parent is a valid bone is parented to it on the host. */
  method SetParents(t: BoneTable, creators: seq<string>, s: Sink) returns (r: Sink)
    requires forall k :: k in creators ==> k in t.bones
    ensures r == s.(log := s.log + ParentCalls(t, creators))
  {
    r := s;
    var i := 0;
    while i < |creators|
      invariant 0 <= i <= |creators|
      invariant r == s.(log := s.log + ParentCalls(t, creators[..i]))
    {
      var b := t.bones[creators[i]];
      assert creators[..i + 1][..i] == creators[..i];
      if b.attrs.parent.Some? && b.attrs.parent.value in t.bones && IsValid(t.bones[b.attrs.parent.value]) {
        r := r.(log := r.log + [SetParent(b.name, t.bones[b.attrs.parent.value].name)]);
      }
      i := i + 1;
    }
    assert creators[..i] == creators;
  }

  lemma PoseCallsSnoc(t: BoneTable, creators: seq<string>, i: nat)
    requires i < |creators| && forall k :: k in creators ==> k in t.bones
    ensures PoseCalls(t, creators[..i + 1]) ==
            PoseCalls(t, creators[..i]) + [ApplyPose(t.bones[creators[i]].name, PoseDataOf(t.bones[creators[i]]))]
  {
  }

  /** The third loop: every creator's pose attributes are written, in order. */
  method ApplyPoses(t: BoneTable, creators: seq<string>, s: Sink) returns (r: Sink)
    requires forall k :: k in creators ==> k in t.bones
    ensures r == s.(log := s.log + PoseCalls(t, creators))
  {
    r := s;
    var i := 0;
    while i < |creators|
      invariant 0 <= i <= |creators|
      invariant r == s.(log := s.log + PoseCalls(t, creators[..i]))
    {
      var b := t.bones[creators[i]];
      PoseCallsSnoc(t, creators, i);
      r := r.(log := r.log + [ApplyPose(b.name, PoseDataOf(b))]);
      i := i + 1;
    }
    assert creators[..i] == creators;
  }

  /** The constraints of one bone for a non-empty constraint list, split at its last constraint. */
  lemma ConstraintsForBoneLast(t: BoneTable, bone: string, cs: seq<MetaConstraint>, s: Sink)
    requires cs != []
    ensures var prev, c := ConstraintsForBone(t, bone, cs[..|cs| - 1], s), cs[|cs| - 1];
            ConstraintsForBone(t, bone, cs, s) ==
              if HasConstraint(prev, bone, c.name) then prev
              else AddConstraintName(prev, bone, c.name).(log := prev.log + [AddConstraint(bone, c.name, c.kind, ConstraintWrites(t, c))])
  {
  }

  /** One pass of the loop of `apply_data_to_pchan_constraints`: constraint `j` is added unless its name is present. */
  method AddBoneConstraint(t: BoneTable, bone: string, cs: seq<MetaConstraint>, j: nat, s: Sink, r: Sink)
    returns (r': Sink)
    requires j < |cs| && r == ConstraintsForBone(t, bone, cs[..j], s)
    ensures r' == ConstraintsForBone(t, bone, cs[..j + 1], s)
  {
    var c := cs[j];
    assert cs[..j + 1][..j] == cs[..j];
    ConstraintsForBoneLast(t, bone, cs[..j + 1], s);
    r' := r;
    if !HasConstraint(r, bone, c.name) {
      var named := AddConstraintName(r, bone, c.name);
      r' := named.(log := r.log + [AddConstraint(bone, c.name, c.kind, ConstraintWrites(t, c))]);
    }
  }

  /**
   * `apply_data_to_pchan_constraints`: each constraint whose name the pose channel lacks is
   * added, in order; the others are skipped.
   */
  method AddBoneConstraints(t: BoneTable, bone: string, cs: seq<MetaConstraint>, s: Sink) returns (r: Sink)
    ensures r == ConstraintsForBone(t, bone, cs, s)
  {
    r := s;
    var j := 0;
    while j < |cs|
      invariant 0 <= j <= |cs|
      invariant r == ConstraintsForBone(t, bone, cs[..j], s)
    {
      r := AddBoneConstraint(t, bone, cs, j, s, r);
      j := j + 1;
    }
    assert cs[..j] == cs;
  }

  /** The fourth loop: every valid bone, in key order, adds its constraints. */
  method AddConstraints(t: BoneTable, s: Sink) returns (r: Sink)
    requires WellFormed(t)
    ensures r == ConstraintPass(t, t.order, s)
  {
    r := s;
    var i := 0;
    while i < |t.order|
      invariant 0 <= i <= |t.order|
      invariant r == ConstraintPass(t, t.order[..i], s)
    {
      var b := t.bones[t.order[i]];
      assert t.order[..i + 1][..i] == t.order[..i];
      if IsValid(b) {
        r := AddBoneConstraints(t, b.name, b.constraints, r);
      }
      i := i + 1;
    }
    assert t.order[..i] == t.order;
  }
}

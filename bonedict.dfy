/**
 * `MetaBoneDict`: the mutable bone table. Keys keep their insertion order, a key can be
 * added only once, and a missing key reads as `None`. Its abstract value is a `BoneTable`,
 * and each operation is proved against the table function that specifies it.
 */
module BoneDicts {
  import opened Util
  import opened Geometry
  import opened MetaBones
  import opened Suffix
  import opened Tables
  import opened Baking
  import opened Chains
  import opened Push
  import opened Passes

  /**
   * The bone `new_bone_by_fraction` stores under `name`: a fresh bone renamed
   * `<source name>-<name>`, spanning the part of the source bone between the two fractions
   * of its length, with the source's roll axis.
   */
  function FractionBone(name: string, source: MetaBone, startFraction: real, endFraction: real): MetaBone
  {
    var b := MakeBone(name, None, None);
    var v := Sub(source.attrs.tail, source.attrs.head);
    b.(name := source.name + "-" + name,
       attrs := b.attrs.(head := Add(source.attrs.head, Scale(v, startFraction)),
                         tail := Add(source.attrs.head, Scale(v, endFraction)),
                         alignRoll := source.attrs.alignRoll))
  }

  /**
   * The default fractions reproduce the source span; pieces cut at a shared fraction meet
   * (the tail of one is the head of the next); every other attribute is the default one.
   */
  lemma FractionPieces(name: string, name': string, source: MetaBone, a: real, b: real, c: real)
    ensures var whole := FractionBone(name, source, 0.0, 1.0);
            whole.attrs.head == source.attrs.head && whole.attrs.tail == source.attrs.tail
    ensures FractionBone(name, source, a, b).attrs.tail == FractionBone(name', source, b, c).attrs.head
    ensures var p := FractionBone(name, source, a, b);
            && p.name == source.name + "-" + name && p.constraints == [] && p.rig == NoRigInfo
            && p.attrs.alignRoll == source.attrs.alignRoll
            && p.attrs == DefaultAttrs.(head := p.attrs.head, tail := p.attrs.tail, alignRoll := p.attrs.alignRoll)
  {
    var h, t := source.attrs.head, source.attrs.tail;
    assert Add(h, Scale(Sub(t, h), 0.0)) == h;
    assert Add(h, Scale(Sub(t, h), 1.0)) == t;
  }

  /** The key `get_args_subset` reads a local name from: `<local>.<letter>` when stored, else the local name. */
  function ArgKey(t: BoneTable, local: string, letter: string): string
  {
    var sided := local + "." + letter;
    if sided in t.bones then sided else local
  }

  function MissingArgMessage(key: string): string
  {
    key + " couldn't be found in metabones!"
  }

  /** The first `i` bakes are well formed when all are. */
  lemma BakesPrefix(bakes: seq<Bake>, i: nat)
    requires BakesWellFormed(bakes) && i <= |bakes|
    ensures BakesWellFormed(bakes[..i])
  {
    forall j | 0 <= j < i ensures WellFormed(bakes[..i][j].source) {
      assert bakes[..i][j] == bakes[j];
    }
  }

  /** One more bake appends its entries. */
  lemma AllEntriesStep(bakes: seq<Bake>, i: nat)
    requires BakesWellFormed(bakes) && i < |bakes|
    ensures BakesWellFormed(bakes[..i]) && BakesWellFormed(bakes[..i + 1])
    ensures AllEntries(bakes[..i + 1]) == AllEntries(bakes[..i]) + BakeEntries(bakes[i])
  {
    BakesPrefix(bakes, i);
    BakesPrefix(bakes, i + 1);
    assert bakes[..i + 1][..i] == bakes[..i];
  }

  /** The entries of the first `i` bakes begin the entries of all of them. */
  lemma {:induction false} AllEntriesPrefix(bakes: seq<Bake>, i: nat)
    requires BakesWellFormed(bakes) && i <= |bakes|
    ensures BakesWellFormed(bakes[..i])
    ensures AllEntries(bakes[..i]) <= AllEntries(bakes)
    decreases |bakes| - i
  {
    BakesPrefix(bakes, i);
    if i == |bakes| {
      assert bakes[..i] == bakes;
    } else {
      AllEntriesPrefix(bakes, i + 1);
      AllEntriesStep(bakes, i);
    }
  }

  lemma InsertAllSnoc(t: BoneTable, es: seq<Entry>, e: Entry, t': BoneTable)
    requires WellFormed(t) && InsertAll(t, es) == Success(t')
    ensures WellFormed(t') && InsertAll(t, es + [e]) == Insert(t', e.key, e.bone)
  {
    assert (es + [e])[..|es|] == es;
  }

  /** A run whose `j`-th key is already stored after the first `j` fails with that key's error. */
  lemma InsertAllStops(t: BoneTable, es: seq<Entry>, j: nat, before: BoneTable)
    requires WellFormed(t) && j < |es| && InsertAll(t, es[..j]) == Success(before)
    requires es[j].key in before.bones
    ensures InsertAll(t, es) == Failure(DuplicateKeyMessage(es[j].key))
  {
    assert es[..j + 1] == es[..j] + [es[j]];
    InsertAllSnoc(t, es[..j], es[j], before);
    InsertAllFailedPrefix(t, es[..j + 1], es);
  }

  /** Storing two runs of entries is storing the first, then the second into the result. */
  lemma {:induction false} InsertAllConcat(t: BoneTable, a: seq<Entry>, b: seq<Entry>)
    requires WellFormed(t) && InsertAll(t, a).Success?
    ensures InsertAll(t, a + b) == InsertAll(InsertAll(t, a).value, b)
  {
    if b != [] {
      var b', e, u := b[..|b| - 1], b[|b| - 1], InsertAll(t, a).value;
      InsertAllConcat(t, a, b');
      assert (a + b)[..|a + b| - 1] == a + b' && (a + b)[|a + b| - 1] == e;
      assert InsertAll(t, a + b) ==
             match InsertAll(t, a + b')
             case Failure(m) => Failure(m)
             case Success(t') => Insert(t', e.key, e.bone);
      assert InsertAll(u, b) ==
             match InsertAll(u, b')
             case Failure(m) => Failure(m)
             case Success(t') => Insert(t', e.key, e.bone);
    } else {
      assert a + b == a;
    }
  }

  lemma RewireAllSnoc(t: BoneTable, es: seq<Entry>, e: Entry)
    requires forall i :: 0 <= i < |es| ==> es[i].key in t.bones
    requires e.key in t.bones
    ensures var t' := RewireAll(t, es);
            RewireAll(t, es + [e]) == Update(t', e.key, Rewired(t'.bones[e.key], e, t'.bones.Keys))
  {
    assert (es + [e])[..|es|] == es;
  }

  /** Re-pointing one entry more of `es` updates the bone under that entry's key. */
  lemma RewirePrefixStep(t: BoneTable, es: seq<Entry>, j: nat)
    requires j < |es| && forall i :: 0 <= i < |es| ==> es[i].key in t.bones
    ensures var t' := RewireAll(t, es[..j]);
            RewireAll(t, es[..j + 1]) == Update(t', es[j].key, Rewired(t'.bones[es[j].key], es[j], t'.bones.Keys))
  {
    assert es[..j + 1] == es[..j] + [es[j]];
    RewireAllSnoc(t, es[..j], es[j]);
  }

  /** Re-pointing two runs of entries is re-pointing the first, then the second in the result. */
  lemma {:induction false} RewireAllConcat(t: BoneTable, a: seq<Entry>, b: seq<Entry>)
    requires forall i :: 0 <= i < |a| ==> a[i].key in t.bones
    requires forall i :: 0 <= i < |b| ==> b[i].key in t.bones
    ensures forall i :: 0 <= i < |b| ==> b[i].key in RewireAll(t, a).bones
    ensures RewireAll(t, a + b) == RewireAll(RewireAll(t, a), b)
  {
    if b != [] {
      var b' := b[..|b| - 1];
      assert (a + b)[..|a + b| - 1] == a + b';
      RewireAllConcat(t, a, b');
    } else {
      assert a + b == a;
    }
  }

  /** Storing bake `i` after the bakes before it stores the entries of the first `i + 1` bakes. */
  lemma BakeInsertStep(bakes: seq<Bake>, i: nat, before: BoneTable)
    requires BakesWellFormed(bakes) && i < |bakes| && BakesWellFormed(bakes[..i])
    requires InsertAll(EmptyTable, AllEntries(bakes[..i])) == Success(before)
    ensures BakesWellFormed(bakes[..i + 1])
    ensures InsertAll(EmptyTable, AllEntries(bakes[..i + 1])) == InsertAll(before, BakeEntries(bakes[i]))
  {
    AllEntriesStep(bakes, i);
    InsertAllConcat(EmptyTable, AllEntries(bakes[..i]), BakeEntries(bakes[i]));
  }

  /** A clash while storing bake `i` is the clash of storing all the bakes. */
  lemma BakeInsertStops(bakes: seq<Bake>, i: nat, before: BoneTable)
    requires BakesWellFormed(bakes) && i < |bakes| && BakesWellFormed(bakes[..i])
    requires InsertAll(EmptyTable, AllEntries(bakes[..i])) == Success(before)
    requires InsertAll(before, BakeEntries(bakes[i])).Failure?
    ensures InsertAll(EmptyTable, AllEntries(bakes)) == InsertAll(before, BakeEntries(bakes[i]))
  {
    BakeInsertStep(bakes, i, before);
    AllEntriesPrefix(bakes, i + 1);
    InsertAllFailedPrefix(EmptyTable, AllEntries(bakes[..i + 1]), AllEntries(bakes));
  }

  /** When a run of entries begins with `done` followed by `be`, the keys of both are among the run's. */
  lemma PartsKeysIn(done: seq<Entry>, be: seq<Entry>, es: seq<Entry>, keys: set<string>)
    requires done + be <= es && forall j :: 0 <= j < |es| ==> es[j].key in keys
    ensures forall j :: 0 <= j < |done| ==> done[j].key in keys
    ensures forall j :: 0 <= j < |be| ==> be[j].key in keys
  {
    forall j | 0 <= j < |done| ensures done[j].key in keys {
      assert done[j] == (done + be)[j] == es[j];
    }
    forall j | 0 <= j < |be| ensures be[j].key in keys {
      assert be[j] == (done + be)[|done| + j] == es[|done| + j];
    }
  }

  /** Re-pointing bake `i` after the bakes before it re-points the entries of the first `i + 1` bakes. */
  lemma BakeRewireStep(bakes: seq<Bake>, i: nat, t0: BoneTable)
    requires BakesWellFormed(bakes) && i < |bakes| && BakesWellFormed(bakes[..i])
    requires AllEntries(bakes[..i]) <= AllEntries(bakes)
    requires forall j :: 0 <= j < |AllEntries(bakes)| ==> AllEntries(bakes)[j].key in t0.bones
    ensures BakesWellFormed(bakes[..i + 1]) && AllEntries(bakes[..i + 1]) <= AllEntries(bakes)
    ensures var t := RewireAll(t0, AllEntries(bakes[..i]));
            && (forall j :: 0 <= j < |BakeEntries(bakes[i])| ==> BakeEntries(bakes[i])[j].key in t.bones)
            && RewireAll(t0, AllEntries(bakes[..i + 1])) == RewireAll(t, BakeEntries(bakes[i]))
  {
    AllEntriesStep(bakes, i);
    AllEntriesPrefix(bakes, i + 1);
    var done, be, es := AllEntries(bakes[..i]), BakeEntries(bakes[i]), AllEntries(bakes);
    PartsKeysIn(done, be, es, t0.bones.Keys);
    RewireAllConcat(t0, done, be);
  }

  class MetaBoneDict {
    var keys: seq<string>
    var bones: map<string, MetaBone>

    /** The abstract value: the keys in insertion order and their bones. */
    function Table(): BoneTable
      reads this
    {
      BoneTable(keys, bones)
    }

    ghost predicate Valid()
      reads this
    {
      WellFormed(Table())
    }

    /** An empty table. */
    constructor ()
      ensures Valid() && Table() == EmptyTable
    {
      keys := [];
      bones := map[];
    }

    /** `__getitem__`: the bone under `key`, or `None`. */
    method Get(key: string) returns (r: Option<MetaBone>)
      ensures r.Some? <==> key in bones
      ensures r.Some? ==> r.value == bones[key]
    {
      if key in bones {
        r := Some(bones[key]);
      } else {
        r := None;
      }
    }

    /**
     * `__setitem__`: a key already present is refused with the duplicate-key error and the
     * table is left as it was; otherwise the key is appended.
     */
    method SetItem(key: string, bone: MetaBone) returns (err: Option<string>)
      requires Valid()
      modifies this
      ensures Valid()
      ensures err.Some? <==> key in old(bones)
      ensures err.Some? ==> err.value == DuplicateKeyMessage(key) && Table() == old(Table())
      ensures err.None? ==> Insert(old(Table()), key, bone) == Success(Table())
    {
      if key in bones {
        err := Some(DuplicateKeyMessage(key));
      } else {
        DistinctAppend(keys, key);
        keys := keys + [key];
        bones := bones[key := bone];
        err := None;
      }
    }

    /** `new_bone`: stores a bone made from `source` and `transform` under its own name. */
    method NewBone(name: string, source: Option<MetaBone>, transform: Option<Transform>) returns (r: Result<MetaBone>)
      requires Valid()
      modifies this
      ensures Valid()
      ensures r.Success? <==> name !in old(bones)
      ensures r.Failure? ==> r.error == DuplicateKeyMessage(name) && Table() == old(Table())
      ensures r.Success? ==>
                && r.value == MakeBone(name, source, transform)
                && r.value.name == name
                && Insert(old(Table()), name, r.value) == Success(Table())
    {
      var b := MakeBone(name, source, transform);
      var err := SetItem(name, b);
      if err.Some? {
        r := Failure(err.value);
      } else {
        r := Success(b);
      }
    }

    /**
     * `new_bone_by_fraction`: stores under `name` the piece of `source` between the two
     * fractions, named after the source.
     */
    method NewBoneByFraction(name: string, source: MetaBone, startFraction: real, endFraction: real)
      returns (r: Result<MetaBone>)
      requires Valid()
      modifies this
      ensures Valid()
      ensures r.Success? <==> name !in old(bones)
      ensures r.Failure? ==> r.error == DuplicateKeyMessage(name) && Table() == old(Table())
      ensures r.Success? ==>
                && r.value == FractionBone(name, source, startFraction, endFraction)
                && Insert(old(Table()), name, r.value) == Success(Table())
    {
      var made := NewBone(name, None, None);
      if made.Failure? {
        return Failure(made.error);
      }
      var b := made.value;
      var v := Sub(source.attrs.tail, source.attrs.head);
      b := b.(name := source.name + "-" + name,
              attrs := b.attrs.(head := Add(source.attrs.head, Scale(v, startFraction)),
                                tail := Add(source.attrs.head, Scale(v, endFraction)),
                                alignRoll := source.attrs.alignRoll));
      assert keys == old(keys) + [name] && bones == old(bones)[name := made.value];
      bones := bones[name := b];
      assert bones == old(bones)[name := b];
      r := Success(b);
    }

    /**
     * `get_args_subset`: maps every local name to the bone under its sided key, falling back
     * to the local name itself; the first local name found under neither key stops it with
     * an assertion error naming the key that was tried last.
     */
    method GetArgsSubset(locals: seq<string>, letter: string) returns (r: Result<map<string, MetaBone>>)
      ensures r.Success? <==> forall i :: 0 <= i < |locals| ==> ArgKey(Table(), locals[i], letter) in bones
      ensures r.Success? ==>
                && r.value.Keys == (set i | 0 <= i < |locals| :: locals[i])
                && forall i :: 0 <= i < |locals| ==> r.value[locals[i]] == bones[ArgKey(Table(), locals[i], letter)]
      ensures r.Failure? ==>
                exists i :: && 0 <= i < |locals|
                            && ArgKey(Table(), locals[i], letter) !in bones
                            && (forall j :: 0 <= j < i ==> ArgKey(Table(), locals[j], letter) in bones)
                            && r.error == MissingArgMessage(ArgKey(Table(), locals[i], letter))
    {
      var picked: map<string, MetaBone> := map[];
      var i := 0;
      while i < |locals|
        invariant 0 <= i <= |locals|
        invariant forall j :: 0 <= j < i ==> ArgKey(Table(), locals[j], letter) in bones
        invariant picked.Keys == (set j | 0 <= j < i :: locals[j])
        invariant forall j :: 0 <= j < i ==> picked[locals[j]] == bones[ArgKey(Table(), locals[j], letter)]
      {
        var name := locals[i] + "." + letter;
        if name !in bones {
          name := locals[i];
        }
        if name !in bones {
          return Failure(MissingArgMessage(name));
        }
        picked := picked[locals[i] := bones[name]];
        i := i + 1;
      }
      r := Success(picked);
    }

    /**
     * The first loop of `from_bakedata` over one bake's entries: stores each copy under its
     * key; the first clash stops it with the duplicate-key error.
     */
    method InsertEntries(es: seq<Entry>) returns (err: Option<string>)
      requires Valid()
      modifies this
      ensures Valid()
      ensures err.None? ==> InsertAll(old(Table()), es) == Success(Table())
      ensures err.Some? ==> InsertAll(old(Table()), es) == Failure(err.value)
    {
      ghost var t0 := Table();
      var j := 0;
      assert es[..0] == [];
      while j < |es|
        invariant 0 <= j <= |es| && Valid()
        invariant InsertAll(t0, es[..j]) == Success(Table())
      {
        var e := es[j];
        ghost var before := Table();
        assert es[..j + 1] == es[..j] + [e];
        InsertAllSnoc(t0, es[..j], e, before);
        var failed := SetItem(e.key, e.bone);
        if failed.Some? {
          InsertAllStops(t0, es, j, before);
          return failed;
        }
        j := j + 1;
      }
      assert es[..j] == es;
      err := None;
    }

    /**
     * The second loop of `from_bakedata` over one bake's entries: each copy whose source bone
     * has a parent is re-pointed at the bone keyed by the suffixed name of that parent, or
     * its parent is cleared when there is no such key.
     */
    method RewireEntries(es: seq<Entry>)
      requires Valid() && forall i :: 0 <= i < |es| ==> es[i].key in bones
      modifies this
      ensures Valid()
      ensures RewireAll(old(Table()), es) == Table()
    {
      ghost var t0 := Table();
      var j := 0;
      assert es[..0] == [];
      while j < |es|
        invariant 0 <= j <= |es| && Valid()
        invariant RewireAll(t0, es[..j]) == Table()
      {
        RewirePrefixStep(t0, es, j);
        RewireEntry(es[j]);
        j := j + 1;
      }
      assert es[..j] == es;
    }

    /** One pass of the second loop: the copy under `e.key` is re-pointed at its parent's copy, if any. */
    method RewireEntry(e: Entry)
      requires Valid() && e.key in bones
      modifies this
      ensures Valid()
      ensures Table() == Update(old(Table()), e.key, Rewired(old(Table()).bones[e.key], e, old(Table()).bones.Keys))
    {
      if e.parentName.Some? {
        var b := bones[e.key];
        var p := Suffixed(e.parentName.value, e.letter);
        b := b.(attrs := b.attrs.(parent := if p in bones then Some(p) else None));
        bones := bones[e.key := b];
      } else {
        bones := bones[e.key := bones[e.key]];
      }
    }

    /**
     * `from_bakedata`: copies every bone of every bake under its suffixed key (the first clash
     * stops it with the duplicate-key error), then re-points each copy's parent at the copy of
     * the source parent, or clears it when the result has no such key.
     */
    static method FromBakedata(bakes: seq<Bake>) returns (r: Result<MetaBoneDict>)
      requires BakesWellFormed(bakes)
      ensures r.Failure? ==> FromBakedataSpec(bakes) == Failure(r.error)
      ensures r.Success? ==> fresh(r.value) && r.value.Valid() && FromBakedataSpec(bakes) == Success(r.value.Table())
    {
      var d := new MetaBoneDict();
      var i := 0;
      BakesPrefix(bakes, 0);
      while i < |bakes|
        invariant 0 <= i <= |bakes| && fresh(d) && d.Valid()
        invariant BakesWellFormed(bakes[..i])
        invariant InsertAll(EmptyTable, AllEntries(bakes[..i])) == Success(d.Table())
      {
        ghost var before := d.Table();
        BakeInsertStep(bakes, i, before);
        var err := d.InsertEntries(BakeEntries(bakes[i]));
        if err.Some? {
          BakeInsertStops(bakes, i, before);
          return Failure(err.value);
        }
        i := i + 1;
      }
      assert bakes[..i] == bakes;
      ghost var es := AllEntries(bakes);
      ghost var t0 := d.Table();
      InsertAllValues(EmptyTable, es);
      i := 0;
      AllEntriesPrefix(bakes, 0);
      while i < |bakes|
        invariant 0 <= i <= |bakes| && fresh(d) && d.Valid()
        invariant BakesWellFormed(bakes[..i]) && AllEntries(bakes[..i]) <= es
        invariant RewireAll(t0, AllEntries(bakes[..i])) == d.Table()
      {
        BakeRewireStep(bakes, i, t0);
        d.RewireEntries(BakeEntries(bakes[i]));
        i := i + 1;
      }
      assert bakes[..i] == bakes;
      r := Success(d);
    }

    /**
     * `to_ob`: creates the valid bones the host lacks, parents them, writes their pose data,
     * then adds every valid bone's missing constraints. The table itself is not changed.
     */
    method ToOb(s: Sink) returns (r: Sink)
      requires Valid()
      ensures r == Push.Push(Table(), s)
    {
      var t := Table();
      var created, creators := CreateEbones(t, s);
      var parented := SetParents(t, creators, created);
      var posed := ApplyPoses(t, creators, parented);
      assert posed == Staged(t, s);
      r := AddConstraints(t, posed);
    }

    /**
     * `from_transform_length_pairs`: a running matrix is multiplied by each transform; the bone
     * `name-<n>` gets the matrix origin as head and its Z column as roll axis; the matrix then
     * moves along its own Y axis by the length to give the tail. Each bone after the first is
     * parented to the one before and connected to it when that one's tail is within 1e-4 of
     * its head. `mul` is the host math library's 4x4 matrix product (`Geometry.Mul` computes it).
     */
    static method FromTransformLengthPairs(mul: (Mat4, Mat4) -> Mat4, name: string, pairs: seq<(Mat4, real)>) returns (r: MetaBoneDict)
      ensures fresh(r) && r.Valid() && r.Table() == ChainTable(mul, name, pairs)
    {
      ghost var ks, bs := ChainKeys(name, |pairs|), ChainBones(mul, name, pairs);
      ChainKeysDistinct(name, |pairs|);
      r := new MetaBoneDict();
      var t := Identity;
      var prev: Option<string> := None;
      var i := 0;
      while i < |pairs|
        invariant 0 <= i <= |pairs| && fresh(r)
        invariant r.Building(mul, pairs, ks, bs, i, t, prev)
      {
        t := r.AppendChainBone(mul, name, pairs, ks, bs, i, t, prev);
        prev := Some(ChainKey(name, i));
        i := i + 1;
      }
      StackSpec(ks, bs, |pairs|);
      assert ks[..|pairs|] == ks;
    }

    /**
     * The state after `i` passes of the loop of `from_transform_length_pairs`: the first `i`
     * bones are stored, `t` is the running matrix, and `prev` names the last bone stored,
     * whose tail is where the running matrix now stands.
     */
    ghost predicate Building(mul: (Mat4, Mat4) -> Mat4, pairs: seq<(Mat4, real)>, ks: seq<string>, bs: seq<MetaBone>,
                             i: nat, t: Mat4, prev: Option<string>)
      reads this
    {
      && i <= |pairs| && |ks| == |bs| == |pairs|
      && Valid() && t == Running(mul, pairs, i) && Table() == Stack(ks, bs, i)
      && (i == 0 ==> prev.None?)
      && (i > 0 ==> prev == Some(ks[i - 1]) && prev.value in bones && bones[prev.value].attrs.tail == Xyz(t.c3))
    }

    /** One pass of the loop of `from_transform_length_pairs`: stores bone `i` and returns the moved matrix. */
    method AppendChainBone(mul: (Mat4, Mat4) -> Mat4, name: string, pairs: seq<(Mat4, real)>, ghost ks: seq<string>, ghost bs: seq<MetaBone>,
                           i: nat, t: Mat4, prev: Option<string>)
      returns (next: Mat4)
      requires i < |pairs| && ks == ChainKeys(name, |pairs|) && Distinct(ks)
      requires |bs| == |pairs| && bs[i] == ChainBone(mul, name, pairs, i)
      requires Building(mul, pairs, ks, bs, i, t, prev)
      modifies this
      ensures Building(mul, pairs, ks, bs, i + 1, next, Some(ChainKey(name, i)))
    {
      StackNext(ks, bs, i);
      ghost var before := Table();
      var key := ChainKey(name, i);
      var made := NewBone(key, None, None);
      var prevTail := if prev.Some? then Some(bones[prev.value].attrs.tail) else None;
      var b;
      b, next := PlaceChainBone(mul, name, pairs, i, made.value, t, prev, prevTail);
      bones := bones[key := b];
      MapUpdateTwice(before.bones, key, made.value, b);
    }

    /**
     * One pass of the loop of `from_transform_length_pairs`: the fresh bone `b` gets its head,
     * roll axis, tail, parent and connection; `next` is the running matrix for the next pass.
     */
    static method PlaceChainBone(mul: (Mat4, Mat4) -> Mat4, name: string, pairs: seq<(Mat4, real)>, i: nat, b: MetaBone, t: Mat4,
                                 prev: Option<string>, prevTail: Option<Vec3>)
      returns (placed: MetaBone, next: Mat4)
      requires i < |pairs| && t == Running(mul, pairs, i) && b == MakeBone(ChainKey(name, i), None, None)
      requires i == 0 ==> prev.None? && prevTail.None?
      requires i > 0 ==> prev == Some(ChainKey(name, i - 1)) && prevTail == Some(Xyz(t.c3))
      ensures placed == ChainBone(mul, name, pairs, i) && next == Running(mul, pairs, i + 1)
    {
      var (transform, length) := pairs[i];
      var frame := mul(t, transform);
      var head := Xyz(frame.c3);
      placed := b.(attrs := b.attrs.(head := head, alignRoll := Xyz(frame.c2)));
      next := mul(frame, Translation(Vec3(0.0, length, 0.0)));
      placed := placed.(attrs := placed.attrs.(tail := Xyz(next.c3)));
      if prev.Some? {
        placed := placed.(attrs := placed.attrs.(parent := prev, useConnect := CloserThanTolerance(prevTail.value, head)));
      } else {
        placed := placed.(attrs := placed.attrs.(useConnect := false));
      }
      ChainBoneFrom(mul, name, pairs, i, frame, next, prev, if prevTail.Some? then prevTail.value else head);
    }

    /** `from_angle_length_pairs`: every angle becomes a rotation about X, then the chain is built. */
    static method FromAngleLengthPairs(mul: (Mat4, Mat4) -> Mat4, name: string, pairs: seq<(real, real)>, rotationX: real -> Mat4)
      returns (r: MetaBoneDict)
      ensures fresh(r) && r.Valid() && r.Table() == ChainTable(mul, name, RotationPairs(pairs, rotationX))
    {
      var transformPairs: seq<(Mat4, real)> := [];
      var i := 0;
      while i < |pairs|
        invariant 0 <= i <= |pairs| && |transformPairs| == i
        invariant forall j :: 0 <= j < i ==> transformPairs[j] == (rotationX(pairs[j].0), pairs[j].1)
      {
        var (angle, length) := pairs[i];
        transformPairs := transformPairs + [(rotationX(angle), length)];
        i := i + 1;
      }
      assert transformPairs == RotationPairs(pairs, rotationX);
      r := FromTransformLengthPairs(mul, name, transformPairs);
    }
  }

  /**
   * `Phalange.create_metabonedict`: the first segment is not curled, every later one is
   * curled by `curl`, every length is scaled, and the chain is built from those angles.
   */
  method PhalangeDict(mul: (Mat4, Mat4) -> Mat4, p: Phalange, rotationX: real -> Mat4) returns (r: MetaBoneDict)
    requires |p.lengths| > 0
    ensures fresh(r) && r.Valid() && r.Table() == ChainTable(mul, p.name, RotationPairs(PhalangePairs(p), rotationX))
  {
    var pairs := [(0.0, p.lengths[0] * p.lengthsScale)];
    var i := 1;
    while i < |p.lengths|
      invariant 1 <= i <= |p.lengths| && |pairs| == i
      invariant pairs[0] == (0.0, p.lengths[0] * p.lengthsScale)
      invariant forall j :: 1 <= j < i ==> pairs[j].0 == p.curl && pairs[j].1 == p.lengths[j] * p.lengthsScale
    {
      pairs := pairs + [(p.curl, p.lengths[i] * p.lengthsScale)];
      i := i + 1;
    }
    var expected := PhalangePairs(p);
    forall j | 0 <= j < |pairs| ensures pairs[j] == expected[j] {
      assert pairs[j].0 == expected[j].0 && pairs[j].1 == expected[j].1;
    }
    assert pairs == expected;
    r := MetaBoneDict.FromAngleLengthPairs(mul, p.name, pairs, rotationX);
  }
}

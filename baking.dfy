/**
 * Baking: several source tables, each with an optional transform and a side letter, are
 * copied into one destination table. Every bone is stored under its source key suffixed with
 * the letter; a clash between two copies is an error. Afterwards every copied parent link is
 * re-pointed at the destination bone whose key is the suffixed name of the source parent, or
 * cleared when there is no such bone.
 */
module Baking {
  import opened Util
  import opened Geometry
  import opened MetaBones
  import opened Suffix
  import opened Tables

  /** `MetaBonesBakeData`: a source table, an optional transform and a side letter ("" for none). */
  datatype Bake = Bake(source: BoneTable, transform: Option<Transform>, letter: string)

  /**
   * One bone to copy: its destination key, the copy made from the source bone, the side
   * letter of its bake, and the name of the source bone's parent (`None` when it has none).
   */
  datatype Entry = Entry(key: string, bone: MetaBone, letter: string, parentName: Option<string>)

  ghost predicate BakesWellFormed(bakes: seq<Bake>)
  {
    forall i :: 0 <= i < |bakes| ==> WellFormed(bakes[i].source)
  }

  /** The current name of the bone a parent key refers to. */
  function ParentName(src: BoneTable, b: MetaBone): Option<string>
  {
    match b.attrs.parent
    case None => None
    case Some(p) => Some(ResolveName(src, p))
  }

  function EntryOf(bake: Bake, k: string): Entry
    requires k in bake.source.bones
  {
    var d := Suffixed(k, bake.letter);
    var src := bake.source.bones[k];
    Entry(d, MakeBone(d, Some(src), bake.transform), bake.letter, ParentName(bake.source, src))
  }

  /** The entries of one bake, in the source table's order. */
  function BakeEntries(bake: Bake): (r: seq<Entry>)
    requires WellFormed(bake.source)
    ensures |r| == |bake.source.order|
  {
    seq(|bake.source.order|, j requires 0 <= j < |bake.source.order| => EntryOf(bake, bake.source.order[j]))
  }

  /** The entries of all bakes, bake after bake. */
  function AllEntries(bakes: seq<Bake>): seq<Entry>
    requires BakesWellFormed(bakes)
  {
    if bakes == [] then [] else AllEntries(bakes[..|bakes| - 1]) + BakeEntries(bakes[|bakes| - 1])
  }

  function Keys(es: seq<Entry>): (r: seq<string>)
    ensures |r| == |es| && forall i :: 0 <= i < |es| ==> r[i] == es[i].key
  {
    seq(|es|, i requires 0 <= i < |es| => es[i].key)
  }

  /** The first loop: every entry is stored in turn; the first clash stops it with the error. */
  function InsertAll(t: BoneTable, es: seq<Entry>): (r: Result<BoneTable>)
    requires WellFormed(t)
    ensures r.Success? ==> WellFormed(r.value)
  {
    if es == [] then Success(t)
    else
      match InsertAll(t, es[..|es| - 1])
      case Failure(m) => Failure(m)
      case Success(t') => Insert(t', es[|es| - 1].key, es[|es| - 1].bone)
  }

  /**
   * The parent link after re-pointing: a bone with a source parent gets the destination bone
   * keyed by that parent's suffixed name, or none when the destination has no such key.
   */
  function Rewired(b: MetaBone, e: Entry, keys: set<string>): MetaBone
  {
    match e.parentName
    case None => b
    case Some(n) =>
      var d := Suffixed(n, e.letter);
      b.(attrs := b.attrs.(parent := if d in keys then Some(d) else None))
  }

  /** The second loop: re-points the parent of every entry's destination bone. */
  function RewireAll(t: BoneTable, es: seq<Entry>): (r: BoneTable)
    requires forall i :: 0 <= i < |es| ==> es[i].key in t.bones
    ensures r.order == t.order && r.bones.Keys == t.bones.Keys
  {
    if es == [] then t
    else
      var t' := RewireAll(t, es[..|es| - 1]);
      var e := es[|es| - 1];
      Update(t', e.key, Rewired(t'.bones[e.key], e, t'.bones.Keys))
  }

  /** `MetaBoneDict.from_bakedata`. */
  function FromBakedataSpec(bakes: seq<Bake>): Result<BoneTable>
    requires BakesWellFormed(bakes)
  {
    var es := AllEntries(bakes);
    match InsertAll(EmptyTable, es)
    case Failure(m) => Failure(m)
    case Success(t) =>
      InsertAllContents(EmptyTable, es);
      Success(RewireAll(t, es))
  }

  /** No key of `ks` is in the table already. */
  ghost predicate Fresh(t: BoneTable, ks: seq<string>)
  {
    forall k :: k in ks ==> k !in t.bones
  }

  /** A successful run appends the entries' keys and keeps every bone that was there. */
  lemma {:induction false} InsertAllContents(t: BoneTable, es: seq<Entry>)
    requires WellFormed(t) && InsertAll(t, es).Success?
    ensures var r := InsertAll(t, es).value;
            && r.order == t.order + Keys(es)
            && (forall k :: k in r.bones <==> k in t.bones || k in Keys(es))
            && (forall k :: k in t.bones ==> r.bones[k] == t.bones[k])
  {
    if es != [] {
      var es' := es[..|es| - 1];
      var e := es[|es| - 1];
      InsertAllContents(t, es');
      assert Keys(es) == Keys(es') + [e.key];
    }
  }

  /** A successful run stores every entry's bone under its key. */
  lemma {:induction false} InsertAllValues(t: BoneTable, es: seq<Entry>)
    requires WellFormed(t) && InsertAll(t, es).Success?
    ensures var r := InsertAll(t, es).value;
            forall i :: 0 <= i < |es| ==> es[i].key in r.bones && r.bones[es[i].key] == es[i].bone
  {
    if es != [] {
      var es' := es[..|es| - 1];
      var e := es[|es| - 1];
      InsertAllValues(t, es');
      var t' := InsertAll(t, es').value;
      var r := InsertAll(t, es).value;
      assert r.bones == t'.bones[e.key := e.bone];
      forall i | 0 <= i < |es'| ensures es[i].key in r.bones && r.bones[es[i].key] == es[i].bone {
        assert es[i] == es'[i];
      }
    }
  }

  /** Storing a run of entries succeeds exactly when their keys are fresh and pairwise distinct. */
  lemma {:induction false} InsertAllSucceeds(t: BoneTable, es: seq<Entry>)
    requires WellFormed(t)
    ensures InsertAll(t, es).Success? <==> Distinct(Keys(es)) && Fresh(t, Keys(es))
  {
    if es == [] {
      assert Keys(es) == [];
    } else {
      var es' := es[..|es| - 1];
      var e := es[|es| - 1];
      InsertAllSucceeds(t, es');
      assert Keys(es) == Keys(es') + [e.key];
      DistinctSnoc(Keys(es'), e.key);
      if InsertAll(t, es').Success? {
        InsertAllContents(t, es');
      } else if Fresh(t, Keys(es)) {
        assert Fresh(t, Keys(es'));
      }
    }
  }

  /** Once a run of entries has failed, storing more entries keeps the same error. */
  lemma {:induction false} InsertAllPrefixFailure(t: BoneTable, a: seq<Entry>, b: seq<Entry>)
    requires WellFormed(t) && InsertAll(t, a).Failure?
    ensures InsertAll(t, a + b) == InsertAll(t, a)
  {
    if b == [] {
      assert a + b == a;
    } else {
      var b', e := b[..|b| - 1], b[|b| - 1];
      assert (a + b)[..|a + b| - 1] == a + b' && (a + b)[|a + b| - 1] == e;
      InsertAllPrefixFailure(t, a, b');
      assert InsertAll(t, a + b) == InsertAll(t, (a + b)[..|a + b| - 1]);
    }
  }

  /** A run that begins with a failing run fails the same way. */
  lemma InsertAllFailedPrefix(t: BoneTable, a: seq<Entry>, es: seq<Entry>)
    requires WellFormed(t) && a <= es && InsertAll(t, a).Failure?
    ensures InsertAll(t, es) == InsertAll(t, a)
  {
    InsertAllPrefixFailure(t, a, es[|a|..]);
    assert a + es[|a|..] == es;
  }

  /** Re-pointing touches each entry's own bone once and leaves every other bone alone. */
  lemma {:induction false} RewireAllSpec(t: BoneTable, es: seq<Entry>)
    requires forall i :: 0 <= i < |es| ==> es[i].key in t.bones
    requires Distinct(Keys(es))
    ensures var r := RewireAll(t, es);
            && (forall i :: 0 <= i < |es| ==> r.bones[es[i].key] == Rewired(t.bones[es[i].key], es[i], t.bones.Keys))
            && (forall k :: k in t.bones && k !in Keys(es) ==> r.bones[k] == t.bones[k])
  {
    if es != [] {
      var es' := es[..|es| - 1];
      var e := es[|es| - 1];
      assert Keys(es) == Keys(es') + [e.key];
      assert Distinct(Keys(es')) by {
        forall i, j | 0 <= i < j < |es'| ensures Keys(es')[i] != Keys(es')[j] {
          assert Keys(es')[i] == Keys(es)[i] && Keys(es')[j] == Keys(es)[j];
        }
      }
      RewireAllSpec(t, es');
      assert e.key !in Keys(es') by {
        forall i | 0 <= i < |es'| ensures Keys(es')[i] != e.key {
          assert Keys(es)[i] != Keys(es)[|es| - 1];
        }
      }
    }
  }

  /** Every bone of every bake has its entry among all entries. */
  lemma {:induction false} EntryInAll(bakes: seq<Bake>, i: nat, k: string)
    requires BakesWellFormed(bakes) && i < |bakes| && k in bakes[i].source.bones
    ensures EntryOf(bakes[i], k) in AllEntries(bakes)
  {
    var last := |bakes| - 1;
    var prefix := bakes[..last];
    assert BakesWellFormed(prefix) by {
      forall j | 0 <= j < |prefix| ensures WellFormed(prefix[j].source) {
        assert prefix[j] == bakes[j];
      }
    }
    if i == last {
      var j :| 0 <= j < |bakes[i].source.order| && bakes[i].source.order[j] == k;
      assert BakeEntries(bakes[i])[j] == EntryOf(bakes[i], k);
    } else {
      assert prefix[i] == bakes[i];
      EntryInAll(prefix, i, k);
    }
  }

  /** Every entry comes from some bone of some bake. */
  lemma {:induction false} EntryFromSomeBake(bakes: seq<Bake>, e: Entry)
    requires BakesWellFormed(bakes) && e in AllEntries(bakes)
    ensures exists i, k :: 0 <= i < |bakes| && k in bakes[i].source.bones && e == EntryOf(bakes[i], k)
  {
    var last := |bakes| - 1;
    var prefix := bakes[..last];
    assert BakesWellFormed(prefix) by {
      forall j | 0 <= j < |prefix| ensures WellFormed(prefix[j].source) {
        assert prefix[j] == bakes[j];
      }
    }
    if e in AllEntries(prefix) {
      EntryFromSomeBake(prefix, e);
      var i, k :| 0 <= i < |prefix| && k in prefix[i].source.bones && e == EntryOf(prefix[i], k);
      assert prefix[i] == bakes[i];
    } else {
      var j :| 0 <= j < |BakeEntries(bakes[last])| && BakeEntries(bakes[last])[j] == e;
      assert bakes[last].source.order[j] in bakes[last].source.bones;
    }
  }
  /** Baking fails exactly when two bones, of the same bake or of different ones, get the same destination key. */
  lemma FromBakedataSucceeds(bakes: seq<Bake>)
    requires BakesWellFormed(bakes)
    ensures FromBakedataSpec(bakes).Success? <==> Distinct(Keys(AllEntries(bakes)))
  {
    InsertAllSucceeds(EmptyTable, AllEntries(bakes));
  }

  /** Each destination key is the suffixed key of some source bone. */
  lemma KeyFromSomeBake(bakes: seq<Bake>, d: string)
    requires BakesWellFormed(bakes) && d in Keys(AllEntries(bakes))
    ensures exists i, k :: 0 <= i < |bakes| && k in bakes[i].source.bones && d == EntryOf(bakes[i], k).key
  {
    var es := AllEntries(bakes);
    var n :| 0 <= n < |es| && Keys(es)[n] == d;
    EntryFromSomeBake(bakes, es[n]);
  }

  /** Each source bone has its suffixed key among the destination keys. */
  lemma KeyOfEntryInAll(bakes: seq<Bake>, i: nat, k: string)
    requires BakesWellFormed(bakes) && i < |bakes| && k in bakes[i].source.bones
    ensures EntryOf(bakes[i], k).key in Keys(AllEntries(bakes))
  {
    var es := AllEntries(bakes);
    EntryInAll(bakes, i, k);
    var n :| 0 <= n < |es| && es[n] == EntryOf(bakes[i], k);
    assert Keys(es)[n] == es[n].key;
  }

  /** The destination holds exactly the suffixed source keys, bake after bake in source order. */
  lemma FromBakedataKeys(bakes: seq<Bake>)
    requires BakesWellFormed(bakes) && FromBakedataSpec(bakes).Success?
    ensures var r := FromBakedataSpec(bakes).value;
            && WellFormed(r)
            && r.order == Keys(AllEntries(bakes))
            && (forall d :: d in r.bones <==>
                  exists i, k :: 0 <= i < |bakes| && k in bakes[i].source.bones && d == EntryOf(bakes[i], k).key)
  {
    var es := AllEntries(bakes);
    InsertAllContents(EmptyTable, es);
    forall d | d in Keys(es) {
      KeyFromSomeBake(bakes, d);
    }
    forall i, k | 0 <= i < |bakes| && k in bakes[i].source.bones {
      KeyOfEntryInAll(bakes, i, k);
    }
  }

  /** Each destination bone is the (transformed) copy of its source bone with its parent re-pointed. */
  lemma FromBakedataBones(bakes: seq<Bake>)
    requires BakesWellFormed(bakes) && FromBakedataSpec(bakes).Success?
    ensures var r := FromBakedataSpec(bakes).value;
            forall i, k {:trigger EntryOf(bakes[i], k)} :: 0 <= i < |bakes| && k in bakes[i].source.bones ==>
              var e := EntryOf(bakes[i], k);
              e.key in r.bones && r.bones[e.key] == Rewired(e.bone, e, r.bones.Keys)
  {
    var es := AllEntries(bakes);
    InsertAllContents(EmptyTable, es);
    InsertAllValues(EmptyTable, es);
    InsertAllSucceeds(EmptyTable, es);
    var t := InsertAll(EmptyTable, es).value;
    RewireAllSpec(t, es);
    forall i, k | 0 <= i < |bakes| && k in bakes[i].source.bones
      ensures EntryOf(bakes[i], k) in es
    {
      EntryInAll(bakes, i, k);
    }
  }

  /** One destination bone of the bake-th bake, keyed by the suffixed source key. */
  lemma BakedBoneClean(bakes: seq<Bake>, i: nat, k: string)
    requires BakesWellFormed(bakes) && FromBakedataSpec(bakes).Success?
    requires i < |bakes| && k in bakes[i].source.bones
    ensures var r := FromBakedataSpec(bakes).value;
            var d := EntryOf(bakes[i], k).key;
            && d in r.bones
            && r.bones[d].constraints == [] && r.bones[d].rig == NoRigInfo
            && (r.bones[d].attrs.parent.Some? ==> r.bones[d].attrs.parent.value in r.bones)
  {
    FromBakedataBones(bakes);
    var e := EntryOf(bakes[i], k);
    assert e.parentName.None? <==> bakes[i].source.bones[k].attrs.parent.None?;
  }

  /**
   * No destination bone carries constraints or rig info, and every parent link stays inside
   * the destination.
   */
  lemma FromBakedataClean(bakes: seq<Bake>)
    requires BakesWellFormed(bakes) && FromBakedataSpec(bakes).Success?
    ensures var r := FromBakedataSpec(bakes).value;
            && (forall d :: d in r.bones ==> r.bones[d].constraints == [] && r.bones[d].rig == NoRigInfo)
            && (forall d :: d in r.bones && r.bones[d].attrs.parent.Some? ==> r.bones[d].attrs.parent.value in r.bones)
  {
    var r := FromBakedataSpec(bakes).value;
    FromBakedataKeys(bakes);
    forall d | d in r.bones
      ensures r.bones[d].constraints == [] && r.bones[d].rig == NoRigInfo
      ensures r.bones[d].attrs.parent.Some? ==> r.bones[d].attrs.parent.value in r.bones
    {
      var i, k :| 0 <= i < |bakes| && k in bakes[i].source.bones && d == EntryOf(bakes[i], k).key;
      BakedBoneClean(bakes, i, k);
    }
  }
}

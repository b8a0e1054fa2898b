# BEPUik rig tools: the skeleton bookkeeping, in Dafny

This project models the host-independent core of the `bepuik_tools` add-on, which builds
BEPUik rigs for Blender armatures.

The rig builder (`riggenerator.py`) describes a skeleton as "meta-bones" before the host sees
any of it:

- plain bone records, with their authored constraint records;
- kept in a `MetaBoneDict`, a table that refuses duplicate keys and reads a missing key as
  `None`;
- merged from labelled sub-skeletons with side suffixes (`hand.L`);
- grown as chains from (transform, length) pairs;
- decorated by rig-authoring rules (mechanical flags, limits, controls, swing centres);
- pushed onto the host armature in four ordered passes;
- sorted into armature layers by name and lock flags.

The operators (`__init__.py`) query posed bones:

- filtering pose channels by name pattern;
- searching a channel's constraints for controls;
- clearing control rigidities in place;
- naming the targets that "Create Control and Target" adds.

Modules, one file each:

| module | file | what it holds |
|---|---|---|
| `Util` | `util.dfy` | options, results, string predicates, decimal printing |
| `Suffix` | `suffix.dfy` | side-suffix parsing and printing |
| `Geometry` | `geometry.dfy` | vectors and 4x4 matrices over exact reals |
| `MetaBones` | `metabone.dfy` | the bone record and its constraint records |
| `Tables` | `tables.dfy` | the value of a bone table |
| `Baking` | `baking.dfy` | `from_bakedata` as a function |
| `Chains` | `chains.dfy` | chains from (transform, length) pairs, and phalanges |
| `Push` | `push.dfy` | `to_ob` against a host sink, as a function |
| `Passes` | `passes.dfy` | the four loops of `to_ob` |
| `BoneDicts` | `bonedict.dfy` | the `MetaBoneDict` class |
| `Rules` | `rules.dfy` | the rig-authoring rules |
| `Segments` | `segments.dfy` | the digit-segment pickers |
| `Layers` | `layers.dfy` | `organize_pchan_layer` |
| `PoseQuery` | `posequery.dfy` | the `__init__.py` helpers |

Modelling choices:

- **Bones are values.** A meta-bone is a `datatype`. A bone refers to other bones (its
  parent, the endpoints of its constraints) by their key in the owning table.
- **The table is a class.** `MetaBoneDict` is a `class` whose fields are the keys, in
  insertion order, and the key-to-bone map. Each method is proved against the `Tables`,
  `Baking`, `Chains` or `Push` function that specifies it.
- **The host is a value.** It is seen only through the bone names it holds, the constraint
  names on each pose channel, and the log of calls made on it.
- **Lengths are compared squared.** Every 1e-4 length test is stated on the squared length
  against 1e-8, which is equivalent.
- **Patterns are prefix tests.** The regular expressions of the pose filters are written as
  prefix matchers. Each matcher is proved equal to the "exists a split" reading of its pattern.

## Model

| member | source | states |
|---|---|---|
| Suffix.SplitSuffix | riggenerator.py:231-236 | the two parts concatenate to the name; the suffix is empty or a delimiter `_ . - space` followed by an ASCII letter, and it is non-empty whenever the name ends that way |
| Suffix.GetSuffixLetter | riggenerator.py:238-244 | a letter is returned exactly when the name ends with a side suffix, and it is the last character |
| Suffix.Suffixed | riggenerator.py:530-534 | the result starts with the name; an empty letter leaves the name unchanged; otherwise it ends with the letter and is one character longer than name plus letter |
| Suffix.SuffixedRoundTrip | riggenerator.py:231-244 | splitting `suffixed(n, c)` gives back `(n, "." + c)`, and its side letter is `c` |
| Suffix.SuffixedInjective | riggenerator.py:530-534 | two names suffixed with the same letter are equal only when the names are |
| Suffix.SplitUnsuffixed | riggenerator.py:231-244 | a name without a side suffix splits into itself and "", and has no side letter |
| MetaBones.IsValid | riggenerator.py:429-430 | a valid bone has distinct head and tail |
| MetaBones.MakeBone | riggenerator.py:398-414 | a new bone has the given name, no constraints and no rig info; its attributes are the defaults, or the source's when one is given and nothing is moved |
| MetaBones.MakeBoneMoved | riggenerator.py:408-411 | a transform moves head and tail as points and turns the roll axis as a direction; every other attribute is kept |
| MetaBones.DefaultConstraintName | riggenerator.py:478-480 | the default name is the lower-cased type, "_", then the new count printed in decimal |
| MetaBones.NewConstraint | riggenerator.py:478-487 | exactly one record is appended, owned by the bone and aimed at the target, under the given name or else the default one; nothing else changes |
| MetaBones.DefaultNamesDiffer | riggenerator.py:478-480 | default names made at different counts never coincide, whatever the types |
| Tables.Lookup | riggenerator.py:542-546 | a missing key reads as `None`; a present key gives its bone |
| BoneDicts.MetaBoneDict.constructor | riggenerator.py:539-540 | a new table is empty and well formed |
| Tables.Insert | riggenerator.py:548-551 | storing fails exactly when the key is present, with the duplicate-key message; otherwise the key is appended and the bone stored |
| BoneDicts.MetaBoneDict.Get | riggenerator.py:542-546 | `__getitem__` returns the stored bone, or `None` for a missing key, without failing |
| BoneDicts.MetaBoneDict.SetItem | riggenerator.py:548-551 | a present key is refused with the duplicate-key message and the table is unchanged; otherwise the table becomes the insertion |
| BoneDicts.MetaBoneDict.NewBone | riggenerator.py:553-555 | the stored bone's name equals its key; a duplicate key leaves the table unchanged |
| BoneDicts.MetaBoneDict.NewBoneByFraction | riggenerator.py:557-571 | stores under `name` the piece of the source between the fractions, renamed `<source>-<name>`; a duplicate key is refused |
| BoneDicts.FractionPieces | riggenerator.py:557-571 | the default fractions span the whole source bone; pieces cut at a shared fraction meet; every other attribute is the default |
| BoneDicts.MetaBoneDict.GetArgsSubset | riggenerator.py:687-697 | succeeds exactly when every local name is stored under `<local>.<letter>` or under itself; the result maps exactly the local names, each to that bone, the sided key winning; a failure is the assertion message for the first local name stored under neither key |
| BoneDicts.MetaBoneDict.InsertEntries | riggenerator.py:576-578 | the first loop over one bake stores every copy in order and stops at the first clash |
| BoneDicts.MetaBoneDict.RewireEntries | riggenerator.py:582-587 | the second loop over one bake re-points each copy's parent at the bone keyed by the suffixed source parent |
| BoneDicts.MetaBoneDict.RewireEntry | riggenerator.py:584-587 | one pass of that loop changes only the copy under the entry's key: a copy with a source parent is re-pointed at the suffixed parent's key when it is stored and cleared when it is not; the key set and order stay the same |
| BoneDicts.MetaBoneDict.FromBakedata | riggenerator.py:573-589 | the table built equals the bake specification, or the same clash error |
| Baking.FromBakedataSucceeds | riggenerator.py:573-579 | baking fails exactly when two source bones, of one bake or of two, get the same suffixed key |
| Baking.FromBakedataKeys | riggenerator.py:576-578 | the keys are exactly the suffixed source keys, bake after bake, in source order |
| Baking.FromBakedataBones | riggenerator.py:573-589 | each destination bone is the (transformed) copy of its source bone with its parent re-pointed |
| Baking.FromBakedataClean | riggenerator.py:582-587 | no copied bone has constraints or rig info, and every parent link stays inside the result |
| Baking.InsertAllSucceeds | riggenerator.py:576-578 | storing a run of copies succeeds exactly when their keys are fresh and pairwise distinct |
| Baking.RewireAllSpec | riggenerator.py:582-587 | re-pointing changes only the parent of each copy's own bone and leaves every other bone alone |
| BoneDicts.MetaBoneDict.FromTransformLengthPairs | riggenerator.py:594-623 | the table built by the loop equals the chain specification |
| BoneDicts.MetaBoneDict.AppendChainBone | riggenerator.py:601-621 | one pass of that loop stores exactly the next chain bone, advances the running matrix past it, and leaves the new bone's tail where the matrix now stands |
| Chains.ChainShape | riggenerator.py:594-623 | n pairs give n bones keyed `name-1` to `name-n` in order; bone 1 has no parent and is not connected; bone k>1 hangs from bone k-1 and is connected exactly when that bone's tail is within 1e-4 of its head |
| Chains.ChainTails | riggenerator.py:600-605 | each tail is the head moved along the head frame's Y axis by the pair's length |
| Chains.ConnectedWhenNotTranslated | riggenerator.py:608-614 | a transform without translation joins the bone to its predecessor |
| Chains.ChainKeysDistinct | riggenerator.py:601 | the chain keys are pairwise distinct, so no insertion of the chain clashes |
| BoneDicts.MetaBoneDict.FromAngleLengthPairs | riggenerator.py:626-633 | every angle becomes a rotation about X, then the chain is built from those pairs |
| BoneDicts.PhalangeDict | riggenerator.py:861-867 | the pairs built by the loop are the phalange's: first angle 0, every later one `curl`, every length scaled |
| Chains.PhalangePairs | riggenerator.py:861-866 | one pair per segment: the first uncurled, the rest curled by `curl`, each length times the scale |
| Chains.PhalangeChainConnected | riggenerator.py:861-867 | a phalange has one bone per segment, each after the first connected to the one before |
| BoneDicts.MetaBoneDict.ToOb | riggenerator.py:658-685 | materialising runs the four passes of the push specification, in order |
| Passes.CreateEbones | riggenerator.py:665-668 | the first loop creates each valid bone the host lacks, in key order, and remembers it |
| Passes.SetParents | riggenerator.py:671-674 | the second loop parents each created bone whose parent is stored and valid, in order |
| Passes.ApplyPoses | riggenerator.py:678-680 | the third loop writes the pose data of each created bone, in order |
| Passes.AddBoneConstraints | riggenerator.py:471-476 | each constraint whose name the pose channel lacks is added, in order; the others are skipped |
| Passes.AddConstraints | riggenerator.py:682-685 | the fourth loop adds the constraints of every valid bone |
| Push.CreatePassSpec | riggenerator.py:665-668 | after the first pass the host holds every valid name; the bones created are exactly the valid bones it lacked, each name once, in order |
| Push.ConstraintsForBone | riggenerator.py:471-476 | afterwards every constraint name is on the pose channel, nothing present is lost, and only additions on that bone are logged |
| Push.AttrWrites | riggenerator.py:280-322 | an angle attribute holding a number is written once, in radians; a bone reference writes only `<attr>_subtarget`, with the bone's current name; every write goes to `<attr>` or to its `_subtarget`, `_target` or `_head_tail` companion |
| Push.ConstraintWrites | riggenerator.py:259-337 | a BEPUik constraint is aimed at the armature and at the target bone's current name, takes `rigidity` as its BEPUik rigidity, and makes every write each other non-excluded attribute calls for, and nothing else; any other constraint is aimed at the armature and the target bone and copies each non-excluded attribute as it is, and nothing else |
| Push.AngleLimitInRadians | riggenerator.py:285-287 | `max_swing` and `max_twist` reach the host converted from degrees to radians, and that is the only value written to them |
| Push.WritesExactly | riggenerator.py:259-337 | a BEPUik constraint without `rigidity` writes exactly a given set when that set holds the connection and each attribute's writes and holds nothing else |
| Push.PushLog | riggenerator.py:658-685 | the log grows by the creations, then the parentings, then the posings, then constraint additions on valid bones only |
| Push.PushPhasesInOrder | riggenerator.py:658-685 | every creation precedes every parenting, which precedes every posing, which precedes every constraint addition |
| Push.PushCreatesMissingValidBones | riggenerator.py:665-668 | afterwards the host holds every valid name; exactly the valid bones it lacked are created, none twice |
| Push.PushTargetsExist | riggenerator.py:671-685 | every call names bones the host holds, including parents |
| Push.Push | riggenerator.py:658-685 | afterwards the host holds exactly its earlier bones and the names of the valid bones, and every valid bone has each of its constraints by name |
| Push.PushIdempotent | riggenerator.py:658-685 | pushing the same table a second time makes no call and changes nothing |
| Rules.FlagMechanical | riggenerator.py:1560-1567 | every location, rotation and scale axis is locked, W too; the name gains `MCH-` unless it has it; nothing else changes |
| Rules.FlagMechanicalIdempotent | riggenerator.py:1560-1567 | flagging twice is flagging once; the prefix is never doubled |
| Rules.FlagDeformingBallsocket | riggenerator.py:1823-1826 | the bone deforms, joins the BEPUik solve and gets rigidity 16; nothing else changes |
| Rules.FlagDeformingBallsocketIdempotent | riggenerator.py:1823-1826 | applying it twice is applying it once |
| Rules.TwistLimit | riggenerator.py:1038-1046 | one default-named BEPUik twist limit towards the other bone is appended, with the Y axes aligned, the Z axes measured and the twist in degrees |
| Rules.TwistLimitOnHost | riggenerator.py:1038-1044 | on the host a twist limit connects to the second bone, aims the Y axes and the Z measurement axes at the two bones by name, and sets `max_twist` in radians; nothing else is written |
| Rules.SwingLimit | riggenerator.py:1048-1052 | one default-named BEPUik swing limit between the two Y axes, of the given width, is appended |
| Rules.RevoluteJoint | riggenerator.py:1598-1599 | one default-named BEPUik revolute joint, free about the owner's X axis, is appended |
| Rules.AntiparallelLimiter | riggenerator.py:1828-1832 | a swing limit of `180 - degrees` is appended; an angle within a half turn gives a cone within a half turn |
| Rules.SwingLimitOnHost | riggenerator.py:1048-1052 | on the host a swing limit connects to the second bone, aims both Y axes at their bones by name, and sets `max_swing` in radians; nothing else is written |
| Rules.AntiparallelDefaultOnHost | riggenerator.py:1828-1832 | with the default 20 degrees the cone is 160 degrees: on the host exactly the connection, the two Y axes and `max_swing` of 160 degrees in radians are written |
| Rules.TargetAffected | riggenerator.py:1026-1034 | the affected bone gets a BEPUik control towards the target, named after it; the target is drawn as wire and cannot be scaled; only those two bones change |
| Rules.TargetAffectedControl | riggenerator.py:1026-1034 | for two bones, the affected one gains exactly one control with the given rigidities and pulled point `(0, headtotail, 0)`; the target gains no constraint |
| Rules.TargetAffectedOnHost | riggenerator.py:1026-1031 | on the host the control connects to the target and writes exactly its orientation rigidity, its BEPUik rigidity and the pulled point `(0, headtotail, 0)` |
| Rules.MarkTarget | riggenerator.py:1033-1034 | a target is drawn as wire and all its scale axes are locked; nothing else changes |
| Rules.SwingHalfWidth | riggenerator.py:1610 | the half-width `|max - min| / 2` is never negative |
| Rules.SwingCentreCoversRange | riggenerator.py:1601-1610 | the cone of the half-width about the mid angle reaches exactly from the smaller bound to the larger, whichever is given as the maximum |
| Rules.PlaceSwingCentre | riggenerator.py:1602-1605 | the swing centre starts at the given point, ends at that point plus the given offset, hangs from `fa`, and is mechanical, so flagging it again changes nothing |
| Rules.RevoluteSwingCentre | riggenerator.py:1597-1610 | `fa` gets a revolute joint, then a swing limit of the half-width about the swing centre's Y axis; only `fa` and the swing centre change |
| Rules.JointThenSwingLimit | riggenerator.py:1597-1610 | `fa` keeps its name, attributes and earlier constraints, and gains exactly the revolute joint and the swing limit, in that order |
| Rules.RevoluteSwingCentreParts | riggenerator.py:1597-1610 | for a swing centre other than `fa`, each of the two bones is the composition of the rules applied to it, in order |
| Rules.AlignFinger | riggenerator.py:1644-1648 | the hand and the four finger bones take the given roll alignment and nothing else about them changes; every other bone is unchanged |
| Rules.DeformingMechanical | riggenerator.py:1669-1670 | a palm without swing deforms and is flagged mechanical |
| Rules.FingerPalm | riggenerator.py:1643-1675 | the palm part of `rig_finger`, as a function of the four bones and the measured hand-to-palm angle |
| Rules.SwingingPalm | riggenerator.py:1653-1666 | the branch for a palm with a swing changes only the hand, the palm and the first segment |
| Rules.RigidPalm | riggenerator.py:1667-1675 | the branch for a palm without a swing changes only the palm and the first segment |
| Rules.FingerPalmSwingingParts | riggenerator.py:1653-1666 | with a swing, each changed bone is the composition of the rules applied to it, in order |
| Rules.FingerPalmRigidParts | riggenerator.py:1667-1675 | without a swing, each changed bone is the composition of the rules applied to it |
| Rules.FingerPalmBranches | riggenerator.py:1644-1675 | all five bones take the roll alignment, and the last two gain no constraint; the palm hangs from the hand; a swinging palm is a BEPUik ball socket, the hand gains exactly a revolute joint and a swing limit at least as wide as both the swing and the measured angle, and the first segment hangs from the palm, connected; otherwise the palm is deforming and mechanical, the hand gains nothing, and the first segment hangs from the hand, unconnected |
| Segments.GetSegmentSiblings | riggenerator.py:1290-1297 | the loop returns the present segment-`s` bones of digits 1 to 5, in digit order |
| Segments.GetFinalSegments | riggenerator.py:1299-1308 | the loop returns, for each digit in order, its first present segment among 3, 2, 1 |
| Segments.SiblingsSpec | riggenerator.py:1290-1297 | a bone is returned exactly when it is segment `s` of some digit 1 to 5, and there are at most five |
| Segments.FinalCandidateSpec | riggenerator.py:1301-1306 | looking among segments 3, 2 and 1, a digit yields a bone exactly when one of them is present; it is the highest-numbered one present, every higher one of the three being absent |
| Segments.FinalSegmentsCount | riggenerator.py:1299-1308 | at most one bone per digit, each the last segment of some digit |
| Segments.FirstPresentSpec | riggenerator.py:1302-1306 | the first stored key decides: a bone is found exactly when some key is stored, and every key before it is absent |
| Segments.SegmentKeyInjective | riggenerator.py:1284-1285 | single-digit digit and segment numbers give different keys for different positions |
| Segments.PresentMembers | riggenerator.py:1290-1297 | a bone is picked exactly when it is stored under one of the keys |
| Layers.LayerIndices | riggenerator.py:1920-1961 | every collected index is one of the 32 layers; the deform and BEPUik layers are set exactly when the channel's flags are |
| Layers.OrganizePchanLayer | riggenerator.py:1920-1961 | the vector has 32 slots and is true exactly at the layer indices collected from the flags, the locks and the first qualifying region |
| Layers.SearchRegions | riggenerator.py:1954-1959 | the region search loop returns the layer that the first-match rule chooses (see `Layers.FirstRegionLayerSpec`) |
| Layers.AnimatableOrMechanical | riggenerator.py:1935-1944 | exactly one of the animatable and mechanical layers is set, the mechanical one exactly when every channel is locked |
| Layers.FullyLockedHasNoRegion | riggenerator.py:1940-1950 | a fully locked bone gets no body-region layer |
| Layers.UnlockedRegion | riggenerator.py:1950-1959 | any other bone gets at most one body-region layer, that of the first qualifying substring set |
| Layers.FirstRegionLayerSpec | riggenerator.py:1954-1959 | a region layer is chosen exactly when some set occurs in the hint and maps the side letter, and it is the first such set's |
| Layers.AnyInSpec | riggenerator.py:1955 | a substring set occurs in the hint exactly when one of its substrings does |
| Layers.UnmappedMatchPassesOn | riggenerator.py:1954-1959 | a matching set without a layer for the letter does not stop the search; the next qualifying set decides |
| Layers.RegionLayerIsRegion | riggenerator.py:85-112 | every mapped layer is one of the body-region layers |
| Layers.FootLeftIsLeg | riggenerator.py:1920-1961 | a movable bone named `foot.L` with no hint lands on the left-leg layer and on no other region layer |
| PoseQuery.SelectPoseBones | __init__.py:76-114 | the filter loop of `get_toes`, `get_finger_rotators`, `get_fingers` and `get_palm_bones` returns the selection specification |
| PoseQuery.SelectedMembers | __init__.py:76-114 | exactly the channels whose name ends with the suffix and matches the pattern are kept |
| PoseQuery.SelectedAppend | __init__.py:76-114 | filtering distributes over concatenation, so the kept channels stay in input order |
| PoseQuery.DashPairEndSpec | __init__.py:77 | the matcher for `[0-9]+-[0-9]+` succeeds exactly when the text splits into digits, a dash and digits |
| PoseQuery.FingerRotatorNameSpec | __init__.py:87 | `finger[0-9]+-[0-9]+ rot` matches exactly when the name splits into "finger", digits, "-", digits and " rot" |
| PoseQuery.PalmNameSpec | __init__.py:108 | `finger[0-9]+-1` matches exactly when the name splits into "finger", digits and "-1" |
| PoseQuery.PalmAndRotatorAreFingers | __init__.py:96-111 | palm bones and finger rotators also match the finger pattern |
| PoseQuery.FindByName | __init__.py:120-121 | a channel is found exactly when one has that name, and it is a channel of the pose with that name |
| PoseQuery.GetBone | __init__.py:117-123 | the channel named `name + suffix` when there is one, else `None` |
| PoseQuery.IsUniqueBoneName | __init__.py:604-611 | true exactly when no bone has that name |
| PoseQuery.FindControlWithTarget | __init__.py:144-149 | the first BEPUik control aimed at the target, or `None` exactly when there is none |
| PoseQuery.FirstPullingControl | __init__.py:557-568 | the first control whose target is a bone of the pose and whose pulled point equals the given one, or `None` exactly when there is none |
| PoseQuery.FirstControlWithPulledPoint | __init__.py:557-568 | the search loop with early return returns that first control |
| PoseQuery.AnyHeadControl | __init__.py:588-601 | the bone's own head control wins; otherwise only a parent tail control with the parent's tail within 1e-4 of the head is returned |
| PoseQuery.AnyTailControl | __init__.py:571-585 | the bone's own tail control wins; otherwise only the head control of a child whose head is within 1e-4 of the tail is returned; `None` means no such child has one |
| PoseQuery.GetAnyTailControl | __init__.py:571-585 | the loop over the children returns the corrected tail-control search |
| PoseQuery.AnyTailControlAsWritten | __init__.py:571-585 | as written, a control is found exactly when the bone has its own tail control, or its own head control and some child whose head lies within 1e-4 of its tail; it is always one of the bone's own |
| PoseQuery.TailControlAsWrittenMissesChildControl | __init__.py:578-583 | a bone with a connected child pinned by its own head control: the search as written returns `None`, the corrected one returns that control |
| PoseQuery.ClearedAll | __init__.py:126-131 | the cleared list has the same length, and each entry is its constraint cleared |
| PoseQuery.ClearControlRigidities | __init__.py:126-131 | the array afterwards holds every constraint cleared: controls lose their rigidities, others are unchanged |
| PoseQuery.ClearedAllSpec | __init__.py:126-131 | afterwards no control keeps any rigidity; only the three rigidity fields of controls change; clearing twice is clearing once |
| PoseQuery.ClearedKeepsPullingControl | __init__.py:126-131 | clearing does not change which control the pulled-point search finds |
| PoseQuery.BonesWithControls | __init__.py:647-668 | none for empties or other positions; at head-to-tail 0 exactly the selected channels with their own head control or a parent's tail control at their head; at 1 exactly those the tail search as written accepts |
| PoseQuery.BonesWithControlsCorrected | __init__.py:647-668 | with the corrected tail search, at head-to-tail 1 a selected channel is listed when it has its own tail control or a child at its tail has its own head control; otherwise as the operator |
| PoseQuery.OperatorMissesChildControl | __init__.py:656-659 | on the pose of the finding, the operator reports no bone with a control, the corrected search reports "upper" |
| PoseQuery.TargetName | __init__.py:682-706 | empties' targets start with the armature's name and a space; an explicit name starts a bone target's name; the bone's side suffix ends it |
| PoseQuery.ChosenPresuffix | __init__.py:699-704 | the presuffix is empty exactly when none was given and none is needed |
| PoseQuery.TargetNamePlainExactly | __init__.py:682-706 | a target bone gets the plain name `name + suffix` exactly when an explicit name was given, no presuffix was asked for, and no bone has that name |
| PoseQuery.TargetNameDiffersFromBone | __init__.py:682-706 | a target named after the bone's own base name never takes the bone's name |
| PoseQuery.NewTarget | __init__.py:708-715 | an empty is made only under a name no object has; a target bone only under a name no bone has, and only for a bone without a control there |

## Left out

- Host interaction is not modelled: editing and mode switches, `from_ob`, `create_ebone`'s
  radius defaults, and what the host does with the calls `to_ob` logs. The host is a sink of
  bone names, constraint names and a call log.
- Widgets are not modelled: `WidgetData`, the `widgetdata_*` helpers and their vertex tables,
  `apply_rig_starting_layers`, `draw_rig_layers`, and every `custom_shape` choice.
- Trigonometry and floating point are not modelled:
  - `degrees_between`, `x_axis`, `z_axis` and `matrix` are left out. The hand-to-palm angle
    is a parameter of `Rules.FingerPalm`.
  - The rotation about X is a parameter (`rotationX`), as is the 4x4 product (`mul`, computed
    by `Geometry.Mul`).
  - Reals are exact, so float rounding is not captured.
- The reflective attribute copy in `MetaBlenderConstraint.apply_data_to_pchan` enumerates
  attributes with `inspect`. The model keeps its per-value dispatch over a tagged value
  (`AttrValue`) and drops the enumeration. The exception raised when the host refuses an
  attribute write is host behaviour and is not modelled.
- Push.IsBepuikKind: the host's `is_bepuik` flag of a new constraint is modelled as its type
  name starting with `BEPUIK_`. An angle attribute is converted only when it holds a number.
- Update in place and aliasing are not modelled. Meta-bones are values referred to by key,
  so two names for one bone object, and a rename seen through another reference, are not
  captured. A rule that touches several bones is a function on the table, applied in the
  source's order.
- The skeleton builders are not modelled: `meta_create_full_body`, every `meta_init_*`,
  `rig_full_body`, and inside it `rig_hand` and `rig_foot` (only their segment pickers are
  modelled).
- These rules are not modelled: `rig_spine`, `rig_arm`, `rig_leg`, `rig_toe`,
  `rig_hips_to_upleg`, `rig_chest_to_shoulder`, `rig_point_puller`, `rig_twist_joint`,
  `rig_ballsocket_joint`, `rig_bone_to_bone_with_2d_swing_info`, and the part of `rig_finger`
  after the palm branch. They set fields and append constraints the same way as the rules
  that are modelled.
- `rig_twistproxy` and `rig_twistanchor` call a method that does not exist, so they could
  never run.
- `get_pchan_target_names` and `organize_pchan_layers` are not modelled. They scan the host's
  constraints and apply `organize_pchan_layer` to every channel.
- `utils.py` is not part of this model: it creates edit bones and evaluates float axis
  formulas.
- The following `__init__.py` code is not modelled:
  - the operators, panels, the keying set, registration and `create_and_apply_rig`;
  - selection and mode changes, and `clear_rigidities_and_selection`;
  - `rig_new_target` and `layout_rig_layers`, which are called but defined nowhere.
- Suffix.SplitSuffix, Suffix.GetSuffixLetter: require a name of length at least 2, or a single
  character that is not a delimiter. On shorter names the source indexes out of range.
- BoneDicts.PhalangeDict: requires at least one segment length. The source reads
  `lengths[0]` unconditionally.
- Layers.OrganizePchanLayer, Layers.LayerIndices: require a bone name that `split_suffix` accepts, for the same reason.
- PoseQuery.AnyHeadControl: a parent name that is not a channel of the pose gives `None`. On
  the host a pose channel's parent always exists.
- PoseQuery.ChildrenOf: a channel's children are listed in pose order. Blender's own order of
  `children` is not modelled; only the corrected tail search depends on it, and only when two
  children qualify.
- PoseQuery.NeedsPresuffix: for empties, `ob.name in bpy.data.objects` is an input
  (`objectNames`). On the host it always holds, because the armature object is itself in
  `bpy.data.objects`.
- Python's `None` and `""` are both modelled as "" where the source tests only truthiness.
  This covers the constraint name, the bone hint and the presuffix.
- Util.Lower: folds only the ASCII letters `A` to `Z`, whereas Python's `str.lower` lowers
  every cased Unicode letter. It is applied only to constraint type names, which are ASCII.
- Push.ParentCalls, Passes.SetParents: a parent key with no entry in the table is skipped. In
  the source a bone's parent is an object reference, and the second loop of `to_ob` parents by
  that object's name or raises `KeyError` when the host has no such bone. The model keeps only
  the key, so an unstored parent has no name to act on. Tables read from bake data keep every
  parent stored (`Baking.FromBakedataClean`).

## Findings

| source | as written | input that shows it | evidently intended | confidence | as-written member | corrected member |
|---|---|---|---|---|---|---|
| __init__.py:578-583 | inside the loop over `pchan.children`, the head control is looked up on `pchan` itself, not on `pchild` | a bone "upper" with no constraints and tail (0,1,0); its child "lower", head (0,1,0), with a BEPUik control pulling (0,0,0) towards an existing bone: the tail search on "upper" returns `None` | the child's own head control counts as a tail control of the parent when the child's head is within 1e-4 of the parent's tail | high, not executed | PoseQuery.AnyTailControlAsWritten | PoseQuery.AnyTailControl |

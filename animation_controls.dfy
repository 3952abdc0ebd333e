/**
 * The animation controls of the Stories editor: which animation types are
 * offered for the selected block, the default duration of a type, the
 * attribute reset when the type changes, the start offset of each entrance
 * animation, and the class/style sequence that plays an animation on the
 * block's element.
 */
module AnimationControls {
  import opened Wrappers

  // ---------------------------------------------------------------------------
  // Data model
  // ---------------------------------------------------------------------------

  /** One entry of the animation-type option list. */
  datatype TypeOption = TypeOption(value: string, caption: string)

  /** Position (percentages of the page) and size (pixels) of a block. */
  datatype Geometry = Geometry(positionTop: real, positionLeft: real, width: real, height: real)

  /** The part of the selected block that the controls read. */
  datatype Block = Block(name: string, attributes: Geometry)

  /** The axis argument of the host's percentage-to-pixels conversion. */
  datatype Axis = X | Y

  /**
   * What the host provides: the inner page size and its percentage-to-pixels
   * conversion. Both come from modules this model does not include.
   */
  datatype Stage = Stage(innerWidth: real, innerHeight: real, pixelsFromPercentage: (Axis, real) -> real)

  /** Start offset of an animation; `None` is an offset the code leaves undefined. */
  datatype Offset = Offset(x: Option<real>, y: Option<real>)

  const PanPrefix := "pan-"
  const ImageBlockName := "core/image"
  const AnimationClassPrefix := "story-animation-"

  /** The smallest start offset of the `drop` animation, in pixels. */
  const DropMinimumOffset: real := 160.0

  const LeftEntrances: set<string> := {"fly-in-left", "rotate-in-left", "whoosh-in-left"}
  const RightEntrances: set<string> := {"fly-in-right", "rotate-in-right", "whoosh-in-right"}
  const FlyInTop := "fly-in-top"
  const FlyInBottom := "fly-in-bottom"
  const Drop := "drop"

  // ---------------------------------------------------------------------------
  // Option filter
  // ---------------------------------------------------------------------------

  predicate IsImageBlock(selected: Option<Block>) {
    selected.Some? && selected.value.name == ImageBlockName
  }

  predicate IsPanType(value: string) {
    PanPrefix <= value
  }

  /** A type is offered unless it is a pan type and the selection is not an image. */
  predicate IsOffered(option: TypeOption, selected: Option<Block>) {
    !(IsPanType(option.value) && !IsImageBlock(selected))
  }

  /** `sub` is `s` with some elements left out and the rest in their order. */
  predicate IsSubsequence<T(==)>(sub: seq<T>, s: seq<T>) {
    if sub == [] then true
    else if s == [] then false
    else (sub[0] == s[0] && IsSubsequence(sub[1..], s[1..])) || IsSubsequence(sub, s[1..])
  }

  /** The options shown in the type selector: all of them are offered. */
  function TypeOptions(options: seq<TypeOption>, selected: Option<Block>): (r: seq<TypeOption>)
    ensures |r| <= |options|
    ensures forall k | 0 <= k < |r| :: IsOffered(r[k], selected)
  {
    if options == [] then []
    else
      var rest := TypeOptions(options[1..], selected);
      if IsOffered(options[0], selected) then [options[0]] + rest else rest
  }

  /** The filter holds every occurrence of each offered option and nothing else. */
  lemma {:induction false} TypeOptionsCount(options: seq<TypeOption>, selected: Option<Block>)
    ensures forall o ::
              multiset(TypeOptions(options, selected))[o] == if IsOffered(o, selected) then multiset(options)[o] else 0
  {
    if options != [] {
      TypeOptionsCount(options[1..], selected);
      assert options == [options[0]] + options[1..];
    }
  }

  /** The shown options keep the order of the registry list. */
  lemma {:induction false} TypeOptionsKeepOrder(options: seq<TypeOption>, selected: Option<Block>)
    ensures IsSubsequence(TypeOptions(options, selected), options)
  {
    if options != [] {
      TypeOptionsKeepOrder(options[1..], selected);
      var rest := TypeOptions(options[1..], selected);
      if IsOffered(options[0], selected) {
        assert ([options[0]] + rest)[1..] == rest;
      } else if rest != [] {
        assert IsSubsequence(rest, options[1..]);
      }
    }
  }

  /** An option is shown exactly when it is in the list and offered; pan types need an image block. */
  lemma TypeOptionsMembership(options: seq<TypeOption>, selected: Option<Block>, o: TypeOption)
    ensures o in TypeOptions(options, selected) <==> o in options && IsOffered(o, selected)
    ensures o in TypeOptions(options, selected) && IsPanType(o.value) ==> IsImageBlock(selected)
  {
    var r := TypeOptions(options, selected);
    TypeOptionsCount(options, selected);
    assert o in r <==> o in multiset(r);
    assert o in options <==> o in multiset(options);
  }

  /** For an image block every option is offered, in the original order. */
  lemma {:induction false} ImageBlockKeepsAllOptions(options: seq<TypeOption>, selected: Option<Block>)
    requires IsImageBlock(selected)
    ensures TypeOptions(options, selected) == options
  {
    if options != [] {
      ImageBlockKeepsAllOptions(options[1..], selected);
      assert TypeOptions(options, selected) == [options[0]] + options[1..];
    }
  }

  /** Filtering a list made of two parts filters each part in turn. */
  lemma {:induction false} TypeOptionsAppend(a: seq<TypeOption>, b: seq<TypeOption>, selected: Option<Block>)
    ensures TypeOptions(a + b, selected) == TypeOptions(a, selected) + TypeOptions(b, selected)
  {
    if a != [] {
      var head := if IsOffered(a[0], selected) then [a[0]] else [];
      assert (a + b)[0] == a[0] && (a + b)[1..] == a[1..] + b;
      assert TypeOptions(a + b, selected) == head + TypeOptions(a[1..] + b, selected);
      assert TypeOptions(a, selected) == head + TypeOptions(a[1..], selected);
      TypeOptionsAppend(a[1..], b, selected);
    } else {
      assert a + b == b;
    }
  }

  // ---------------------------------------------------------------------------
  // Durations and delays
  // ---------------------------------------------------------------------------

  /**
   * The default duration of a type: its registry entry when that entry is
   * truthy, otherwise 0. A missing entry and an entry of 0 behave alike.
   */
  function DefaultDuration(defaults: map<string, real>, animationType: string): (r: real)
    ensures animationType in defaults && defaults[animationType] != 0.0 ==> r == defaults[animationType]
    ensures animationType !in defaults || defaults[animationType] == 0.0 ==> r == 0.0
  {
    if animationType in defaults && defaults[animationType] != 0.0 then defaults[animationType] else 0.0
  }

  /**
   * With non-negative registry entries, a type default is never negative, and
   * neither is the duration of a playback whose requested duration is not.
   */
  lemma DurationsNonNegative(defaults: map<string, real>, animationType: string, requested: Option<real>)
    requires forall t | t in defaults :: defaults[t] >= 0.0
    requires requested.Some? ==> requested.value >= 0.0
    ensures DefaultDuration(defaults, animationType) >= 0.0
    ensures EffectiveDuration(requested, DefaultDuration(defaults, animationType)) >= 0.0
  {
  }

  /** The duration a playback uses: the requested one when truthy, else the type default. */
  function EffectiveDuration(requested: Option<real>, fallback: real): (r: real)
    ensures requested.Some? && requested.value != 0.0 ==> r == requested.value
    ensures requested.None? || requested.value == 0.0 ==> r == fallback
  {
    if requested.Some? && requested.value != 0.0 then requested.value else fallback
  }

  /** A playback runs for 0 ms only when neither the request nor the default gives a duration. */
  lemma ZeroDurationOnlyWithoutDefault(requested: Option<real>, fallback: real)
    ensures EffectiveDuration(requested, fallback) == 0.0 <==>
              (requested.None? || requested.value == 0.0) && fallback == 0.0
  {
  }

  // ---------------------------------------------------------------------------
  // Type change
  // ---------------------------------------------------------------------------

  /** The animation attributes that the controls read and write through the editor. */
  datatype AnimationAttributes = AnimationAttributes(
    animationType: Option<string>,
    duration: Option<real>,
    delay: Option<real>,
    after: Option<string>)

  /** One call of an attribute-change callback. */
  datatype AttributeUpdate = SetType(animationType: string) | SetDuration(duration: real) | SetDelay(delay: real)

  /** Whether two updates set the same attribute. */
  predicate SameAttribute(u: AttributeUpdate, v: AttributeUpdate) {
    (u.SetType? && v.SetType?) || (u.SetDuration? && v.SetDuration?) || (u.SetDelay? && v.SetDelay?)
  }

  /** The callbacks the type selector's change handler calls, in order. */
  function TypeChangeUpdates(defaults: map<string, real>, value: string): (r: seq<AttributeUpdate>)
    ensures |r| == 3 && r[0] == SetType(value)
    ensures forall k | 0 <= k < |r| :: r[k].SetDuration? ==> r[k].duration == DefaultDuration(defaults, value)
    ensures forall k | 0 <= k < |r| :: r[k].SetDelay? ==> r[k].delay == 0.0
    ensures r[1].SetDuration? && r[2].SetDelay?
    ensures forall j, k | 0 <= j < k < |r| :: !SameAttribute(r[j], r[k])
  {
    [SetType(value), SetDuration(DefaultDuration(defaults, value)), SetDelay(0.0)]
  }

  /** The attributes after the callbacks run in order; no callback touches `after`. */
  function ApplyUpdates(attributes: AnimationAttributes, updates: seq<AttributeUpdate>): (r: AnimationAttributes)
    ensures r.after == attributes.after
    ensures (forall k | 0 <= k < |updates| :: !updates[k].SetDelay?) ==> r.delay == attributes.delay
    decreases |updates|
  {
    if updates == [] then attributes
    else
      var next := match updates[0]
        case SetType(t) => attributes.(animationType := Some(t))
        case SetDuration(d) => attributes.(duration := Some(d))
        case SetDelay(d) => attributes.(delay := Some(d));
      ApplyUpdates(next, updates[1..])
  }

  /**
   * Choosing a type stores it, resets the duration to that type's default and
   * the delay to 0, and keeps the order-after setting; a playback with the
   * stored values then runs for the default duration.
   */
  lemma TypeChangeResetsParameters(defaults: map<string, real>, attributes: AnimationAttributes, value: string)
    ensures |TypeChangeUpdates(defaults, value)| == 3
    ensures TypeChangeUpdates(defaults, value)[0] == SetType(value)
    ensures var a := ApplyUpdates(attributes, TypeChangeUpdates(defaults, value));
      a == attributes.(animationType := Some(value), duration := Some(DefaultDuration(defaults, value)), delay := Some(0.0))
      && EffectiveDuration(a.duration, DefaultDuration(defaults, value)) == DefaultDuration(defaults, value)
  {
    var updates := TypeChangeUpdates(defaults, value);
    var typed := attributes.(animationType := Some(value));
    var timed := typed.(duration := Some(DefaultDuration(defaults, value)));
    assert ApplyUpdates(attributes, updates) == ApplyUpdates(typed, updates[1..]);
    assert ApplyUpdates(typed, updates[1..]) == ApplyUpdates(timed, updates[2..]);
    assert ApplyUpdates(timed, updates[2..]) == ApplyUpdates(timed.(delay := Some(0.0)), []);
  }

  // ---------------------------------------------------------------------------
  // Start offsets
  // ---------------------------------------------------------------------------

  /**
   * The start offset of an animation of type `animationType` for a block
   * with geometry `g`. Exactly one axis is defined: the vertical one for the
   * top, bottom and drop entrances, the horizontal one otherwise. A drop
   * starts at least `DropMinimumOffset` pixels away.
   */
  function AnimationOffset(animationType: string, g: Geometry, stage: Stage): (r: Offset)
    ensures r.x.Some? <==> r.y.None?
    ensures r.y.Some? <==> animationType in {FlyInTop, FlyInBottom, Drop}
    ensures animationType == Drop ==> r.y.Some? && r.y.value >= DropMinimumOffset
  {
    var px := stage.pixelsFromPercentage;
    if animationType in LeftEntrances then
      Offset(Some(-(px(X, g.positionLeft) + g.width)), None)
    else if animationType in RightEntrances then
      Offset(Some(stage.innerWidth + px(X, g.positionLeft) + g.width), None)
    else if animationType == FlyInTop then
      Offset(None, Some(-(px(Y, g.positionTop) + g.height)))
    else if animationType == FlyInBottom then
      // The horizontal axis is used here, as in the source.
      Offset(None, Some(stage.innerHeight + px(X, g.positionTop) + g.height))
    else if animationType == Drop then
      Offset(None, Some(Max(DropMinimumOffset, px(Y, g.positionTop) + g.height)))
    else
      Offset(Some(0.0), None)
  }

  function Max(a: real, b: real): (r: real)
    ensures r >= a && r >= b && (r == a || r == b)
  {
    if a >= b then a else b
  }

  /** A left entrance starts one block width beyond the block's distance from the left edge. */
  lemma LeftEntranceOffset(animationType: string, g: Geometry, stage: Stage)
    requires animationType in LeftEntrances
    ensures AnimationOffset(animationType, g, stage)
      == Offset(Some(-(stage.pixelsFromPercentage(X, g.positionLeft) + g.width)), None)
  {
  }

  /** A right entrance adds the inner page width to the block's left distance and width. */
  lemma RightEntranceOffset(animationType: string, g: Geometry, stage: Stage)
    requires animationType in RightEntrances
    ensures AnimationOffset(animationType, g, stage)
      == Offset(Some(stage.innerWidth + stage.pixelsFromPercentage(X, g.positionLeft) + g.width), None)
  {
  }

  /** A right entrance starts the page width further than the mirror of the left one. */
  lemma RightMirrorsLeft(left: string, right: string, g: Geometry, stage: Stage)
    requires left in LeftEntrances && right in RightEntrances
    ensures AnimationOffset(right, g, stage).x.value == stage.innerWidth - AnimationOffset(left, g, stage).x.value
  {
  }

  /** `fly-in-top` and `fly-in-bottom` define only the vertical offset, as computed in the source. */
  lemma VerticalEntranceOffsets(g: Geometry, stage: Stage)
    ensures AnimationOffset(FlyInTop, g, stage)
      == Offset(None, Some(-(stage.pixelsFromPercentage(Y, g.positionTop) + g.height)))
    ensures AnimationOffset(FlyInBottom, g, stage)
      == Offset(None, Some(stage.innerHeight + stage.pixelsFromPercentage(X, g.positionTop) + g.height))
  {
  }

  /** A drop starts where `fly-in-top` would have, mirrored downward, but never closer than 160 px. */
  lemma DropClampsTopDistance(g: Geometry, stage: Stage)
    ensures AnimationOffset(Drop, g, stage).x.None?
    ensures AnimationOffset(Drop, g, stage).y.value
      == Max(DropMinimumOffset, -AnimationOffset(FlyInTop, g, stage).y.value)
  {
  }

  /** Every type the switch does not name, pan types included, starts at a horizontal offset of 0. */
  lemma OtherTypesOffset(animationType: string, g: Geometry, stage: Stage)
    requires animationType !in LeftEntrances && animationType !in RightEntrances
    requires animationType !in {FlyInTop, FlyInBottom, Drop}
    ensures AnimationOffset(animationType, g, stage) == Offset(Some(0.0), None)
  {
  }

  // ---------------------------------------------------------------------------
  // Playing an animation on the block's element
  // ---------------------------------------------------------------------------

  /** A value of a style custom property: a duration in ms or an offset in px. */
  datatype StyleValue = Milliseconds(ms: real) | Pixels(px: Option<real>)

  const DurationProperty := "--animation-duration"
  const DelayProperty := "--animation-delay"
  const OffsetXProperty := "--animation-offset-x"
  const OffsetYProperty := "--animation-offset-y"

  /** The class that triggers the animation of a type. */
  function AnimationName(animationType: string): (r: string)
    ensures AnimationClassPrefix <= r && r[|AnimationClassPrefix|..] == animationType
  {
    AnimationClassPrefix + animationType
  }

  /** Distinct types trigger distinct classes. */
  lemma AnimationNameInjective(t1: string, t2: string)
    ensures AnimationName(t1) == AnimationName(t2) ==> t1 == t2
  {
    if AnimationName(t1) == AnimationName(t2) {
      assert t1 == AnimationName(t1)[|AnimationClassPrefix|..];
    }
  }

  /**
   * The block's element as far as an animation sees it: its class list, its
   * style properties, and the one-shot `animationend` listeners, each of which
   * removes one class when it fires.
   */
  class AnimatedElement {
    var classList: set<string>
    var style: map<string, StyleValue>
    var pendingRemovals: seq<string>

    /** The element is playing animation `name`: the class is set and a listener will remove it. */
    predicate IsPlaying(name: string)
      reads this
    {
      name in classList && name in pendingRemovals
    }

    method RemoveClass(name: string)
      modifies this`classList
      ensures classList == old(classList) - {name}
    {
      classList := classList - {name};
    }

    method AddClass(name: string)
      modifies this`classList
      ensures classList == old(classList) + {name}
    {
      classList := classList + {name};
    }

    method SetProperty(property: string, value: StyleValue)
      modifies this`style
      ensures style == old(style)[property := value]
    {
      style := style[property := value];
    }

    /** Registers a listener, with `once`, that removes class `name` on `animationend`. */
    method AddAnimationEndListener(name: string)
      modifies this`pendingRemovals
      ensures pendingRemovals == old(pendingRemovals) + [name]
    {
      pendingRemovals := pendingRemovals + [name];
    }

    /**
     * An `animationend` event: every pending listener fires once and is
     * detached, so a second event with no new listener changes nothing.
     */
    method AnimationEnd()
      modifies this`classList, this`pendingRemovals
      ensures classList == old(classList) - (set n | n in old(pendingRemovals))
      ensures pendingRemovals == []
      ensures old(pendingRemovals) == [] ==> classList == old(classList)
      ensures forall n :: !IsPlaying(n)
    {
      classList := classList - (set n | n in pendingRemovals);
      pendingRemovals := [];
    }
  }

  /** The objects a playback may change: the block's element, when a block is selected and it resolved. */
  function Target(selected: Option<Block>, blockElement: Option<AnimatedElement>): set<object>
  {
    if selected.Some? && blockElement.Some? then {blockElement.value} else {}
  }

  /** The style properties a playback sets, on top of `style`. */
  function PlaybackStyle(
    style: map<string, StyleValue>, duration: real, delay: real, offset: Offset): (r: map<string, StyleValue>)
    ensures r.Keys == style.Keys + {DurationProperty, DelayProperty, OffsetXProperty, OffsetYProperty}
    ensures r[DurationProperty] == Milliseconds(duration) && r[DelayProperty] == Milliseconds(delay)
    ensures r[OffsetXProperty] == Pixels(offset.x) && r[OffsetYProperty] == Pixels(offset.y)
    ensures forall p | p in style && p !in {DurationProperty, DelayProperty, OffsetXProperty, OffsetYProperty} ::
      r[p] == style[p]
  {
    style[DurationProperty := Milliseconds(duration)][DelayProperty := Milliseconds(delay)]
         [OffsetXProperty := Pixels(offset.x)][OffsetYProperty := Pixels(offset.y)]
  }

  /**
   * Plays an animation on the selected block. `blockElement` is what the
   * host's element lookup gives for the selected block; it is consulted only
   * when a block is selected. Without a selected block, or when its element
   * cannot be resolved, nothing changes (the frame is empty). Otherwise the element ends up carrying the animation class, the
   * four style properties, and one more listener that removes that class.
   */
  method PlayAnimation(
    selected: Option<Block>,
    blockElement: Option<AnimatedElement>,
    defaults: map<string, real>,
    stage: Stage,
    animationType: string,
    animationDuration: Option<real>,
    animationDelay: Option<real>)
    modifies Target(selected, blockElement)
    ensures selected.Some? && blockElement.Some? ==>
      var element := blockElement.value;
      var name := AnimationName(animationType);
      && element.classList == old(element.classList) + {name}
      && element.style == PlaybackStyle(old(element.style),
           EffectiveDuration(animationDuration, DefaultDuration(defaults, animationType)),
           animationDelay.GetOr(0.0),
           AnimationOffset(animationType, selected.value.attributes, stage))
      && element.pendingRemovals == old(element.pendingRemovals) + [name]
      && element.IsPlaying(name)
  {
    if selected.None? {
      return;
    }
    if blockElement.None? {
      return;
    }
    var element := blockElement.value;
    var g := selected.value.attributes;
    var defaultDuration := DefaultDuration(defaults, animationType);
    var name := AnimationName(animationType);

    element.RemoveClass(name);
    element.SetProperty(DurationProperty, Milliseconds(EffectiveDuration(animationDuration, defaultDuration)));
    element.SetProperty(DelayProperty, Milliseconds(animationDelay.GetOr(0.0)));

    var offset := AnimationOffset(animationType, g, stage);
    element.SetProperty(OffsetXProperty, Pixels(offset.x));
    element.SetProperty(OffsetYProperty, Pixels(offset.y));

    element.AddClass(name);
    element.AddAnimationEndListener(name);
  }

  /**
   * A playback followed by its `animationend` leaves the element without the
   * animation class, without the classes of listeners that were already
   * pending, and without listeners.
   */
  method PlayToEnd(
    block: Block,
    element: AnimatedElement,
    defaults: map<string, real>,
    stage: Stage,
    animationType: string,
    animationDuration: Option<real>,
    animationDelay: Option<real>)
    modifies element
    ensures element.classList
      == old(element.classList) - {AnimationName(animationType)} - (set n | n in old(element.pendingRemovals))
    ensures old(element.pendingRemovals) == [] ==> element.classList == old(element.classList) - {AnimationName(animationType)}
    ensures element.pendingRemovals == []
  {
    PlayAnimation(Some(block), Some(element), defaults, stage, animationType, animationDuration, animationDelay);
    element.AnimationEnd();
  }
}

# AMP plugin: story animation controls and test-bootstrap plugin filter

This project models two small pieces of logic in the AMP plugin for
WordPress and proves properties about them in Dafny.

**Story animation controls** (`AnimationControls` module, `animation_controls.dfy`).
This is the Stories editor component that sets a block's entrance animation.
The model covers:

- which animation types the type selector offers: `pan-` types are offered
  only when the selected block is a `core/image` block;
- the default duration of a type: its registry entry if that entry is truthy,
  otherwise 0;
- the attribute updates made when the type changes: the new type, then its
  default duration, then a delay of 0;
- the start offset of each entrance animation, worked out from the block's
  position and size. `getPixelsFromPercentage` and the inner page size are
  host values, so they are passed in as a `Stage` value;
- `playAnimation`, which does these steps in order on the block's element:
  1. removes the animation class;
  2. sets four style custom properties;
  3. adds the class back;
  4. registers a one-shot `animationend` listener that removes the class.

The element is a class, `AnimatedElement`, with three fields: a set of class
names, a map of style properties, and a list of pending one-shot listeners.
The `fly-in-bottom` offset converts the block's top position with the
horizontal (`'x'`) axis. The model keeps this as written.

**PHPUnit bootstrap** (`TestBootstrap` module, `bootstrap.dfy`). This covers
two things:

- The default tests directory. When `WP_TESTS_DIR` is falsy, it is the
  temporary directory with trailing `/` and `\` removed, then
  `/wordpress-tests`.
- The `active_plugins` filter. It appends the pieces of the constant
  `WP_TEST_ACTIVATED_PLUGINS` to the list. The constant is split at each
  comma, and whitespace next to a comma is dropped.

The PCRE split is specified in two steps. First, an exact split at commas
(`SplitAtCommas`). Then each piece loses the whitespace that touches a comma
(`Trim`, applied in `SplitList`). This matches leftmost-greedy matching of `\s*,\s*`. With no
flags set, `preg_split` keeps empty pieces, so an empty constant gives one
empty string.

`Wrappers` (`wrappers.dfy`) has the `Option` type. It stands for JavaScript's
`undefined` and for PHP's `false` from `getenv`.

## Model

| member | source | states |
|---|---|---|
| AnimationControls.TypeOptions | assets/src/stories-editor/components/animation-controls.js:41-46 | the shown options are no more than the registry list, and every shown option is offered: it is not a `pan-` type unless the selection is a `core/image` block |
| AnimationControls.TypeOptionsCount | assets/src/stories-editor/components/animation-controls.js:44-46 | each offered option is shown as often as it occurs in the registry list, and an option that is not offered is not shown at all |
| AnimationControls.TypeOptionsKeepOrder | assets/src/stories-editor/components/animation-controls.js:44-46 | the shown options are a subsequence of the registry list, in its order |
| AnimationControls.TypeOptionsMembership | assets/src/stories-editor/components/animation-controls.js:41-46 | an option is shown exactly when it is in the list and offered; a shown `pan-` option means the selection is a `core/image` block |
| AnimationControls.ImageBlockKeepsAllOptions | assets/src/stories-editor/components/animation-controls.js:41-46 | for a `core/image` block the filter returns the whole option list unchanged |
| AnimationControls.TypeOptionsAppend | assets/src/stories-editor/components/animation-controls.js:44-46 | the filter decides each option on its own: filtering `a + b` gives the filtered `a` followed by the filtered `b` |
| AnimationControls.DefaultDuration | assets/src/stories-editor/components/animation-controls.js:39 | the default duration is the registry entry when it is present and non-zero, and 0 otherwise |
| AnimationControls.DurationsNonNegative | assets/src/stories-editor/components/animation-controls.js:138-143 | when the registry's durations are non-negative, so is every type default, and so is the duration of any playback whose requested duration is non-negative |
| AnimationControls.EffectiveDuration | assets/src/stories-editor/components/animation-controls.js:143 | playback uses the requested duration when it is defined and non-zero, and otherwise the type default |
| AnimationControls.ZeroDurationOnlyWithoutDefault | assets/src/stories-editor/components/animation-controls.js:143 | playback runs for 0 ms exactly when the requested duration is falsy and the type default is 0 |
| AnimationControls.TypeChangeUpdates | assets/src/stories-editor/components/animation-controls.js:54-60 | the change handler makes three updates in order: the type, then the duration, then the delay; the duration update carries the new type's default and the delay update carries 0; no attribute is set twice |
| AnimationControls.TypeChangeResetsParameters | assets/src/stories-editor/components/animation-controls.js:54-60 | a type change first sets the type; after all three updates the type is the new one, the duration is its default, the delay is 0 and the order-after setting is unchanged; a playback with these values uses the default duration |
| AnimationControls.AnimationOffset | assets/src/stories-editor/components/animation-controls.js:146-172 | exactly one offset axis is defined; the vertical one is defined exactly for `fly-in-top`, `fly-in-bottom` and `drop`; a `drop` offset is at least 160 |
| AnimationControls.LeftEntranceOffset | assets/src/stories-editor/components/animation-controls.js:150-154 | `fly-in-left`, `rotate-in-left` and `whoosh-in-left` give offsetX = -(px('x', positionLeft) + width) and no offsetY |
| AnimationControls.RightEntranceOffset | assets/src/stories-editor/components/animation-controls.js:155-159 | the `-right` variants give offsetX = inner width + px('x', positionLeft) + width and no offsetY |
| AnimationControls.RightMirrorsLeft | assets/src/stories-editor/components/animation-controls.js:150-159 | for the same block, any right entrance's offsetX equals the inner page width minus any left entrance's offsetX |
| AnimationControls.VerticalEntranceOffsets | assets/src/stories-editor/components/animation-controls.js:160-166 | `fly-in-top` gives offsetY = -(px('y', positionTop) + height); `fly-in-bottom` gives offsetY = inner height + px('x', positionTop) + height; neither defines offsetX |
| AnimationControls.DropClampsTopDistance | assets/src/stories-editor/components/animation-controls.js:160-169 | `drop` defines only offsetY, which is the larger of 160 and the distance `fly-in-top` would start from |
| AnimationControls.OtherTypesOffset | assets/src/stories-editor/components/animation-controls.js:170-171 | every type the switch does not name, the `pan-` types among them, gives offsetX = 0 and no offsetY |
| AnimationControls.AnimationName | assets/src/stories-editor/components/animation-controls.js:139 | the animation class is `story-animation-` followed by the type |
| AnimationControls.AnimationNameInjective | assets/src/stories-editor/components/animation-controls.js:139 | different types give different animation classes |
| AnimationControls.AnimatedElement.RemoveClass | assets/src/stories-editor/components/animation-controls.js:141 | the class list loses exactly that name |
| AnimationControls.AnimatedElement.SetProperty | assets/src/stories-editor/components/animation-controls.js:143-144 | the style map is updated at exactly that property |
| AnimationControls.AnimatedElement.AddClass | assets/src/stories-editor/components/animation-controls.js:177 | the class list gains exactly that name |
| AnimationControls.AnimatedElement.AddAnimationEndListener | assets/src/stories-editor/components/animation-controls.js:179 | one more one-shot listener is queued to remove that class |
| AnimationControls.AnimatedElement.AnimationEnd | assets/src/stories-editor/components/animation-controls.js:179 | an `animationend` event removes the classes of all pending listeners and detaches them all; with none pending, nothing changes; afterwards no animation is playing |
| AnimationControls.PlaybackStyle | assets/src/stories-editor/components/animation-controls.js:143-175 | the playback style has the four animation properties set to the duration and delay in ms and the two offsets in px; every other property keeps its value |
| AnimationControls.PlayAnimation | assets/src/stories-editor/components/animation-controls.js:124-180 | with no selected block or no resolved element nothing may change; otherwise the element gains the class `story-animation-<type>` and keeps its other classes; it gets duration `(duration \|\| default)` ms, the delay in ms, defaulting to 0 when undefined, and the type's offsets, with other style properties unchanged; one listener is added that removes the class, and the animation is playing |
| AnimationControls.PlayToEnd | assets/src/stories-editor/components/animation-controls.js:177-179 | a playback followed by one `animationend` removes the animation class and the classes of listeners already pending, and leaves no listener pending; with none pending beforehand, only the animation class is removed |
| TestBootstrap.DropTrailing | tests/php/bootstrap.php:11 | `rtrim` with a character list: the result is a prefix of the input, everything cut off is in the list, and the result does not end with a listed character |
| TestBootstrap.DropTrailingIdempotent | tests/php/bootstrap.php:11 | trimming an already trimmed path changes nothing |
| TestBootstrap.TestsDir | tests/php/bootstrap.php:8-12 | a truthy `WP_TESTS_DIR` is used as it is; otherwise the result is a prefix of the temp dir followed by `/wordpress-tests`; only `/` and `\` were cut from the temp dir, and the prefix does not end in one |
| TestBootstrap.DropLeading | tests/php/bootstrap.php:39 | the result is a suffix of the input, the part cut off satisfies the predicate, and the result does not start with such a character |
| TestBootstrap.SplitAtCommas | tests/php/bootstrap.php:39 | there is one piece per comma plus one, no piece holds a comma, and the first piece runs up to the first comma |
| TestBootstrap.JoinSplitAtCommas | tests/php/bootstrap.php:39 | joining the pieces with commas gives back the input |
| TestBootstrap.Trim | tests/php/bootstrap.php:39 | a piece trimmed at its leading end does not start with whitespace, and one trimmed at its trailing end does not end with whitespace; an end that is not trimmed is kept, and a piece trimmed at neither end is returned whole |
| TestBootstrap.TrimCutsOnlySpace | tests/php/bootstrap.php:39 | trimming a piece removes only whitespace, and only from its two ends |
| TestBootstrap.SplitList | tests/php/bootstrap.php:39 | `preg_split('/\s*,\s*/', s)` gives one piece per comma plus one, and none of them holds a comma |
| TestBootstrap.SplitListPieces | tests/php/bootstrap.php:39 | no piece of the split has whitespace next to a comma; the first piece starts like the input; the last piece ends like the input, keeping its trailing whitespace; each piece is the raw piece between its commas with only whitespace removed; a constant without a comma is returned whole as the only piece |
| TestBootstrap.RawPiecesUnpadded | tests/php/bootstrap.php:39 | when no comma has whitespace next to it, no raw piece has whitespace at a comma end |
| TestBootstrap.SplitListWithoutPadding | tests/php/bootstrap.php:39 | when no comma has whitespace next to it, the split equals the exact split at commas, and joining the pieces with commas gives back the input |
| TestBootstrap.AppendEach | tests/php/bootstrap.php:43-45 | the `foreach` loop appends every item, in order, to the end of the list |
| TestBootstrap.FilterActivePlugins | tests/php/bootstrap.php:35-49 | the input list is an unchanged prefix of the result; with the constant undefined the result is the input; otherwise exactly the split pieces of the constant are appended in order, one more than its number of commas, and none holds a comma |

## Left out

- JSX rendering, `RangeControl`/`SelectControl` props, PropTypes and the `withSelect`/`withDispatch`/`compose` wiring. These are UI and editor-store plumbing. `animatedBlocks()` and the order picker are not modelled either.
- The bodies of `getPixelsFromPercentage` and `getBlockInnerElementForAnimation`, and the values of the constants from `../constants`. Those modules are not part of this model. They appear as the `Stage` parameter, the `defaults` map, the option list, and the `blockElement` argument of `PlayAnimation`.
- The real DOM, browser animation timing, and restarting an animation that is still playing. Class lists are sets, styles are maps, and `{ once: true }` listeners are a queue that one `animationend` empties.
- ApplyUpdates: the `onAnimationTypeChange`, `onAnimationDurationChange` and `onAnimationDelayChange` callbacks come from the parent component, whose code is not part of this model. Each is taken to set just its own attribute, and the final attributes in `TypeChangeResetsParameters` rest on that.
- PlayAnimation: its no-op cases are stated only through the empty `modifies` frame, with no explicit postcondition.
- PlayAnimation: the lookup of the element is passed in as its result, not called after the selection check. The lookup has no effect the model could observe.
- Number-to-string formatting of `${ value }ms` and `${ offset }px`, including the literal `undefinedpx`. Offsets are `Option<real>` and durations are reals instead.
- IEEE floating point. Durations and offsets are exact reals, so `NaN` (falsy in JavaScript) is not modelled.
- Durations given as strings, which PropTypes allows. These are not modelled.
- DefaultDuration: registry entries are numbers, so only 0 counts as a falsy entry.
- The bootstrap's host calls: `getenv`, `sys_get_temp_dir`, `file_exists`, `echo`/`exit(1)`, `require`, and `tests_add_filter` registration. Their results are parameters.
- FilterActivePlugins: the plugin list is a sequence. Two cases are not modelled:
  - a site-wide plugin list keyed by plugin file;
  - a non-array option value that PHP would turn into an array.
- SplitList: only the comma-with-whitespace pattern is specified. General PCRE is not modelled, and neither are `preg_split` failures or a constant that is not a string.
- The widget tests and the browser options test. They hold framework assertions and no logic of their own.

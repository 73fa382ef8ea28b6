# RoUI3 animation editor: a Dafny model of its core

RoUI3 is a Roblox Studio plugin for animating GUI objects. The user picks a
root node and opens a timeline. From there they select nodes in an explorer
tree, add animated properties, and place keyframes that hold a value, an easing
style and an easing direction. The exporter writes the keyframes out as
folders of `Keyframe` objects.

This project models the parts of the plugin that carry logic:

- the keyframe store (`appData`): its five reducer handlers and the store's
  reset;
- the `changeRoot` thunk that starts a session;
- the exporter, which groups each property's keyframes by rank;
- the property catalog and the capture of initial property values;
- the numeric helpers `lerp` and `normalizeToRange`, and the snapping helpers
  `getSortedDistances` and `getNearestDistance`;
- the value pretty-printer;
- the tree view's row flattening;
- the keyboard listener's held-key state machine;
- the timeline widget's input rules: the scrubber, the two time fields, tree
  selection and expansion, the property dropdown and the add-property button.

Roblox instances are opaque numbers (`InstanceId`). Keyframe values are the
union number | boolean | string | UDim2 | UDim | Vector2 | Color3. Positions,
times and distances are exact reals.

Host services are not modelled; they are passed in as parameters:

- number formatting (`string.format('%.2f')`, `tostring`) and parsing
  (`tonumber`);
- the descendant list and property reads of a node;
- the mouse position and widget sizes;
- the tree handles returned by mounting.

State that the source changes in place is modelled as a class with those
fields: the capture list, the tree view's rows, the keyboard listener, the
timeline's hook state, the store and the session. The reducer handlers copy
their arrays and then edit the copies step by step. They are methods over a
`State` value, each proved equal to a specification function, and the lemmas
are stated about those functions.

One module per source file:

| file | module |
|---|---|
| values.dfy | `Common` (Option, Result, InstanceId) and `Values` (keyframe values, easing enums and their names) |
| sorting.dfy | `Sorting`: the host's `table.sort` with a "less than" comparator |
| math_utils.dfy | `MathUtils` |
| distances.dfy | `Distances` |
| supported_properties.dfy | `SupportedProperties` |
| initial_properties.dfy | `InitialProperties` |
| data_reducer.dfy | `DataReducer` |
| store.dfy | `Store` |
| change_root.dfy | `ChangeRoot` |
| animation.dfy | `Animation` |
| pretty_stringify.dfy | `PrettyStringify` |
| tree_view.dfy | `TreeView` |
| keyboard_listener.dfy | `KeyboardListener` |
| timeline.dfy | `Timeline` |

## Model

| member | source | states |
|---|---|---|
| Values.StyleNameRoundTrip | src/backend/animation.ts:49 | An exported easing-style name reads back to the style it came from, so the export loses no style information. |
| Values.DirectionNameRoundTrip | src/backend/animation.ts:50 | An exported easing-direction name reads back to the direction it came from. |
| Sorting.SortBy | src/utils/getSortedDistances.ts:24-26 | The sort stand-in returns a permutation of its input, ordered by ascending key. |
| MathUtils.Lerp | src/utils/lerp.ts:3-5 | Alpha 0 gives `a`; alpha 1 gives `b`; equal ends give that end; an alpha in [0, 1] gives a result between the ends, in either order. |
| MathUtils.NormalizeToRange | src/utils/normalize.ts:3-11 | The result is offset from `tMin` in the same proportion as `constant` is from `rMin`. `rMin` maps to `tMin` and `rMax` to `tMax`. It requires `rMax != rMin`, because the source divides by their difference. |
| MathUtils.NormalizeStaysInRange | src/utils/normalize.ts:10 | With ascending ranges, a constant inside [rMin, rMax] lands inside [tMin, tMax]. |
| MathUtils.NormalizeIsLerpOfAlpha | src/utils/normalize.ts:10 | Normalising is the same as lerping between tMin and tMax by the value normalised onto [0, 1]. |
| MathUtils.NormalizeInvertsLerp | src/utils/normalize.ts:10 | Normalising a lerped value onto [0, 1] recovers the alpha, so the two helpers are inverses. |
| Distances.Entries | src/utils/getSortedDistances.ts:17-22 | One entry per other position, in input order; each holds that position and its absolute distance from the static one. |
| Distances.GetSortedDistances | src/utils/getSortedDistances.ts:11-29 | The result has one entry per input position. It is a permutation of the computed entries, sorted by ascending distance. Each entry's position is an input, and its distance is the non-negative absolute difference. |
| Distances.SortedDistancesFacts | src/utils/getSortedDistances.ts:17-28 | The same facts, stated about the specification function the method is proved equal to. |
| Distances.GetNearestDistance | src/utils/getNearestDistance.ts:9-16 | Undefined exactly when there are no other positions. Otherwise it returns an input position whose distance is no larger than that of any input position. |
| Distances.NearestIsFirst | src/utils/getNearestDistance.ts:13-15 | The head of the sorted distances is an input position nearest to the static one. |
| SupportedProperties.GetSupportedProperties | src/utils/supportedProperties.ts:17-45 | The list has no duplicates. It has 12 entries exactly for the seven listed classes, including Position and Size, and is empty for any other class name. |
| SupportedProperties.SupportedPropertiesShape | src/utils/supportedProperties.ts:1-45 | The result has no duplicates and 12 or 0 entries. The seven listed classes get exactly 12, every other class name gets the empty list, and Position and Size are offered to every supported class. |
| InitialProperties.FindFirst | src/utils/initialProperties.ts:30-32 | Undefined exactly when no record matches both the instance and the property. Otherwise the result is the earliest matching record. |
| InitialProperties.InitialPropertyStore.SerializeInstance | src/utils/initialProperties.ts:10-27 | Appends the records for the descendant list to the list, and never clears it. |
| InitialProperties.InitialPropertyStore.CaptureDescendant | src/utils/initialProperties.ts:12-25 | One descendant appends its records: nothing for a non-GuiObject, otherwise one per supported property. |
| InitialProperties.InitialPropertyStore.PushRecords | src/utils/initialProperties.ts:18-25 | Appends one record per property, in catalog order, each holding the value read from the node. |
| InitialProperties.InitialPropertyStore.GetInitialProperty | src/utils/initialProperties.ts:29-33 | Reads only. A found record is the earliest record in the list matching both keys; undefined means no record matches. |
| InitialProperties.InitialPropertyStore.ClearProperties | src/utils/initialProperties.ts:35-37 | Empties the list, after which every lookup is undefined. |
| InitialProperties.CapturedMembers | src/utils/initialProperties.ts:10-27 | A record is captured exactly when it is a (GuiObject descendant, supported property, value read) triple for a descendant in the list. |
| InitialProperties.CapturedAppend | src/utils/initialProperties.ts:11-26 | Records follow descendant order: capturing a concatenation concatenates the captures. |
| InitialProperties.DescendantMembers | src/utils/initialProperties.ts:12-25 | One descendant's records are exactly its supported properties with their read values, and none for a non-GuiObject. |
| InitialProperties.EarliestCaptureWins | src/utils/initialProperties.ts:29-33 | Appending records never changes a lookup that already succeeds. A lookup that fails is answered by the appended part. |
| InitialProperties.SecondCaptureChangesNoLookup | src/utils/initialProperties.ts:10-33 | Serialising the same tree twice doubles the appended records but leaves every lookup as it was. |
| DataReducer.IndexOf | src/rodux/reducers/dataReducer.ts:76 | `indexOf` gives -1 exactly when the instance is absent; otherwise the first index holding it. |
| DataReducer.FindKeyframe | src/rodux/reducers/dataReducer.ts:160-166 | -1 exactly when no keyframe has the identity (instance, property, position); otherwise the first index that has it. |
| DataReducer.SetCurrentRoot | src/rodux/reducers/dataReducer.ts:54-64 | Sets both roots as given, each None when undefined. Instances, property sets and keyframes are unchanged, and the store invariant is preserved. |
| DataReducer.Tracked | src/rodux/reducers/dataReducer.ts:67-81 | An untracked instance is appended with the singleton set; a tracked one gets the property merged into its set and nothing else changes. The lists stay parallel, no instance is duplicated, and keyframes are untouched. |
| DataReducer.TrackedOnce | src/rodux/reducers/dataReducer.ts:66-88 | After tracking, the instance occurs exactly once, at the index whose set holds the property. |
| DataReducer.TrackedIdempotent | src/rodux/reducers/dataReducer.ts:66-88 | Creating the same instance property twice gives the state that creating it once gives. |
| DataReducer.CreateInstanceProperty | src/rodux/reducers/dataReducer.ts:66-88 | The handler equals `Tracked`: the instance is present with the property at its index, the lists stay parallel, keyframes and roots are untouched, and the store invariant holds. |
| DataReducer.Upsert | src/rodux/reducers/dataReducer.ts:108-145 | With a match, the count and every identity are unchanged and only the matched keyframe changes. Without a match, exactly one new keyframe is appended. |
| DataReducer.UpdateKeyframe | src/rodux/reducers/dataReducer.ts:90-153 | First the tracking step of CreateInstanceProperty. Then the first match gets the new value and each setting only when supplied, or a keyframe with defaults Tween, Linear, InOut, 1 and 5 is appended. Every other keyframe is unchanged and the invariant holds. |
| DataReducer.UpsertKeepsUnique | src/rodux/reducers/dataReducer.ts:109-145 | Keyframe identities stay unique, and exactly one keyframe has the updated identity. |
| DataReducer.UpdateKeyframeIdempotent | src/rodux/reducers/dataReducer.ts:90-153 | Issuing the same UpdateKeyframe twice gives the state issuing it once gives, so it leaves a single keyframe. |
| DataReducer.RemoveFirst | src/rodux/reducers/dataReducer.ts:159-170 | A target without a match changes nothing. Otherwise exactly its first match is removed. |
| DataReducer.DeleteKeyframes | src/rodux/reducers/dataReducer.ts:155-177 | Removes each target's first match, in order. Instances and properties are unchanged; survivors are a sub-multiset of the old keyframes, shorter by at most one per target. With unique identities no targeted keyframe survives, and the invariant holds. |
| DataReducer.RemoveTargets | src/rodux/reducers/dataReducer.ts:159-171 | The loop over the targets removes, for each target in turn, its first match from the copy: it computes `AfterDeletes`. |
| DataReducer.RemoveTarget | src/rodux/reducers/dataReducer.ts:160-170 | One iteration: `findIndex` and then `remove` when found, which is removing the target's first match, if any. |
| DataReducer.AfterDeletesFacts | src/rodux/reducers/dataReducer.ts:155-177 | The same facts about the specification function of the deletion loop. |
| DataReducer.AfterDeletesShrinks | src/rodux/reducers/dataReducer.ts:159-171 | Deletion keeps only keyframes that existed and removes at most one per target. |
| DataReducer.AfterDeletesClears | src/rodux/reducers/dataReducer.ts:159-171 | With unique identities, no keyframe with a targeted identity survives and identities stay unique. |
| DataReducer.RemoveFirstClears | src/rodux/reducers/dataReducer.ts:160-170 | With unique identities, removing a target's first match leaves none with its identity. |
| DataReducer.DeleteInstanceProperty | src/rodux/reducers/dataReducer.ts:179-203 | As written. An untracked instance throws: its index is -1 and the set lookup yields nothing. Otherwise the property leaves the instance's set, the keyframes are what the forward remove-while-iterating loop leaves, no keyframe of another instance or property is removed, and the invariant holds. |
| DataReducer.SweepProperty | src/rodux/reducers/dataReducer.ts:186-193 | The forward loop with removal computes `Sweep`, in which the element after each removal is not examined. |
| DataReducer.SweepKeepsOthers | src/rodux/reducers/dataReducer.ts:186-193 | The loop removes only keyframes of the swept instance property, keeps every other keyframe in order, and never adds one. |
| DataReducer.SweepKeepsUnique | src/rodux/reducers/dataReducer.ts:186-193 | The loop keeps keyframe identities unique. |
| DataReducer.SweepClearsIffNoAdjacent | src/rodux/reducers/dataReducer.ts:186-193 | The loop removes all of the property's keyframes exactly when no two of them are adjacent in the list. |
| DataReducer.SweepMissesAdjacentMatch | src/rodux/reducers/dataReducer.ts:186-193 | For two adjacent keyframes of the property, the second survives. |
| DataReducer.SweepIsFilterWithoutAdjacent | src/rodux/reducers/dataReducer.ts:186-193 | Without adjacent matches, the loop as written equals the intended filter. |
| DataReducer.OthersMembers | src/rodux/reducers/dataReducer.ts:185-193 | The intended filter keeps exactly the keyframes outside the property, none more often than before. |
| DataReducer.OthersKeepsUnique | src/rodux/reducers/dataReducer.ts:185-193 | The intended filter keeps keyframe identities unique. |
| DataReducer.FilterProperty | src/rodux/reducers/dataReducer.ts:185-193 | The corrected loop examines a freed slot again, so it computes the intended filter. |
| DataReducer.DeleteInstancePropertyIntended | src/rodux/reducers/dataReducer.ts:179-203 | The corrected handler. It throws exactly for an untracked instance. Otherwise the property leaves the set, a keyframe survives exactly when it is outside the property, and the invariant holds. |
| Store.AppStore.constructor | src/rodux/reducers/dataReducer.ts:36-42 | A new store holds the initial state: no roots, no instances, no keyframes. |
| Store.AppStore.Dispatch | src/rodux/store.ts:22-31 | Routes each data action to its handler's specification and a reset to the initial state. A throwing handler leaves the state unchanged and reports the error, which happens exactly for a delete on an untracked instance. A successful delete removes the property from the instance's set and every keyframe of the property, keeping the others in order (the corrected handler, see "## Left out"). The store invariant is preserved. |
| ChangeRoot.Session.ChangeRoot | src/rodux/thunks/changeRoot.tsx:15-48 | With a root already set, nothing changes. Otherwise the start widget is disabled and the timeline enabled, and a present start tree is unmounted with its slot cleared. SetCurrentRoot runs with this root and no original root, and the timeline slot holds the mounted tree. |
| Animation.ExportKeepsFields | src/backend/animation.ts:45-51 | An exported record keeps position, property and value, and its style and direction names read back to the keyframe's settings. Kind, damping ratio and frequency are dropped. |
| Animation.CollectProperty | src/backend/animation.ts:30-34 | The inner loop collects exactly one property's keyframes, in list order. |
| Animation.ColumnFacts | src/backend/animation.ts:28-38 | A property's column is sorted by ascending position, holds only that property, and is a permutation of its records. |
| Animation.DistributeColumn | src/backend/animation.ts:40-54 | The j-th sorted keyframe is appended to group j, and a missing group is opened first. |
| Animation.DistributeAt | src/backend/animation.ts:40-54 | After distributing a column, group k is its old contents followed by the column's k-th entry when there is one. |
| Animation.GroupColumnsShape | src/backend/animation.ts:26-55 | There are as many groups as the longest column, and group k holds the k-th entry of each column that has one, in visiting order. |
| Animation.GroupColumnsMultiset | src/backend/animation.ts:26-55 | The groups hold exactly the entries of all columns, with none lost or duplicated. |
| Animation.ColumnsCoverProperties | src/backend/animation.ts:17-34 | When the properties are visited without repetition, the columns hold exactly the instance's keyframes whose property is in its set. |
| Animation.ExportAnimation | src/backend/animation.ts:14-83 | An untracked instance throws. Otherwise the result is an export of the instance: the controller is named `<name> Animation`, the property set is visited once per property, and the groups are built from the columns of the properties in the order visited. The folders are built from the groups. |
| Animation.ExportGroups | src/backend/animation.ts:17-55 | An export has as many groups as the most keyframes any property has, and group k holds the k-th keyframe by position of each property. Every eligible keyframe appears exactly once overall. |
| Animation.OnePerPropertyPerGroup | src/backend/animation.ts:26-55 | No group holds two records of the same property. |
| Animation.PositionsAscendAcrossGroups | src/backend/animation.ts:36-54 | For a fixed property, the record in an earlier group is no later than the one in a later group. |
| Animation.SliceDistinctProperties | src/backend/animation.ts:40-54 | A group's records come from distinct columns, so they carry distinct properties. |
| Animation.SlicesAscend | src/backend/animation.ts:36-54 | In sorted columns, a property's entry in an earlier group is no later than its entry in a later group. |
| Animation.NatToDecimal | src/backend/animation.ts:62 | A group index prints as a non-empty string of decimal digits. |
| Animation.DecimalRoundTrip | src/backend/animation.ts:62 | The printed index reads back to the index. |
| Animation.FolderNamesDistinct | src/backend/animation.ts:62 | Distinct groups get distinct `keyframes_` folder names. |
| Animation.BuildFolders | src/backend/animation.ts:60-72 | One folder per group, named after its index, holding one object per record. Each object is named after its property, timed at its position, and carries the record's value, property, easing style and easing direction as its four attributes. |
| Animation.ExportAllAnimations | src/backend/animation.ts:85-91 | One export per tracked instance, in `instances` order; the store is not changed. |
| PrettyStringify.TypeString | src/utils/prettyStringify.ts:11-16 | Booleans print their type name capitalised as `Boolean`; every other type keeps the host's type name. |
| PrettyStringify.Pretty | src/utils/prettyStringify.ts:10-38 | Every printed value starts with its type tag and `(`, and ends with `)`. |
| PrettyStringify.PrettyParts | src/utils/prettyStringify.ts:18-37 | Every printed value is its tag, `(`, its fields and `)`. Numbers, Vector2 and the UDim scales use two decimals; UDim offsets are printed raw. |
| PrettyStringify.PrettyIsTagged | src/utils/prettyStringify.ts:18-37 | A printed value starts with its tag and an opening parenthesis and ends with a closing one, and the tag can be read back from the text. |
| PrettyStringify.TagsDistinguishTypes | src/utils/prettyStringify.ts:10-38 | Values of different types never print with the same tag. |
| TreeView.NumberedAppend | src/components/tree_view/index.tsx:72-76 | Rows pushed later are numbered on from the rows already present. |
| TreeView.VisibleShape | src/components/tree_view/index.tsx:72-84 | A node's rows start with its own at its depth, and every later row is strictly deeper, going down at most one level per row. When expanded, the rows one level down are exactly the children that pass the class filter, in `GetChildren` order. When collapsed, only the node's own row appears. |
| TreeView.TreeRows | src/components/tree_view/index.tsx:67-104 | The whole tree's rows are numbered 1..n in push order. The root comes first, as row 1 at depth 0; every other row is at depth 1 or more, and depth grows by at most one per row. |
| TreeView.TreeViewComponent.ContributeItem | src/components/tree_view/index.tsx:67-87 | The recursive push appends the pre-order flattening of the item, numbered after the existing rows. |
| TreeView.TreeViewComponent.CalculateRows | src/components/tree_view/index.tsx:90-104 | With previous props holding the same root instance, the same `Expanded` set object and the same selection, the rows are kept, even when that set's contents changed in place. Otherwise, including an equal set in a new object, they become the flattening of the root from depth 0, numbered from 1. |
| Timeline.ToggleFlipsOnlyItsRows | src/components/tree_view/index.tsx:44-58 | A row's toggle, passed to the timeline's expansion handler, asks for that row's item; afterwards every row of that item is drawn with the opposite expansion flag and every other row keeps its flag. |
| Timeline.ToggleShowsChildren | src/components/tree_view/index.tsx:52-84 | After a toggle, the toggled node's filtered children appear one level below it exactly when it was collapsed before, and nothing appears below it when it was expanded. |
| Timeline.SelectionFlags | src/components/tree_view/index.tsx:43-61 | After a row's selection passes through the timeline's selection handler, exactly the rows of a GUI node are drawn selected, or none if it was selected already; a non-GUI node changes no row's flag. |
| KeyboardListener.OutsideBounds | src/components/keyboard_listener/index.tsx:58-63 | The mouse is outside exactly when it is not in [0, W] x [0, H], so the edge counts as inside. |
| KeyboardListener.ReleasedKeys | src/components/keyboard_listener/index.tsx:28-32 | A key counts as released exactly when some callback in the list releases it. |
| KeyboardListener.ReleaseEach | src/components/keyboard_listener/index.tsx:28-32 | One release per held key, each key released exactly once, in the set's unspecified order. |
| KeyboardListener.Listener.CleanupKeys | src/components/keyboard_listener/index.tsx:26-36 | With a release handler, every held key is reported released exactly once; then the set is empty. Without a handler, no call is made. |
| KeyboardListener.Listener.FocusGained | src/components/keyboard_listener/index.tsx:40-42 | Focus becomes true and nothing else changes. |
| KeyboardListener.Listener.FocusLost | src/components/keyboard_listener/index.tsx:45-51 | Focus becomes false and the set ends empty. With keys held, a release handler gets exactly one release per held key and no other call; without a handler no call is made. With no keys held no call is made. |
| KeyboardListener.Listener.Heartbeat | src/components/keyboard_listener/index.tsx:54-67 | Cleanup runs exactly when the widget is focused, keys are held and the mouse is strictly outside the widget: the set ends empty and a release handler gets exactly one release per held key and no other call. Otherwise nothing changes. |
| KeyboardListener.Listener.InputBegan | src/components/keyboard_listener/index.tsx:82-94 | A keyboard key is added to the set, then reported pressed with the updated set. Other input changes nothing. |
| KeyboardListener.Listener.InputEnded | src/components/keyboard_listener/index.tsx:95-104 | A keyboard key is removed from the set, then reported released. Other input changes nothing. |
| Timeline.Divide | src/components/roots/timeline/index.tsx:236-238 | The host's division: a quotient for a non-zero divisor; otherwise an infinity of the numerator's sign, or NaN for 0 / 0. |
| Timeline.ClampNum | src/components/roots/timeline/index.tsx:85 | `math.clamp` yields NaN exactly for NaN and otherwise a finite value within the bounds: an in-range number is kept, a number below or above the range gives the nearer bound, and +inf and -inf give the upper and lower bound. |
| Timeline.DragPositionInUnit | src/components/roots/timeline/index.tsx:77-89 | While dragging, the position is the mouse offset normalised over the container's width and clamped to [0, 1]. It is NaN only for a zero width with a zero corrected offset. |
| Timeline.ClickPositionUnclamped | src/components/roots/timeline/index.tsx:485-495 | A click lands in [0, 1] exactly when it is over the bar; a click left of the container gives a negative position, since nothing clamps it. |
| Timeline.Sanitize | src/components/roots/timeline/index.tsx:219 | The sanitised text holds only digits and dots, is no longer than the input, and has no minus sign, so the later negative branch cannot be taken. |
| Timeline.SanitizeKeepsAllowed | src/components/roots/timeline/index.tsx:219 | Text of digits and dots is kept as it is. |
| Timeline.SanitizeIdempotent | src/components/roots/timeline/index.tsx:219 | Sanitising twice is sanitising once. |
| Timeline.SanitizeAppend | src/components/roots/timeline/index.tsx:219 | Sanitising distributes over concatenation, so each character is kept or dropped on its own. |
| Timeline.SelectionAfter | src/components/roots/timeline/index.tsx:401-418 | A non-GUI node is ignored. Clicking the selected node deselects it, and any other GUI node becomes the selection. |
| Timeline.SelectionTwice | src/components/roots/timeline/index.tsx:401-418 | Clicking one GUI node twice restores its selection if it was selected, and otherwise leaves nothing selected. |
| Timeline.ExpansionAfter | src/components/roots/timeline/index.tsx:392-400 | The item is expanded exactly when requested, and no other member of the set changes. |
| Timeline.ToggleTwiceRestores | src/components/roots/timeline/index.tsx:392-400 | Two toggles, each requesting the opposite state, restore the expanded set. |
| Timeline.Supported | src/components/roots/timeline/index.tsx:99-106 | No list is offered without a selection; otherwise the selected class's catalog is offered. |
| Timeline.DropdownDefault | src/components/roots/timeline/index.tsx:109-116 | An offered value is kept. An unoffered one becomes the list's first entry, or undefined for an empty list. With nothing selected the value is kept. |
| Timeline.DropdownDefaultSettles | src/components/roots/timeline/index.tsx:109-116 | Running the effect again changes nothing, so it settles after one update. |
| Timeline.DropdownOnSupportedClass | src/components/roots/timeline/index.tsx:99-116 | For a selected node of a supported class, the dropdown always ends on one of the twelve shared properties. |
| Timeline.InstanceDataOf | src/components/roots/timeline/index.tsx:547-554 | The timeline's view of the store holds exactly the tracked instances. |
| Timeline.AddPropertyRequest | src/components/roots/timeline/index.tsx:325-343 | A request is made exactly when the selection is untracked or lacks the property. It asks for a keyframe at position 0 with the node's current value and no settings. |
| Timeline.AddPropertyOnce | src/components/roots/timeline/index.tsx:325-343 | After the request is applied to the store, the store holds a keyframe at position 0 for the pair, and the button requests nothing more for it. |
| Timeline.TimelineRoot.constructor | src/components/roots/timeline/index.tsx:53-71 | The hook state starts as declared: dropdown value `UNKNOWN` and closed; maximum time 5; previous texts "0" and "5". Nothing is selected, the root is expanded, and the scrubber is at 0 and not dragging. |
| Timeline.TimelineRoot.RenderStep | src/components/roots/timeline/index.tsx:74-91 | While scrubbing over a present container, the scrubber takes the drag position; otherwise it stays. |
| Timeline.TimelineRoot.DragStart | src/components/roots/timeline/index.tsx:454-458 | The grab offset is remembered and scrubbing starts. |
| Timeline.TimelineRoot.DragEnd | src/components/roots/timeline/index.tsx:459-462 | Scrubbing stops. |
| Timeline.TimelineRoot.TimestampClick | src/components/roots/timeline/index.tsx:482-497 | A primary click while not scrubbing, over a present container, moves the scrubber to the click position; otherwise it stays. |
| Timeline.TimelineRoot.TimeTextChange | src/components/roots/timeline/index.tsx:212-243 | During a programmatic write, nothing changes. Otherwise the text is sanitised. Unparsable text reverts to the previous text, formatted. A number is clamped to [0, maxTime] and written back formatted, and the scrubber becomes the written value over maxTime. The written text is remembered, and the field texts keep parsing to non-negative numbers. |
| Timeline.TimelineRoot.MaxTimeTextChange | src/components/roots/timeline/index.tsx:250-276 | The same guard, sanitising and revert. A number is written back formatted without clamping and becomes the maximum time as read back from that text, so 0 is accepted. |
| Timeline.TimelineRoot.SelectionChange | src/components/roots/timeline/index.tsx:401-418 | The selection becomes `SelectionAfter` of the old one. |
| Timeline.TimelineRoot.ExpansionChange | src/components/roots/timeline/index.tsx:392-400 | The expanded set becomes `ExpansionAfter` of the old one. |
| Timeline.TimelineRoot.RecalculateDropdown | src/components/roots/timeline/index.tsx:109-116 | The dropdown value becomes its default for the selection's catalog. |
| Timeline.TimelineRoot.OptionSelected | src/components/roots/timeline/index.tsx:356-359 | The chosen option becomes the value and the dropdown closes. |
| Timeline.TimelineRoot.DropdownClick | src/components/roots/timeline/index.tsx:360-362 | The dropdown opens. |
| Timeline.TimelineRoot.BackgroundClick | src/components/roots/timeline/index.tsx:188-194 | A primary click closes the dropdown; any other input leaves it as it was. |
| Timeline.TimelineRoot.AddPropertyClicked | src/components/roots/timeline/index.tsx:325-343 | Throws exactly when no property is chosen (the dropdown was reset from an empty list). Otherwise it makes the add-property request for the selection and the chosen property. |

## Left out

- Host I/O is not modelled; these are parameters or descriptions instead:
  - Roblox object creation and parenting, `SetAttribute`, and the ReplicatedStorage export folder (src/backend/animation.ts:57-82). The export returns descriptions of the folders and objects it would create.
  - Widget and tree mounting, the plugin mouse icon, and all rendering and styling.
- Number formatting (`string.format('%.2f')`, `tostring`, template conversion) and parsing (`tonumber`) are function parameters; no claim is made about float rounding. All arithmetic is exact `real`.
- Timeline.TimelineRoot.TimeTextChange and Timeline.TimelineRoot.MaxTimeTextChange: these rely on `HostSane`, an assumption about the host's `tonumber`. It states that "0" and "5" parse, that digits-and-dots text never parses negative, and that a formatted non-negative number parses back non-negative.
- The negative-number branches of the two text handlers are not modelled as reachable. Sanitising removes every `-` first, and `Timeline.Sanitize` proves it.
- Timeline.TimelineRoot.TimeTextChange: the Time field is a controlled text box whose text is the scrubber time formatted with two decimals (src/components/roots/timeline/index.tsx:211), and every change of that text fires the handler (src/components/textbox/index.tsx:67-71). So after each render following `RenderStep`, `TimestampClick` or a maximum-time change, the program runs the handler again outside its guard and resets the scrubber to the parsed, clamped, formatted time over the maximum time. The model has no render step and treats the handler as user input only. It therefore does not capture that a click left of the bar (a negative position such as "-0.50") ends, once sanitised, at the mirrored positive position, nor that a maximum time of 0 turns the scrubber into NaN by this path.
- Re-entrant `TextChange` events fired by the handlers' own writes are not modelled. The model shows the guard flag set and cleared around the write, and a call made while it is set changing nothing.
- Timeline.TimelineRoot.TimeTextChange: with a maximum time of 0 the scrubber becomes NaN or an infinity. The model records this through `Num` and does not claim it is in range.
- Aliasing: the reducer's UpdateKeyframe assigns the matched keyframe's fields in place, and DeleteInstanceProperty calls `Set.delete` in place. Both objects are shared with the previous state. The model passes states by value, so the previous state is never changed.
- KeyboardListener.Listener.InputBegan: the source hands `OnKeyPressed` the live held-key set, which later presses, releases and cleanups keep changing. The model records a snapshot of the set at the time of the call, so a handler that keeps the set and reads it later is not modelled.
- Store.AppStore.Dispatch: `DeleteInstanceProperty` is routed to the corrected handler (`DataReducer.DeleteInstancePropertyIntended`), not the handler as written. When two keyframes of the deleted property are adjacent, the program keeps the second while the model's store removes it; the as-written behaviour is `DataReducer.DeleteInstanceProperty` (see "## Findings").
- The tree view's `Expanded` set identity (`expandedRef`) is an input of the tree view model; the timeline's expansion handler always builds a new set, which the model does not link to the tree view's props.
- Set iteration order (the exporter's property set, the listener's held keys) is unspecified. The model chooses an order and states results that hold for every order; the export records the order it used.
- Sorting.SortBy: the host's `table.sort` is not stable, so the order of equal keys is not specified. The stand-in fixes one order, and clients rely only on sortedness and permutation.
- Distances.GetNearestDistance: the documented "no duplicate positions" precondition is not required, because every property holds without it.
- The timeline reads an `InstanceData` map that the shown reducer does not define. It is modelled with its own shape, the property names per tracked node (`Timeline.InstanceDataOf`).
- The panel resize handler and the dropdown's layout are view state with no logic.
- The theme slice of the store and the Rodux library machinery (`combineReducers`, thunk middleware) are not part of this model. Only the reset to the data reducer's initial state is modelled.
- The keyboard listener's connections are made once, by an effect with no dependencies, so they keep calling the `cleanupKeys` of the first render. A later change of `OnKeyReleased` is therefore not seen by focus-loss and heartbeat cleanup. The model fixes both handlers when the listener is constructed.

## Findings

| source | as written | input that shows it | evidently intended | confidence | as-written member | corrected member |
|---|---|---|---|---|---|---|
| src/rodux/reducers/dataReducer.ts:186-193 | The handler removes keyframes from the array while iterating forward over it, so the keyframe that moves into a freed slot is never examined. | Two adjacent keyframes of the deleted instance property: the second survives, although the property is gone from the instance's set. | Delete every keyframe of the property (the comment at line 185) and keep every other keyframe in order. | not executed | DataReducer.SweepMissesAdjacentMatch | DataReducer.DeleteInstancePropertyIntended |

`DataReducer.DeleteInstanceProperty` models the handler as written, and `DataReducer.SweepClearsIffNoAdjacent` proves that it clears the property exactly when no two of its keyframes are adjacent. The store dispatches the corrected handler.

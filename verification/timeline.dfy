/**
 * The timeline widget's input rules: the scrubber position while dragging
 * and on a click of the timestamp bar, the two time fields and their
 * sanitising, tree selection and expansion, the property dropdown's default
 * and the add-property button.  Rendering is not part of this model; the
 * host's number formatting and parsing are passed in.
 */
module Timeline {
  import opened Common
  import opened Values
  import MathUtils
  import SupportedProperties
  import DataReducer
  import TreeView

  /** A host number: exact reals, plus the non-finite results of dividing by zero. */
  datatype Num = Finite(value: real) | PosInf | NegInf | NaN

  /** Division as the host does it: a zero divisor gives an infinity, or NaN for 0 / 0. */
  function Divide(a: real, b: real): (r: Num)
    ensures b != 0.0 ==> r == Finite(a / b)
    ensures b == 0.0 ==> (r == NaN <==> a == 0.0) && (r == PosInf <==> a > 0.0) && (r == NegInf <==> a < 0.0)
  {
    if b != 0.0 then Finite(a / b)
    else if a > 0.0 then PosInf
    else if a < 0.0 then NegInf
    else NaN
  }

  function Clamp(x: real, lo: real, hi: real): (r: real)
    requires lo <= hi
    ensures lo <= r <= hi
    ensures lo <= x <= hi ==> r == x
  {
    if x < lo then lo else if x > hi then hi else x
  }

  /** `math.clamp` on a host number: infinities go to the nearer bound, NaN passes through. */
  function ClampNum(x: Num, lo: real, hi: real): (r: Num)
    requires lo <= hi
    ensures r == NaN <==> x == NaN
    ensures x != NaN ==> r.Finite? && lo <= r.value <= hi
    ensures x.Finite? && lo <= x.value <= hi ==> r == x
    ensures x.Finite? && x.value < lo ==> r == Finite(lo)
    ensures x.Finite? && x.value > hi ==> r == Finite(hi)
    ensures x == PosInf ==> r == Finite(hi)
    ensures x == NegInf ==> r == Finite(lo)
  {
    match x
    case Finite(v) => Finite(Clamp(v, lo, hi))
    case PosInf => Finite(hi)
    case NegInf => Finite(lo)
    case NaN => NaN
  }

  /** The position while dragging: the mouse offset from the container, corrected by the grab offset and 7 pixels, over the container's width, clamped to [0, 1]. */
  function DragPosition(mouseX: real, containerX: real, mouseOffset: real, width: real): Num {
    ClampNum(Divide(mouseX - containerX - mouseOffset + 7.0, width), 0.0, 1.0)
  }

  /** The position after a click on the timestamp bar: the mouse offset over the width, not clamped. */
  function ClickPosition(mouseX: real, containerX: real, width: real): Num {
    Divide(mouseX - containerX + 0.0, width)
  }

  /**
   * A drag always yields a position in [0, 1], except NaN when the
   * container has no width and the corrected mouse offset is zero; with a
   * width it is the normalised mouse position, clamped.
   */
  lemma DragPositionInUnit(mouseX: real, containerX: real, mouseOffset: real, width: real)
    ensures var p := DragPosition(mouseX, containerX, mouseOffset, width);
            (p.Finite? && 0.0 <= p.value <= 1.0)
            || (p == NaN && width == 0.0 && mouseX - containerX - mouseOffset + 7.0 == 0.0)
    ensures width != 0.0 ==>
              var lo := containerX + mouseOffset - 7.0;
              DragPosition(mouseX, containerX, mouseOffset, width)
              == Finite(Clamp(MathUtils.NormalizeToRange(mouseX, lo, lo + width, 0.0, 1.0), 0.0, 1.0))
  {
    if width != 0.0 {
      var lo := containerX + mouseOffset - 7.0;
      var n := MathUtils.NormalizeToRange(mouseX, lo, lo + width, 0.0, 1.0);
      assert n * width == mouseX - lo;
      assert (mouseX - containerX - mouseOffset + 7.0) / width == n;
    }
  }

  /** A click inside the bar's width lands in [0, 1]; a click left of the container gives a negative position. */
  lemma ClickPositionUnclamped(mouseX: real, containerX: real, width: real)
    requires width > 0.0
    ensures var p := ClickPosition(mouseX, containerX, width);
            p.Finite?
            && (0.0 <= p.value <= 1.0 <==> containerX <= mouseX <= containerX + width)
            && (mouseX < containerX ==> p.value < 0.0)
  {
    var p := ClickPosition(mouseX, containerX, width);
    assert p.value * width == mouseX - containerX;
    if p.value > 1.0 {
      assert p.value * width > width;
    }
    if mouseX > containerX + width {
      assert p.value * width > 1.0 * width;
    }
  }

  // ---------------------------------------------------------------------
  // Time fields
  // ---------------------------------------------------------------------

  predicate AllowedChar(c: char) {
    '0' <= c <= '9' || c == '.'
  }

  predicate DigitsAndDots(s: string) {
    forall i :: 0 <= i < |s| ==> AllowedChar(s[i])
  }

  /** The `gsub('[^%d%.]', '')`: every character that is not a digit or a dot is dropped. */
  function Sanitize(s: string): (r: string)
    ensures DigitsAndDots(r)
    ensures |r| <= |s|
    ensures '-' !in r
  {
    if s == [] then []
    else (if AllowedChar(s[0]) then [s[0]] else []) + Sanitize(s[1..])
  }

  /** Sanitising keeps text of digits and dots as it is. */
  lemma {:induction false} SanitizeKeepsAllowed(s: string)
    requires DigitsAndDots(s)
    ensures Sanitize(s) == s
  {
    if s != [] {
      SanitizeKeepsAllowed(s[1..]);
      assert s == [s[0]] + s[1..];
    }
  }

  /** Sanitising twice is sanitising once, and it distributes over concatenation. */
  lemma SanitizeIdempotent(s: string)
    ensures Sanitize(Sanitize(s)) == Sanitize(s)
  {
    SanitizeKeepsAllowed(Sanitize(s));
  }

  lemma SanitizeCons(c: char, s: string)
    ensures Sanitize([c] + s) == (if AllowedChar(c) then [c] else []) + Sanitize(s)
  {
    assert ([c] + s)[0] == c && ([c] + s)[1..] == s;
  }

  lemma {:induction false} SanitizeAppend(a: string, b: string)
    ensures Sanitize(a + b) == Sanitize(a) + Sanitize(b)
  {
    if a != [] {
      var c := a[0];
      var tail := a[1..];
      assert a == [c] + tail && a + b == [c] + (tail + b);
      SanitizeCons(c, tail + b);
      SanitizeCons(c, tail);
      SanitizeAppend(tail, b);
      var kept := if AllowedChar(c) then [c] else [];
      assert kept + (Sanitize(tail) + Sanitize(b)) == kept + Sanitize(tail) + Sanitize(b);
    } else {
      assert a + b == b;
    }
  }

  /** The host's `string.format('%.2f', x)` and `tonumber`. */
  datatype Host = Host(fmt2: real -> string, parse: string -> Option<real>)

  /**
   * What the handlers rely on from the host: the initial field texts parse,
   * text of digits and dots never parses to a negative number, and a
   * formatted non-negative number parses back to a non-negative one.
   */
  ghost predicate HostSane(h: Host) {
    h.parse("0") == Some(0.0) && h.parse("5") == Some(5.0)
    && (forall s :: DigitsAndDots(s) && h.parse(s).Some? ==> h.parse(s).value >= 0.0)
    && (forall x :: 0.0 <= x ==> h.parse(h.fmt2(x)).Some? && h.parse(h.fmt2(x)).value >= 0.0)
  }

  // ---------------------------------------------------------------------
  // Tree selection and expansion
  // ---------------------------------------------------------------------

  /** The selection after a click: non-GUI nodes are ignored, the selected node is deselected, any other node is selected. */
  function SelectionAfter(selected: Option<InstanceId>, item: InstanceId, isGuiObject: bool): (r: Option<InstanceId>)
    ensures !isGuiObject ==> r == selected
    ensures isGuiObject ==> (r.None? <==> selected == Some(item)) && (r.Some? ==> r.value == item)
  {
    if !isGuiObject then selected
    else match selected
      case Some(val) => if val == item then None else Some(item)
      case None => Some(item)
  }

  /** Clicking one GUI node twice keeps it selected if it was, and otherwise leaves nothing selected. */
  lemma SelectionTwice(selected: Option<InstanceId>, item: InstanceId)
    ensures SelectionAfter(SelectionAfter(selected, item, true), item, true)
            == (if selected == Some(item) then selected else None)
  {
  }

  /** The expanded set after a request: added when asked to expand, removed otherwise. */
  function ExpansionAfter(expanded: set<InstanceId>, item: InstanceId, newState: bool): (r: set<InstanceId>)
    ensures item in r <==> newState
    ensures forall other :: other != item ==> (other in r <==> other in expanded)
  {
    if newState then expanded + {item} else expanded - {item}
  }

  /** The tree view's toggle asks for the opposite state; toggling twice restores the set. */
  lemma ToggleTwiceRestores(expanded: set<InstanceId>, item: InstanceId)
    ensures var once := ExpansionAfter(expanded, item, item !in expanded);
            ExpansionAfter(once, item, item !in once) == expanded
  {
    var once := ExpansionAfter(expanded, item, item !in expanded);
    var twice := ExpansionAfter(once, item, item !in once);
    assert forall x :: x in twice <==> x in expanded;
  }

  /**
   * A tree-view toggle passed to the expansion handler asks for the row's
   * own item, and the flag drawn on every row of that item flips while
   * every other row keeps its flag.
   */
  lemma ToggleFlipsOnlyItsRows(props: TreeView.Props, row: TreeView.Row)
    ensures var req := TreeView.ToggleRequest(props, row);
            var after := props.(expanded := ExpansionAfter(props.expanded, req.0, req.1));
            req.0 == row.item
            && forall other: TreeView.Row :: TreeView.IsExpanded(after, other) <==>
                 if other.item == row.item then !TreeView.IsExpanded(props, other) else TreeView.IsExpanded(props, other)
  {
  }

  /**
   * After the toggle, the toggled node shows its filtered children one
   * level down exactly when it was collapsed before, and nothing below it
   * when it was expanded.
   */
  lemma ToggleShowsChildren(props: TreeView.Props, row: TreeView.Row, n: TreeView.Node)
    requires row.item == n.id
    ensures var req := TreeView.ToggleRequest(props, row);
            var after := ExpansionAfter(props.expanded, req.0, req.1);
            TreeView.AtDepth(TreeView.Visible(n, row.depth, after, props.baseClass), row.depth + 1)
            == (if TreeView.IsExpanded(props, row) then [] else TreeView.ShownChildren(n, |n.children|, props.baseClass))
  {
    var req := TreeView.ToggleRequest(props, row);
    TreeView.VisibleLevel(n, row.depth, ExpansionAfter(props.expanded, req.0, req.1), props.baseClass);
  }

  /**
   * A tree-view selection passed to the selection handler: for a GUI
   * node, exactly the rows of that node are drawn selected afterwards,
   * unless it was selected already, in which case no row is; a click on
   * any other node changes no row's flag.
   */
  lemma SelectionFlags(props: TreeView.Props, row: TreeView.Row, isGuiObject: bool)
    ensures var after := props.(selected := SelectionAfter(props.selected, row.item, isGuiObject));
            forall other: TreeView.Row :: TreeView.IsSelected(after, other) <==>
              if !isGuiObject then TreeView.IsSelected(props, other)
              else other.item == row.item && !TreeView.IsSelected(props, row)
  {
  }

  // ---------------------------------------------------------------------
  // Property dropdown and add button
  // ---------------------------------------------------------------------

  /** The properties offered for the selection: none without a selection, else its class's catalog. */
  function Supported(selected: Option<InstanceId>, className: string): (r: Option<seq<string>>)
    ensures selected.None? <==> r.None?
    ensures r.Some? ==> r.value == SupportedProperties.GetSupportedProperties(className)
  {
    if selected.Some? then Some(SupportedProperties.GetSupportedProperties(className)) else None
  }

  /**
   * The dropdown effect: a value the offered list does not include is
   * replaced by the list's first entry, which is undefined (None) for an
   * empty list.
   */
  function DropdownDefault(supported: Option<seq<string>>, current: Option<string>): (r: Option<string>)
    ensures supported.None? ==> r == current
    ensures supported.Some? && current.Some? && current.value in supported.value ==> r == current
    ensures supported.Some? && |supported.value| > 0 ==> r.Some? && r.value in supported.value
    ensures supported.Some? && supported.value == [] ==> r.None?
  {
    if supported.Some? && !(current.Some? && current.value in supported.value) then
      (if |supported.value| > 0 then Some(supported.value[0]) else None)
    else current
  }

  /** Running the effect again changes nothing: it settles after one update. */
  lemma DropdownDefaultSettles(supported: Option<seq<string>>, current: Option<string>)
    ensures DropdownDefault(supported, DropdownDefault(supported, current)) == DropdownDefault(supported, current)
  {
  }

  /** A selected node of a supported class always ends with one of the twelve shared properties. */
  lemma DropdownOnSupportedClass(className: string, current: Option<string>)
    requires SupportedProperties.IsSupportedClass(className)
    ensures var r := DropdownDefault(Supported(Some(0), className), current);
            r.Some? && r.value in SupportedProperties.SharedProperties
  {
    SupportedProperties.SupportedPropertiesShape(className);
  }

  /** The timeline's view of the store: the property names each tracked node has. */
  type InstanceData = map<InstanceId, set<string>>

  /** The store as the timeline sees it. */
  function InstanceDataOf(s: DataReducer.State): (r: InstanceData)
    requires DataReducer.Parallel(s)
    ensures forall inst :: inst in r <==> inst in s.instances
  {
    map inst | inst in s.instances :: s.properties[DataReducer.IndexOf(s.instances, inst)]
  }

  /** Why the add button throws: no property is chosen, so the node is read with an undefined key. */
  datatype AddError = UndefinedProperty

  /** The add button's request: a first keyframe at position 0 with the node's current value, only when the node is untracked or lacks the property. */
  function AddPropertyRequest(instances: InstanceData, selection: InstanceId, property: string, currentValue: KeyframeValue)
    : (r: Option<DataReducer.KeyframeUpdate>)
    ensures r.Some? <==> (selection !in instances || property !in instances[selection])
    ensures r.Some? ==> r.value.instance == selection && r.value.property == property
                        && r.value.position == 0.0 && r.value.value == currentValue
                        && r.value.kind.None? && r.value.easingStyle.None? && r.value.easingDirection.None?
                        && r.value.dampingRatio.None? && r.value.frequency.None?
  {
    if selection !in instances || property !in instances[selection] then
      Some(DataReducer.KeyframeUpdate(selection, property, 0.0, currentValue, None, None, None, None, None))
    else None
  }

  /**
   * After the request is applied to the store, the button asks for nothing
   * more for that node and property, whatever the node's value then is,
   * and the store holds a keyframe for it at position 0.
   */
  lemma AddPropertyOnce(s: DataReducer.State, selection: InstanceId, property: string, v: KeyframeValue, v': KeyframeValue)
    requires DataReducer.Parallel(s)
    requires AddPropertyRequest(InstanceDataOf(s), selection, property, v).Some?
    ensures var u := AddPropertyRequest(InstanceDataOf(s), selection, property, v).value;
            var t := DataReducer.Upserted(s, u);
            DataReducer.Parallel(t)
            && AddPropertyRequest(InstanceDataOf(t), selection, property, v').None?
            && exists j :: 0 <= j < |t.keyframes| && DataReducer.RefOf(t.keyframes[j]) == DataReducer.KeyframeRef(selection, property, 0.0)
  {
    var u := AddPropertyRequest(InstanceDataOf(s), selection, property, v).value;
    var tracked := DataReducer.Tracked(s, selection, property);
    var t := DataReducer.Upserted(s, u);
    assert t.instances == tracked.instances && t.properties == tracked.properties;
    var i := DataReducer.FindKeyframe(tracked.keyframes, DataReducer.UpdateRef(u));
    if i == -1 {
      assert t.keyframes[|tracked.keyframes|] == DataReducer.NewKeyframe(u);
    } else {
      assert DataReducer.RefOf(t.keyframes[i]) == DataReducer.RefOf(tracked.keyframes[i]);
    }
  }

  // ---------------------------------------------------------------------
  // The widget
  // ---------------------------------------------------------------------

  /** The timeline root's hook state. */
  class TimelineRoot {
    const root: InstanceId
    const host: Host
    /** The chosen property; None once it was reset from an empty list. */
    var propertyDropdownValue: Option<string>
    var propertyDropdownOpen: bool
    var maxTime: real
    var changingTimeAutomatically: bool
    var previousTimeText: string
    var previousMaxTimeText: string
    /**
     * The texts the two fields show.  The Time field is also rewritten by
     * every render with the scrubber time, and that write reaches
     * `TimeTextChange` outside the guard; that render step is not part of
     * this model.
     */
    var timeText: string
    var maxTimeText: string
    var selected: Option<InstanceId>
    var expanded: set<InstanceId>
    var scrubberPos: Num
    var scrubbing: bool
    var scrubberMouseOffset: real

    /** The field texts always parse to non-negative numbers, and so does the maximum time. */
    ghost predicate Valid()
      reads this
    {
      HostSane(host)
      && 0.0 <= maxTime
      && host.parse(previousTimeText).Some? && host.parse(previousTimeText).value >= 0.0
      && host.parse(previousMaxTimeText).Some? && host.parse(previousMaxTimeText).value >= 0.0
    }

    /** The initial hook values. */
    constructor (root: InstanceId, host: Host)
      requires HostSane(host)
      ensures Valid()
      ensures this.root == root && this.host == host
      ensures propertyDropdownValue == Some("UNKNOWN") && !propertyDropdownOpen
      ensures maxTime == 5.0 && !changingTimeAutomatically
      ensures previousTimeText == "0" && previousMaxTimeText == "5"
      ensures selected == None && expanded == {root}
      ensures scrubberPos == Finite(0.0) && !scrubbing && scrubberMouseOffset == 0.0
    {
      this.root := root;
      this.host := host;
      propertyDropdownValue := Some("UNKNOWN");
      propertyDropdownOpen := false;
      maxTime := 5.0;
      changingTimeAutomatically := false;
      previousTimeText := "0";
      previousMaxTimeText := "5";
      timeText := "0";
      maxTimeText := "5";
      selected := None;
      expanded := {root};
      scrubberPos := Finite(0.0);
      scrubbing := false;
      scrubberMouseOffset := 0.0;
    }

    /** The render-step connection: while scrubbing over a present container, the drag position. */
    method RenderStep(mouseX: real, containerX: real, width: real, containerPresent: bool)
      modifies this`scrubberPos
      ensures scrubbing && containerPresent ==> scrubberPos == DragPosition(mouseX, containerX, scrubberMouseOffset, width)
      ensures !(scrubbing && containerPresent) ==> scrubberPos == old(scrubberPos)
    {
      if scrubbing && containerPresent {
        var newScrubberPos := Divide(mouseX - containerX - scrubberMouseOffset + 7.0, width);
        newScrubberPos := ClampNum(newScrubberPos, 0.0, 1.0);
        scrubberPos := newScrubberPos;
      }
    }

    /** `OnDrag`: remembers the grab offset and starts scrubbing. */
    method DragStart(mouseOffset: real)
      modifies this`scrubberMouseOffset, this`scrubbing
      ensures scrubberMouseOffset == mouseOffset && scrubbing
    {
      scrubberMouseOffset := mouseOffset;
      scrubbing := true;
    }

    /** `OnDragEnd` */
    method DragEnd()
      modifies this`scrubbing
      ensures !scrubbing
    {
      scrubbing := false;
    }

    /** A primary click on the timestamp bar, when not scrubbing and the container is present, moves the scrubber there. */
    method TimestampClick(isPrimaryButton: bool, mouseX: real, containerX: real, width: real, containerPresent: bool)
      modifies this`scrubberPos
      ensures isPrimaryButton && !scrubbing && containerPresent ==> scrubberPos == ClickPosition(mouseX, containerX, width)
      ensures !(isPrimaryButton && !scrubbing && containerPresent) ==> scrubberPos == old(scrubberPos)
    {
      if isPrimaryButton && !scrubbing && containerPresent {
        scrubberPos := Divide(mouseX - containerX + 0.0, width);
      }
    }

    /**
     * The time field's `TextChange`.  Ignored while a programmatic write is
     * under way.  Otherwise the text is sanitised; text that does not parse
     * is replaced by the previous text, reformatted; a number is clamped to
     * [0, maxTime], written back formatted, and the scrubber is set to the
     * written value over the maximum time.  The written text is remembered.
     */
    method TimeTextChange(text: string)
      requires Valid()
      modifies this`changingTimeAutomatically, this`timeText, this`previousTimeText, this`scrubberPos
      ensures Valid()
      ensures old(changingTimeAutomatically) ==>
                changingTimeAutomatically && timeText == old(timeText)
                && previousTimeText == old(previousTimeText) && scrubberPos == old(scrubberPos)
      ensures !old(changingTimeAutomatically) ==>
                !changingTimeAutomatically && previousTimeText == timeText
                && (host.parse(Sanitize(text)).None? ==>
                      timeText == host.fmt2(host.parse(old(previousTimeText)).value) && scrubberPos == old(scrubberPos))
                && (host.parse(Sanitize(text)).Some? ==>
                      timeText == host.fmt2(Clamp(host.parse(Sanitize(text)).value, 0.0, maxTime))
                      && scrubberPos == Divide(host.parse(timeText).value, maxTime))
    {
      if changingTimeAutomatically {
        return;
      }
      changingTimeAutomatically := true;
      timeText := Sanitize(text);
      changingTimeAutomatically := false;

      if host.parse(timeText).None? {
        changingTimeAutomatically := true;
        timeText := host.fmt2(host.parse(previousTimeText).value);
        changingTimeAutomatically := false;
      } else if |timeText| > 0 && timeText[0] == '-' {
        assert false;
      } else {
        changingTimeAutomatically := true;
        timeText := host.fmt2(Clamp(host.parse(timeText).value, 0.0, maxTime));
        scrubberPos := Divide(host.parse(timeText).value, maxTime);
        changingTimeAutomatically := false;
      }
      previousTimeText := timeText;
    }

    /**
     * The max-time field's `TextChange`: the same sanitising and reverting,
     * but a number is written back formatted without clamping and becomes
     * the maximum time as read back from that text, so 0 is accepted.
     */
    method MaxTimeTextChange(text: string)
      requires Valid()
      modifies this`changingTimeAutomatically, this`maxTimeText, this`previousMaxTimeText, this`maxTime
      ensures Valid()
      ensures old(changingTimeAutomatically) ==>
                changingTimeAutomatically && maxTimeText == old(maxTimeText)
                && previousMaxTimeText == old(previousMaxTimeText) && maxTime == old(maxTime)
      ensures !old(changingTimeAutomatically) ==>
                !changingTimeAutomatically && previousMaxTimeText == maxTimeText
                && (host.parse(Sanitize(text)).None? ==>
                      maxTimeText == host.fmt2(host.parse(old(previousMaxTimeText)).value) && maxTime == old(maxTime))
                && (host.parse(Sanitize(text)).Some? ==>
                      maxTimeText == host.fmt2(host.parse(Sanitize(text)).value)
                      && maxTime == host.parse(maxTimeText).value)
    {
      if changingTimeAutomatically {
        return;
      }
      changingTimeAutomatically := true;
      maxTimeText := Sanitize(text);
      changingTimeAutomatically := false;

      if host.parse(maxTimeText).None? {
        changingTimeAutomatically := true;
        maxTimeText := host.fmt2(host.parse(previousMaxTimeText).value);
        changingTimeAutomatically := false;
      } else if |maxTimeText| > 0 && maxTimeText[0] == '-' {
        assert false;
      } else {
        changingTimeAutomatically := true;
        maxTimeText := host.fmt2(host.parse(maxTimeText).value);
        maxTime := host.parse(maxTimeText).value;
        changingTimeAutomatically := false;
      }
      previousMaxTimeText := maxTimeText;
    }

    /** `OnSelectionChange` */
    method SelectionChange(item: InstanceId, isGuiObject: bool)
      modifies this`selected
      ensures selected == SelectionAfter(old(selected), item, isGuiObject)
    {
      if !isGuiObject {
        return;
      }
      match selected {
        case Some(val) =>
          if val == item {
            selected := None;
          } else {
            selected := Some(item);
          }
        case None =>
          selected := Some(item);
      }
    }

    /** `OnExpansionChange` */
    method ExpansionChange(item: InstanceId, newState: bool)
      modifies this`expanded
      ensures expanded == ExpansionAfter(old(expanded), item, newState)
    {
      if newState {
        expanded := expanded + {item};
      } else {
        var ex := expanded;
        ex := ex - {item};
        expanded := ex;
      }
    }

    /** The dropdown effect, given the host class name of the selected node. */
    method RecalculateDropdown(className: string)
      modifies this`propertyDropdownValue
      ensures propertyDropdownValue == DropdownDefault(Supported(selected, className), old(propertyDropdownValue))
    {
      var supportedProperties := Supported(selected, className);
      if supportedProperties.Some? && !(propertyDropdownValue.Some? && propertyDropdownValue.value in supportedProperties.value) {
        propertyDropdownValue := if |supportedProperties.value| > 0 then Some(supportedProperties.value[0]) else None;
      }
    }

    /** `OnOptionSelected` */
    method OptionSelected(val: string)
      modifies this`propertyDropdownValue, this`propertyDropdownOpen
      ensures propertyDropdownValue == Some(val) && !propertyDropdownOpen
    {
      propertyDropdownValue := Some(val);
      propertyDropdownOpen := false;
    }

    /** The dropdown's `OnClick` */
    method DropdownClick()
      modifies this`propertyDropdownOpen
      ensures propertyDropdownOpen
    {
      propertyDropdownOpen := true;
    }

    /** A primary click anywhere on the widget closes an open dropdown. */
    method BackgroundClick(isPrimaryButton: bool)
      modifies this`propertyDropdownOpen
      ensures propertyDropdownOpen == (old(propertyDropdownOpen) && !isPrimaryButton)
    {
      if isPrimaryButton {
        if propertyDropdownOpen {
          propertyDropdownOpen := false;
        }
      }
    }

    /**
     * The add button, shown only while a node is selected; `currentValue`
     * is the node's current value of the chosen property.  Without a chosen
     * property it throws.
     */
    method AddPropertyClicked(instances: InstanceData, currentValue: KeyframeValue)
      returns (r: Result<Option<DataReducer.KeyframeUpdate>, AddError>)
      requires selected.Some?
      ensures propertyDropdownValue.None? <==> r.Err?
      ensures r.Ok? ==> r.value == AddPropertyRequest(instances, selected.value, propertyDropdownValue.value, currentValue)
    {
      var currentSelection := selected.value;
      if propertyDropdownValue.None? {
        return Err(UndefinedProperty);
      }
      var property := propertyDropdownValue.value;
      if currentSelection !in instances || property !in instances[currentSelection] {
        return Ok(Some(DataReducer.KeyframeUpdate(currentSelection, property, 0.0, currentValue, None, None, None, None, None)));
      }
      return Ok(None);
    }
  }
}

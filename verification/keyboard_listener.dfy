/**
 * The keyboard listener of a plugin widget: tracks the keys held down while
 * the widget has focus and releases them all when focus is lost or the
 * mouse leaves the widget.
 */
module KeyboardListener {

  /** A member of the host's `Enum.KeyCode`. */
  type KeyCode = nat

  /** The host's `UserInputType`, reduced to what the handlers test. */
  datatype InputType = Keyboard | OtherInput

  /** A call the listener makes to its owner. */
  datatype Callback =
    | KeyPressed(key: KeyCode, keysHeld: set<KeyCode>)
    | KeyReleased(key: KeyCode)

  /**
   * The heartbeat's bounds test: the mouse is outside when strictly left
   * of, above, right of or below the widget, so a point on the edge counts
   * as inside.
   */
  predicate OutsideBounds(mouseX: real, mouseY: real, width: real, height: real): (r: bool)
    ensures r <==> !(0.0 <= mouseX <= width && 0.0 <= mouseY <= height)
  {
    mouseX < 0.0 || mouseY < 0.0 || mouseX > width || mouseY > height
  }

  /** The keys a list of callbacks releases. */
  function ReleasedKeys(cs: seq<Callback>): (r: set<KeyCode>)
    ensures forall k :: k in r <==> exists i :: 0 <= i < |cs| && cs[i] == KeyReleased(k)
  {
    if cs == [] then {}
    else
      var rest := ReleasedKeys(cs[..|cs| - 1]);
      assert forall i :: 0 <= i < |cs| - 1 ==> cs[..|cs| - 1][i] == cs[i];
      if cs[|cs| - 1].KeyReleased? then rest + {cs[|cs| - 1].key} else rest
  }

  /** Releasing a key not yet released keeps the releases distinct and adds the key. */
  lemma ReleasedKeysSnoc(cs: seq<Callback>, key: KeyCode)
    requires DistinctReleases(cs) && key !in ReleasedKeys(cs)
    ensures DistinctReleases(cs + [KeyReleased(key)])
    ensures ReleasedKeys(cs + [KeyReleased(key)]) == ReleasedKeys(cs) + {key}
  {
    var next := cs + [KeyReleased(key)];
    assert next[..|next| - 1] == cs;
    forall i, j | 0 <= i < j < |next|
      ensures next[i] != next[j]
    {
      if j == |next| - 1 {
        assert next[i] == cs[i];
      } else {
        assert next[i] == cs[i] && next[j] == cs[j];
      }
    }
  }

  /** Every callback is a release, and no key is released twice. */
  predicate DistinctReleases(cs: seq<Callback>) {
    (forall i :: 0 <= i < |cs| ==> cs[i].KeyReleased?)
    && (forall i, j :: 0 <= i < j < |cs| ==> cs[i] != cs[j])
  }

  /**
   * What `cleanupKeys` adds to the calls: with a release handler, exactly
   * one release per held key and nothing else; without one, nothing.
   */
  predicate CleanedUp(prior: seq<Callback>, now: seq<Callback>, held: set<KeyCode>, hasOnKeyReleased: bool) {
    prior <= now
    && if hasOnKeyReleased then
         |now| == |prior| + |held| && DistinctReleases(now[|prior|..]) && ReleasedKeys(now[|prior|..]) == held
       else now == prior
  }

  /** One step of the release loop keeps its invariant. */
  lemma ReleaseStep(keys: set<KeyCode>, remaining: set<KeyCode>, released: seq<Callback>, key: KeyCode)
    requires remaining <= keys && key in remaining
    requires DistinctReleases(released) && ReleasedKeys(released) == keys - remaining
    requires |released| + |remaining| == |keys|
    ensures remaining - {key} <= keys
    ensures DistinctReleases(released + [KeyReleased(key)])
    ensures ReleasedKeys(released + [KeyReleased(key)]) == keys - (remaining - {key})
    ensures |released + [KeyReleased(key)]| + |remaining - {key}| == |keys|
  {
    ReleasedKeysSnoc(released, key);
  }

  /** The `forEach` over the held keys: one release per key, in the set's unspecified order. */
  method ReleaseEach(keys: set<KeyCode>) returns (released: seq<Callback>)
    ensures |released| == |keys|
    ensures DistinctReleases(released)
    ensures ReleasedKeys(released) == keys
  {
    var remaining := keys;
    released := [];
    while remaining != {}
      invariant remaining <= keys
      invariant DistinctReleases(released)
      invariant ReleasedKeys(released) == keys - remaining
      invariant |released| + |remaining| == |keys|
      decreases |remaining|
    {
      var key :| key in remaining;
      ReleaseStep(keys, remaining, released, key);
      released := released + [KeyReleased(key)];
      remaining := remaining - {key};
    }
  }

  /** The listener's state and the callbacks it has made. */
  class Listener {
    var keysHeld: set<KeyCode>
    var isFocused: bool
    /** Every callback made so far, in order. */
    var calls: seq<Callback>
    const hasOnKeyPressed: bool
    const hasOnKeyReleased: bool

    constructor (hasOnKeyPressed: bool, hasOnKeyReleased: bool)
      ensures keysHeld == {} && !isFocused && calls == []
      ensures this.hasOnKeyPressed == hasOnKeyPressed && this.hasOnKeyReleased == hasOnKeyReleased
    {
      keysHeld := {};
      isFocused := false;
      calls := [];
      this.hasOnKeyPressed := hasOnKeyPressed;
      this.hasOnKeyReleased := hasOnKeyReleased;
    }

    /**
     * `cleanupKeys`: when a release handler exists, reports every held key
     * released once (in the set's unspecified order); then empties the set.
     */
    method CleanupKeys()
      modifies this
      ensures keysHeld == {} && isFocused == old(isFocused)
      ensures CleanedUp(old(calls), calls, old(keysHeld), hasOnKeyReleased)
    {
      if hasOnKeyReleased {
        var released := ReleaseEach(keysHeld);
        calls := calls + released;
        assert calls[|old(calls)|..] == released;
      }
      keysHeld := {};
    }

    /** `WindowFocused` */
    method FocusGained()
      modifies this
      ensures isFocused && keysHeld == old(keysHeld) && calls == old(calls)
    {
      isFocused := true;
    }

    /** `WindowFocusReleased`: releases the held keys, if any, and drops focus. */
    method FocusLost()
      modifies this
      ensures !isFocused && keysHeld == {}
      ensures old(keysHeld) == {} ==> calls == old(calls)
      ensures old(keysHeld) != {} ==> CleanedUp(old(calls), calls, old(keysHeld), hasOnKeyReleased)
    {
      if |keysHeld| > 0 {
        CleanupKeys();
      }
      isFocused := false;
    }

    /**
     * The heartbeat check, given the mouse position relative to the widget
     * and the widget's size: while focused with keys held, a mouse strictly
     * outside the widget releases every key.
     */
    method Heartbeat(mouseX: real, mouseY: real, width: real, height: real)
      modifies this
      ensures isFocused == old(isFocused)
      ensures old(isFocused) && old(keysHeld) != {} && OutsideBounds(mouseX, mouseY, width, height) ==>
                keysHeld == {} && CleanedUp(old(calls), calls, old(keysHeld), hasOnKeyReleased)
      ensures !(old(isFocused) && old(keysHeld) != {} && OutsideBounds(mouseX, mouseY, width, height)) ==>
                keysHeld == old(keysHeld) && calls == old(calls)
    {
      if isFocused && |keysHeld| > 0 {
        if mouseX < 0.0 || mouseY < 0.0 || mouseX > width || mouseY > height {
          CleanupKeys();
        }
      }
    }

    /** `InputBegan`: a keyboard key is added to the held set, then reported with the set. */
    method InputBegan(inputType: InputType, key: KeyCode)
      modifies this
      ensures isFocused == old(isFocused)
      ensures inputType != Keyboard ==> keysHeld == old(keysHeld) && calls == old(calls)
      ensures inputType == Keyboard ==> keysHeld == old(keysHeld) + {key}
      ensures inputType == Keyboard && hasOnKeyPressed ==> calls == old(calls) + [KeyPressed(key, keysHeld)]
      ensures inputType == Keyboard && !hasOnKeyPressed ==> calls == old(calls)
    {
      if inputType != Keyboard {
        return;
      }
      keysHeld := keysHeld + {key};
      if hasOnKeyPressed {
        calls := calls + [KeyPressed(key, keysHeld)];
      }
    }

    /** `InputEnded`: a keyboard key is removed from the held set, then reported released. */
    method InputEnded(inputType: InputType, key: KeyCode)
      modifies this
      ensures isFocused == old(isFocused)
      ensures inputType != Keyboard ==> keysHeld == old(keysHeld) && calls == old(calls)
      ensures inputType == Keyboard ==> keysHeld == old(keysHeld) - {key}
      ensures inputType == Keyboard && hasOnKeyReleased ==> calls == old(calls) + [KeyReleased(key)]
      ensures inputType == Keyboard && !hasOnKeyReleased ==> calls == old(calls)
    {
      if inputType != Keyboard {
        return;
      }
      keysHeld := keysHeld - {key};
      if hasOnKeyReleased {
        calls := calls + [KeyReleased(key)];
      }
    }
  }
}

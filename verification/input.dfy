/**
 * Per-frame keyboard state (src/App/Input.h): from the previous down-set and
 * the keys held this frame, the keys that went down (pressed) and came up
 * (released) on this frame; plus the pending pick coordinates and the selected
 * face.  The mouse half of the class works on floats and is not modelled.
 */
module Inputs {
  import opened Primitives

  /** `enum class KEYS`. */
  datatype Key =
    | UP | DOWN | LEFT | RIGHT | CTRL | SHIFT | ALT | Z | Y | SPACE | ESCAPE
    | MOUSE_LEFT | MOUSE_RIGHT | MOUSE_MIDDLE | UNDO | REDO | DEBUG

  /** `enum class INTERACTION_MODE`. */
  datatype InteractionMode = DEFAULT | FACE

  const TWO_TO_32: int := 0x1_0000_0000
  const TWO_TO_31: int := 0x8000_0000

  /** The conversion of a 32-bit unsigned id to `int32_t`: ids of 2^31 and above wrap to negative values. */
  function ToInt32(id: FaceId): (r: int)
    requires id < TWO_TO_32
    ensures -TWO_TO_31 <= r < TWO_TO_31
    ensures r % TWO_TO_32 == id
    ensures r >= 0 <==> id < TWO_TO_31
  {
    if id < TWO_TO_31 then id else id - TWO_TO_32
  }

  /** The keys that went down this frame and those that came up, given the keys down last frame and now. */
  function KeyEdges(previous: set<Key>, current: set<Key>): (edges: (set<Key>, set<Key>))
    ensures forall k :: k in edges.0 <==> k in current && k !in previous
    ensures forall k :: k in edges.1 <==> k in previous && k !in current
  {
    (current - previous, previous - current)
  }

  /** Pressed and released keys are disjoint, pressed keys are down and released keys are not. */
  lemma KeyEdgesConsistent(previous: set<Key>, current: set<Key>)
    ensures KeyEdges(previous, current).0 !! KeyEdges(previous, current).1
    ensures KeyEdges(previous, current).0 <= current
    ensures KeyEdges(previous, current).1 !! current
  {
  }

  /** A second update with the same keys reports nothing pressed and nothing released. */
  lemma KeyEdgesSettle(current: set<Key>)
    ensures KeyEdges(current, current) == ({}, {})
  {
    assert current - current == {};
  }

  class Input {
    var keysPressed: set<Key>
    var keysDown: set<Key>
    var keysReleased: set<Key>
    var interactionMode: InteractionMode
    /** `pendingPick_[2]`: the screen position of a pick request, (-1, -1) when none is pending. */
    const pendingPick: array<int>
    var selectedFaceId: int
    var selectedVertexId: int

    /** Pressed keys are down, released keys are up, and no key is both. */
    ghost predicate Valid()
      reads this
    {
      pendingPick.Length == 2
      && keysPressed <= keysDown && keysReleased !! keysDown && keysPressed !! keysReleased
    }

    /** The member initialisers: no keys, no pick pending, nothing selected. */
    constructor()
      ensures Valid() && fresh(pendingPick)
      ensures keysPressed == {} && keysDown == {} && keysReleased == {}
      ensures pendingPick[..] == [-1, -1] && selectedFaceId == -1 && selectedVertexId == -1
    {
      keysPressed, keysDown, keysReleased := {}, {}, {};
      interactionMode := DEFAULT;
      pendingPick := new int[2] [-1, -1];
      selectedFaceId := -1;
      selectedVertexId := -1;
    }

    /** Only on the frame the key went down. */
    function IsPressed(key: Key): (b: bool)
      reads this
      requires Valid()
      ensures b ==> IsDown(key) && !IsReleased(key)
    {
      key in keysPressed
    }

    /** Only on the frame the key came up. */
    function IsReleased(key: Key): (b: bool)
      reads this
      requires Valid()
      ensures b ==> !IsDown(key)
    {
      key in keysReleased
    }

    function IsDown(key: Key): bool
      reads this
    {
      key in keysDown
    }

    /** Ctrl held and the key pressed this frame: both keys are down. */
    function IsCtrlPressed(key: Key): (b: bool)
      reads this
      requires Valid()
      ensures b ==> IsDown(CTRL) && IsDown(key) && !IsReleased(key)
    {
      IsDown(CTRL) && IsPressed(key)
    }

    /** Ctrl and shift held and the key pressed this frame. */
    function IsCtrlShiftPressed(key: Key): (b: bool)
      reads this
      requires Valid()
      ensures b <==> IsCtrlPressed(key) && IsDown(SHIFT)
      ensures b ==> {CTRL, SHIFT, key} <= keysDown
    {
      IsDown(CTRL) && IsDown(SHIFT) && IsPressed(key)
    }

    /** Ctrl and the key both held. */
    function IsCtrlDown(key: Key): (b: bool)
      reads this
      requires Valid()
      ensures IsCtrlPressed(key) ==> b
      ensures b ==> !IsReleased(CTRL) && !IsReleased(key)
    {
      IsDown(CTRL) && IsDown(key)
    }

    /** Ctrl, shift and the key all held. */
    function IsCtrlShiftDown(key: Key): (b: bool)
      reads this
      requires Valid()
      ensures IsCtrlShiftPressed(key) ==> b
      ensures b <==> IsCtrlDown(key) && IsDown(SHIFT)
    {
      IsDown(CTRL) && IsDown(SHIFT) && IsDown(key)
    }

    /**
     * `UpdateKeys(keysCurrentlyDown)`: the keys held now that were not down
     * become pressed, the keys down before that are not held now become
     * released, and the held keys become the down-set.
     */
    method UpdateKeys(current: set<Key>)
      requires Valid()
      modifies this
      ensures Valid()
      ensures (keysPressed, keysReleased) == KeyEdges(old(keysDown), current)
      ensures keysDown == current
      ensures selectedFaceId == old(selectedFaceId) && selectedVertexId == old(selectedVertexId)
      ensures interactionMode == old(interactionMode)
    {
      keysPressed := {};
      keysReleased := {};
      var rest := current;
      while rest != {}
        invariant rest <= current
        invariant keysPressed == (current - rest) - keysDown
        invariant keysReleased == {}
        invariant unchanged(`keysDown, `selectedFaceId, `selectedVertexId, `interactionMode)
        decreases rest
      {
        var key :| key in rest;
        if key !in keysDown {
          keysPressed := keysPressed + {key};
        }
        rest := rest - {key};
      }
      rest := keysDown;
      while rest != {}
        invariant rest <= keysDown
        invariant keysPressed == current - keysDown
        invariant keysReleased == (keysDown - rest) - current
        invariant unchanged(`keysDown, `selectedFaceId, `selectedVertexId, `interactionMode)
        decreases rest
      {
        var key :| key in rest;
        if key !in current {
          keysReleased := keysReleased + {key};
        }
        rest := rest - {key};
      }
      assert keysReleased == keysDown - current;
      keysDown := current;
    }

    /** Forgets every key (focus loss); the pick and the selection stay. */
    method Clear()
      requires Valid()
      modifies this
      ensures Valid()
      ensures keysPressed == {} && keysDown == {} && keysReleased == {}
      ensures selectedFaceId == old(selectedFaceId) && selectedVertexId == old(selectedVertexId)
      ensures interactionMode == old(interactionMode)
    {
      keysPressed := {};
      keysDown := {};
      keysReleased := {};
    }

    method SetPendingPick(x: int, y: int)
      requires Valid()
      modifies pendingPick
      ensures Valid() && pendingPick[..] == [x, y]
    {
      pendingPick[0] := x;
      pendingPick[1] := y;
    }

    /** Selects a face by id, stored as a 32-bit signed value, and cancels any pending pick. */
    method SetSelectedFaceId(id: FaceId)
      requires Valid() && id < TWO_TO_32
      modifies this, pendingPick
      ensures Valid()
      ensures selectedFaceId == ToInt32(id) && pendingPick[..] == [-1, -1]
      ensures keysPressed == old(keysPressed) && keysDown == old(keysDown) && keysReleased == old(keysReleased)
      ensures selectedVertexId == old(selectedVertexId) && interactionMode == old(interactionMode)
    {
      selectedFaceId := ToInt32(id);
      pendingPick[0] := -1;
      pendingPick[1] := -1;
    }
  }
}

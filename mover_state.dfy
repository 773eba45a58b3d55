/** The mover's state: whether a device is being moved into the linked set,
    where it would be inserted, and which drop target is highlighted. */
module MoverState {

  class Mover {
    /** The error observable, null at creation (`false` here). */
    var hasError: bool
    var moving: bool
    var movingThisDevice: bool
    var insertAtIndex: int
    var highlightAtIndex: int
    var numDevicesInLinkedSet: int
    var firstPageNum: int

    /** `create`: not moving, no insert position and no highlight (-1), a
        linked set of 4 devices starting at page 2. */
    constructor ()
      ensures !hasError && !moving && !movingThisDevice
      ensures insertAtIndex == -1 && highlightAtIndex == -1
      ensures numDevicesInLinkedSet == 4 && firstPageNum == 2
    {
      hasError := false;
      moving := false;
      movingThisDevice := false;
      insertAtIndex := -1;
      highlightAtIndex := -1;
      numDevicesInLinkedSet := 4;
      firstPageNum := 2;
    }

    /** Everything but `moving` is as before. */
    twostate predicate OnlyMovingChanged()
      reads this
    {
      hasError == old(hasError) && movingThisDevice == old(movingThisDevice) &&
      insertAtIndex == old(insertAtIndex) && highlightAtIndex == old(highlightAtIndex) &&
      numDevicesInLinkedSet == old(numDevicesInLinkedSet) && firstPageNum == old(firstPageNum)
    }

    /** `previous` (the 'before' channel). */
    method Previous()
      modifies this
      ensures !moving && OnlyMovingChanged()
    {
      moving := false;
    }

    /** `next` (the 'after' channel). */
    method Next()
      modifies this
      ensures !moving && OnlyMovingChanged()
    {
      moving := false;
    }

    /** `cancel`. */
    method Cancel()
      modifies this
      ensures !moving && OnlyMovingChanged()
    {
      moving := false;
    }

    /** `commit`. */
    method Commit()
      modifies this
      ensures !moving && OnlyMovingChanged()
    {
      moving := false;
    }

    /** `link` (the 'selected' channel): an index past the linked set means
        no insert; any other index, negative ones included, is taken as is. */
    method Link(index: int)
      modifies this
      ensures insertAtIndex == if index > numDevicesInLinkedSet then -1 else index
      ensures insertAtIndex <= numDevicesInLinkedSet || numDevicesInLinkedSet < -1
      ensures moving == old(moving) && movingThisDevice == old(movingThisDevice) && hasError == old(hasError)
      ensures highlightAtIndex == old(highlightAtIndex)
      ensures numDevicesInLinkedSet == old(numDevicesInLinkedSet) && firstPageNum == old(firstPageNum)
    {
      if index > numDevicesInLinkedSet {
        insertAtIndex := -1;
      } else {
        insertAtIndex := index;
      }
    }

    /** `highlightTarget` (the 'dragenter' channel). */
    method HighlightTarget(index: int)
      modifies this
      ensures highlightAtIndex == index
      ensures moving == old(moving) && insertAtIndex == old(insertAtIndex)
      ensures hasError == old(hasError) && movingThisDevice == old(movingThisDevice)
      ensures numDevicesInLinkedSet == old(numDevicesInLinkedSet) && firstPageNum == old(firstPageNum)
    {
      highlightAtIndex := index;
    }

    /** `unhighlightTarget` (the 'dragleave' channel). */
    method UnhighlightTarget()
      modifies this
      ensures highlightAtIndex == -1
      ensures moving == old(moving) && insertAtIndex == old(insertAtIndex)
      ensures hasError == old(hasError) && movingThisDevice == old(movingThisDevice)
      ensures numDevicesInLinkedSet == old(numDevicesInLinkedSet) && firstPageNum == old(firstPageNum)
    {
      highlightAtIndex := -1;
    }

    /** `noop` (the 'dragover' and 'dragend' channels). */
    method Noop()
      modifies this
      ensures unchanged(this)
    {
    }
  }
}

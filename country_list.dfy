/**
 * The country list component: which countries are already placed, and the
 * drag it starts when the pointer goes down on a country card.
 */
module CountryList {
  import opened Wrappers
  import opened Types
  import opened Board

  /**
   * `assignedIds`: the ids held by the buckets' slots, in bucket order, one
   * per filled slot.
   */
  function AssignedIds(bs: seq<Bucket>): (ids: seq<string>)
    ensures |ids| == SlotsFilled(bs)
    ensures forall x :: x in ids <==> exists k :: 0 <= k < |bs| && bs[k].assignedCountryId == Some(x)
    ensures |bs| == 1 ==> ids == if bs[0].assignedCountryId.Some? then [bs[0].assignedCountryId.value] else []
  {
    if bs == [] then []
    else
      var init := bs[..|bs| - 1];
      assert forall k :: 0 <= k < |init| ==> init[k] == bs[k];
      var last := bs[|bs| - 1];
      AssignedIds(init) + (if last.assignedCountryId.Some? then [last.assignedCountryId.value] else [])
  }

  /**
   * `assignedIds` of two runs of buckets is the ids of the first run followed
   * by those of the second: with the one-bucket case above, the ids are the
   * filled slots one by one, in bucket order.
   */
  lemma {:induction false} AssignedIdsAppend(a: seq<Bucket>, b: seq<Bucket>)
    ensures AssignedIds(a + b) == AssignedIds(a) + AssignedIds(b)
    decreases |b|
  {
    if b != [] {
      var ab := a + b;
      var init := b[..|b| - 1];
      assert ab[..|ab| - 1] == a + init;
      assert ab[|ab| - 1] == b[|b| - 1];
      AssignedIdsAppend(a, init);
    } else {
      assert a + b == a;
    }
  }

  /** A card is shown as assigned exactly when its id is among `assignedIds`. */
  predicate IsAssigned(bs: seq<Bucket>, countryId: string) {
    countryId in AssignedIds(bs)
  }

  /** Being shown as assigned is sitting in some bucket. */
  lemma IsAssignedIffPlaced(bs: seq<Bucket>, countryId: string)
    ensures IsAssigned(bs, countryId) <==> !Unplaced(bs, countryId)
  {
    if !Unplaced(bs, countryId) {
      var k :| 0 <= k < |bs| && bs[k].assignedCountryId == Some(countryId);
      assert countryId in AssignedIds(bs);
    }
  }

  /** An exclusive board lists every placed id once. */
  lemma {:induction false} ExclusiveAssignedIdsDistinct(bs: seq<Bucket>)
    requires Exclusive(bs)
    ensures forall i, j :: 0 <= i < j < |AssignedIds(bs)| ==> AssignedIds(bs)[i] != AssignedIds(bs)[j]
  {
    if bs != [] {
      var init := bs[..|bs| - 1];
      var last := bs[|bs| - 1];
      assert Exclusive(init);
      ExclusiveAssignedIdsDistinct(init);
      if last.assignedCountryId.Some? {
        var x := last.assignedCountryId.value;
        forall k | 0 <= k < |init|
          ensures init[k].assignedCountryId != Some(x)
        {
          assert init[k] == bs[k];
        }
      }
    }
  }

  /** The component's own state: the card being dragged and where the pointer is. */
  class CountryList {
    var draggedId: Option<string>
    var dragPos: Option<Point>

    constructor ()
      ensures draggedId == None && dragPos == None
    {
      draggedId := None;
      dragPos := None;
    }

    /**
     * `handleMouseDown`: a card already placed starts nothing and changes
     * nothing; any other card becomes the dragged card at the pointer's
     * position. `dragStarted` says whether `onDragStart(countryId)` is called.
     */
    method MouseDown(buckets: seq<Bucket>, countryId: string, pos: Point) returns (dragStarted: bool)
      modifies this
      ensures dragStarted <==> !IsAssigned(buckets, countryId)
      ensures dragStarted ==> draggedId == Some(countryId) && dragPos == Some(pos)
      ensures !dragStarted ==> draggedId == old(draggedId) && dragPos == old(dragPos)
    {
      if countryId in AssignedIds(buckets) {
        return false;
      }
      draggedId := Some(countryId);
      dragPos := Some(pos);
      dragStarted := true;
    }

    /** `handleMouseUp`: the drag is over. */
    method MouseUp()
      modifies this
      ensures draggedId == None && dragPos == None
    {
      draggedId := None;
      dragPos := None;
    }
  }
}

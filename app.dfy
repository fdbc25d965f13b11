/**
 * The game screen: one round after another of dragging countries onto
 * statistic buckets, submitting the board and recording its score, until
 * `MaxRounds` rounds have been played.
 */
module App {
  import opened Wrappers
  import opened Types
  import opened Board
  import opened Dataset
  import CountryList

  /** The number of rounds in a game. */
  const MaxRounds := 3

  /**
   * The round counter stays within the game, and one result is recorded per
   * finished round and numbered after it.
   */
  predicate RoundsValid(round: int, results: seq<RoundResult>, gameComplete: bool) {
    1 <= round <= MaxRounds &&
    (!gameComplete ==> |results| == round - 1) &&
    (gameComplete ==> round == MaxRounds && |results| == MaxRounds) &&
    (forall k :: 0 <= k < |results| ==> results[k].round == k + 1)
  }

  /**
   * Recording a finished round keeps the rounds consistent, whether the game
   * goes on to the next round or, after the last one, is complete; and the
   * recorded scores then add up to the old sum plus the new score.
   */
  lemma RecordRound(round: int, results: seq<RoundResult>, score: int)
    requires RoundsValid(round, results, false)
    ensures var rs := results + [RoundResult(round, score)];
      (round < MaxRounds ==> RoundsValid(round + 1, rs, false)) &&
      (round >= MaxRounds ==> RoundsValid(round, rs, true)) &&
      SumScores(rs) == SumScores(results) + score
  {
    var rs := results + [RoundResult(round, score)];
    SumScoresAppend(results, RoundResult(round, score));
    forall k | 0 <= k < |rs|
      ensures rs[k].round == k + 1
    {
      if k < |results| {
        assert rs[k] == results[k];
      }
    }
  }

  /**
   * No country sits in two buckets (when bucket ids are unique), and the
   * country being dragged is not yet on the board.
   */
  predicate BoardValid(buckets: seq<Bucket>, countryId: Option<string>) {
    (UniqueIds(buckets) ==> Exclusive(buckets)) &&
    (countryId.Some? ==> Unplaced(buckets, countryId.value))
  }

  /** A board with every slot empty satisfies the board invariant, whatever is being dragged. */
  lemma EmptyBoardValid(buckets: seq<Bucket>, countryId: Option<string>)
    requires forall k :: 0 <= k < |buckets| ==> buckets[k].assignedCountryId.None?
    ensures BoardValid(buckets, countryId)
  {
  }

  /**
   * The screen's state. Every field is one piece of the component's state;
   * `list` is the country list it renders, with that list's own drag state.
   */
  class Game {
    var countries: seq<Country>
    var buckets: seq<Bucket>
    var showInstructions: bool
    var countryId: Option<string>
    var round: int
    var roundResults: seq<RoundResult>
    var gameComplete: bool
    const list: CountryList.CountryList

    /** The rounds and the board are consistent. */
    predicate Valid()
      reads this
    {
      RoundsValid(round, roundResults, gameComplete) && BoardValid(buckets, countryId)
    }

    /** `slotsFilled`. */
    function Filled(): nat
      reads this
    {
      SlotsFilled(buckets)
    }

    /** `roundScore`. */
    function CurrentRoundScore(): int
      reads this
    {
      RoundScore(countries, buckets)
    }

    /** `totalScore`, as the footer shows it. */
    function CurrentTotal(): int
      reads this
    {
      TotalScore(roundResults, gameComplete, CurrentRoundScore())
    }

    /** The state the screen mounts with: round 1, nothing loaded, instructions shown. */
    constructor ()
      ensures Valid()
      ensures countries == [] && buckets == [] && showInstructions && countryId == None
      ensures round == 1 && roundResults == [] && !gameComplete
      ensures fresh(list) && list.draggedId == None && list.dragPos == None
    {
      countries := [];
      buckets := [];
      showInstructions := true;
      countryId := None;
      round := 1;
      roundResults := [];
      gameComplete := false;
      list := new CountryList.CountryList();
    }

    /**
     * The load effect for the current round: nothing happens once the game
     * is complete or when the text holds no round; otherwise the round
     * loaded from `text` replaces the countries and the buckets.
     */
    method LoadRound(text: string, rowOrder: seq<nat>, statOrder: seq<nat>)
      requires Valid() && ValidOrders(text, rowOrder, statOrder)
      modifies this
      ensures Valid()
      ensures old(gameComplete) || LoadedRound(text, rowOrder, statOrder).None? ==>
        countries == old(countries) && buckets == old(buckets)
      ensures !old(gameComplete) && LoadedRound(text, rowOrder, statOrder).Some? ==>
        countries == LoadedRound(text, rowOrder, statOrder).value.countries &&
        buckets == LoadedRound(text, rowOrder, statOrder).value.buckets &&
        Filled() == 0 && CurrentRoundScore() == 0
      ensures showInstructions == old(showInstructions) && countryId == old(countryId)
      ensures round == old(round) && roundResults == old(roundResults) && gameComplete == old(gameComplete)
    {
      if gameComplete {
        return;
      }
      var setup := ParseRound(text, rowOrder, statOrder);
      if setup.Some? {
        SetBoard(setup.value);
      }
    }

    /**
     * The state updates of a load: the countries and the empty buckets of
     * the loaded round replace the board, which then has no slot filled and
     * scores 0.
     */
    method SetBoard(loaded: RoundSetup)
      requires Valid()
      requires forall k :: 0 <= k < |loaded.buckets| ==> loaded.buckets[k].assignedCountryId.None?
      modifies this
      ensures Valid()
      ensures countries == loaded.countries && buckets == loaded.buckets
      ensures Filled() == 0 && CurrentRoundScore() == 0
      ensures showInstructions == old(showInstructions) && countryId == old(countryId)
      ensures round == old(round) && roundResults == old(roundResults) && gameComplete == old(gameComplete)
    {
      SlotsFilledExtremes(loaded.buckets);
      RoundScoreEmpty(loaded.countries, loaded.buckets);
      EmptyBoardValid(loaded.buckets, countryId);
      countries, buckets := loaded.countries, loaded.buckets;
    }

    /** `handleDismissInstructions`: the instruction card is hidden. */
    method DismissInstructions()
      requires Valid()
      modifies this
      ensures Valid()
      ensures !showInstructions
      ensures countries == old(countries) && buckets == old(buckets) && countryId == old(countryId)
      ensures round == old(round) && roundResults == old(roundResults) && gameComplete == old(gameComplete)
    {
      showInstructions := false;
    }

    /**
     * A press on a country card: the list's `handleMouseDown`, which for a
     * country not yet placed starts its own drag and calls
     * `handleDragStart`, recording the country as the one being dragged.
     */
    method StartDrag(id: string, pos: Point) returns (started: bool)
      requires Valid()
      modifies this, list
      ensures Valid()
      ensures started <==> Unplaced(buckets, id)
      ensures started ==> countryId == Some(id) && list.draggedId == Some(id) && list.dragPos == Some(pos)
      ensures !started ==>
        countryId == old(countryId) && list.draggedId == old(list.draggedId) && list.dragPos == old(list.dragPos)
      ensures countries == old(countries) && buckets == old(buckets) && showInstructions == old(showInstructions)
      ensures round == old(round) && roundResults == old(roundResults) && gameComplete == old(gameComplete)
    {
      CountryList.IsAssignedIffPlaced(buckets, id);
      started := list.MouseDown(buckets, id, pos);
      if started {
        countryId := Some(id);
      }
    }

    /** The list's `handleMouseUp`: the list's drag is over; the game's state is untouched. */
    method EndDrag()
      modifies list
      ensures list.draggedId == None && list.dragPos == None
    {
      list.MouseUp();
    }

    /**
     * `handleDrop`: without a country being dragged (none, or the empty id)
     * nothing changes; otherwise the country fills the empty slot of the
     * bucket with that id, if it has one, and the drag is cleared. With
     * unique bucket ids at most one slot is filled, and the round score
     * grows by the country's value for that bucket when one is.
     */
    method Drop(bucketId: string)
      requires Valid()
      modifies this
      ensures Valid()
      ensures old(countryId).None? || old(countryId).value == "" ==>
        buckets == old(buckets) && countryId == old(countryId)
      ensures old(countryId).Some? && old(countryId).value != "" ==>
        buckets == Place(old(buckets), bucketId, old(countryId).value) && countryId == None &&
        CurrentRoundScore() == old(CurrentRoundScore()) +
          OpenSlots(old(buckets), bucketId) * PlacedValue(countries, bucketId, old(countryId).value)
      ensures UniqueIds(old(buckets)) ==> old(Filled()) <= Filled() <= old(Filled()) + 1
      ensures countries == old(countries) && showInstructions == old(showInstructions)
      ensures round == old(round) && roundResults == old(roundResults) && gameComplete == old(gameComplete)
    {
      if countryId.None? || countryId.value == "" {
        return;
      }
      var c := countryId.value;
      var placed := Place(buckets, bucketId, c);
      PlaceRoundScore(countries, buckets, bucketId, c);
      GuardedDropKeepsInvariant(buckets, bucketId, c);
      if UniqueIds(buckets) {
        DropSlotsFilled(buckets, bucketId, c);
      }
      buckets := placed;
      countryId := None;
    }

    /**
     * `handleSubmit`, offered only while the game is in play: a board with
     * an empty slot is not accepted (`accepted` says which happened) and
     * nothing changes; a full board is recorded by `FinishRound`.
     */
    method Submit() returns (accepted: bool)
      requires Valid() && !gameComplete
      modifies this
      ensures Valid()
      ensures accepted <==> old(Filled()) == |old(buckets)|
      ensures !accepted ==> roundResults == old(roundResults) && round == old(round) && !gameComplete
      ensures accepted ==>
        roundResults == old(roundResults) + [RoundResult(old(round), old(CurrentRoundScore()))] &&
        SumScores(roundResults) == old(CurrentTotal())
      ensures accepted && old(round) < MaxRounds ==> round == old(round) + 1 && !gameComplete
      ensures accepted && old(round) >= MaxRounds ==> round == old(round) && gameComplete
      ensures countries == old(countries) && buckets == old(buckets) && countryId == old(countryId)
      ensures showInstructions == old(showInstructions)
    {
      accepted := Filled() == |buckets|;
      if accepted {
        FinishRound();
      }
    }

    /**
     * The accepted submission: the board's score is recorded as this round's
     * result, after which the next round begins or, after the last round,
     * the game is complete. The recorded results then add up to the total
     * shown before the submission.
     */
    method FinishRound()
      requires Valid() && !gameComplete
      modifies this
      ensures Valid()
      ensures roundResults == old(roundResults) + [RoundResult(old(round), old(CurrentRoundScore()))]
      ensures SumScores(roundResults) == old(CurrentTotal())
      ensures old(round) < MaxRounds ==> round == old(round) + 1 && !gameComplete
      ensures old(round) >= MaxRounds ==> round == old(round) && gameComplete
      ensures countries == old(countries) && buckets == old(buckets) && countryId == old(countryId)
      ensures showInstructions == old(showInstructions)
    {
      var newResult := RoundResult(round, RoundScore(countries, buckets));
      RecordRound(round, roundResults, newResult.score);
      var nextRound, complete := round, true;
      if round < MaxRounds {
        nextRound, complete := round + 1, false;
      }
      roundResults, round, gameComplete := roundResults + [newResult], nextRound, complete;
    }

    /**
     * `handlePlayAgain`: back to round 1 with no results and the
     * instructions shown; the board is replaced by the next load.
     */
    method PlayAgain()
      requires Valid()
      modifies this
      ensures Valid()
      ensures round == 1 && roundResults == [] && !gameComplete && showInstructions
      ensures countries == old(countries) && buckets == old(buckets) && countryId == old(countryId)
    {
      round := 1;
      roundResults := [];
      gameComplete := false;
      showInstructions := true;
    }
  }
}

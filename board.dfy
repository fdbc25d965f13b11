/**
 * The board of a round: the values the game derives from its buckets
 * (`slotsFilled`, `roundScore`, `totalScore`) and the update a drop makes to
 * the buckets.
 */
module Board {
  import opened Wrappers
  import opened Types

  /** `slotsFilled`: how many buckets hold a country. */
  function SlotsFilled(bs: seq<Bucket>): (n: nat)
    ensures n <= |bs|
  {
    if bs == [] then 0
    else SlotsFilled(bs[..|bs| - 1]) + (if bs[|bs| - 1].assignedCountryId.Some? then 1 else 0)
  }

  /**
   * Every slot is filled exactly when the count reaches the number of
   * buckets, and none is exactly when the count is 0.
   */
  lemma {:induction false} SlotsFilledExtremes(bs: seq<Bucket>)
    ensures SlotsFilled(bs) == |bs| <==> forall k :: 0 <= k < |bs| ==> bs[k].assignedCountryId.Some?
    ensures SlotsFilled(bs) == 0 <==> forall k :: 0 <= k < |bs| ==> bs[k].assignedCountryId.None?
  {
    if bs != [] {
      var init := bs[..|bs| - 1];
      SlotsFilledExtremes(init);
      assert forall k :: 0 <= k < |init| ==> init[k] == bs[k];
    }
  }

  /** The position of the first country with the given id, or `|cs|` when there is none. */
  function FindIndex(cs: seq<Country>, id: string): (k: nat)
    ensures k <= |cs|
    ensures k < |cs| ==> cs[k].id == id
    ensures forall l :: 0 <= l < k ==> cs[l].id != id
  {
    if cs == [] then 0
    else if cs[0].id == id then 0
    else 1 + FindIndex(cs[1..], id)
  }

  /** `countries.find(c => c.id === id)`. */
  function Find(cs: seq<Country>, id: string): (r: Option<Country>)
    ensures r.None? <==> forall k :: 0 <= k < |cs| ==> cs[k].id != id
    ensures r.Some? ==> r.value in cs && r.value.id == id
    ensures r.Some? ==> exists k :: 0 <= k < |cs| && cs[k] == r.value && forall l :: 0 <= l < k ==> cs[l].id != id
  {
    var k := FindIndex(cs, id);
    if k < |cs| then Some(cs[k]) else None
  }

  /** `country?.ranks[stat] || 0` for the country with id `countryId`. */
  function ValueOf(cs: seq<Country>, countryId: string, stat: string): int {
    match Find(cs, countryId)
    case None => 0
    case Some(c) => if stat in c.ranks then c.ranks[stat] else 0
  }

  /**
   * The value `roundScore` reads for a country id: 0 when no country has the
   * id, and otherwise the value of the first country with that id, 0 when it
   * lacks the statistic.
   */
  lemma ValueOfFirstMatch(cs: seq<Country>, countryId: string, stat: string)
    ensures (forall k :: 0 <= k < |cs| ==> cs[k].id != countryId) ==> ValueOf(cs, countryId, stat) == 0
    ensures forall k :: 0 <= k < |cs| && cs[k].id == countryId && (forall l :: 0 <= l < k ==> cs[l].id != countryId) ==>
      ValueOf(cs, countryId, stat) == if stat in cs[k].ranks then cs[k].ranks[stat] else 0
  {
    var i := FindIndex(cs, countryId);
    forall k | 0 <= k < |cs| && cs[k].id == countryId && (forall l :: 0 <= l < k ==> cs[l].id != countryId)
      ensures i == k
    {
    }
  }

  /** What one bucket adds to the round score: nothing while its slot is empty. */
  function Contribution(cs: seq<Country>, b: Bucket): int {
    if b.assignedCountryId.None? || b.assignedCountryId.value == "" then 0
    else ValueOf(cs, b.assignedCountryId.value, b.id)
  }

  /**
   * `roundScore`: the sum over the buckets of the value the placed country has
   * for the bucket's statistic.
   */
  function RoundScore(cs: seq<Country>, bs: seq<Bucket>): int {
    if bs == [] then 0
    else RoundScore(cs, bs[..|bs| - 1]) + Contribution(cs, bs[|bs| - 1])
  }

  /** A board with no country placed scores 0. */
  lemma {:induction false} RoundScoreEmpty(cs: seq<Country>, bs: seq<Bucket>)
    requires forall k :: 0 <= k < |bs| ==> bs[k].assignedCountryId.None?
    ensures RoundScore(cs, bs) == 0
  {
    if bs != [] {
      var init := bs[..|bs| - 1];
      assert forall k :: 0 <= k < |init| ==> init[k] == bs[k];
      RoundScoreEmpty(cs, init);
    }
  }

  /** The sum of the recorded round scores. */
  function SumScores(rs: seq<RoundResult>): int {
    if rs == [] then 0 else SumScores(rs[..|rs| - 1]) + rs[|rs| - 1].score
  }

  /** Recording one more result adds its score to the sum. */
  lemma SumScoresAppend(rs: seq<RoundResult>, r: RoundResult)
    ensures SumScores(rs + [r]) == SumScores(rs) + r.score
  {
    assert (rs + [r])[..|rs|] == rs;
  }

  /**
   * `totalScore`: the recorded scores, plus the score of the board in play
   * while the game is not complete.
   */
  function TotalScore(results: seq<RoundResult>, gameComplete: bool, roundScore: int): (t: int)
    ensures gameComplete ==> t == SumScores(results)
  {
    SumScores(results) + (if gameComplete then 0 else roundScore)
  }

  /** No two buckets share an id. */
  predicate UniqueIds(bs: seq<Bucket>) {
    forall k, l :: 0 <= k < l < |bs| ==> bs[k].id != bs[l].id
  }

  /** No country sits in two buckets. */
  predicate Exclusive(bs: seq<Bucket>) {
    forall k, l :: 0 <= k < l < |bs| && bs[k].assignedCountryId.Some? ==>
      bs[k].assignedCountryId != bs[l].assignedCountryId
  }

  /** `countryId` sits in no bucket. */
  predicate Unplaced(bs: seq<Bucket>, countryId: string) {
    forall k :: 0 <= k < |bs| ==> bs[k].assignedCountryId != Some(countryId)
  }

  /**
   * The buckets after dropping country `c` on `bucketId`: every bucket with
   * that id and an empty slot receives `c`; all others are kept as they are.
   */
  function Place(bs: seq<Bucket>, bucketId: string, c: string): seq<Bucket> {
    seq(|bs|, k requires 0 <= k < |bs| =>
      if bs[k].id == bucketId && bs[k].assignedCountryId.None? then bs[k].(assignedCountryId := Some(c))
      else bs[k])
  }

  /** How many buckets a drop on `bucketId` would fill. */
  function OpenSlots(bs: seq<Bucket>, bucketId: string): (n: nat)
    ensures n <= |bs|
    ensures n == 0 <==> forall k :: 0 <= k < |bs| ==> bs[k].id != bucketId || bs[k].assignedCountryId.Some?
  {
    if bs == [] then 0
    else
      var init := bs[..|bs| - 1];
      assert forall k :: 0 <= k < |init| ==> init[k] == bs[k];
      var last := bs[|bs| - 1];
      OpenSlots(init, bucketId) + (if last.id == bucketId && last.assignedCountryId.None? then 1 else 0)
  }

  /** With unique ids a drop can fill at most one bucket. */
  lemma {:induction false} OpenSlotsUnique(bs: seq<Bucket>, bucketId: string)
    requires UniqueIds(bs)
    ensures OpenSlots(bs, bucketId) <= 1
  {
    if bs != [] {
      var init := bs[..|bs| - 1];
      var last := bs[|bs| - 1];
      OpenSlotsUnique(init, bucketId);
      if last.id == bucketId {
        assert forall k :: 0 <= k < |init| ==> init[k].id == bs[k].id != bs[|bs| - 1].id;
      }
    }
  }

  /**
   * A drop changes only a bucket whose id matches and whose slot is empty,
   * and that bucket only in its slot, which then holds the dropped country.
   */
  lemma PlaceChangesOnlyTarget(bs: seq<Bucket>, bucketId: string, c: string)
    ensures |Place(bs, bucketId, c)| == |bs|
    ensures forall k :: 0 <= k < |bs| && Place(bs, bucketId, c)[k] != bs[k] ==>
      bs[k].id == bucketId && bs[k].assignedCountryId.None? &&
      Place(bs, bucketId, c)[k] == bs[k].(assignedCountryId := Some(c))
    ensures forall k :: 0 <= k < |bs| && bs[k].id == bucketId && bs[k].assignedCountryId.None? ==>
      Place(bs, bucketId, c)[k].assignedCountryId == Some(c)
  {
  }

  /** A filled slot is never overwritten: a second drop on the same bucket changes nothing. */
  lemma PlaceNeverOverwrites(bs: seq<Bucket>, bucketId: string, c1: string, c2: string)
    ensures Place(Place(bs, bucketId, c1), bucketId, c2) == Place(bs, bucketId, c1)
  {
  }

  /** Placing on a prefix is the prefix of placing on the whole. */
  lemma PlacePrefix(bs: seq<Bucket>, bucketId: string, c: string)
    requires bs != []
    ensures Place(bs, bucketId, c)[..|bs| - 1] == Place(bs[..|bs| - 1], bucketId, c)
  {
  }

  /** A drop fills exactly the open matching slots. */
  lemma {:induction false} PlaceSlotsFilled(bs: seq<Bucket>, bucketId: string, c: string)
    ensures SlotsFilled(Place(bs, bucketId, c)) == SlotsFilled(bs) + OpenSlots(bs, bucketId)
  {
    if bs != [] {
      var init := bs[..|bs| - 1];
      var p := Place(bs, bucketId, c);
      PlacePrefix(bs, bucketId, c);
      PlaceSlotsFilled(init, bucketId, c);
      assert p[..|p| - 1] == Place(init, bucketId, c);
    }
  }

  /**
   * `slotsFilled` never decreases on a drop and, with unique bucket ids, rises
   * by at most one.
   */
  lemma DropSlotsFilled(bs: seq<Bucket>, bucketId: string, c: string)
    requires UniqueIds(bs)
    ensures SlotsFilled(bs) <= SlotsFilled(Place(bs, bucketId, c)) <= SlotsFilled(bs) + 1
  {
    PlaceSlotsFilled(bs, bucketId, c);
    OpenSlotsUnique(bs, bucketId);
  }

  /** The score a country placed in bucket `bucketId` adds to the round. */
  function PlacedValue(cs: seq<Country>, bucketId: string, c: string): int {
    if c == "" then 0 else ValueOf(cs, c, bucketId)
  }

  /** Filling one bucket adds the placed country's value for that bucket. */
  lemma PlaceContribution(cs: seq<Country>, b: Bucket, bucketId: string, c: string)
    requires b.id == bucketId && b.assignedCountryId.None?
    ensures Contribution(cs, b.(assignedCountryId := Some(c))) == Contribution(cs, b) + PlacedValue(cs, bucketId, c)
  {
  }

  /** One more slot adds one more value; kept apart so the nonlinear product stays out of the induction below. */
  lemma MulSucc(a: int, v: int)
    ensures (a + 1) * v == a * v + v
  {
  }

  /** A drop adds the dropped country's value once for every slot it fills. */
  lemma {:induction false} PlaceRoundScore(cs: seq<Country>, bs: seq<Bucket>, bucketId: string, c: string)
    ensures RoundScore(cs, Place(bs, bucketId, c)) ==
      RoundScore(cs, bs) + OpenSlots(bs, bucketId) * PlacedValue(cs, bucketId, c)
  {
    if bs != [] {
      var init := bs[..|bs| - 1];
      var last := bs[|bs| - 1];
      var v := PlacedValue(cs, bucketId, c);
      var p := Place(bs, bucketId, c);
      PlacePrefix(bs, bucketId, c);
      PlaceRoundScore(cs, init, bucketId, c);
      assert RoundScore(cs, p) == RoundScore(cs, Place(init, bucketId, c)) + Contribution(cs, p[|p| - 1]);
      if last.id == bucketId && last.assignedCountryId.None? {
        PlaceContribution(cs, last, bucketId, c);
        assert OpenSlots(bs, bucketId) == OpenSlots(init, bucketId) + 1;
        MulSucc(OpenSlots(init, bucketId), v);
      } else {
        assert p[|p| - 1] == last;
        assert OpenSlots(bs, bucketId) == OpenSlots(init, bucketId);
      }
    }
  }

  /**
   * A drop of a country that sits in no bucket keeps the board exclusive,
   * provided bucket ids are unique.
   */
  lemma PlaceKeepsExclusive(bs: seq<Bucket>, bucketId: string, c: string)
    requires UniqueIds(bs) && Exclusive(bs) && Unplaced(bs, c)
    ensures Exclusive(Place(bs, bucketId, c))
  {
  }

  /** A drop keeps every bucket's id, so the ids are unique after it exactly when they were before. */
  lemma PlaceKeepsIds(bs: seq<Bucket>, bucketId: string, c: string)
    ensures forall k :: 0 <= k < |bs| ==> Place(bs, bucketId, c)[k].id == bs[k].id
    ensures UniqueIds(Place(bs, bucketId, c)) <==> UniqueIds(bs)
  {
  }

  /**
   * The guarded drop keeps the board invariant: when ids are unique no
   * country sits in two buckets.
   */
  lemma GuardedDropKeepsInvariant(bs: seq<Bucket>, bucketId: string, c: string)
    requires UniqueIds(bs) ==> Exclusive(bs)
    requires Unplaced(bs, c)
    ensures UniqueIds(Place(bs, bucketId, c)) ==> Exclusive(Place(bs, bucketId, c))
  {
    PlaceKeepsIds(bs, bucketId, c);
    if UniqueIds(bs) {
      PlaceKeepsExclusive(bs, bucketId, c);
    }
  }

  /** Without the guard the board loses exclusivity: the same country dropped twice. */
  lemma UnguardedDropBreaksExclusive()
    ensures var bs := [Bucket("Area", "Area", "", Some("FR")), Bucket("GDP", "GDP", "", None)];
      UniqueIds(bs) && Exclusive(bs) && !Exclusive(Place(bs, "GDP", "FR"))
  {
    var bs := [Bucket("Area", "Area", "", Some("FR")), Bucket("GDP", "GDP", "", None)];
    var p := Place(bs, "GDP", "FR");
    assert p[0].assignedCountryId == Some("FR") && p[1].assignedCountryId == Some("FR");
  }
}

/**
 * Loading a round from the CSV text of `ranks.csv`: line 1 names the
 * columns, line 2 holds one emoji per column, and every further line is one
 * country. Every column other than `Abbreviation`, `Country` and `Emoji` is a
 * statistic. A round draws up to six countries and up to six statistics in
 * an order chosen by the caller (the game shuffles both), gives each chosen
 * statistic a bucket with an empty slot, and gives each chosen country its
 * value in every chosen statistic.
 */
module Dataset {
  import opened Wrappers
  import opened Text
  import opened Types

  /** The most countries and the most statistics a round uses. */
  const RoundSize: nat := 6

  /** The countries and buckets of a freshly loaded round. */
  datatype RoundSetup = RoundSetup(countries: seq<Country>, buckets: seq<Bucket>)

  /** `text.trim().split('\n')`. */
  function Lines(text: string): (lines: seq<string>)
    ensures |lines| >= 1
  {
    Split(Trim(text), '\n')
  }

  /** The column names of the header line. */
  function Header(text: string): seq<string> {
    Split(Lines(text)[0], ',')
  }

  /** The data lines: every line after the header and the emoji line. */
  function DataRows(text: string): seq<string> {
    var lines := Lines(text);
    if |lines| < 3 then [] else lines[2..]
  }

  /** A column that names or decorates a country instead of holding a statistic. */
  predicate IsReserved(col: string) {
    col == "Abbreviation" || col == "Country" || col == "Emoji"
  }

  /** The statistic columns: the header without the reserved columns, in header order. */
  function StatColumns(columns: seq<string>): (stats: seq<string>)
    ensures |stats| <= |columns|
    ensures forall c :: c in stats <==> c in columns && !IsReserved(c)
    ensures forall c :: multiset(stats)[c] == if IsReserved(c) then 0 else multiset(columns)[c]
  {
    if columns == [] then []
    else
      var rest := StatColumns(columns[1..]);
      assert forall c :: c in columns <==> c == columns[0] || c in columns[1..];
      assert columns == [columns[0]] + columns[1..];
      if IsReserved(columns[0]) then rest else [columns[0]] + rest
  }

  /** Distinct column names give distinct statistics. */
  lemma {:induction false} StatColumnsDistinct(columns: seq<string>)
    requires Distinct(columns)
    ensures Distinct(StatColumns(columns))
  {
    if columns != [] {
      assert Distinct(columns[1..]);
      StatColumnsDistinct(columns[1..]);
      assert columns[0] !in columns[1..];
    }
  }

  predicate Distinct<T(==)>(xs: seq<T>) {
    forall k, l :: 0 <= k < l < |xs| ==> xs[k] != xs[l]
  }

  /** `values[i] ?? ''`: the cell of column `i`, empty when the line is too short. */
  function CellAt(values: seq<string>, i: nat): string {
    if i < |values| then values[i] else ""
  }

  /** No later column has the same name as column `i`. */
  predicate LastOccurrence(columns: seq<string>, i: nat)
    requires i < |columns|
  {
    forall l :: i < l < |columns| ==> columns[l] != columns[i]
  }

  /**
   * The record `columns.forEach((col, i) => obj[col] = values[i] ?? '')`
   * builds: written column by column, so a repeated column name keeps the
   * cell of its last occurrence.
   */
  function Record(columns: seq<string>, values: seq<string>): map<string, string>
    decreases |columns|
  {
    if columns == [] then map[]
    else
      var n := |columns| - 1;
      Record(columns[..n], values)[columns[n] := CellAt(values, n)]
  }

  /** The record's keys are exactly the column names. */
  lemma {:induction false} RecordKeys(columns: seq<string>, values: seq<string>)
    ensures Record(columns, values).Keys == set c | c in columns
    decreases |columns|
  {
    if columns != [] {
      var n := |columns| - 1;
      RecordKeys(columns[..n], values);
      assert columns == columns[..n] + [columns[n]];
    }
  }

  /** A column's last occurrence decides the cell the record keeps for it. */
  lemma {:induction false} RecordLookup(columns: seq<string>, values: seq<string>, i: nat)
    requires i < |columns| && LastOccurrence(columns, i)
    ensures columns[i] in Record(columns, values)
    ensures Record(columns, values)[columns[i]] == CellAt(values, i)
    decreases |columns|
  {
    var n := |columns| - 1;
    if i < n {
      var init := columns[..n];
      assert columns[n] != columns[i];
      assert LastOccurrence(init, i);
      RecordLookup(init, values, i);
    }
  }

  /**
   * The `forEach` over the columns that fills a record from one line's cells
   * (also used for the emoji line, where `values[i] || ''` gives the same).
   */
  method ZipColumns(columns: seq<string>, values: seq<string>) returns (m: map<string, string>)
    ensures m == Record(columns, values)
    ensures m.Keys == set c | c in columns
    ensures forall i :: 0 <= i < |columns| && LastOccurrence(columns, i) ==> m[columns[i]] == CellAt(values, i)
  {
    m := map[];
    var i := 0;
    while i < |columns|
      invariant 0 <= i <= |columns|
      invariant m == Record(columns[..i], values)
    {
      assert columns[..i + 1][..i] == columns[..i];
      m := m[columns[i] := CellAt(values, i)];
      i := i + 1;
    }
    assert columns[..|columns|] == columns;
    RecordKeys(columns, values);
    forall i | 0 <= i < |columns| && LastOccurrence(columns, i)
      ensures m[columns[i]] == CellAt(values, i)
    {
      RecordLookup(columns, values, i);
    }
  }

  /** `obj[key]` read where a missing key and an empty cell both count as empty. */
  function Get(m: map<string, string>, key: string): string {
    if key in m then m[key] else ""
  }

  /** `a || b` on strings: `a` unless it is empty. */
  function Or(a: string, b: string): (r: string)
    ensures r == a || r == b
    ensures r == "" <==> a == "" && b == ""
  {
    if a != "" then a else b
  }

  /**
   * `Number(cell) || 0`: the cell's number, and 0 for a cell that is not a
   * number, blank or missing.
   */
  function StatValue(cell: string): (v: int)
    ensures ParseNum(cell).None? ==> v == 0
    ensures Trim(cell) == [] ==> v == 0
    ensures forall n :: ParseNum(cell) == Some(n) ==> v == n
  {
    match ParseNum(cell)
    case None => 0
    case Some(n) => n
  }

  /**
   * The country for parsed line `row`, at position `idx` of the selection:
   * its id is the abbreviation, else the name, else the position written in
   * decimal, so it is never empty; its values are exactly the chosen
   * statistics.
   */
  function CountryOf(row: map<string, string>, idx: nat, stats: seq<string>): (c: Country)
    ensures c.id != ""
    ensures Get(row, "Abbreviation") != "" ==> c.id == Get(row, "Abbreviation")
    ensures Get(row, "Abbreviation") == "" && Get(row, "Country") != "" ==> c.id == Get(row, "Country")
    ensures Get(row, "Abbreviation") == "" && Get(row, "Country") == "" ==> c.id == NatToString(idx)
    ensures c.name == Get(row, "Country") && c.abbreviation == Get(row, "Abbreviation") && c.emoji == Get(row, "Emoji")
    ensures c.ranks.Keys == set s | s in stats
    ensures forall s :: s in stats ==> c.ranks[s] == StatValue(Get(row, s))
  {
    Country(
      Or(Get(row, "Abbreviation"), Or(Get(row, "Country"), NatToString(idx))),
      Get(row, "Country"),
      Get(row, "Abbreviation"),
      Get(row, "Emoji"),
      map s | s in stats :: StatValue(Get(row, s)))
  }

  /** The bucket for a chosen statistic: id and label are the column name, the slot is empty. */
  function BucketOf(stat: string, emojiMap: map<string, string>): Bucket {
    Bucket(stat, stat, Get(emojiMap, stat), None)
  }

  /** `order` lists every index below `n` exactly once. */
  predicate IsPermutation(order: seq<nat>, n: nat) {
    && |order| == n
    && (forall k :: 0 <= k < n ==> order[k] < n)
    && Distinct(order)
  }

  function Min(a: nat, b: nat): nat {
    if a < b then a else b
  }

  /** `xs` rearranged by `order`. */
  function Permute<T>(xs: seq<T>, order: seq<nat>): (r: seq<T>)
    requires forall k :: 0 <= k < |order| ==> order[k] < |xs|
    ensures |r| == |order|
    ensures forall k :: 0 <= k < |order| ==> r[k] == xs[order[k]]
  {
    seq(|order|, k requires 0 <= k < |order| => xs[order[k]])
  }

  /** `xs.slice(0, n)`. */
  function Take<T>(xs: seq<T>, n: nat): (r: seq<T>)
    ensures |r| == if |xs| < n then |xs| else n
    ensures r == xs[..|r|]
  {
    if |xs| <= n then xs else xs[..n]
  }

  /**
   * The first `RoundSize` elements of `xs` rearranged by `order`: the
   * game's `shuffle(…).slice(0, 6)` with the shuffle's order made explicit.
   */
  function Select<T>(xs: seq<T>, order: seq<nat>): (r: seq<T>)
    requires IsPermutation(order, |xs|)
    ensures |r| == Min(RoundSize, |xs|)
    ensures forall k :: 0 <= k < |r| ==> r[k] == xs[order[k]]
    ensures forall x :: x in r ==> x in xs
  {
    Take(Permute(xs, order), RoundSize)
  }

  /** A selection from distinct elements holds distinct elements. */
  lemma SelectDistinct<T>(xs: seq<T>, order: seq<nat>)
    requires IsPermutation(order, |xs|) && Distinct(xs)
    ensures Distinct(Select(xs, order))
  {
  }

  /** `dataRows.map(row => …)`: one record per data line. */
  function Rows(columns: seq<string>, dataRows: seq<string>): (rows: seq<map<string, string>>)
    ensures |rows| == |dataRows|
    ensures forall k :: 0 <= k < |rows| ==> rows[k] == Record(columns, Split(dataRows[k], ','))
  {
    seq(|dataRows|, k requires 0 <= k < |dataRows| => Record(columns, Split(dataRows[k], ',')))
  }

  /** The countries of the selected records, each numbered by its position. */
  function Countries(rows: seq<map<string, string>>, stats: seq<string>): (cs: seq<Country>)
    ensures |cs| == |rows|
    ensures forall k :: 0 <= k < |cs| ==> cs[k] == CountryOf(rows[k], k, stats)
    ensures forall k :: 0 <= k < |cs| ==> cs[k].id != "" && cs[k].ranks.Keys == set s | s in stats
  {
    seq(|rows|, k requires 0 <= k < |rows| => CountryOf(rows[k], k, stats))
  }

  /** The buckets of the selected statistics. */
  function Buckets(stats: seq<string>, emojiMap: map<string, string>): (bs: seq<Bucket>)
    ensures |bs| == |stats|
    ensures forall k :: 0 <= k < |bs| ==>
      bs[k].assignedCountryId == None && bs[k].id == stats[k] && bs[k].caption == stats[k]
    ensures forall k :: 0 <= k < |bs| ==> bs[k].emoji == Get(emojiMap, stats[k])
    ensures (set b | b in bs :: b.id) == set s | s in stats
  {
    var bs := seq(|stats|, k requires 0 <= k < |stats| => BucketOf(stats[k], emojiMap));
    assert (set b | b in bs :: b.id) == set s | s in stats by {
      forall s | s in stats ensures s in set b | b in bs :: b.id {
        var k :| 0 <= k < |stats| && stats[k] == s;
        assert bs[k].id == s;
      }
    }
    bs
  }

  /** The round built from the selected records and statistics: every country is keyed by exactly the bucket ids. */
  function RoundOf(rows: seq<map<string, string>>, stats: seq<string>, emojiMap: map<string, string>): (r: RoundSetup)
    ensures r.countries == Countries(rows, stats) && r.buckets == Buckets(stats, emojiMap)
    ensures forall k :: 0 <= k < |r.buckets| ==>
      r.buckets[k].assignedCountryId == None && r.buckets[k].id == r.buckets[k].caption && r.buckets[k].id in stats
    ensures forall k :: 0 <= k < |r.countries| ==>
      r.countries[k].id != "" && r.countries[k].ranks.Keys == set b | b in r.buckets :: b.id
  {
    RoundSetup(Countries(rows, stats), Buckets(stats, emojiMap))
  }

  /** The two orders fit the text: one index per data line and one per statistic column. */
  predicate ValidOrders(text: string, rowOrder: seq<nat>, statOrder: seq<nat>) {
    IsPermutation(rowOrder, |DataRows(text)|) && IsPermutation(statOrder, |StatColumns(Header(text))|)
  }

  /**
   * The round loaded from `text`, with the countries taken in `rowOrder` and
   * the statistics in `statOrder`; `None` when the text has fewer than three
   * lines or an empty header or emoji line, in which case nothing is loaded.
   */
  function LoadedRound(text: string, rowOrder: seq<nat>, statOrder: seq<nat>): (r: Option<RoundSetup>)
    requires ValidOrders(text, rowOrder, statOrder)
    ensures |Lines(text)| < 3 ==> r == None
    ensures r.Some? <==> |Lines(text)| >= 3 && Lines(text)[0] != "" && Lines(text)[1] != ""
    ensures r.Some? ==> |r.value.countries| == Min(RoundSize, |DataRows(text)|)
    ensures r.Some? ==> |r.value.buckets| == Min(RoundSize, |StatColumns(Header(text))|)
    ensures r.Some? ==> forall k :: 0 <= k < |r.value.buckets| ==>
      var b := r.value.buckets[k];
      b.assignedCountryId == None && b.id == b.caption && b.id in Header(text) && !IsReserved(b.id)
    ensures r.Some? ==> forall k :: 0 <= k < |r.value.countries| ==>
      var c := r.value.countries[k];
      c.id != "" && c.ranks.Keys == set b | b in r.value.buckets :: b.id
  {
    var lines := Lines(text);
    if |lines| < 3 || lines[0] == "" || lines[1] == "" then None
    else
      var columns := Split(lines[0], ',');
      var emojiMap := Record(columns, Split(lines[1], ','));
      var stats := Select(StatColumns(columns), statOrder);
      var rows := Select(Rows(columns, lines[2..]), rowOrder);
      Some(RoundOf(rows, stats, emojiMap))
  }

  /** The loaded buckets follow `statOrder`: bucket `k` is statistic column `statOrder[k]`. */
  lemma LoadedBucketOrder(text: string, rowOrder: seq<nat>, statOrder: seq<nat>)
    requires ValidOrders(text, rowOrder, statOrder)
    ensures LoadedRound(text, rowOrder, statOrder).Some? ==>
      var bs := LoadedRound(text, rowOrder, statOrder).value.buckets;
      |bs| <= |statOrder| &&
      forall k :: 0 <= k < |bs| ==> bs[k].id == StatColumns(Header(text))[statOrder[k]]
  {
  }

  /**
   * Loaded country `k` is built from data line `rowOrder[k]` at position `k`:
   * its id chain, name, abbreviation, emoji and values all come from that line.
   */
  lemma LoadedCountry(text: string, rowOrder: seq<nat>, statOrder: seq<nat>, k: nat)
    requires ValidOrders(text, rowOrder, statOrder)
    requires LoadedRound(text, rowOrder, statOrder).Some?
    requires k < |LoadedRound(text, rowOrder, statOrder).value.countries|
    ensures var row := Record(Header(text), Split(DataRows(text)[rowOrder[k]], ','));
      LoadedRound(text, rowOrder, statOrder).value.countries[k] ==
        CountryOf(row, k, Select(StatColumns(Header(text)), statOrder))
  {
    assert Select(Rows(Header(text), DataRows(text)), rowOrder)[k] == Rows(Header(text), DataRows(text))[rowOrder[k]];
  }

  /** A loaded bucket's emoji is its statistic's cell in the emoji line, or `''` when missing. */
  lemma LoadedBucketEmoji(text: string, rowOrder: seq<nat>, statOrder: seq<nat>)
    requires ValidOrders(text, rowOrder, statOrder)
    ensures LoadedRound(text, rowOrder, statOrder).Some? ==>
      var emojiMap := Record(Header(text), Split(Lines(text)[1], ','));
      forall b :: b in LoadedRound(text, rowOrder, statOrder).value.buckets ==> b.emoji == Get(emojiMap, b.id)
  {
  }

  /** With distinct column names, the loaded buckets have distinct ids. */
  lemma LoadedBucketIdsDistinct(text: string, rowOrder: seq<nat>, statOrder: seq<nat>)
    requires ValidOrders(text, rowOrder, statOrder)
    requires Distinct(Header(text))
    ensures LoadedRound(text, rowOrder, statOrder).Some? ==>
      var bs := LoadedRound(text, rowOrder, statOrder).value.buckets;
      forall k, l :: 0 <= k < l < |bs| ==> bs[k].id != bs[l].id
  {
    StatColumnsDistinct(Header(text));
    SelectDistinct(StatColumns(Header(text)), statOrder);
  }

  /**
   * The round's values are the parsed cells: a country's value for a
   * statistic is its cell read as a number, and 0 when the cell is missing,
   * blank or not a number.
   */
  lemma LoadedValues(text: string, rowOrder: seq<nat>, statOrder: seq<nat>, k: nat, s: string)
    requires ValidOrders(text, rowOrder, statOrder)
    requires LoadedRound(text, rowOrder, statOrder).Some?
    requires k < |LoadedRound(text, rowOrder, statOrder).value.countries|
    requires s in LoadedRound(text, rowOrder, statOrder).value.countries[k].ranks
    ensures var row := Record(Header(text), Split(DataRows(text)[rowOrder[k]], ','));
      LoadedRound(text, rowOrder, statOrder).value.countries[k].ranks[s] == StatValue(Get(row, s))
  {
    var columns := Header(text);
    var stats := Select(StatColumns(columns), statOrder);
    assert LoadedRound(text, rowOrder, statOrder).value.countries ==
      Countries(Select(Rows(columns, DataRows(text)), rowOrder), stats);
    SelectedValue(columns, DataRows(text), rowOrder, stats, k, s);
  }

  /** The value of a selected country for a chosen statistic is read from its own line. */
  lemma SelectedValue(columns: seq<string>, dataRows: seq<string>, rowOrder: seq<nat>, stats: seq<string>, k: nat, s: string)
    requires IsPermutation(rowOrder, |dataRows|)
    requires k < Min(RoundSize, |dataRows|) && s in stats
    ensures var row := Record(columns, Split(dataRows[rowOrder[k]], ','));
      Countries(Select(Rows(columns, dataRows), rowOrder), stats)[k].ranks[s] == StatValue(Get(row, s))
  {
    var rows := Select(Rows(columns, dataRows), rowOrder);
    assert rows[k] == Rows(columns, dataRows)[rowOrder[k]];
  }

  /** `dataRows.map(row => …)`: the record of every data line, in order. */
  method ParseRows(columns: seq<string>, dataRows: seq<string>) returns (parsed: seq<map<string, string>>)
    ensures parsed == Rows(columns, dataRows)
  {
    parsed := [];
    var k := 0;
    while k < |dataRows|
      invariant 0 <= k <= |dataRows|
      invariant |parsed| == k
      invariant forall l :: 0 <= l < k ==> parsed[l] == Record(columns, Split(dataRows[l], ','))
    {
      var obj := ZipColumns(columns, Split(dataRows[k], ','));
      parsed := parsed + [obj];
      k := k + 1;
    }
  }

  /**
   * The parsing code of the round load: splits the text, fills the emoji map
   * and one record per data line with `forEach`, then selects and converts.
   */
  method ParseRound(text: string, rowOrder: seq<nat>, statOrder: seq<nat>) returns (r: Option<RoundSetup>)
    requires ValidOrders(text, rowOrder, statOrder)
    ensures r == LoadedRound(text, rowOrder, statOrder)
  {
    var lines := Lines(text);
    if |lines| < 3 {
      return None;
    }
    var header := lines[0];
    var emojiRow := lines[1];
    var dataRows := lines[2..];
    if header == "" || emojiRow == "" {
      return None;
    }
    var columns := Split(header, ',');
    var emojiValues := Split(emojiRow, ',');
    var statEmojiMap := ZipColumns(columns, emojiValues);
    var statColumns := StatColumns(columns);
    var parsed := ParseRows(columns, dataRows);
    var shuffledCountries := Select(parsed, rowOrder);
    var shuffledStats := Select(statColumns, statOrder);
    r := Some(RoundOf(shuffledCountries, shuffledStats, statEmojiMap));
  }
}

/** The derived fraud-indicator columns of `create_fraud_features`. Every column is a
    function of the (sorted) table and a row index, defined the way the grouped pandas
    expression computes it; FraudFeatureProperties states what each one means. */
module FraudFeatures {
  import opened Transactions
  import opened CardTimeSort

  /** Thresholds written as literals in the source. */
  const HighVelocityMinutes: real := 3.0
  const SmallAmountThreshold: real := 5.00
  const IncreaseFactor: real := 10.0

  /** A row of the result: the original row and the columns added to it. The helper column
      next_transaction_amount is dropped before the table is returned, so it has no field. */
  datatype EnrichedTxn = EnrichedTxn(
    txn: Txn,
    timeDiffMinutes: Option<real>,
    isHighVelocity: bool,
    distinctCardsPerDevice: Option<nat>,
    distinctDevicesPerCard: nat,
    isCardTestAttempt: bool)

  // ---------------------------------------------------------------------------------------
  // Neighbours within a card group, in table order (what groupby('card_number') sees)

  /** The last row before index `i` that belongs to `card`. */
  function PrevOfCard(s: seq<Txn>, card: CardNumber, i: nat): (r: Option<nat>)
    requires i <= |s|
    ensures r.Some? ==> r.value < i && s[r.value].card == card
    ensures r.Some? ==> forall k :: r.value < k < i ==> s[k].card != card
    ensures r.None? ==> forall k :: 0 <= k < i ==> s[k].card != card
  {
    if i == 0 then None
    else if s[i - 1].card == card then Some(i - 1)
    else PrevOfCard(s, card, i - 1)
  }

  /** The first row at or after index `i` that belongs to `card`. */
  function NextOfCard(s: seq<Txn>, card: CardNumber, i: nat): (r: Option<nat>)
    requires i <= |s|
    ensures r.Some? ==> i <= r.value < |s| && s[r.value].card == card
    ensures r.Some? ==> forall k :: i <= k < r.value ==> s[k].card != card
    ensures r.None? ==> forall k :: i <= k < |s| ==> s[k].card != card
    decreases |s| - i
  {
    if i == |s| then None
    else if s[i].card == card then Some(i)
    else NextOfCard(s, card, i + 1)
  }

  /** The row the per-card diff() subtracts from row i. */
  function PrevSameCard(s: seq<Txn>, i: nat): Option<nat>
    requires i < |s|
  {
    PrevOfCard(s, s[i].card, i)
  }

  /** The row the per-card shift(-1) brings up to row i. */
  function NextSameCard(s: seq<Txn>, i: nat): Option<nat>
    requires i < |s|
  {
    NextOfCard(s, s[i].card, i + 1)
  }

  // ---------------------------------------------------------------------------------------
  // Velocity

  /** time_diff_minutes: the gap in minutes to the previous row of the same card; absent
      (NaN) for the card's first row. */
  function TimeDiffMinutes(s: seq<Txn>, i: nat): (gap: Option<real>)
    requires i < |s|
    ensures gap.None? <==> forall k :: 0 <= k < i ==> s[k].card != s[i].card
    ensures gap.Some? ==> exists j :: 0 <= j < i && s[j].card == s[i].card
                                      && gap.value == (s[i].time - s[j].time) as real / 60.0
  {
    match PrevSameCard(s, i)
    case None => None
    case Some(j) => Some((s[i].time - s[j].time) as real / 60.0)
  }

  /** is_high_velocity: the gap is at most three minutes; a comparison with NaN is false. */
  predicate IsHighVelocity(s: seq<Txn>, i: nat): (b: bool)
    requires i < |s|
    ensures b ==> exists j :: 0 <= j < i && s[j].card == s[i].card && s[i].time - s[j].time <= 180
    ensures (forall k :: 0 <= k < i ==> s[k].card != s[i].card) ==> !b
  {
    var gap := TimeDiffMinutes(s, i);
    gap.Some? && gap.value <= HighVelocityMinutes
  }

  // ---------------------------------------------------------------------------------------
  // Linkage: whole-table distinct counts, broadcast to every row of the group

  /** The card numbers seen on `device` anywhere in the table. */
  function CardsOnDevice(s: seq<Txn>, device: DeviceId): set<CardNumber> {
    set k | 0 <= k < |s| && s[k].device == Some(device) :: s[k].card
  }

  /** The non-blank device ids seen with `card` anywhere in the table (nunique skips NaN). */
  function DevicesOfCard(s: seq<Txn>, card: CardNumber): set<DeviceId> {
    set k | 0 <= k < |s| && s[k].card == card && s[k].device.Some? :: s[k].device.value
  }

  /** distinct_cards_per_device; a row with a blank device_id falls in no group and gets NaN. */
  function DistinctCardsPerDevice(s: seq<Txn>, i: nat): (n: Option<nat>)
    requires i < |s|
    ensures n.None? <==> s[i].device.None?
    ensures n.Some? ==> n.value >= 1
  {
    match s[i].device
    case None => None
    case Some(d) =>
      assert s[i].card in CardsOnDevice(s, d);
      Some(|CardsOnDevice(s, d)|)
  }

  /** distinct_devices_per_card. */
  function DistinctDevicesPerCard(s: seq<Txn>, i: nat): (n: nat)
    requires i < |s|
    ensures s[i].device.Some? ==> n >= 1
  {
    assert s[i].device.Some? ==> s[i].device.value in DevicesOfCard(s, s[i].card);
    |DevicesOfCard(s, s[i].card)|
  }

  // ---------------------------------------------------------------------------------------
  // Card testing

  /** The helper column next_transaction_amount: the amount of the next row of the same
      card, absent (NaN) for the card's last row. */
  function NextTransactionAmount(s: seq<Txn>, i: nat): (next: Option<real>)
    requires i < |s|
    ensures next.None? <==> forall k :: i < k < |s| ==> s[k].card != s[i].card
    ensures next.Some? ==> exists j :: i < j < |s| && s[j].card == s[i].card
                                       && next.value == s[j].amount
  {
    match NextSameCard(s, i)
    case None => None
    case Some(j) => Some(s[j].amount)
  }

  /** is_card_test_attempt: a small amount followed by one more than ten times larger;
      the comparison with a missing next amount is false. */
  predicate IsCardTestAttempt(s: seq<Txn>, i: nat): (b: bool)
    requires i < |s|
    ensures b ==> s[i].amount < 5.00
    ensures b ==> exists j :: i < j < |s| && s[j].card == s[i].card
                              && s[j].amount > s[i].amount * 10.0
    ensures (forall k :: i < k < |s| ==> s[k].card != s[i].card) ==> !b
  {
    var next := NextTransactionAmount(s, i);
    s[i].amount < SmallAmountThreshold && next.Some? && next.value > s[i].amount * IncreaseFactor
  }

  // ---------------------------------------------------------------------------------------
  // The whole transform

  function EnrichRow(s: seq<Txn>, i: nat): EnrichedTxn
    requires i < |s|
  {
    EnrichedTxn(s[i], TimeDiffMinutes(s, i), IsHighVelocity(s, i),
                DistinctCardsPerDevice(s, i), DistinctDevicesPerCard(s, i),
                IsCardTestAttempt(s, i))
  }

  /** Adds every derived column to an already sorted table: one result row per table row,
      in the same order. */
  function Enrich(s: seq<Txn>): (r: seq<EnrichedTxn>)
    ensures |r| == |s|
    ensures forall i :: 0 <= i < |s| ==> r[i].txn == s[i]
  {
    seq(|s|, i requires 0 <= i < |s| => EnrichRow(s, i))
  }

  /** The original rows of a result, without the added columns. */
  function Rows(r: seq<EnrichedTxn>): seq<Txn> {
    seq(|r|, i requires 0 <= i < |r| => r[i].txn)
  }

  /** create_fraud_features: sort by (card_number, transaction_date), then add the columns. */
  function CreateFraudFeatures(df: seq<Txn>): (r: seq<EnrichedTxn>)
    ensures |r| == |df|
    ensures IsSortedPermutation(df, Rows(r))
    ensures r == Enrich(Rows(r))
  {
    var sorted := SortByCardTime(df);
    assert |sorted| == |multiset(sorted)| == |multiset(df)| == |df|;
    var r := Enrich(sorted);
    assert Rows(r) == sorted;
    r
  }

  /** The count printed after the card-testing column is built: the sum of a boolean column. */
  function CardTestCount(r: seq<EnrichedTxn>): (count: nat)
    ensures count <= |r|
    ensures count == 0 <==> forall i :: 0 <= i < |r| ==> !r[i].isCardTestAttempt
  {
    if r == [] then 0
    else
      var p := r[..|r| - 1];
      assert forall i :: 0 <= i < |p| ==> p[i] == r[i];
      CardTestCount(p) + (if r[|r| - 1].isCardTestAttempt then 1 else 0)
  }
}

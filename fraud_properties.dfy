/** What the columns of `create_fraud_features` mean: on a table sorted by (card, time) the
    per-card neighbours are the adjacent rows, the flags hold exactly when the source's
    comparisons do, and the distinct counts are whole-table aggregates. */
module FraudFeatureProperties {
  import opened Transactions
  import opened CardTimeSort
  import opened FraudFeatures

  // ---------------------------------------------------------------------------------------
  // Sort

  /** Corollary of CreateFraudFeatures' contract, row by row: the result holds the input's
      rows, each once, in (card, time) order, with every original field unchanged. */
  lemma CreateFraudFeaturesSortsRows(df: seq<Txn>)
    ensures |CreateFraudFeatures(df)| == |df|
    ensures multiset(Rows(CreateFraudFeatures(df))) == multiset(df)
    ensures forall i, j :: 0 <= i < j < |df| ==>
              KeyLe(CreateFraudFeatures(df)[i].txn, CreateFraudFeatures(df)[j].txn)
  {
    var r := CreateFraudFeatures(df);
    forall i, j | 0 <= i < j < |df|
      ensures KeyLe(r[i].txn, r[j].txn)
    {
      assert Rows(r)[i] == r[i].txn && Rows(r)[j] == r[j].txn;
    }
  }

  // ---------------------------------------------------------------------------------------
  // Neighbours of a row on a sorted table

  /** After the sort, the previous row of the same card is the row just above, if any. */
  lemma SortedPrevSameCard(s: seq<Txn>, i: nat)
    requires SortedByCardTime(s) && i < |s|
    ensures PrevSameCard(s, i) ==
              if i > 0 && s[i - 1].card == s[i].card then Some(i - 1) else None
  {
  }

  /** After the sort, the next row of the same card is the row just below, if any. */
  lemma SortedNextSameCard(s: seq<Txn>, i: nat)
    requires SortedByCardTime(s) && i < |s|
    ensures NextSameCard(s, i) ==
              if i + 1 < |s| && s[i + 1].card == s[i].card then Some(i + 1) else None
  {
  }

  // ---------------------------------------------------------------------------------------
  // Velocity

  /** time_diff_minutes is absent exactly on the first row of a card; otherwise it is the
      gap to the row above in minutes, which the sort makes non-negative. */
  lemma TimeDiffOnSortedTable(s: seq<Txn>, i: nat)
    requires SortedByCardTime(s) && i < |s|
    ensures TimeDiffMinutes(s, i).None? <==> (i == 0 || s[i - 1].card != s[i].card)
    ensures TimeDiffMinutes(s, i).Some? ==>
              TimeDiffMinutes(s, i).value == (s[i].time - s[i - 1].time) as real / 60.0
              && TimeDiffMinutes(s, i).value >= 0.0
  {
    SortedPrevSameCard(s, i);
    if i > 0 && s[i - 1].card == s[i].card {
      assert KeyLe(s[i - 1], s[i]);
    }
  }

  /** is_high_velocity holds iff the row above is the same card and at most 180 seconds
      earlier: never on a card's first row, always when the two timestamps are equal. */
  lemma HighVelocityOnSortedTable(s: seq<Txn>, i: nat)
    requires SortedByCardTime(s) && i < |s|
    ensures IsHighVelocity(s, i) <==>
              i > 0 && s[i - 1].card == s[i].card && s[i].time - s[i - 1].time <= 180
    ensures (i == 0 || s[i - 1].card != s[i].card) ==> !IsHighVelocity(s, i)
    ensures i > 0 && s[i - 1].card == s[i].card && s[i - 1].time == s[i].time ==>
              IsHighVelocity(s, i)
  {
    TimeDiffOnSortedTable(s, i);
  }

  /** In any row order, a row with no earlier row of its card has no gap and no flag. */
  lemma FirstRowOfCardHasNoGap(s: seq<Txn>, i: nat)
    requires i < |s|
    requires forall k :: 0 <= k < i ==> s[k].card != s[i].card
    ensures TimeDiffMinutes(s, i) == None && !IsHighVelocity(s, i)
  {
  }

  // ---------------------------------------------------------------------------------------
  // Card testing

  /** is_card_test_attempt holds iff the row below is the same card, the current amount is
      under 5.00 and the next amount is more than ten times the current one. */
  lemma CardTestOnSortedTable(s: seq<Txn>, i: nat)
    requires SortedByCardTime(s) && i < |s|
    ensures IsCardTestAttempt(s, i) <==>
              i + 1 < |s| && s[i + 1].card == s[i].card
              && s[i].amount < 5.00 && s[i + 1].amount > s[i].amount * 10.0
  {
    SortedNextSameCard(s, i);
  }

  /** In any row order, a card's last row has no next amount and is never flagged. */
  lemma LastRowOfCardNotCardTest(s: seq<Txn>, i: nat)
    requires i < |s|
    requires forall k :: i < k < |s| ==> s[k].card != s[i].card
    ensures NextTransactionAmount(s, i) == None && !IsCardTestAttempt(s, i)
  {
  }

  /** A card with a single transaction gets no gap, no velocity flag, no card-testing flag
      and at most one device. */
  lemma SingleTransactionCard(s: seq<Txn>, i: nat)
    requires i < |s|
    requires forall k :: 0 <= k < |s| && k != i ==> s[k].card != s[i].card
    ensures TimeDiffMinutes(s, i) == None && !IsHighVelocity(s, i)
    ensures !IsCardTestAttempt(s, i)
    ensures DistinctDevicesPerCard(s, i) <= 1
  {
    FirstRowOfCardHasNoGap(s, i);
    LastRowOfCardNotCardTest(s, i);
    var only: set<DeviceId> := if s[i].device.Some? then {s[i].device.value} else {};
    forall d | d in DevicesOfCard(s, s[i].card) ensures d in only {
      var k :| 0 <= k < |s| && s[k].card == s[i].card && s[k].device == Some(d);
      assert k == i;
    }
    SubsetNoLarger(DevicesOfCard(s, s[i].card), only);
  }

  // ---------------------------------------------------------------------------------------
  // Linkage

  /** Number of rows with a given device, and with a given card. */
  function RowsOnDevice(s: seq<Txn>, device: DeviceId): set<nat> {
    set k | 0 <= k < |s| && s[k].device == Some(device)
  }

  function RowsOfCard(s: seq<Txn>, card: CardNumber): set<nat> {
    set k | 0 <= k < |s| && s[k].card == card
  }

  /** An image of a finite set is no larger than the set. */
  lemma {:induction false} ImageNoLarger<B>(ks: set<nat>, f: nat -> B)
    ensures |set k | k in ks :: f(k)| <= |ks|
  {
    if ks != {} {
      var k :| k in ks;
      var rest := ks - {k};
      ImageNoLarger(rest, f);
      var image := set j | j in ks :: f(j);
      var smaller := (set j | j in rest :: f(j)) + {f(k)};
      forall y | y in image ensures y in smaller {
        var j :| j in ks && y == f(j);
        if j != k { assert j in rest; }
      }
      SubsetNoLarger(image, smaller);
    }
  }

  /** distinct_cards_per_device is absent exactly for a blank device_id; otherwise it is at
      least 1, at most the device's number of rows, and the same on every row of the device. */
  lemma DistinctCardsPerDeviceBounds(s: seq<Txn>, i: nat)
    requires i < |s|
    ensures DistinctCardsPerDevice(s, i).None? <==> s[i].device.None?
    ensures s[i].device.Some? ==>
              1 <= DistinctCardsPerDevice(s, i).value <= |RowsOnDevice(s, s[i].device.value)|
    ensures forall j :: 0 <= j < |s| && s[j].device == s[i].device ==>
              DistinctCardsPerDevice(s, j) == DistinctCardsPerDevice(s, i)
  {
    if s[i].device.Some? {
      var d := s[i].device.value;
      assert s[i].card in CardsOnDevice(s, d);
      var rows := RowsOnDevice(s, d);
      var f := (k: nat) => if k < |s| then s[k].card else 0;
      ImageNoLarger(rows, f);
      forall c | c in CardsOnDevice(s, d) ensures c in set k | k in rows :: f(k) {
        var k :| 0 <= k < |s| && s[k].device == Some(d) && s[k].card == c;
        assert k in rows && f(k) == c;
      }
      SubsetNoLarger(CardsOnDevice(s, d), set k | k in rows :: f(k));
    }
  }

  /** distinct_devices_per_card is at most the card's number of rows, the same on every row
      of the card, at least 1 when the row has a device, and 0 only when no row of the card
      has one. */
  lemma DistinctDevicesPerCardBounds(s: seq<Txn>, i: nat)
    requires i < |s|
    ensures DistinctDevicesPerCard(s, i) <= |RowsOfCard(s, s[i].card)|
    ensures s[i].device.Some? ==> DistinctDevicesPerCard(s, i) >= 1
    ensures DistinctDevicesPerCard(s, i) == 0 <==>
              forall k :: 0 <= k < |s| && s[k].card == s[i].card ==> s[k].device.None?
    ensures forall j :: 0 <= j < |s| && s[j].card == s[i].card ==>
              DistinctDevicesPerCard(s, j) == DistinctDevicesPerCard(s, i)
  {
    var c := s[i].card;
    var rows := RowsOfCard(s, c);
    var f := (k: nat) => if k < |s| && s[k].device.Some? then s[k].device.value else 0;
    ImageNoLarger(rows, f);
    forall d | d in DevicesOfCard(s, c) ensures d in set k | k in rows :: f(k) {
      var k :| 0 <= k < |s| && s[k].card == c && s[k].device == Some(d);
      assert k in rows && f(k) == d;
    }
    SubsetNoLarger(DevicesOfCard(s, c), set k | k in rows :: f(k));
    if s[i].device.Some? {
      assert s[i].device.value in DevicesOfCard(s, c);
    }
    if exists k :: 0 <= k < |s| && s[k].card == c && s[k].device.Some? {
      var k :| 0 <= k < |s| && s[k].card == c && s[k].device.Some?;
      assert s[k].device.value in DevicesOfCard(s, c);
    } else {
      assert DevicesOfCard(s, c) == {};
    }
  }

  /** The linkage sets are whole-table aggregates: reordering the rows does not change them. */
  lemma LinkageIgnoresRowOrder(a: seq<Txn>, b: seq<Txn>, device: DeviceId, card: CardNumber)
    requires multiset(a) == multiset(b)
    ensures CardsOnDevice(a, device) == CardsOnDevice(b, device)
    ensures DevicesOfCard(a, card) == DevicesOfCard(b, card)
  {
    LinkageSubset(a, b, device, card);
    LinkageSubset(b, a, device, card);
  }

  lemma LinkageSubset(a: seq<Txn>, b: seq<Txn>, device: DeviceId, card: CardNumber)
    requires multiset(a) == multiset(b)
    ensures CardsOnDevice(a, device) <= CardsOnDevice(b, device)
    ensures DevicesOfCard(a, card) <= DevicesOfCard(b, card)
  {
    forall c | c in CardsOnDevice(a, device)
      ensures c in CardsOnDevice(b, device)
    {
      var k :| 0 <= k < |a| && a[k].device == Some(device) && a[k].card == c;
      assert a[k] in multiset(b);
      var m :| 0 <= m < |b| && b[m] == a[k];
    }
    forall d | d in DevicesOfCard(a, card)
      ensures d in DevicesOfCard(b, card)
    {
      var k :| 0 <= k < |a| && a[k].card == card && a[k].device == Some(d);
      assert a[k] in multiset(b);
      var m :| 0 <= m < |b| && b[m] == a[k];
    }
  }

  /** Every row of the result carries the distinct counts of the INPUT table for its device
      and card, including rows that come later in time. */
  lemma CreateFraudFeaturesLinkage(df: seq<Txn>, i: nat)
    requires i < |df|
    ensures var r := CreateFraudFeatures(df)[i];
            && r.distinctDevicesPerCard == |DevicesOfCard(df, r.txn.card)|
            && (r.txn.device.Some? ==>
                  r.distinctCardsPerDevice == Some(|CardsOnDevice(df, r.txn.device.value)|))
  {
    var r := CreateFraudFeatures(df);
    var sorted := Rows(r);
    assert r[i] == EnrichRow(sorted, i);
    var row := sorted[i];
    LinkageIgnoresRowOrder(sorted, df, if row.device.Some? then row.device.value else 0, row.card);
  }

  // ---------------------------------------------------------------------------------------
  // The printed count

  /** The rows of a result flagged as card-testing attempts. */
  function FlaggedRows(r: seq<EnrichedTxn>): set<nat> {
    set i | 0 <= i < |r| && r[i].isCardTestAttempt
  }

  /** The printed sum of the boolean column is the number of flagged rows. */
  lemma {:induction false} CardTestCountIsFlaggedRows(r: seq<EnrichedTxn>)
    ensures CardTestCount(r) == |FlaggedRows(r)|
  {
    if r != [] {
      var n := |r|;
      var p := r[..n - 1];
      CardTestCountIsFlaggedRows(p);
      assert FlaggedRows(r) == FlaggedRows(p) + (if r[n - 1].isCardTestAttempt then {n - 1} else {}) by {
        forall i | 0 <= i < n - 1 ensures p[i] == r[i] { }
      }
      assert n - 1 !in FlaggedRows(p);
    }
  }

  /** Row i is followed by another row of its card. */
  predicate ContinuesCard(s: seq<Txn>, i: nat)
    requires i + 1 < |s|
  {
    s[i + 1].card == s[i].card
  }

  /** Rows whose next row is the same card: the only rows a sorted table can flag. */
  function ContinuingRows(s: seq<Txn>): set<nat> {
    set i: nat | i + 1 < |s| && ContinuesCard(s, i)
  }

  /** Appending a row adds its card to the card set. */
  lemma CardSetSnoc(s: seq<Txn>)
    requires |s| > 0
    ensures CardSet(s) == CardSet(s[..|s| - 1]) + {s[|s| - 1].card}
  {
    var n := |s|;
    var p := s[..n - 1];
    forall c | c in CardSet(s) ensures c in CardSet(p) + {s[n - 1].card} {
      var k :| 0 <= k < n && s[k].card == c;
      if k < n - 1 { assert p[k] == s[k]; }
    }
    forall c | c in CardSet(p) ensures c in CardSet(s) {
      var k :| 0 <= k < n - 1 && p[k].card == c;
      assert s[k] == p[k];
    }
  }

  /** Appending a row adds the row before it to the continuing rows iff both share a card. */
  lemma ContinuingRowsSnoc(s: seq<Txn>)
    requires |s| >= 2
    ensures ContinuingRows(s) ==
              ContinuingRows(s[..|s| - 1]) + (if ContinuesCard(s, |s| - 2) then {|s| - 2} else {})
    ensures |s| - 2 !in ContinuingRows(s[..|s| - 1])
  {
    var n := |s|;
    var p := s[..n - 1];
    forall i: nat | i + 1 < n - 1 ensures ContinuesCard(p, i) == ContinuesCard(s, i) {
      assert p[i] == s[i] && p[i + 1] == s[i + 1];
    }
  }

  /** On a sorted table the last row's card is new iff the row before has another card. */
  lemma LastCardIsNew(s: seq<Txn>)
    requires SortedByCardTime(s) && |s| >= 2
    ensures s[|s| - 1].card in CardSet(s[..|s| - 1]) <==> ContinuesCard(s, |s| - 2)
  {
    var n := |s|;
    var p := s[..n - 1];
    if ContinuesCard(s, n - 2) {
      assert p[n - 2] == s[n - 2];
    } else {
      forall k | 0 <= k < n - 1 ensures p[k].card != s[n - 1].card {
        assert p[k] == s[k] && KeyLe(s[k], s[n - 2]);
      }
    }
  }

  /** On a sorted table every card has exactly one row that the next row does not continue. */
  lemma {:induction false} ContinuingRowsAndCards(s: seq<Txn>)
    requires SortedByCardTime(s)
    ensures |ContinuingRows(s)| + |CardSet(s)| == |s|
  {
    var n := |s|;
    if n == 0 {
      assert CardSet(s) == {};
    } else if n == 1 {
      assert CardSet(s) == {s[0].card};
      assert ContinuingRows(s) == {};
    } else {
      var p := s[..n - 1];
      ContinuingRowsAndCards(p);
      CardSetSnoc(s);
      ContinuingRowsSnoc(s);
      LastCardIsNew(s);
    }
  }

  /** Because a card's last row is never flagged, a sorted table has at most one flagged
      row fewer than it has rows for each distinct card. */
  lemma CardTestCountBound(s: seq<Txn>)
    requires SortedByCardTime(s)
    ensures CardTestCount(Enrich(s)) + |CardSet(s)| <= |s|
  {
    var r := Enrich(s);
    CardTestCountIsFlaggedRows(r);
    forall i | i in FlaggedRows(r) ensures i in ContinuingRows(s) {
      CardTestOnSortedTable(s, i);
    }
    SubsetNoLarger(FlaggedRows(r), ContinuingRows(s));
    ContinuingRowsAndCards(s);
  }

  lemma {:induction false} SubsetNoLarger<T>(a: set<T>, b: set<T>)
    requires a <= b
    ensures |a| <= |b|
  {
    assert b == a + (b - a);
  }

  // ---------------------------------------------------------------------------------------
  // Rows that tie on (card, time)

  /** Two row orders agree on card and time at every position. */
  predicate SameKeys(a: seq<Txn>, b: seq<Txn>) {
    |a| == |b| && forall i :: 0 <= i < |a| ==> a[i].card == b[i].card && a[i].time == b[i].time
  }

  /** Two sorted orders of the same rows start with the same key. */
  lemma SortedHeadsTie(a: seq<Txn>, b: seq<Txn>)
    requires multiset(a) == multiset(b) && a != []
    requires SortedByCardTime(a) && SortedByCardTime(b)
    ensures b != [] && a[0].card == b[0].card && a[0].time == b[0].time
  {
    assert a[0] in multiset(b);
    var j :| 0 <= j < |b| && b[j] == a[0];
    assert b[0] in multiset(a);
    var m :| 0 <= m < |a| && a[m] == b[0];
    assert j == 0 || KeyLe(b[0], b[j]);
    assert m == 0 || KeyLe(a[0], a[m]);
  }

  /** In a sorted table, swapping the first row with a later row of the same key keeps the
      table sorted, its rows, and its keys. */
  lemma SwapTiedHead(b: seq<Txn>, j: nat)
    requires SortedByCardTime(b) && 0 < j < |b|
    requires b[j].card == b[0].card && b[j].time == b[0].time
    ensures var b' := b[0 := b[j]][j := b[0]];
            SortedByCardTime(b') && multiset(b') == multiset(b) && SameKeys(b, b')
  {
    var b' := b[0 := b[j]][j := b[0]];
    forall k | 0 <= k <= j ensures b[k].card == b[0].card && b[k].time == b[0].time {
      if 0 < k < j { assert KeyLe(b[0], b[k]) && KeyLe(b[k], b[j]); }
    }
    assert SameKeys(b, b');
    forall x, y | 0 <= x < y < |b'| ensures KeyLe(b'[x], b'[y]) {
      assert KeyLe(b[x], b[y]);
    }
  }

  /** Equal first rows and equal keys after them give equal keys throughout. */
  lemma SameKeysCons(a: seq<Txn>, b: seq<Txn>)
    requires a != [] && b != [] && a[0] == b[0] && SameKeys(a[1..], b[1..])
    ensures SameKeys(a, b)
  {
    forall k | 1 <= k < |a| ensures a[k].card == b[k].card && a[k].time == b[k].time {
      assert a[1..][k - 1] == a[k] && b[1..][k - 1] == b[k];
    }
  }

  /** A sorted order of `b`'s rows that starts with the row `a` starts with, keeping b's keys. */
  lemma MoveHeadToFront(a: seq<Txn>, b: seq<Txn>) returns (b': seq<Txn>)
    requires multiset(a) == multiset(b) && a != []
    requires SortedByCardTime(a) && SortedByCardTime(b)
    ensures b' != [] && b'[0] == a[0]
    ensures SortedByCardTime(b') && multiset(b') == multiset(b) && SameKeys(b, b')
  {
    assert a[0] in multiset(b);
    var j :| 0 <= j < |b| && b[j] == a[0];
    if j == 0 {
      b' := b;
    } else {
      SortedHeadsTie(a, b);
      SwapTiedHead(b, j);
      b' := b[0 := b[j]][j := b[0]];
    }
  }

  /** Any two sorted orders of the same rows differ only among rows tying on both keys. */
  lemma {:induction false} SortedOrdersShareKeys(a: seq<Txn>, b: seq<Txn>)
    requires multiset(a) == multiset(b)
    requires SortedByCardTime(a) && SortedByCardTime(b)
    ensures SameKeys(a, b)
    decreases |a|
  {
    assert |a| == |multiset(a)| == |b|;
    if a != [] {
      var b' := MoveHeadToFront(a, b);
      assert a == [a[0]] + a[1..] && b' == [a[0]] + b'[1..];
      assert multiset(a) == multiset{a[0]} + multiset(a[1..]);
      assert multiset(b') == multiset{a[0]} + multiset(b'[1..]);
      assert multiset(a[1..]) == multiset(a) - multiset{a[0]};
      assert multiset(b'[1..]) == multiset(b') - multiset{a[0]};
      SortedOrdersShareKeys(a[1..], b'[1..]);
      SameKeysCons(a, b');
    }
  }

  /** The velocity columns and distinct_devices_per_card do not depend on how the sort
      orders tied rows. */
  lemma VelocityIgnoresTieOrder(input: seq<Txn>, a: seq<Txn>, b: seq<Txn>, i: nat)
    requires IsSortedPermutation(input, a) && IsSortedPermutation(input, b)
    requires i < |a|
    ensures i < |b|
    ensures TimeDiffMinutes(a, i) == TimeDiffMinutes(b, i)
    ensures IsHighVelocity(a, i) == IsHighVelocity(b, i)
    ensures DistinctDevicesPerCard(a, i) == DistinctDevicesPerCard(b, i)
  {
    SortedOrdersShareKeys(a, b);
    SortedPrevSameCard(a, i);
    SortedPrevSameCard(b, i);
    LinkageIgnoresRowOrder(a, b, 0, a[i].card);
  }

  /** is_card_test_attempt, in contrast, depends on the input order of tied rows, which the
      stable sort keeps: two rows of one card at the same second, 1.00 and 20.00, give one
      flagged row when 1.00 is listed first and none when 20.00 is. */
  lemma CardTestDependsOnTieOrder()
    ensures var small := Txn(1, 7, 1, Some(1), 0, 1.00, false);
            var large := Txn(2, 7, 1, Some(1), 0, 20.00, false);
            && CardTestCount(CreateFraudFeatures([small, large])) == 1
            && CardTestCount(CreateFraudFeatures([large, small])) == 0
  {
    var small := Txn(1, 7, 1, Some(1), 0, 1.00, false);
    var large := Txn(2, 7, 1, Some(1), 0, 20.00, false);
    TiedPairCardTestCount(small, large);
    TiedPairCardTestCount(large, small);
  }

  /** Two tied rows of one card: only the first can be flagged, against the second. */
  lemma TiedPairCardTestCount(a: Txn, b: Txn)
    requires a.card == b.card && a.time == b.time
    ensures CardTestCount(CreateFraudFeatures([a, b])) ==
              if a.amount < 5.00 && b.amount > a.amount * 10.0 then 1 else 0
  {
    TiedPairKeepsOrder(a, b);
    CardTestOnSortedTable([a, b], 0);
    CardTestOnSortedTable([a, b], 1);
    PairCardTestCount([a, b]);
  }

  /** Two tied rows come out of the transform in the order they went in. */
  lemma TiedPairKeepsOrder(a: Txn, b: Txn)
    requires a.card == b.card && a.time == b.time
    ensures CreateFraudFeatures([a, b]) == Enrich([a, b])
  {
    assert [a, b][1..] == [b] && [b][1..] == [];
    assert SortByCardTime([b]) == [b];
    assert SortByCardTime([a, b]) == Insert(a, [b]) == [a, b];
  }

  lemma PairCardTestCount(s: seq<Txn>)
    requires |s| == 2
    ensures CardTestCount(Enrich(s)) ==
              (if IsCardTestAttempt(s, 0) then 1 else 0) + (if IsCardTestAttempt(s, 1) then 1 else 0)
  {
    var r := Enrich(s);
    assert r[0] == EnrichRow(s, 0) && r[1] == EnrichRow(s, 1);
    var head := r[..1];
    assert head[..0] == [] && head[0] == r[0];
    assert CardTestCount(head) == (if r[0].isCardTestAttempt then 1 else 0);
    assert r[..|r| - 1] == head;
  }
}

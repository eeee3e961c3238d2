# Fraud-indicator features for card transactions

This project models `create_fraud_features` from the Risk-Analyst-Challenge repository. It is a
batch transform over a table of card transactions. The transform:

1. sorts the rows by `card_number`, then `transaction_date`;
2. adds `time_diff_minutes`, the gap to the previous transaction of the same card, and
   `is_high_velocity`, which holds when that gap is at most 3 minutes;
3. adds `distinct_cards_per_device` and `distinct_devices_per_card`. These are whole-table
   distinct counts, copied onto every row of the group;
4. adds `is_card_test_attempt`. It holds when the amount is under 5.00 and the next
   transaction of the same card is more than 10 times larger. The helper column
   `next_transaction_amount` is built for this and then dropped;
5. counts the flagged rows; the source prints this count.

The model is pure, as the source is: one function per column, each over a table
(`seq<Txn>`) and a row index.

- `transactions.dfy`: the row type `Txn`, the (card, time) order, and the sort
  (`SortByCardTime`). A pandas `sort_values` on two keys goes through a lexicographic sort
  that is stable, so rows that tie on (card, time) keep their input order.
  `SortByCardTime` is stable too (`SortKeepsTieOrder`), so it returns the same order as
  pandas.
- `fraud_features.dfy`: the columns.
  - They follow pandas' grouped semantics. `diff()` and `shift(-1)` look at the previous
    and next row of the same card in table order (`PrevOfCard`, `NextOfCard`). A blank
    `device_id` is `None`: pandas' `groupby` leaves such a row out of every device group,
    and `nunique` skips it.
  - Missing values (NaN) are `Option.None`. Every comparison with a missing value is
    false, as in pandas.
  - `CreateFraudFeatures` is the whole transform. Its result type `EnrichedTxn` has no
    field for the dropped helper column.
- `fraud_properties.dfy`: lemmas stating what each column means.
  - On any table sorted by (card, time), the previous and next row of the same card are
    the adjacent rows. Each flag therefore holds exactly when the source's comparison
    holds on those rows.
  - The distinct counts are whole-table aggregates that no reordering changes.
  - The printed count is the number of flagged rows, and it is bounded by the number of
    rows minus the number of cards.
  - The column properties are stated for ANY table sorted by (card, time), which covers
    the stable order the source produces. `VelocityIgnoresTieOrder` shows the velocity and
    devices-per-card columns would be the same for any order of tied rows.
    `CardTestDependsOnTieOrder` shows the card-testing flag is not: it depends on the
    input order of rows that tie on (card, time).
- `scenarios.dfy`: worked examples on two- and three-row tables.

Integer and value choices:
- Timestamps are whole seconds (`int`); gaps in minutes are `real`.
- Amounts are `real`. Card, device and merchant keys are `int`.

Facts about the code that the lemmas make precise:
- The card-testing increase factor is 10 (script.py:26). `FraudFeatureScenarios.FactorIsTen`
  shows that 2.00 followed by 18.00 is not flagged.
- `distinct_devices_per_card` is 0 for a card whose rows all have a blank `device_id`,
  because `nunique` skips missing values (script.py:20). `DistinctDevicesPerCardBounds`
  states the exact condition.
- The code computes no percentile-deviation flags, no 0/1 export coercion and no
  per-device chargeback summary, so neither does the model.

## Model

| member | source | states |
|---|---|---|
| CardTimeSort.Insert | script.py:10 | inserting a row into a (card, time)-sorted table gives a sorted table holding exactly the old rows plus the new one |
| CardTimeSort.SortByCardTime | script.py:10 | the result is a permutation of the input, ordered non-decreasingly by (card_number, transaction_date) |
| FraudFeatures.PrevOfCard | script.py:13 | the row per-card `diff()` subtracts: the last earlier row of the same card, with no row of that card in between; none iff no earlier row has the card |
| FraudFeatures.NextOfCard | script.py:23 | the row per-card `shift(-1)` brings up: the first later row of the same card, with none in between; none iff no later row has the card |
| CardTimeSort.SortKeepsTieOrder | script.py:10 | for every (card, time) key, the rows with that key appear in the sorted result in their input order: the sort is stable |
| FraudFeatures.TimeDiffMinutes | script.py:13 | time_diff_minutes is absent iff no earlier row has the card; otherwise it is the gap in minutes to an earlier row of the card (the previous one, by `PrevOfCard`; the row above on a sorted table, by `TimeDiffOnSortedTable`) |
| FraudFeatures.IsHighVelocity | script.py:15 | a flagged row has an earlier row of its card at most 180 seconds before it; a card's first row is never flagged; `HighVelocityOnSortedTable` gives the exact condition |
| FraudFeatures.DistinctCardsPerDevice | script.py:18 | missing iff the device_id is blank, otherwise at least 1; `DistinctCardsPerDeviceBounds` adds the upper bound and constancy over the device |
| FraudFeatures.DistinctDevicesPerCard | script.py:20 | at least 1 when the row has a device; `DistinctDevicesPerCardBounds` adds the upper bound, constancy over the card and the exact zero case |
| FraudFeatures.NextTransactionAmount | script.py:23 | the helper column is absent iff no later row has the card; otherwise it is the amount of a later row of the card (the next one, by `NextOfCard`) |
| FraudFeatures.IsCardTestAttempt | script.py:25-29 | a flagged row has an amount under 5.00 and a later row of its card more than ten times larger; a card's last row is never flagged; `CardTestOnSortedTable` gives the exact condition |
| FraudFeatures.CardTestCount | script.py:31 | the printed count is at most the row count and is 0 iff no row is flagged; `CardTestCountIsFlaggedRows` shows it is the number of flagged rows |
| FraudFeatures.Enrich | script.py:13-29 | one result row per row of the sorted table, in the same order, each carrying its original row unchanged |
| FraudFeatures.CreateFraudFeatures | script.py:3-44 | the result has the input's row count, its original rows form a sorted permutation of the input, and each row carries the columns computed on that sorted table |
| FraudFeatureProperties.CreateFraudFeaturesSortsRows | script.py:8-10 | corollary of CreateFraudFeatures' contract: the output holds the input rows (same multiset, same count) in non-decreasing (card, time) order |
| FraudFeatureProperties.SortedPrevSameCard | script.py:10-13 | on a sorted table, the previous row of a row's card is the row just above if it has the same card, and none otherwise |
| FraudFeatureProperties.SortedNextSameCard | script.py:10-23 | on a sorted table, the next row of a row's card is the row just below if it has the same card, and none otherwise |
| FraudFeatureProperties.TimeDiffOnSortedTable | script.py:13 | time_diff_minutes is absent exactly on a card's first row; otherwise it is (time[i] - time[i-1]) / 60 with row i-1 of the same card, and it is non-negative |
| FraudFeatureProperties.HighVelocityOnSortedTable | script.py:15 | is_high_velocity holds iff the row above is the same card and at most 180 seconds earlier; it is false on a card's first row and true for equal timestamps |
| FraudFeatureProperties.FirstRowOfCardHasNoGap | script.py:13-15 | in any row order, a row with no earlier row of its card has no gap and is not high velocity |
| FraudFeatureProperties.CardTestOnSortedTable | script.py:23-29 | is_card_test_attempt holds iff row i+1 exists with the same card, amount[i] < 5.00 and amount[i+1] > amount[i] * 10 |
| FraudFeatureProperties.LastRowOfCardNotCardTest | script.py:23-29 | in any row order, a card's last row has no next amount and is never flagged |
| FraudFeatureProperties.SingleTransactionCard | script.py:13-29 | a card with one transaction has no gap, no velocity flag, no card-testing flag and at most one device |
| FraudFeatureProperties.DistinctCardsPerDeviceBounds | script.py:18 | distinct_cards_per_device is missing exactly for a blank device_id; otherwise it is between 1 and the device's row count, and equal on all rows of the device |
| FraudFeatureProperties.DistinctDevicesPerCardBounds | script.py:20 | distinct_devices_per_card is at most the card's row count and equal on all rows of the card; it is at least 1 when the row has a device, and 0 iff no row of the card has one |
| FraudFeatureProperties.LinkageIgnoresRowOrder | script.py:18-20 | the set of cards on a device and the set of devices of a card are the same for any reordering of the table |
| FraudFeatureProperties.CreateFraudFeaturesLinkage | script.py:10-20 | each output row carries the distinct counts of the whole input table for its device and card, later transactions included |
| FraudFeatureProperties.CardTestCountIsFlaggedRows | script.py:31 | the sum of the is_card_test_attempt column equals the number of rows where it is true |
| FraudFeatureProperties.ContinuingRowsAndCards | script.py:10 | on a sorted table, the rows followed by a row of the same card plus the distinct cards number exactly the rows |
| FraudFeatureProperties.CardTestCountBound | script.py:23-31 | on a sorted table, the card-testing count plus the number of distinct cards is at most the number of rows, since every card's last row is unflagged |
| FraudFeatureProperties.SortedOrdersShareKeys | script.py:10 | any two sorted orders of the same rows have the same card and time at every position |
| FraudFeatureProperties.VelocityIgnoresTieOrder | script.py:10-20 | time_diff_minutes, is_high_velocity and distinct_devices_per_card are the same at every position for any two sorted orders of the input |
| FraudFeatureProperties.CardTestDependsOnTieOrder | script.py:10-29 | two rows of one card at the same second, 1.00 and 20.00: the transform flags one row when 1.00 is listed first in the input and none when 20.00 is |
| FraudFeatureProperties.TiedPairCardTestCount | script.py:10-31 | for two tied rows of one card, the count is 1 exactly when the first input row is under 5.00 and the second is more than ten times larger |
| FraudFeatureScenarios.SmallThenLargeOneMinuteApart | script.py:8-31 | 2.00 then 30.00 one minute apart on one card: the first row is flagged and not high velocity, the second is high velocity with a 1-minute gap and not flagged; count 1 |
| FraudFeatureScenarios.FactorIsTen | script.py:25-29 | 2.00 followed by 18.00 is not flagged, although 18.00 exceeds eight times 2.00 |
| FraudFeatureScenarios.ThreeCardsOnOneDevice | script.py:13-29 | three single-transaction cards on one device: every row has three cards per device and one device per card, and no flags |

## Left out

- Reading the CSV (script.py:46), writing the enriched CSV (script.py:50), and printing
  (script.py:32, 52-53): these are I/O. The printed count is modelled as `CardTestCount`.
- Date parsing by `pd.to_datetime` (script.py:9) is a foreign library call. Rows carry an
  already parsed timestamp in whole seconds. An unparseable date, which raises in pandas,
  is not modelled. A blank `transaction_date` is not modelled either: pandas turns it into
  NaT, which sorts last within its card and gets a NaN gap and no velocity flag.
- Floating point: amounts and minute gaps are exact `real` values. IEEE rounding in
  `amount * 10` or `seconds / 60` is not modelled. A NaN amount is not modelled either.
- Card, device and merchant keys are `int`. In the data they may be strings ordered
  lexicographically; the model only uses that the order is total. A blank `card_number`,
  which pandas sorts last and groups nowhere, is not modelled.
- The ideas listed as comments at script.py:34-40 have no code and are not modelled. These
  are correlation with `has_cbk`, deviation from card or merchant averages, rolling
  windows, hour of day, and first transaction.
- `merchant_id`, `transaction_id` and `has_cbk` are carried unchanged. No column reads them.

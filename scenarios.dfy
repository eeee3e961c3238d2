/** Worked examples of `create_fraud_features` on small tables. */
module FraudFeatureScenarios {
  import opened Transactions
  import opened FraudFeatures
  import opened FraudFeatureProperties

  /** Card 1 pays 2.00 and, one minute later, 30.00; the table lists the later row first.
      After the sort the small payment comes first and is flagged as card testing (30.00 is
      more than ten times 2.00); the second row is high velocity and, being the card's last
      row, is not flagged. */
  lemma SmallThenLargeOneMinuteApart()
    ensures var first := Txn(1, 1, 10, Some(100), 0, 2.00, false);
            var second := Txn(2, 1, 10, Some(100), 60, 30.00, true);
            var r := CreateFraudFeatures([second, first]);
            && |r| == 2 && r[0].txn == first && r[1].txn == second
            && r[0].timeDiffMinutes == None && !r[0].isHighVelocity && r[0].isCardTestAttempt
            && r[1].timeDiffMinutes == Some(1.0) && r[1].isHighVelocity && !r[1].isCardTestAttempt
            && CardTestCount(r) == 1
  {
    var first := Txn(1, 1, 10, Some(100), 0, 2.00, false);
    var second := Txn(2, 1, 10, Some(100), 60, 30.00, true);
    var r := CreateFraudFeatures([second, first]);
    var s := Rows(r);
    SortedPairOrder(first, second, s);
    assert r == Enrich(s);
    TimeDiffOnSortedTable(s, 0);
    TimeDiffOnSortedTable(s, 1);
    HighVelocityOnSortedTable(s, 1);
    CardTestOnSortedTable(s, 0);
    CardTestOnSortedTable(s, 1);
    PairCardTestCount(s);
  }

  /** Two rows with different keys have only one sorted order. */
  lemma SortedPairOrder(first: Txn, second: Txn, s: seq<Txn>)
    requires KeyLe(first, second) && !KeyLe(second, first)
    requires IsSortedPermutation([second, first], s)
    ensures s == [first, second]
  {
    assert |s| == |multiset(s)| == 2;
    assert s[0] in multiset(s) && s[1] in multiset(s);
    assert KeyLe(s[0], s[1]);
  }

  /** The increase factor is 10: 2.00 followed by 18.00 is not a card-testing attempt, although
      18.00 is more than eight times 2.00. */
  lemma FactorIsTen()
    ensures var s := [Txn(1, 1, 10, Some(100), 0, 2.00, false),
                      Txn(2, 1, 10, Some(100), 60, 18.00, false)];
            !IsCardTestAttempt(s, 0) && 18.00 > 2.00 * 8.0
  {
    var s := [Txn(1, 1, 10, Some(100), 0, 2.00, false),
              Txn(2, 1, 10, Some(100), 60, 18.00, false)];
    CardTestOnSortedTable(s, 0);
  }

  /** Three cards, one transaction each, all on device 5: every row sees three cards on its
      device and one device on its card; no row has a gap or a flag. */
  lemma ThreeCardsOnOneDevice()
    ensures var s := [Txn(1, 1, 10, Some(5), 0, 50.00, false),
                      Txn(2, 2, 10, Some(5), 10, 50.00, false),
                      Txn(3, 3, 10, Some(5), 20, 50.00, false)];
            forall i :: 0 <= i < 3 ==>
              && DistinctCardsPerDevice(s, i) == Some(3)
              && DistinctDevicesPerCard(s, i) == 1
              && !IsHighVelocity(s, i) && !IsCardTestAttempt(s, i)
  {
    var s := [Txn(1, 1, 10, Some(5), 0, 50.00, false),
              Txn(2, 2, 10, Some(5), 10, 50.00, false),
              Txn(3, 3, 10, Some(5), 20, 50.00, false)];
    assert CardsOnDevice(s, 5) == {1, 2, 3} by {
      assert s[0].card == 1 && s[1].card == 2 && s[2].card == 3;
    }
    forall i | 0 <= i < 3
      ensures DistinctDevicesPerCard(s, i) == 1
      ensures !IsHighVelocity(s, i) && !IsCardTestAttempt(s, i)
    {
      assert DevicesOfCard(s, s[i].card) == {5} by {
        assert s[i].device == Some(5);
      }
      SingleTransactionCard(s, i);
    }
  }
}

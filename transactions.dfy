/** The rows of the card-transaction table and the order the feature engine sorts them in. */
module Transactions {

  datatype Option<+T> = None | Some(value: T)

  type CardNumber = int
  type DeviceId = int
  type MerchantId = int

  /** One row of the input table. `time` is transaction_date already parsed, in whole
      seconds; `device` is None where the device_id cell is blank (pandas NaN). */
  datatype Txn = Txn(
    id: int,
    card: CardNumber,
    merchant: MerchantId,
    device: Option<DeviceId>,
    time: int,
    amount: real,
    hasCbk: bool)

  /** The (card_number, transaction_date) key order of the sort. */
  predicate KeyLe(a: Txn, b: Txn) {
    a.card < b.card || (a.card == b.card && a.time <= b.time)
  }

  predicate SortedByCardTime(s: seq<Txn>) {
    forall i, j :: 0 <= i < j < |s| ==> KeyLe(s[i], s[j])
  }

  /** `output` holds exactly the rows of `input`, ordered by card then time; rows that tie
      on both keys may come in any order. */
  predicate IsSortedPermutation(input: seq<Txn>, output: seq<Txn>) {
    multiset(output) == multiset(input) && SortedByCardTime(output)
  }

  /** The card numbers that occur in the table. */
  function CardSet(s: seq<Txn>): set<CardNumber> {
    set k | 0 <= k < |s| :: s[k].card
  }
}

/** The sort by (card_number, transaction_date). A sort on two keys in pandas is stable, and
    so is this one: rows that tie on both keys keep their input order. */
module CardTimeSort {
  import opened Transactions

  /** Places `x` in front of the first row whose key is not smaller. */
  function Insert(x: Txn, s: seq<Txn>): (r: seq<Txn>)
    requires SortedByCardTime(s)
    ensures multiset(r) == multiset(s) + multiset{x}
    ensures SortedByCardTime(r)
  {
    if s == [] then [x]
    else if KeyLe(x, s[0]) then [x] + s
    else
      var rest := Insert(x, s[1..]);
      assert s == [s[0]] + s[1..];
      HeadBelowInsertion(x, s, rest);
      [s[0]] + rest
  }

  /** When `x` goes after the head of `s`, that head stays below every row of the rest. */
  lemma HeadBelowInsertion(x: Txn, s: seq<Txn>, rest: seq<Txn>)
    requires SortedByCardTime(s) && s != [] && !KeyLe(x, s[0])
    requires multiset(rest) == multiset(s[1..]) + multiset{x}
    requires SortedByCardTime(rest)
    ensures SortedByCardTime([s[0]] + rest)
  {
    forall k | 0 <= k < |rest| ensures KeyLe(s[0], rest[k]) {
      assert rest[k] in multiset(rest);
      if rest[k] != x {
        assert rest[k] in multiset(s[1..]);
        var m :| 0 <= m < |s| - 1 && s[1..][m] == rest[k];
        assert s[m + 1] == rest[k];
      }
    }
    var r := [s[0]] + rest;
    forall i, j | 0 <= i < j < |r| ensures KeyLe(r[i], r[j]) {
      if i == 0 {
        assert r[j] == rest[j - 1];
      } else {
        assert r[i] == rest[i - 1] && r[j] == rest[j - 1];
      }
    }
  }

  function SortByCardTime(s: seq<Txn>): (r: seq<Txn>)
    ensures IsSortedPermutation(s, r)
  {
    if s == [] then []
    else
      assert s == [s[0]] + s[1..];
      Insert(s[0], SortByCardTime(s[1..]))
  }

  /** The rows of `s` whose key is (card, time), in table order. */
  function TiedWith(s: seq<Txn>, card: CardNumber, time: int): seq<Txn> {
    if s == [] then []
    else (if s[0].card == card && s[0].time == time then [s[0]] else []) + TiedWith(s[1..], card, time)
  }

  lemma TiedWithCons(a: Txn, s: seq<Txn>, card: CardNumber, time: int)
    ensures TiedWith([a] + s, card, time) ==
              (if a.card == card && a.time == time then [a] else []) + TiedWith(s, card, time)
  {
    assert ([a] + s)[1..] == s;
  }

  /** Inserting `x` puts it in front of every row that ties with it and moves no other tie. */
  lemma {:induction false} InsertTies(x: Txn, s: seq<Txn>, card: CardNumber, time: int)
    requires SortedByCardTime(s)
    ensures TiedWith(Insert(x, s), card, time) ==
              (if x.card == card && x.time == time then [x] else []) + TiedWith(s, card, time)
  {
    if s == [] {
      TiedWithCons(x, [], card, time);
      assert [x] + [] == [x];
    } else if KeyLe(x, s[0]) {
      TiedWithCons(x, s, card, time);
    } else {
      var rest := Insert(x, s[1..]);
      assert Insert(x, s) == [s[0]] + rest;
      InsertTies(x, s[1..], card, time);
      TiedWithCons(s[0], rest, card, time);
      TiedWithCons(s[0], s[1..], card, time);
      assert s == [s[0]] + s[1..];
      // s[0] sorts strictly before x, so it cannot tie with x
      assert !(s[0].card == x.card && s[0].time == x.time);
    }
  }

  /** Stability: for every key, the rows with that key come out in their input order. */
  lemma {:induction false} SortKeepsTieOrder(s: seq<Txn>, card: CardNumber, time: int)
    ensures TiedWith(SortByCardTime(s), card, time) == TiedWith(s, card, time)
  {
    if s != [] {
      SortKeepsTieOrder(s[1..], card, time);
      InsertTies(s[0], SortByCardTime(s[1..]), card, time);
    }
  }
}

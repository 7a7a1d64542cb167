/** What the polling capture stores, said of the answers alone: under every key the first trade, in polling
    order, that carries it. */
module RestStored {
  import opened RestPolls

  // ---- Places in the answers ----

  /** The item-th entry of the answer for the ticker-th ticker in a poll. */
  datatype Spot = Spot(poll: nat, ticker: nat, item: nat)

  /** Polls in order, within a poll tickers in order, within an answer entries in order. */
  predicate Earlier(a: Spot, b: Spot) {
    || a.poll < b.poll
    || (a.poll == b.poll && a.ticker < b.ticker)
    || (a.poll == b.poll && a.ticker == b.ticker && a.item < b.item)
  }

  predicate IsTrade(payloads: seq<seq<seq<Item>>>, a: Spot) {
    && a.poll < |payloads| && a.ticker < |payloads[a.poll]| && a.item < |payloads[a.poll][a.ticker]|
    && payloads[a.poll][a.ticker][a.item].Trade?
  }

  /** The record of the trade at a spot: its ticker, its poll, its own key and its own fields. */
  function RecordAt(tickers: seq<string>, payloads: seq<seq<seq<Item>>>, a: Spot): Record
    requires IsTrade(payloads, a) && a.ticker < |tickers|
  {
    var x := payloads[a.poll][a.ticker][a.item];
    TradeRecord(tickers[a.ticker], a.poll, TradeKey(tickers[a.ticker], x.fields), x)
  }

  ghost predicate Shaped(tickers: seq<string>, payloads: seq<seq<seq<Item>>>) {
    forall p :: 0 <= p < |payloads| ==> |payloads[p]| == |tickers|
  }

  /** r is the record of the trade at a, and no earlier trade has its key. */
  ghost predicate FirstAt(tickers: seq<string>, payloads: seq<seq<seq<Item>>>, a: Spot, r: Record)
    requires Shaped(tickers, payloads)
  {
    && IsTrade(payloads, a) && r == RecordAt(tickers, payloads, a)
    && forall b :: IsTrade(payloads, b) && Earlier(b, a) ==> RecordAt(tickers, payloads, b).key != r.key
  }

  // ---- The stream, spot by spot ----

  function AnswerSpots(poll: nat, ticker: nat, items: seq<Item>): seq<Spot> {
    if items == [] then []
    else
      var n := |items| - 1;
      AnswerSpots(poll, ticker, items[..n]) + (if items[n].Trade? then [Spot(poll, ticker, n)] else [])
  }

  function PollSpots(poll: nat, answers: seq<seq<Item>>): seq<Spot> {
    if answers == [] then []
    else
      var t := |answers| - 1;
      PollSpots(poll, answers[..t]) + AnswerSpots(poll, t, answers[t])
  }

  function AllSpots(payloads: seq<seq<seq<Item>>>): seq<Spot> {
    if payloads == [] then []
    else
      var p := |payloads| - 1;
      AllSpots(payloads[..p]) + PollSpots(p, payloads[p])
  }

  ghost predicate InOrder(spots: seq<Spot>) {
    forall j, k :: 0 <= j < k < |spots| ==> Earlier(spots[j], spots[k])
  }

  lemma OrderConcat(s: seq<Spot>, t: seq<Spot>)
    requires InOrder(s) && InOrder(t) && forall a, b :: a in s && b in t ==> Earlier(a, b)
    ensures InOrder(s + t)
  {
    forall j, k | 0 <= j < k < |s + t|
      ensures Earlier((s + t)[j], (s + t)[k])
    {
      if j < |s| && k >= |s| {
        assert s[j] in s && t[k - |s|] in t;
      }
    }
  }

  lemma {:induction false} AnswerInOrder(poll: nat, ticker: nat, items: seq<Item>)
    ensures InOrder(AnswerSpots(poll, ticker, items))
    ensures forall a :: a in AnswerSpots(poll, ticker, items) <==>
      a.poll == poll && a.ticker == ticker && a.item < |items| && items[a.item].Trade?
  {
    if items == [] {
    } else {
      var n := |items| - 1;
      var init, last := items[..n], if items[n].Trade? then [Spot(poll, ticker, n)] else [];
      AnswerInOrder(poll, ticker, init);
      OrderConcat(AnswerSpots(poll, ticker, init), last);
      hide InOrder;
      forall a
        ensures a in AnswerSpots(poll, ticker, items) <==>
          a.poll == poll && a.ticker == ticker && a.item < |items| && items[a.item].Trade?
      {
        assert a in AnswerSpots(poll, ticker, items) <==> a in AnswerSpots(poll, ticker, init) || a in last;
        assert a.item < n ==> init[a.item] == items[a.item];
      }
    }
  }

  lemma {:induction false} PollInOrder(poll: nat, answers: seq<seq<Item>>)
    ensures InOrder(PollSpots(poll, answers))
    ensures forall a :: a in PollSpots(poll, answers) <==>
      a.poll == poll && a.ticker < |answers| && a.item < |answers[a.ticker]| && answers[a.ticker][a.item].Trade?
  {
    hide AnswerSpots;
    if answers == [] {
    } else {
      var t := |answers| - 1;
      PollInOrder(poll, answers[..t]);
      AnswerInOrder(poll, t, answers[t]);
      OrderConcat(PollSpots(poll, answers[..t]), AnswerSpots(poll, t, answers[t]));
    }
  }

  lemma {:induction false} AllInOrder(payloads: seq<seq<seq<Item>>>)
    ensures InOrder(AllSpots(payloads))
    ensures forall a :: a in AllSpots(payloads) <==> IsTrade(payloads, a)
  {
    hide PollSpots;
    if payloads == [] {
    } else {
      var p := |payloads| - 1;
      AllInOrder(payloads[..p]);
      PollInOrder(p, payloads[p]);
      OrderConcat(AllSpots(payloads[..p]), PollSpots(p, payloads[p]));
    }
  }

  lemma {:induction false} AnswerRecords(ticker: string, poll: nat, t: nat, items: seq<Item>)
    ensures |Offered(ticker, poll, items)| == |AnswerSpots(poll, t, items)|
    ensures forall k :: 0 <= k < |Offered(ticker, poll, items)| ==>
      var a := AnswerSpots(poll, t, items)[k];
      && a.poll == poll && a.ticker == t && a.item < |items| && items[a.item].Trade?
      && Offered(ticker, poll, items)[k] ==
           TradeRecord(ticker, poll, TradeKey(ticker, items[a.item].fields), items[a.item])
  {
    hide TradeKey;
    if items == [] {
    } else {
      AnswerRecords(ticker, poll, t, items[..|items| - 1]);
    }
  }

  /** Record by record, the stream of a poll is the trades at its spots. */
  ghost predicate Records(tickers: seq<string>, answers: seq<seq<Item>>, poll: nat, stream: seq<Record>,
                          spots: seq<Spot>)
  {
    |stream| == |spots| && forall k :: 0 <= k < |spots| ==>
      && spots[k].poll == poll && spots[k].ticker < |answers| && spots[k].ticker < |tickers|
      && spots[k].item < |answers[spots[k].ticker]| && answers[spots[k].ticker][spots[k].item].Trade?
      && var x := answers[spots[k].ticker][spots[k].item];
         stream[k] == TradeRecord(tickers[spots[k].ticker], poll, TradeKey(tickers[spots[k].ticker], x.fields), x)
  }

  lemma {:induction false} PollRecords(tickers: seq<string>, poll: nat, answers: seq<seq<Item>>)
    requires |answers| <= |tickers|
    ensures Records(tickers, answers, poll, PollStream(tickers, poll, answers), PollSpots(poll, answers))
  {
    hide TradeKey;
    hide Offered;
    hide AnswerSpots;
    if answers == [] {
    } else {
      var t := |answers| - 1;
      PollRecords(tickers, poll, answers[..t]);
      AnswerRecords(tickers[t], poll, t, answers[t]);
    }
  }

  ghost predicate Matches(tickers: seq<string>, payloads: seq<seq<seq<Item>>>, stream: seq<Record>, spots: seq<Spot>) {
    |stream| == |spots| && forall k :: 0 <= k < |spots| ==>
      IsTrade(payloads, spots[k]) && spots[k].ticker < |tickers| && stream[k] == RecordAt(tickers, payloads, spots[k])
  }

  lemma MatchesConcat(tickers: seq<string>, payloads: seq<seq<seq<Item>>>, s: seq<Record>, a: seq<Spot>,
                      t: seq<Record>, b: seq<Spot>)
    requires Matches(tickers, payloads, s, a) && Matches(tickers, payloads, t, b)
    ensures Matches(tickers, payloads, s + t, a + b)
  {
    hide IsTrade;
    hide RecordAt;
  }

  lemma MatchesLonger(tickers: seq<string>, payloads: seq<seq<seq<Item>>>, p: nat, s: seq<Record>, a: seq<Spot>)
    requires p <= |payloads| && Matches(tickers, payloads[..p], s, a)
    ensures Matches(tickers, payloads, s, a)
  {
    hide TradeKey;
    forall k | 0 <= k < |a|
      ensures IsTrade(payloads, a[k]) && a[k].ticker < |tickers| && s[k] == RecordAt(tickers, payloads, a[k])
    {
      assert IsTrade(payloads[..p], a[k]) && s[k] == RecordAt(tickers, payloads[..p], a[k]);
    }
  }

  lemma PollMatches(tickers: seq<string>, payloads: seq<seq<seq<Item>>>, p: nat, s: seq<Record>, a: seq<Spot>)
    requires p < |payloads| && Records(tickers, payloads[p], p, s, a)
    ensures Matches(tickers, payloads, s, a)
  {
    hide TradeKey;
  }

  lemma {:induction false} StreamRecords(tickers: seq<string>, payloads: seq<seq<seq<Item>>>)
    requires Shaped(tickers, payloads)
    ensures Matches(tickers, payloads, Stream(tickers, payloads), AllSpots(payloads))
  {
    if payloads == [] {
    } else {
      hide PollStream;
      hide PollSpots;
      hide Matches;
      hide Records;
      var p := |payloads| - 1;
      var init := payloads[..p];
      StreamRecords(tickers, init);
      PollRecords(tickers, p, payloads[p]);
      MatchesLonger(tickers, payloads, p, Stream(tickers, init), AllSpots(init));
      PollMatches(tickers, payloads, p, PollStream(tickers, p, payloads[p]), PollSpots(p, payloads[p]));
      MatchesConcat(tickers, payloads, Stream(tickers, init), AllSpots(init),
                    PollStream(tickers, p, payloads[p]), PollSpots(p, payloads[p]));
    }
  }

  // ---- First occurrences ----

  /** The places of the first occurrences in a stream. */
  function Firsts(stream: seq<Record>): seq<nat>
    requires AllTrades(stream)
  {
    if stream == [] then []
    else
      var n := |stream| - 1;
      Firsts(stream[..n]) + (if stream[n].key in Keys(stream[..n]) then [] else [n])
  }

  ghost predicate NewAt(stream: seq<Record>, n: nat)
    requires AllTrades(stream)
  {
    n < |stream| && forall m :: 0 <= m < n ==> stream[m].key != stream[n].key
  }

  lemma {:induction false} FirstsAre(stream: seq<Record>)
    requires AllTrades(stream)
    ensures |Firsts(stream)| == |FirstOccurrences(stream)|
    ensures forall k :: 0 <= k < |Firsts(stream)| ==>
      Firsts(stream)[k] < |stream| && FirstOccurrences(stream)[k] == stream[Firsts(stream)[k]]
    ensures forall j, k :: 0 <= j < k < |Firsts(stream)| ==> Firsts(stream)[j] < Firsts(stream)[k]
  {
    hide Keys;
    if stream == [] {
    } else {
      FirstsAre(stream[..|stream| - 1]);
    }
  }

  lemma {:induction false} FirstsAreNew(stream: seq<Record>, m: nat)
    requires AllTrades(stream)
    ensures m in Firsts(stream) <==> NewAt(stream, m)
  {
    hide Keys;
    if stream == [] {
    } else {
      hide NewAt;
      var n := |stream| - 1;
      FirstsAreNew(stream[..n], m);
      NewInPrefix(stream, n, m);
      NewAtEnd(stream);
    }
  }

  lemma NewInPrefix(stream: seq<Record>, n: nat, m: nat)
    requires AllTrades(stream) && n <= |stream|
    ensures NewAt(stream[..n], m) <==> NewAt(stream, m) && m < n
  {
    if m < n {
      assert stream[..n][m] == stream[m];
      assert forall k :: 0 <= k < m ==> stream[..n][k] == stream[k];
    }
  }

  lemma NewAtEnd(stream: seq<Record>)
    requires AllTrades(stream) && stream != []
    ensures var n := |stream| - 1; NewAt(stream, n) <==> stream[n].key !in Keys(stream[..n])
    ensures forall m: nat :: NewAt(stream, m) ==> m < |stream|
  {
    var n := |stream| - 1;
    NewKey(stream[..n], stream[n].key);
    hide Keys;
    assert forall k :: 0 <= k < n ==> stream[..n][k] == stream[k];
  }

  lemma NewKey(stream: seq<Record>, key: string)
    requires AllTrades(stream)
    ensures key !in Keys(stream) <==> forall m :: 0 <= m < |stream| ==> stream[m].key != key
  {
  }

  // ---- What is stored ----

  lemma BeforeInOrder(spots: seq<Spot>, m: nat, n: nat)
    requires InOrder(spots) && m < |spots| && n < |spots| && Earlier(spots[m], spots[n])
    ensures m < n
  {
  }

  lemma SpotOfNew(tickers: seq<string>, payloads: seq<seq<seq<Item>>>, n: nat)
    requires Shaped(tickers, payloads) && AllTrades(Stream(tickers, payloads)) && n < |AllSpots(payloads)|
    requires |Stream(tickers, payloads)| == |AllSpots(payloads)|
    ensures NewAt(Stream(tickers, payloads), n) <==>
      FirstAt(tickers, payloads, AllSpots(payloads)[n], Stream(tickers, payloads)[n])
  {
    hide RecordAt;
    hide AllSpots;
    hide Stream;
    StreamRecords(tickers, payloads);
    AllInOrder(payloads);
    var stream, spots := Stream(tickers, payloads), AllSpots(payloads);
    if NewAt(stream, n) {
      forall b | IsTrade(payloads, b) && Earlier(b, spots[n])
        ensures RecordAt(tickers, payloads, b).key != stream[n].key
      {
        assert b in spots;
        var m :| 0 <= m < |spots| && spots[m] == b;
        BeforeInOrder(spots, m, n);
      }
    }
    if FirstAt(tickers, payloads, spots[n], stream[n]) {
      forall m | 0 <= m < n
        ensures stream[m].key != stream[n].key
      {
        assert IsTrade(payloads, spots[m]) && Earlier(spots[m], spots[n]);
      }
    }
  }

  /** The records are exactly those of the first trades with their keys, in polling order. */
  ghost predicate StoresFirsts(tickers: seq<string>, payloads: seq<seq<seq<Item>>>, stored: seq<Record>)
    requires Shaped(tickers, payloads)
  {
    && (forall r :: r in stored <==> IsFirst(tickers, payloads, r))
    && (forall j, k, a, b | 0 <= j < k < |stored| && Firstly(tickers, payloads, stored, j, a)
                            && Firstly(tickers, payloads, stored, k, b) :: Earlier(a, b))
  }

  ghost predicate IsFirst(tickers: seq<string>, payloads: seq<seq<seq<Item>>>, r: Record)
    requires Shaped(tickers, payloads)
  {
    exists a :: FirstAt(tickers, payloads, a, r)
  }

  ghost predicate Firstly(tickers: seq<string>, payloads: seq<seq<seq<Item>>>, stored: seq<Record>, k: int, a: Spot)
    requires Shaped(tickers, payloads)
  {
    0 <= k < |stored| && FirstAt(tickers, payloads, a, stored[k])
  }

  lemma StoredIsFirst(tickers: seq<string>, payloads: seq<seq<seq<Item>>>, stream: seq<Record>, k: nat)
    requires Shaped(tickers, payloads) && stream == Stream(tickers, payloads) && AllTrades(stream)
    requires k < |FirstOccurrences(stream)|
    ensures |Firsts(stream)| == |FirstOccurrences(stream)| && Firsts(stream)[k] < |AllSpots(payloads)|
    ensures FirstAt(tickers, payloads, AllSpots(payloads)[Firsts(stream)[k]], FirstOccurrences(stream)[k])
  {
    hide FirstAt;
    hide FirstOccurrences;
    hide Stream;
    hide AllSpots;
    hide NewAt;
    StreamRecords(tickers, payloads);
    FirstsAre(stream);
    assert Firsts(stream)[k] in Firsts(stream);
    FirstsAreNew(stream, Firsts(stream)[k]);
    SpotOfNew(tickers, payloads, Firsts(stream)[k]);
  }

  lemma FirstIsStored(tickers: seq<string>, payloads: seq<seq<seq<Item>>>, stream: seq<Record>, a: Spot, r: Record)
    requires Shaped(tickers, payloads) && stream == Stream(tickers, payloads) && AllTrades(stream)
    requires FirstAt(tickers, payloads, a, r)
    ensures r in FirstOccurrences(stream)
  {
    SpotIsTrade(tickers, payloads, a, r);
    hide FirstAt;
    hide FirstOccurrences;
    hide Stream;
    hide AllSpots;
    hide NewAt;
    StreamRecords(tickers, payloads);
    AllInOrder(payloads);
    FirstsAre(stream);
    var n :| 0 <= n < |AllSpots(payloads)| && AllSpots(payloads)[n] == a;
    SpotOfNew(tickers, payloads, n);
    FirstsAreNew(stream, n);
    var k :| 0 <= k < |Firsts(stream)| && Firsts(stream)[k] == n;
    assert FirstOccurrences(stream)[k] == r;
  }

  /** The stored trades are exactly the first ones with their keys, in polling order. */
  lemma StoredTrades(tickers: seq<string>, payloads: seq<seq<seq<Item>>>)
    requires Shaped(tickers, payloads)
    ensures AllTrades(Stream(tickers, payloads))
    ensures StoresFirsts(tickers, payloads, FirstOccurrences(Stream(tickers, payloads)))
  {
    hide FirstAt;
    hide FirstOccurrences;
    hide Stream;
    hide AllSpots;
    StreamIsTrades(tickers, payloads);
    var stream, spots := Stream(tickers, payloads), AllSpots(payloads);
    var stored, firsts := FirstOccurrences(stream), Firsts(stream);
    forall r
      ensures r in stored <==> IsFirst(tickers, payloads, r)
    {
      if r in stored {
        var k :| 0 <= k < |stored| && stored[k] == r;
        StoredIsFirst(tickers, payloads, stream, k);
      }
      if IsFirst(tickers, payloads, r) {
        var a :| FirstAt(tickers, payloads, a, r);
        FirstIsStored(tickers, payloads, stream, a, r);
      }
    }
    forall j, k, a, b | 0 <= j < k < |stored| && Firstly(tickers, payloads, stored, j, a)
                        && Firstly(tickers, payloads, stored, k, b)
      ensures Earlier(a, b)
    {
      StoredInOrder(tickers, payloads, j, k, a, b);
    }
  }

  lemma StoredInOrder(tickers: seq<string>, payloads: seq<seq<seq<Item>>>, j: nat, k: nat, a: Spot, b: Spot)
    requires Shaped(tickers, payloads) && AllTrades(Stream(tickers, payloads))
    requires j < k < |FirstOccurrences(Stream(tickers, payloads))|
    requires FirstAt(tickers, payloads, a, FirstOccurrences(Stream(tickers, payloads))[j])
    requires FirstAt(tickers, payloads, b, FirstOccurrences(Stream(tickers, payloads))[k])
    ensures Earlier(a, b)
  {
    hide FirstAt;
    hide FirstOccurrences;
    hide Stream;
    hide AllSpots;
    var stream, spots := Stream(tickers, payloads), AllSpots(payloads);
    AllInOrder(payloads);
    FirstsAre(stream);
    StoredIsFirst(tickers, payloads, stream, j);
    StoredIsFirst(tickers, payloads, stream, k);
    SameSpot(tickers, payloads, a, spots[Firsts(stream)[j]], FirstOccurrences(stream)[j]);
    SameSpot(tickers, payloads, b, spots[Firsts(stream)[k]], FirstOccurrences(stream)[k]);
  }

  lemma SpotIsTrade(tickers: seq<string>, payloads: seq<seq<seq<Item>>>, a: Spot, r: Record)
    requires Shaped(tickers, payloads) && FirstAt(tickers, payloads, a, r)
    ensures IsTrade(payloads, a) && r == RecordAt(tickers, payloads, a)
  {
  }

  lemma SameSpot(tickers: seq<string>, payloads: seq<seq<seq<Item>>>, a: Spot, b: Spot, r: Record)
    requires Shaped(tickers, payloads) && FirstAt(tickers, payloads, a, r) && FirstAt(tickers, payloads, b, r)
    ensures a == b
  {
    assert Earlier(a, b) || Earlier(b, a) || a == b;
  }

  /** No key is lost: whatever trade an answer carries, some trade is stored under its key. */
  lemma EveryKeyIsStored(tickers: seq<string>, payloads: seq<seq<seq<Item>>>, b: Spot) returns (a: Spot)
    requires Shaped(tickers, payloads) && IsTrade(payloads, b)
    ensures a == b || Earlier(a, b)
    ensures IsTrade(payloads, a) && RecordAt(tickers, payloads, a).key == RecordAt(tickers, payloads, b).key
    ensures FirstAt(tickers, payloads, a, RecordAt(tickers, payloads, a))
  {
    hide AllSpots;
    hide Stream;
    StreamIsTrades(tickers, payloads);
    StreamRecords(tickers, payloads);
    AllInOrder(payloads);
    var stream, spots := Stream(tickers, payloads), AllSpots(payloads);
    var n :| 0 <= n < |spots| && spots[n] == b;
    var m := LeastWithKey(stream, n);
    SpotOfNew(tickers, payloads, m);
    a := spots[m];
    assert m < n ==> Earlier(spots[m], spots[n]);
  }

  lemma {:induction false} LeastWithKey(stream: seq<Record>, n: nat) returns (m: nat)
    requires AllTrades(stream) && n < |stream|
    ensures m <= n && stream[m].key == stream[n].key && NewAt(stream, m)
    decreases n
  {
    m := n;
    if !NewAt(stream, n) {
      var k :| 0 <= k < n && stream[k].key == stream[n].key;
      m := LeastWithKey(stream, k);
    }
  }
}

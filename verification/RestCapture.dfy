/** The polling capture itself. */
module RestCapture {
  import opened RestPolls
  import opened RestStored

  // ---- Trades and books ----

  ghost predicate LastBook(store: seq<Record>, ticker: string, poll: nat) {
    Books(store) != [] && Books(store)[|Books(store)| - 1] == BookRecord(ticker, poll)
  }

  /** The last book before each trade is that of its own ticker and poll. */
  ghost predicate TradesFollowBooks(store: seq<Record>) {
    forall n :: 0 <= n < |store| && store[n].TradeRecord? ==> LastBook(store[..n], store[n].ticker, store[n].poll)
  }

  lemma FollowsAppend(store: seq<Record>, r: Record)
    requires TradesFollowBooks(store) && (r.TradeRecord? ==> LastBook(store, r.ticker, r.poll))
    ensures TradesFollowBooks(store + [r])
  {
    hide LastBook;
    var longer := store + [r];
    forall n | 0 <= n < |longer| && longer[n].TradeRecord?
      ensures LastBook(longer[..n], longer[n].ticker, longer[n].poll)
    {
      if n < |store| {
        assert longer[..n] == store[..n];
      } else {
        assert longer[..n] == store;
      }
    }
  }

  // ---- The capture loop ----

  class Capture {
    var store: seq<Record>
    var seenTrades: set<string>
    var count: nat
    ghost var stream: seq<Record>

    /** The store holds the first occurrences of everything streamed, and the count is its size. */
    ghost predicate Valid()
      reads this
    {
      && AllTrades(stream) && Trades(store) == FirstOccurrences(stream)
      && seenTrades == Keys(stream) && count == |store| && TradesFollowBooks(store)
    }

    constructor ()
      ensures Valid() && store == [] && stream == []
    {
      store, seenTrades, count, stream := [], {}, 0, [];
    }

    method StoreTrade(r: Record)
      requires Valid() && r.TradeRecord? && LastBook(store, r.ticker, r.poll)
      modifies this
      ensures Valid() && stream == old(stream) + [r] && Books(store) == old(Books(store))
    {
      hide Keys;
      hide FirstOccurrences;
      hide Trades;
      hide Books;
      FollowsAppend(store, r);
      hide TradesFollowBooks;
      KeysAppend(stream, r);
      FirstOccurrencesAppend(stream, r);
      StoreAppend(store, r);
      stream := stream + [r];
      if r.key in seenTrades {
        return;
      }
      seenTrades := seenTrades + {r.key};
      store := store + [r];
      count := count + 1;
    }

    method StoreTrades(ticker: string, poll: nat, items: seq<Item>)
      requires Valid() && LastBook(store, ticker, poll)
      modifies this
      ensures Valid() && stream == old(stream) + Offered(ticker, poll, items) && Books(store) == old(Books(store))
    {
      hide Valid;
      hide Books;
      hide TradeKey;
      assert old(stream) + [] == old(stream);
      for i := 0 to |items|
        invariant Valid() && stream == old(stream) + Offered(ticker, poll, items[..i])
        invariant Books(store) == old(Books(store))
      {
        assert items[..i + 1][..i] == items[..i];
        if items[i].Trade? {
          var r := TradeRecord(ticker, poll, TradeKey(ticker, items[i].fields), items[i]);
          assert stream + [r] == old(stream) + (Offered(ticker, poll, items[..i]) + [r]);
          StoreTrade(r);
        }
      }
      assert items[..|items|] == items;
    }

    method StoreBook(ticker: string, poll: nat)
      requires Valid()
      modifies this
      ensures Valid() && stream == old(stream) && Books(store) == old(Books(store)) + [BookRecord(ticker, poll)]
    {
      hide Keys;
      hide FirstOccurrences;
      hide Trades;
      hide Books;
      var r := BookRecord(ticker, poll);
      FollowsAppend(store, r);
      hide TradesFollowBooks;
      StoreAppend(store, r);
      store := store + [r];
      count := count + 1;
    }

    method Poll(tickers: seq<string>, poll: nat, answers: seq<seq<Item>>)
      requires Valid() && |answers| == |tickers|
      modifies this
      ensures Valid() && stream == old(stream) + PollStream(tickers, poll, answers)
      ensures Books(store) == old(Books(store)) + Snapshots(tickers, poll, |tickers|)
    {
      hide Valid;
      hide Books;
      hide Offered;
      ghost var before, books := stream, Books(store);
      assert before + [] == before && books + [] == books;
      for t := 0 to |tickers|
        invariant Valid() && stream == before + PollStream(tickers, poll, answers[..t])
        invariant Books(store) == books + Snapshots(tickers, poll, t)
      {
        var done := answers[..t];
        assert answers[..t + 1] == done + [answers[t]] && answers[..t + 1][..t] == done;
        assert stream + Offered(tickers[t], poll, answers[t]) ==
               before + (PollStream(tickers, poll, done) + Offered(tickers[t], poll, answers[t]));
        StoreBook(tickers[t], poll);
        StoreTrades(tickers[t], poll, answers[t]);
      }
      assert answers[..|tickers|] == answers;
    }
  }

  lemma EmptyStore(tickers: seq<string>)
    ensures Books([]) == [] && AllSnapshots(tickers, 0) == [] && Stream(tickers, []) == []
  {
  }

  datatype Outcome = BadArguments | Captured(store: seq<Record>, count: nat)

  /** The stored trades are the first with their keys in polling order, the books one per poll and ticker,
      every trade comes after the book of its own ticker and poll and before the next, and the count is
      their number. */
  method CaptureRestPolls(tickers: seq<string>, maxPolls: int, pollInterval: real, tradesLimit: int,
                          payloads: seq<seq<seq<Item>>>) returns (r: Outcome)
    requires |payloads| == maxPolls || maxPolls <= 0
    requires forall p :: 0 <= p < |payloads| ==> |payloads[p]| == |tickers|
    ensures r.BadArguments? <==> maxPolls <= 0 || pollInterval < 0.0 || tradesLimit <= 0
    ensures r.Captured? ==>
      var stream := Stream(tickers, payloads);
      && AllTrades(stream) && Trades(r.store) == FirstOccurrences(stream)
      && StoresFirsts(tickers, payloads, Trades(r.store)) && TradesFollowBooks(r.store)
      && Books(r.store) == AllSnapshots(tickers, maxPolls)
      && r.count == |r.store| == maxPolls * |tickers| + |Keys(stream)|
  {
    if maxPolls <= 0 || pollInterval < 0.0 || tradesLimit <= 0 {
      return BadArguments;
    }
    hide FirstOccurrences;
    hide Keys;
    hide StoresFirsts;
    hide TradesFollowBooks;
    hide Trades;
    hide Books;
    hide Stream;
    hide AllSnapshots;
    var c := RunPolls(tickers, payloads);
    StoredTrades(tickers, payloads);
    CaptureSize(tickers, maxPolls, c.store, c.stream);
    r := Captured(c.store, c.count);
  }

  method RunPolls(tickers: seq<string>, payloads: seq<seq<seq<Item>>>) returns (c: Capture)
    requires Shaped(tickers, payloads)
    ensures fresh(c) && c.Valid() && c.stream == Stream(tickers, payloads)
    ensures Books(c.store) == AllSnapshots(tickers, |payloads|)
  {
    EmptyStore(tickers);
    hide Capture.Valid;
    hide Books;
    hide Stream;
    hide AllSnapshots;
    hide PollStream;
    hide Snapshots;
    c := new Capture();
    for p := 0 to |payloads|
      invariant fresh(c) && c.Valid() && c.stream == Stream(tickers, payloads[..p])
      invariant Books(c.store) == AllSnapshots(tickers, p)
    {
      PollOnce(tickers, payloads, p);
      c.Poll(tickers, p, payloads[p]);
    }
    assert payloads[..|payloads|] == payloads;
  }

  lemma PollOnce(tickers: seq<string>, payloads: seq<seq<seq<Item>>>, p: nat)
    requires p < |payloads| && Shaped(tickers, payloads)
    ensures Stream(tickers, payloads[..p + 1]) == Stream(tickers, payloads[..p]) + PollStream(tickers, p, payloads[p])
    ensures AllSnapshots(tickers, p + 1) == AllSnapshots(tickers, p) + Snapshots(tickers, p, |tickers|)
  {
    assert payloads[..p + 1][..p] == payloads[..p];
  }

  lemma CaptureSize(tickers: seq<string>, polls: nat, store: seq<Record>, stream: seq<Record>)
    requires AllTrades(stream) && Trades(store) == FirstOccurrences(stream)
    requires Books(store) == AllSnapshots(tickers, polls)
    ensures |store| == polls * |tickers| + |Keys(stream)|
  {
    hide Trades;
    hide Books;
    hide FirstOccurrences;
    OnePerKey(stream);
    StoreSize(store);
  }
}

/** What every interleaving of the receiver and the writer keeps. */
module CaptureProof {
  import opened CaptureModel
  import opened Sequences

  /** The queue is the tail of the accepted envelopes that the writer has not taken, in order. */
  ghost predicate QueueInv(c: Setup, s: State) {
    var taken := s.rows + InHand(s);
    && taken <= |s.accepted|
    && s.queue == Items(s.accepted[taken..]) + (if s.closed && !s.writer.Stopped? then [Sentinel] else [])
    && (s.writer.Stopped? ==> s.closed && taken == |s.accepted|)
    && (s.writer.Holding? ==> s.accepted[s.rows] == s.writer.e)
    && (s.writer.Counted? ==> s.rows > 0 && s.accepted[s.rows - 1] == s.writer.e)
    && |s.queue| <= c.capacity
    && |s.offered| == s.dropped + |s.accepted|
    && (s.dropped > 0 ==> |s.offered| > c.capacity)
  }

  ghost predicate CountInv(s: State) {
    && s.rows <= |s.accepted|
    && (forall k :: k in s.byChannel ==> s.byChannel[k] > 0)
    && (forall k :: k in s.byTicker ==> s.byTicker[k] > 0)
    && (forall k :: (if k in s.byChannel then s.byChannel[k] else 0) == ChannelCount(s.accepted[..s.rows], k))
    && (forall k :: (if k in s.byTicker then s.byTicker[k] else 0) == TickerCount(s.accepted[..s.rows], k))
  }

  ghost predicate FileInv(c: Setup, s: State) {
    && s.shards != []
    && |s.results| + Unwritten(s) == s.rows <= |s.accepted|
    && Concat(s.shards) == Kept(s.accepted[..|s.results|], s.results)
    && |s.results| == CountTrue(s.results) + s.writeErrors
    && s.written == BytesCounted(c, s.shards, |s.shards| - 1)
    && ((forall i :: 0 <= i < |s.shards| ==> BytesCounted(c, s.shards, i) <= c.shardMax) <==>
        c.existing(0) <= c.shardMax && forall e :: e in Concat(s.shards) ==> e.bytes <= c.shardMax)
  }

  ghost predicate Inv(c: Setup, s: State) {
    QueueInv(c, s) && CountInv(s) && FileInv(c, s)
  }

  // ---- Queue ----

  lemma ItemsAppend(es: seq<Envelope>, e: Envelope)
    ensures Items(es + [e]) == Items(es) + [Data(e)]
  {
  }

  lemma ItemsTail(es: seq<Envelope>)
    requires es != []
    ensures Items(es)[1..] == Items(es[1..])
  {
  }

  lemma QueueAccept(c: Setup, s: State, e: Envelope)
    requires QueueInv(c, s) && !s.closed && |s.queue| < c.capacity
    ensures QueueInv(c, Do(c, s, Receive(e)))
  {
    hide Items;
    var taken := s.rows + InHand(s);
    var rest := s.accepted[taken..];
    ItemsAppend(rest, e);
    assert (s.accepted + [e])[taken..] == rest + [e];
    assert Items(rest) + [] == Items(rest);
  }

  lemma QueueDrop(c: Setup, s: State, e: Envelope)
    requires QueueInv(c, s) && !s.closed && |s.queue| == c.capacity
    ensures QueueInv(c, Do(c, s, Receive(e)))
  {
  }

  lemma QueueTake(c: Setup, s: State)
    requires QueueInv(c, s) && Enabled(c, s, Take)
    ensures QueueInv(c, Do(c, s, Take))
  {
    var rest := s.accepted[s.rows..];
    if rest != [] {
      ItemsTail(rest);
      assert rest[1..] == s.accepted[s.rows + 1..];
      assert s.queue[1..] == Items(rest)[1..] + (if s.closed then [Sentinel] else []);
    }
  }

  lemma QueueCount(c: Setup, s: State)
    requires QueueInv(c, s) && Enabled(c, s, Count)
    ensures QueueInv(c, Do(c, s, Count))
  {
    hide Bump;
  }

  lemma QueueWrite(c: Setup, s: State, ok: bool)
    requires QueueInv(c, s) && Enabled(c, s, Write(ok))
    ensures QueueInv(c, Do(c, s, Write(ok)))
  {
    hide RollShard;
    QueueUntouched(c, s, s.writer.e);
  }

  lemma QueueStep(c: Setup, s: State, step: Step)
    requires c.capacity > 0 && QueueInv(c, s) && Enabled(c, s, step)
    ensures QueueInv(c, Do(c, s, step))
  {
    match step
    case Receive(e) =>
      if |s.queue| < c.capacity {
        QueueAccept(c, s, e);
      } else {
        QueueDrop(c, s, e);
      }
    case Close =>
    case Take => hide QueueInv; QueueTake(c, s);
    case Count => hide QueueInv; QueueCount(c, s);
    case Write(ok) => hide QueueInv; QueueWrite(c, s, ok);
    case Crash => hide Items;
  }

  lemma QueueUntouched(c: Setup, s: State, e: Envelope)
    ensures var r := RollShard(c, s, e);
            && r.queue == s.queue && r.closed == s.closed && r.dropped == s.dropped && r.rows == s.rows
            && r.offered == s.offered && r.accepted == s.accepted && r.writer == s.writer && r.results == s.results
            && r.byChannel == s.byChannel && r.byTicker == s.byTicker && r.writeErrors == s.writeErrors
  {
  }

  // ---- Counts ----

  /** Counting one more envelope in the tables and in the history. */
  lemma BumpCounts(m: map<string, nat>, es: seq<Envelope>, e: Envelope)
    requires forall k :: (if k in m then m[k] else 0) == ChannelCount(es, k)
    ensures var m' := Bump(m, e.channel);
            forall k :: (if k in m' then m'[k] else 0) == ChannelCount(es + [e], k)
  {
    assert (es + [e])[..|es|] == es;
  }

  lemma BumpTicker(m: map<string, nat>, es: seq<Envelope>, e: Envelope)
    requires forall k :: (if k in m then m[k] else 0) == TickerCount(es, k)
    ensures var m' := if e.ticker.Some? then Bump(m, e.ticker.value) else m;
            forall k :: (if k in m' then m'[k] else 0) == TickerCount(es + [e], k)
  {
    assert (es + [e])[..|es|] == es;
  }

  lemma CountRow(c: Setup, s: State)
    requires QueueInv(c, s) && CountInv(s) && Enabled(c, s, Count)
    ensures CountInv(Do(c, s, Count))
  {
    hide Items;
    hide ChannelCount;
    hide TickerCount;
    var es, e := s.accepted[..s.rows], s.writer.e;
    assert s.accepted[..s.rows + 1] == es + [e];
    BumpCounts(s.byChannel, es, e);
    BumpTicker(s.byTicker, es, e);
  }

  lemma SameCounts(s: State, s': State)
    requires CountInv(s) && s'.rows == s.rows && s'.byChannel == s.byChannel && s'.byTicker == s.byTicker
    requires s.accepted <= s'.accepted
    ensures CountInv(s')
  {
    assert s'.accepted[..s.rows] == s.accepted[..s.rows];
  }

  lemma CountStep(c: Setup, s: State, step: Step)
    requires QueueInv(c, s) && CountInv(s) && Enabled(c, s, step)
    ensures CountInv(Do(c, s, step))
  {
    hide CountInv;
    hide QueueInv;
    hide Bump;
    hide RollShard;
    if step.Count? {
      CountRow(c, s);
    } else {
      if step.Write? {
        QueueUntouched(c, s, s.writer.e);
      }
      SameCounts(s, Do(c, s, step));
    }
  }

  // ---- Files ----

  lemma {:induction false} KeptExtend(es: seq<Envelope>, results: seq<bool>, e: Envelope, ok: bool)
    requires |es| == |results|
    ensures Kept(es + [e], results + [ok]) == Kept(es, results) + (if ok then [e] else [])
    ensures CountTrue(results + [ok]) == CountTrue(results) + (if ok then 1 else 0)
  {
    assert (es + [e])[..|es|] == es && (results + [ok])[..|es|] == results;
  }

  lemma ConcatRoll(shards: seq<seq<Envelope>>)
    ensures Concat(shards + [[]]) == Concat(shards)
  {
    assert (shards + [[]])[..|shards|] == shards;
  }

  lemma ConcatAppend(shards: seq<seq<Envelope>>, e: Envelope)
    requires shards != []
    ensures var n := |shards| - 1; Concat(shards[n := shards[n] + [e]]) == Concat(shards) + [e]
  {
    var n := |shards| - 1;
    assert shards[n := shards[n] + [e]][..n] == shards[..n];
  }

  lemma BytesAppend(es: seq<Envelope>, e: Envelope)
    ensures Bytes(es + [e]) == Bytes(es) + e.bytes
  {
    assert (es + [e])[..|es|] == es;
  }

  ghost predicate CountedWithinCap(c: Setup, shards: seq<seq<Envelope>>) {
    forall i :: 0 <= i < |shards| ==> BytesCounted(c, shards, i) <= c.shardMax
  }

  ghost predicate WithinCap(c: Setup, shards: seq<seq<Envelope>>) {
    forall i :: 0 <= i < |shards| ==> ShardBytes(c, shards, i) <= c.shardMax
  }

  ghost predicate LinesFit(c: Setup, es: seq<Envelope>) {
    forall e :: e in es ==> e.bytes <= c.shardMax
  }

  lemma RollKeeps(c: Setup, s: State, e: Envelope)
    requires FileInv(c, s) && s.writer == Counted(e)
    ensures var r := RollShard(c, s, e);
            && FileInv(c, r) && (r.written + e.bytes <= c.shardMax || (r.written == 0 && |r.shards| > 1))
  {
    hide Concat;
    hide Kept;
    if s.written + e.bytes > c.shardMax {
      var r := RollShard(c, s, e);
      ConcatRoll(s.shards);
      assert r.shards[..|s.shards|] == s.shards;
      assert forall i :: 0 <= i < |s.shards| ==> BytesCounted(c, r.shards, i) == BytesCounted(c, s.shards, i);
      assert BytesCounted(c, r.shards, |s.shards|) == 0;
      assert CountedWithinCap(c, r.shards) <==> CountedWithinCap(c, s.shards);
    }
  }

  lemma AppendKeeps(c: Setup, s: State, e: Envelope)
    requires FileInv(c, s) && s.writer == Counted(e) && s.accepted[s.rows - 1] == e
    requires s.written + e.bytes <= c.shardMax || (s.written == 0 && |s.shards| > 1)
    ensures FileInv(c, AppendLine(s, e).(writer := Waiting))
  {
    hide Concat;
    hide Kept;
    hide CountTrue;
    hide Bytes;
    var s' := AppendLine(s, e).(writer := Waiting);
    var n, k := |s.shards| - 1, |s.results|;
    KeptExtend(s.accepted[..k], s.results, e, true);
    assert s.accepted[..k + 1] == s.accepted[..k] + [e];
    ConcatAppend(s.shards, e);
    BytesAppend(s.shards[n], e);
    assert BytesCounted(c, s'.shards, n) == s.written + e.bytes;
    assert forall i :: 0 <= i < n ==> s'.shards[i] == s.shards[i];
    if CountedWithinCap(c, s'.shards) {
      forall i | 0 <= i < |s.shards|
        ensures BytesCounted(c, s.shards, i) <= c.shardMax
      {
        assert BytesCounted(c, s'.shards, i) <= c.shardMax;
      }
    }
    if CountedWithinCap(c, s.shards) && e.bytes <= c.shardMax {
      forall i | 0 <= i < |s'.shards|
        ensures BytesCounted(c, s'.shards, i) <= c.shardMax
      {
        assert i < n ==> BytesCounted(c, s.shards, i) <= c.shardMax;
      }
    }
    assert LinesFit(c, Concat(s'.shards)) <==> LinesFit(c, Concat(s.shards)) && e.bytes <= c.shardMax;
    assert CountedWithinCap(c, s'.shards) <==> CountedWithinCap(c, s.shards) && e.bytes <= c.shardMax;
  }

  lemma FileWrite(c: Setup, s: State, ok: bool)
    requires QueueInv(c, s) && FileInv(c, s) && Enabled(c, s, Write(ok))
    ensures FileInv(c, Do(c, s, Write(ok)))
  {
    hide Concat;
    hide Kept;
    hide CountTrue;
    hide BytesCounted;
    hide Items;
    hide RollShard;
    hide AppendLine;
    var e := s.writer.e;
    var k := |s.results|;
    QueueUntouched(c, s, e);
    RollKeeps(c, s, e);
    if ok {
      hide FileInv;
      AppendKeeps(c, RollShard(c, s, e), e);
    } else {
      KeptExtend(s.accepted[..k], s.results, e, false);
      assert s.accepted[..k + 1] == s.accepted[..k] + [e];
    }
  }

  lemma SameFiles(c: Setup, s: State, s': State)
    requires FileInv(c, s) && s'.shards == s.shards && s'.results == s.results && s'.writeErrors == s.writeErrors
    requires s'.written == s.written && s.accepted <= s'.accepted && s'.rows <= |s'.accepted|
    requires s'.rows - Unwritten(s') == s.rows - Unwritten(s)
    ensures FileInv(c, s')
  {
    assert s'.accepted[..|s.results|] == s.accepted[..|s.results|];
  }

  lemma FileStep(c: Setup, s: State, step: Step)
    requires QueueInv(c, s) && FileInv(c, s) && Enabled(c, s, step)
    ensures FileInv(c, Do(c, s, step))
  {
    hide FileInv;
    hide Bump;
    hide Items;
    if step.Write? {
      hide Do;
      FileWrite(c, s, step.ok);
    } else {
      SameFiles(c, s, Do(c, s, step));
    }
  }

  // ---- Every run ----

  lemma InitInv(c: Setup)
    ensures Inv(c, Init(c))
  {
    var s := Init(c);
    assert s.shards[..0] == [];
    assert Concat(s.shards) == [];
    assert BytesCounted(c, s.shards, 0) == c.existing(0);
  }

  lemma StepKeeps(c: Setup, s: State, step: Step)
    requires c.capacity > 0 && Inv(c, s) && Enabled(c, s, step)
    ensures Inv(c, Do(c, s, step))
  {
    hide QueueInv;
    hide CountInv;
    hide FileInv;
    hide Do;
    QueueStep(c, s, step);
    CountStep(c, s, step);
    FileStep(c, s, step);
  }

  lemma {:induction false} RunKeeps(c: Setup, s: State, steps: seq<Step>)
    requires c.capacity > 0 && Inv(c, s) && Runs(c, s, steps)
    ensures Inv(c, After(c, s, steps))
    decreases |steps|
  {
    hide Inv;
    hide Do;
    if steps == [] {
    } else {
      StepKeeps(c, s, steps[0]);
      RunKeeps(c, Do(c, s, steps[0]), steps[1..]);
    }
  }

  ghost predicate Reachable(c: Setup, s: State) {
    exists steps :: Runs(c, Init(c), steps) && After(c, Init(c), steps) == s
  }

  lemma ReachableInv(c: Setup, s: State)
    requires c.capacity > 0 && Reachable(c, s)
    ensures Inv(c, s)
  {
    hide Inv;
    var steps :| Runs(c, Init(c), steps) && After(c, Init(c), steps) == s;
    InitInv(c);
    RunKeeps(c, Init(c), steps);
  }

  function Queued(q: seq<Item>): nat {
    if q == [] then 0 else Queued(q[1..]) + (if q[0].Data? then 1 else 0)
  }

  lemma {:induction false} QueuedItems(es: seq<Envelope>, tail: seq<Item>)
    requires tail == [] || tail == [Sentinel]
    ensures Queued(Items(es) + tail) == |es|
  {
    var q := Items(es) + tail;
    if es == [] {
      assert q == tail;
    } else {
      ItemsTail(es);
      assert q[1..] == Items(es[1..]) + tail;
      QueuedItems(es[1..], tail);
    }
  }

  /** Nothing is lost or invented: every envelope received is dropped, queued, in the writer's hand
      or a row, and every row is a line, a write error, or about to be written. */
  lemma Conservation(c: Setup, s: State)
    requires c.capacity > 0 && Reachable(c, s)
    ensures |s.offered| == s.dropped + Queued(s.queue) + InHand(s) + s.rows
    ensures s.rows == |Concat(s.shards)| + s.writeErrors + Unwritten(s)
  {
    ReachableInv(c, s);
    var taken := s.rows + InHand(s);
    QueuedItems(s.accepted[taken..], if s.closed && !s.writer.Stopped? then [Sentinel] else []);
    KeptLength(s.accepted[..|s.results|], s.results);
  }

  lemma {:induction false} KeptLength(es: seq<Envelope>, results: seq<bool>)
    requires |es| == |results|
    ensures |Kept(es, results)| == CountTrue(results)
  {
    if es == [] {
    } else {
      KeptLength(es[..|es| - 1], results[..|es| - 1]);
    }
  }

  /** Read in index order, the shards are the accepted envelopes in arrival order without those whose
      write failed; once the writer has returned, that covers every accepted envelope. */
  lemma ShardsAreTheStream(c: Setup, s: State)
    requires c.capacity > 0 && Reachable(c, s)
    ensures |s.results| <= |s.accepted| && Concat(s.shards) == Kept(s.accepted[..|s.results|], s.results)
    ensures s.writer.Stopped? ==>
      s.queue == [] && |s.results| == |s.accepted| == s.rows &&
      |s.offered| == s.dropped + s.rows && Concat(s.shards) == Kept(s.accepted, s.results)
  {
    ReachableInv(c, s);
    if s.writer.Stopped? {
      assert s.accepted[..|s.accepted|] == s.accepted;
    }
  }

  /** What the writer counts outgrows the cap exactly when the first file or a written line was already
      too big. So do the files, where no shard rolled to had bytes of its own. */
  lemma ShardsWithinCapIff(c: Setup, s: State)
    requires c.capacity > 0 && Reachable(c, s)
    ensures CountedWithinCap(c, s.shards) <==> c.existing(0) <= c.shardMax && LinesFit(c, Concat(s.shards))
    ensures WithinCap(c, s.shards) ==> CountedWithinCap(c, s.shards)
    ensures (forall i :: 0 < i < |s.shards| ==> c.existing(i) == 0) ==>
      (WithinCap(c, s.shards) <==> c.existing(0) <= c.shardMax && LinesFit(c, Concat(s.shards)))
  {
    ReachableInv(c, s);
    forall i | 0 <= i < |s.shards|
      ensures BytesCounted(c, s.shards, i) <= ShardBytes(c, s.shards, i)
      ensures i == 0 || c.existing(i) == 0 ==> BytesCounted(c, s.shards, i) == ShardBytes(c, s.shards, i)
    {
    }
  }

  /** An envelope is dropped only if more arrived than the queue can hold. */
  lemma DropsNeedOverflow(c: Setup, s: State)
    requires c.capacity > 0 && Reachable(c, s) && |s.offered| <= c.capacity
    ensures s.dropped == 0 && s.accepted == s.offered
  {
    ReachableInv(c, s);
    var steps :| Runs(c, Init(c), steps) && After(c, Init(c), steps) == s;
    AcceptedIfNoDrop(c, Init(c), steps);
  }

  lemma {:induction false} AcceptedIfNoDrop(c: Setup, s: State, steps: seq<Step>)
    requires Runs(c, s, steps) && After(c, s, steps).dropped == 0 && (s.dropped == 0 ==> s.accepted == s.offered)
    ensures After(c, s, steps).accepted == After(c, s, steps).offered
    decreases |steps|
  {
    if steps == [] {
    } else {
      AcceptedIfNoDrop(c, Do(c, s, steps[0]), steps[1..]);
    }
  }

  // ---- Counts by channel ----

  function Total(m: map<string, nat>, ks: seq<string>): nat {
    if ks == [] then 0 else Total(m, ks[..|ks| - 1]) + (var k := ks[|ks| - 1]; if k in m then m[k] else 0)
  }

  function ChannelTotal(es: seq<Envelope>, ks: seq<string>): nat {
    if ks == [] then 0 else ChannelTotal(es, ks[..|ks| - 1]) + ChannelCount(es, ks[|ks| - 1])
  }

  lemma {:induction false} ChannelTotalStep(es: seq<Envelope>, ks: seq<string>)
    requires es != [] && Distinct(ks)
    ensures ChannelTotal(es, ks) ==
      ChannelTotal(es[..|es| - 1], ks) + (if es[|es| - 1].channel in ks then 1 else 0)
  {
    if ks == [] {
    } else {
      ChannelTotalStep(es, ks[..|ks| - 1]);
    }
  }

  lemma {:induction false} ChannelTotalIsLength(es: seq<Envelope>, ks: seq<string>)
    requires Distinct(ks) && forall e :: e in es ==> e.channel in ks
    ensures ChannelTotal(es, ks) == |es|
  {
    if es == [] {
      ChannelTotalEmpty(ks);
    } else {
      ChannelTotalStep(es, ks);
      ChannelTotalIsLength(es[..|es| - 1], ks);
    }
  }

  lemma {:induction false} ChannelTotalEmpty(ks: seq<string>)
    ensures ChannelTotal([], ks) == 0
  {
    if ks == [] {
    } else {
      ChannelTotalEmpty(ks[..|ks| - 1]);
    }
  }

  lemma {:induction false} TotalIsChannelTotal(s: State, ks: seq<string>)
    requires CountInv(s)
    ensures Total(s.byChannel, ks) == ChannelTotal(s.accepted[..s.rows], ks)
  {
    if ks == [] {
    } else {
      TotalIsChannelTotal(s, ks[..|ks| - 1]);
    }
  }

  lemma {:induction false} SeenChannel(es: seq<Envelope>, e: Envelope)
    requires e in es
    ensures ChannelCount(es, e.channel) > 0
  {
    if es[|es| - 1] != e {
      assert e in es[..|es| - 1];
      SeenChannel(es[..|es| - 1], e);
    }
  }

  /** Listing the channels in any order, the per-channel counts add up to the rows. */
  lemma ChannelsAddUp(c: Setup, s: State, ks: seq<string>)
    requires c.capacity > 0 && Reachable(c, s)
    requires Distinct(ks) && forall k :: k in ks <==> k in s.byChannel
    ensures Total(s.byChannel, ks) == s.rows
  {
    ReachableInv(c, s);
    var es := s.accepted[..s.rows];
    forall e | e in es
      ensures e.channel in ks
    {
      SeenChannel(es, e);
    }
    TotalIsChannelTotal(s, ks);
    ChannelTotalIsLength(es, ks);
  }

  // ---- Shutdown ----

  /** The writer's own steps forward. */
  predicate Forward(step: Step) {
    step.Take? || step.Count? || step.Write?
  }

  predicate WriterStep(step: Step) {
    Forward(step) || step.Crash?
  }

  ghost predicate AllWriter(steps: seq<Step>) {
    forall i :: 0 <= i < |steps| ==> WriterStep(steps[i])
  }

  /** Writer steps left before the queue is drained. */
  function Work(s: State): nat {
    3 * |s.queue| + (match s.writer case Waiting => 1 case Holding(_) => 3 case Counted(_) => 2 case _ => 0)
  }

  lemma WriterStepWorks(c: Setup, s: State, step: Step)
    requires WriterStep(step) && Enabled(c, s, step)
    ensures var s' := Do(c, s, step);
            Work(s') < Work(s) && s'.closed == s.closed && (s'.writer.Crashed? <==> step.Crash?)
  {
    hide RollShard;
    hide Bump;
    if step.Write? {
      QueueUntouched(c, s, s.writer.e);
    }
  }

  /** A writer that has not ended and has something to do is never blocked. */
  lemma WriterNeverBlocks(c: Setup, s: State)
    requires Inv(c, s) && !Ended(s.writer) && s.queue != []
    ensures exists step :: Forward(step) && Enabled(c, s, step)
  {
    match s.writer
    case Waiting => assert Forward(Take) && Enabled(c, s, Take);
    case Holding(_) => assert Forward(Count) && Enabled(c, s, Count);
    case Counted(_) => assert Forward(Write(true)) && Enabled(c, s, Write(true));
  }

  lemma {:induction false} WriterRunWorks(c: Setup, s: State, steps: seq<Step>)
    requires Runs(c, s, steps) && AllWriter(steps)
    ensures var end := After(c, s, steps);
            && |steps| + Work(end) <= Work(s) && end.closed == s.closed
            && (end.writer.Crashed? <==> s.writer.Crashed? || Crash in steps)
    decreases |steps|
  {
    hide Do;
    hide Work;
    if steps == [] {
    } else {
      assert steps == [steps[0]] + steps[1..];
      WriterStepWorks(c, s, steps[0]);
      NotCrashed(c, s, steps[0]);
      WriterRunWorks(c, Do(c, s, steps[0]), steps[1..]);
    }
  }

  lemma NotCrashed(c: Setup, s: State, step: Step)
    requires Enabled(c, s, step) && WriterStep(step)
    ensures !s.writer.Crashed?
  {
  }

  /** Once closed, the writer takes a bounded number of steps however its writes turn out. When it can
      go no further it has returned with nothing left queued, unless it crashed on the way. */
  lemma ShutdownDrains(c: Setup, s: State, steps: seq<Step>)
    requires c.capacity > 0 && Reachable(c, s) && s.closed
    requires Runs(c, s, steps) && AllWriter(steps)
    ensures |steps| <= Work(s)
    ensures var end := After(c, s, steps);
            (forall step :: Forward(step) ==> !Enabled(c, end, step)) ==>
              if s.writer.Crashed? || Crash in steps then end.writer.Crashed?
              else end.writer.Stopped? && end.queue == [] && end.rows == |end.accepted|
  {
    hide Do;
    hide Enabled;
    ReachableInv(c, s);
    RunKeeps(c, s, steps);
    WriterRunWorks(c, s, steps);
    var end := After(c, s, steps);
    if (forall step :: Forward(step) ==> !Enabled(c, end, step)) && !Ended(end.writer) {
      WriterNeverBlocks(c, end);
    }
  }

  // ---- After a crash ----

  /** A crashed writer changes nothing any more: the counts and the shards are final, and the queue
      only grows. */
  lemma {:induction false} CrashFreezes(c: Setup, s: State, steps: seq<Step>)
    requires Runs(c, s, steps) && s.writer.Crashed?
    ensures var end := After(c, s, steps);
            && end.writer == s.writer && end.shards == s.shards && end.rows == s.rows && end.byChannel == s.byChannel
            && end.byTicker == s.byTicker && end.writeErrors == s.writeErrors && s.queue <= end.queue
            && (|s.queue| >= c.capacity ==> end.closed == s.closed)
    decreases |steps|
  {
    hide Bump;
    hide RollShard;
    if steps == [] {
    } else {
      CrashFreezes(c, Do(c, s, steps[0]), steps[1..]);
    }
  }

  /** The blocking put of the sentinel can still go through, by the writer's steps alone. */
  ghost predicate CanClose(c: Setup, s: State) {
    exists steps :: AllWriter(steps) && Runs(c, s, steps) && Enabled(c, After(c, s, steps), Close)
  }

  /** The shutdown of an open capture hangs exactly when the writer crashed and the queue is full. */
  lemma ShutdownHangsIff(c: Setup, s: State)
    requires c.capacity > 0 && Reachable(c, s) && !s.closed
    ensures !CanClose(c, s) <==> s.writer.Crashed? && |s.queue| == c.capacity
  {
    ReachableInv(c, s);
    if s.writer.Crashed? && |s.queue| == c.capacity {
      if CanClose(c, s) {
        var steps :| AllWriter(steps) && Runs(c, s, steps) && Enabled(c, After(c, s, steps), Close);
        CrashFreezes(c, s, steps);
        assert false;
      }
    } else {
      RoomComes(c, s);
    }
  }

  /** A live writer makes room: it finishes what it holds and takes the next item. */
  lemma {:induction false} RoomComes(c: Setup, s: State)
    requires c.capacity > 0 && Inv(c, s) && !s.closed && (s.writer.Crashed? ==> |s.queue| < c.capacity)
    ensures CanClose(c, s)
    decreases Work(s)
  {
    hide Inv;
    hide Do;
    hide Work;
    OpenWriter(c, s);
    if |s.queue| < c.capacity {
      assert AllWriter([]) && Runs(c, s, []) && After(c, s, []) == s;
    } else {
      WriterNeverBlocks(c, s);
      var step :| Forward(step) && Enabled(c, s, step);
      var s' := Do(c, s, step);
      StepKeeps(c, s, step);
      WriterStepWorks(c, s, step);
      RoomComes(c, s');
      var steps :| AllWriter(steps) && Runs(c, s', steps) && Enabled(c, After(c, s', steps), Close);
      var all := [step] + steps;
      assert all[1..] == steps;
      assert AllWriter(all) && Runs(c, s, all);
      assert After(c, s, all) == After(c, s', steps);
    }
  }

  lemma OpenWriter(c: Setup, s: State)
    requires Inv(c, s) && !s.closed
    ensures !s.writer.Stopped? && |s.queue| <= c.capacity
  {
  }
}

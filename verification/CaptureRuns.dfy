/** Runs of the capture that do come about: a shutdown that hangs, and a shard that outgrows the cap. */
module CaptureRuns {
  import opened CaptureModel
  import opened CaptureProof
  import opened Options

  lemma {:induction false} RunsExtend(c: Setup, s: State, steps: seq<Step>, step: Step)
    requires Runs(c, s, steps) && Enabled(c, After(c, s, steps), step)
    ensures Runs(c, s, steps + [step]) && After(c, s, steps + [step]) == Do(c, After(c, s, steps), step)
    decreases |steps|
  {
    hide Do;
    hide Enabled;
    var longer := steps + [step];
    if steps == [] {
      assert longer[0] == step && longer[1..] == [];
    } else {
      assert longer[0] == steps[0] && longer[1..] == steps[1..] + [step];
      RunsExtend(c, Do(c, s, steps[0]), steps[1..], step);
    }
  }

  lemma ReachableStep(c: Setup, s: State, step: Step)
    requires Reachable(c, s) && Enabled(c, s, step)
    ensures Reachable(c, Do(c, s, step))
  {
    hide Do;
    hide Enabled;
    var steps :| Runs(c, Init(c), steps) && After(c, Init(c), steps) == s;
    RunsExtend(c, Init(c), steps, step);
  }

  lemma InitReachable(c: Setup)
    ensures Reachable(c, Init(c))
  {
    assert Runs(c, Init(c), []) && After(c, Init(c), []) == Init(c);
  }

  // ---- A shutdown that hangs ----

  /** Once the writer has crashed, envelopes that keep coming make the shutdown hang. */
  lemma {:induction false} CrashCanHang(c: Setup, s: State, e: Envelope) returns (steps: seq<Step>)
    requires c.capacity > 0 && Reachable(c, s) && !s.closed && s.writer.Crashed?
    ensures Runs(c, s, steps) && forall i :: 0 <= i < |steps| ==> steps[i] == Receive(e)
    ensures var end := After(c, s, steps); Reachable(c, end) && !end.closed && !CanClose(c, end)
    decreases c.capacity - |s.queue|
  {
    hide CanClose;
    hide Reachable;
    ReachableInv(c, s);
    if |s.queue| >= c.capacity {
      ShutdownHangsIff(c, s);
      steps := [];
    } else {
      ReachableStep(c, s, Receive(e));
      var rest := CrashCanHang(c, Do(c, s, Receive(e)), e);
      steps := [Receive(e)] + rest;
      assert steps[1..] == rest;
    }
  }

  /** A run that ends in a hanging shutdown exists for every queue bound: the first shard does not
      open, and the queue fills. */
  lemma HangIsReachable(c: Setup, e: Envelope)
    requires c.capacity > 0
    ensures exists s :: Reachable(c, s) && !s.closed && !CanClose(c, s)
  {
    hide Reachable;
    hide CanClose;
    InitReachable(c);
    ReachableStep(c, Init(c), Crash);
    var steps := CrashCanHang(c, Do(c, Init(c), Crash), e);
    var end := After(c, Do(c, Init(c), Crash), steps);
    assert Reachable(c, end) && !end.closed && !CanClose(c, end);
  }

  // ---- A shard that outgrows the cap ----

  /** Every run that writes no line beyond the cap keeps every file within it. */
  ghost predicate CapHolds(c: Setup) {
    forall s :: Reachable(c, s) && LinesFit(c, Concat(s.shards)) ==> WithinCap(c, s.shards)
  }

  /** A line that fills a shard by itself. */
  function Full(c: Setup): Envelope {
    Envelope("", c.shardMax, "", None)
  }

  /** Open, idle, and holding nothing but full lines. */
  ghost predicate Idle(c: Setup, s: State) {
    && Reachable(c, s) && !s.closed && s.writer.Waiting? && s.queue == [] && s.shards != []
    && forall e :: e in Concat(s.shards) ==> e == Full(c)
  }

  /** One more full line, from the receiver to the disk. */
  lemma FeedLine(c: Setup, s: State) returns (s': State)
    requires c.capacity > 0 && Idle(c, s)
    ensures Idle(c, s')
    ensures var rolled := RollShard(c, s, Full(c));
            s'.shards == AppendLine(rolled, Full(c)).shards && s'.written == rolled.written + c.shardMax
  {
    hide Concat;
    hide Reachable;
    hide Bump;
    hide RollShard;
    var e := Full(c);
    var s1 := Do(c, s, Receive(e));
    var s2 := Do(c, s1, Take);
    var s3 := Do(c, s2, Count);
    QueueUntouched(c, s3, e);
    RollOnShards(c, s, s3, e);
    s' := Do(c, s3, Write(true));
    ReachableStep(c, s, Receive(e));
    ReachableStep(c, s1, Take);
    ReachableStep(c, s2, Count);
    ReachableStep(c, s3, Write(true));
    RolledConcat(c, s, e);
    ConcatAppend(RollShard(c, s, e).shards, e);
  }

  /** Rolling depends on the files alone. */
  lemma RollOnShards(c: Setup, s: State, s': State, e: Envelope)
    requires s'.shards == s.shards && s'.written == s.written
    ensures RollShard(c, s', e).shards == RollShard(c, s, e).shards
    ensures RollShard(c, s', e).written == RollShard(c, s, e).written
  {
  }

  lemma RolledConcat(c: Setup, s: State, e: Envelope)
    requires s.shards != []
    ensures RollShard(c, s, e).shards != [] && Concat(RollShard(c, s, e).shards) == Concat(s.shards)
  {
    ConcatRoll(s.shards);
  }

  /** Full lines fill one shard after another. */
  lemma {:induction false} FillUpTo(c: Setup, s: State, n: nat) returns (s': State)
    requires c.capacity > 0 && c.shardMax > 0 && Idle(c, s) && s.written > 0 && |s.shards| <= n
    ensures Idle(c, s') && |s'.shards| == n + 1 && s'.shards[n] == [Full(c)]
    decreases n - |s.shards|
  {
    hide Idle;
    IdleHasShard(c, s);
    var t := FeedLine(c, s);
    if |s.shards| == n {
      s' := t;
    } else {
      s' := FillUpTo(c, t, n);
    }
  }

  lemma IdleHasShard(c: Setup, s: State)
    requires Idle(c, s)
    ensures s.shards != []
  {
  }

  lemma InitIdle(c: Setup)
    ensures Idle(c, Init(c))
  {
    InitReachable(c);
    assert Init(c).shards[..0] == [];
  }

  /** The cap holds over every run exactly when the first file is within it and no file that the writer
      rolls to holds anything yet. */
  lemma CapHoldsIff(c: Setup)
    requires c.capacity > 0 && c.shardMax > 0
    ensures CapHolds(c) <==> c.existing(0) <= c.shardMax && forall i :: 0 < i ==> c.existing(i) == 0
  {
    hide Reachable;
    hide WithinCap;
    hide Concat;
    if c.existing(0) <= c.shardMax && forall i :: 0 < i ==> c.existing(i) == 0 {
      forall s | Reachable(c, s) && LinesFit(c, Concat(s.shards))
        ensures WithinCap(c, s.shards)
      {
        ShardsWithinCapIff(c, s);
      }
    } else if c.existing(0) > c.shardMax {
      FirstFileTooBig(c);
    } else {
      var i :| 0 < i && c.existing(i) != 0;
      RolledFileNotEmpty(c, i);
    }
  }

  lemma FirstFileTooBig(c: Setup)
    requires c.existing(0) > c.shardMax
    ensures !CapHolds(c)
  {
    hide Reachable;
    InitReachable(c);
    var s := Init(c);
    assert s.shards[..0] == [] && Concat(s.shards) == [];
    assert ShardBytes(c, s.shards, 0) == c.existing(0);
    assert !WithinCap(c, s.shards);
  }

  lemma RolledFileNotEmpty(c: Setup, i: nat)
    requires c.capacity > 0 && c.shardMax > 0 && 0 < i && c.existing(i) > 0
    ensures !CapHolds(c)
  {
    hide Idle;
    hide CapHolds;
    var begun := BytesInFirst(c);
    var s := FillUpTo(c, begun, i);
    OverfullShard(c, s, i);
  }

  /** A state whose first shard is known to hold something. */
  lemma BytesInFirst(c: Setup) returns (s: State)
    requires c.capacity > 0 && c.shardMax > 0
    ensures Idle(c, s) && s.written > 0 && |s.shards| == 1
  {
    hide Idle;
    InitIdle(c);
    s := Init(c);
    if c.existing(0) == 0 {
      s := FeedLine(c, s);
    }
  }

  lemma OverfullShard(c: Setup, s: State, i: nat)
    requires Idle(c, s) && i < |s.shards| && s.shards[i] == [Full(c)] && c.existing(i) > 0
    ensures !CapHolds(c)
  {
    hide Reachable;
    hide Concat;
    BytesAppend([], Full(c));
    assert [] + [Full(c)] == [Full(c)];
    assert ShardBytes(c, s.shards, i) == c.shardMax + c.existing(i);
    assert LinesFit(c, Concat(s.shards)) && !WithinCap(c, s.shards);
  }
}

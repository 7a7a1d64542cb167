/** The capture program's shared state and the operations the two threads perform on it. */
module Capture {
  import opened CaptureModel
  import opened CaptureProof

  class CaptureRun {
    const setup: Setup
    var queue: seq<Item>
    var closed: bool
    var dropped: nat
    var writer: Writer
    var rows: nat
    var byChannel: map<string, nat>
    var byTicker: map<string, nat>
    var writeErrors: nat
    var shards: seq<seq<Envelope>>
    var written: nat
    ghost var offered: seq<Envelope>
    ghost var accepted: seq<Envelope>
    ghost var results: seq<bool>

    ghost function State(): CaptureModel.State
      reads this
    {
      CaptureModel.State(queue, closed, dropped, writer, rows, byChannel, byTicker, writeErrors, shards, written,
                         offered, accepted, results)
    }

    /** existing gives the size each shard's file already has. */
    constructor (existing: nat -> nat)
      ensures setup == Setup(1_000_000, 3_500_000_000, existing) && State() == Init(setup)
      ensures Inv(setup, State())
    {
      this.setup := Setup(QUEUE_CAPACITY, SHARD_MAX_BYTES, existing);
      queue, closed, dropped := [], false, 0;
      writer, rows, byChannel, byTicker, writeErrors := Waiting, 0, map[], map[], 0;
      shards, written := [[]], existing(0);
      offered, accepted, results := [], [], [];
      new;
      InitInv(setup);
    }

    /** Receiver: a non-blocking put that drops when the queue is full. */
    method Receive(e: Envelope)
      requires !closed
      modifies this
      ensures State() == Do(setup, old(State()), CaptureModel.Receive(e))
    {
      offered := offered + [e];
      if |queue| < setup.capacity {
        queue := queue + [Data(e)];
        accepted := accepted + [e];
      } else {
        dropped := dropped + 1;
      }
    }

    /** Receiver shutdown: the put blocks until there is room. */
    method PutSentinel()
      requires !closed && |queue| < setup.capacity
      modifies this
      ensures State() == Do(setup, old(State()), Close)
    {
      queue := queue + [Sentinel];
      closed := true;
    }

    method TakeItem()
      requires writer.Waiting? && queue != []
      modifies this`queue, this`writer
      ensures State() == Do(setup, old(State()), Take)
    {
      writer := if queue[0].Sentinel? then Stopped else Holding(queue[0].e);
      queue := queue[1..];
    }

    method CountRow()
      requires writer.Holding?
      modifies this`rows, this`byChannel, this`byTicker, this`writer
      ensures State() == Do(setup, old(State()), Count)
    {
      hide Bump;
      var e := writer.e;
      rows := rows + 1;
      byChannel := Bump(byChannel, e.channel);
      if e.ticker.Some? {
        byTicker := Bump(byTicker, e.ticker.value);
      }
      writer := Counted(e);
    }

    /** ok says whether the operating system accepted the write. */
    method WriteLine(ok: bool)
      requires writer.Counted? && shards != []
      modifies this`shards, this`written, this`results, this`writeErrors, this`writer
      ensures State() == Do(setup, old(State()), Write(ok))
    {
      var e := writer.e;
      if written + e.bytes > setup.shardMax {
        shards := shards + [[]];
        written := 0;
      }
      if ok {
        var last := |shards| - 1;
        shards := shards[last := shards[last] + [e]];
        written := written + e.bytes;
      } else {
        writeErrors := writeErrors + 1;
      }
      results := results + [ok];
      writer := Waiting;
    }

    /** An error the writer does not catch. */
    method Break()
      requires !Ended(writer)
      modifies this`writer
      ensures State() == Do(setup, old(State()), Crash)
    {
      writer := Crashed(LeftInHand(writer));
    }

    /** The writer thread once the receiver has shut down. opens says whether the first shard's file
        opens, fate(n) what becomes of the n-th row. The thread reaches the sentinel exactly when no
        error escapes the guarded write, and has then counted every accepted envelope; in every case
        the successful writes are on disk in arrival order. */
    method WriterLoop(opens: bool, fate: nat -> Fate)
      requires setup.capacity > 0 && Inv(setup, State()) && closed && writer.Waiting?
      modifies this`queue, this`writer, this`rows, this`byChannel, this`byTicker, this`shards, this`written,
               this`results, this`writeErrors
      ensures Inv(setup, State()) && Ended(writer)
      ensures writer.Stopped? <==> opens && AllSurvive(fate, old(rows), |accepted|)
      ensures writer.Stopped? ==> queue == [] && rows == |accepted| == |results|
      ensures |results| <= |accepted| && Concat(shards) == Kept(accepted[..|results|], results)
      ensures TurnedOut(old(results), results, fate)
    {
      hide Inv;
      hide Do;
      hide Work;
      NothingTried(results, fate);
      hide TurnedOut;
      hide AllSurvive;
      NoneSurvive(fate, rows);
      if !opens {
        CrashStep(setup, State());
        Break();
      }
      while !Ended(writer)
        invariant Inv(setup, State()) && closed && (writer.Waiting? || Ended(writer)) && old(rows) <= rows
        invariant writer.Crashed? ==> !opens || !AllSurvive(fate, old(rows), |accepted|)
        invariant !writer.Crashed? ==> opens && AllSurvive(fate, old(rows), rows)
        invariant TurnedOut(old(results), results, fate)
        decreases Work(State())
      {
        TakeStep(setup, State());
        TakeItem();
        if writer.Stopped? {
          break;
        }
        HoldsNext(setup, State());
        OneMoreTried(old(results), results, fate);
        OneMoreSurvives(fate, old(rows), rows, |accepted|);
        assert results + [] == results;
        Handle(fate(rows + 1));
      }
      Finished(setup, State());
    }

    /** One envelope, from serialising it to the flush and manifest that may follow its write. */
    method Handle(f: Fate)
      requires setup.capacity > 0 && Inv(setup, State()) && writer.Holding?
      modifies this`writer, this`rows, this`byChannel, this`byTicker, this`shards, this`written, this`results,
               this`writeErrors
      ensures Inv(setup, State()) && Work(State()) < old(Work(State()))
      ensures if Survived(f) then writer.Waiting? else writer.Crashed?
      ensures old(rows) < |accepted| && rows == old(rows) + (if f.BrokeSerialising? then 0 else 1)
      ensures results == old(results) + (if f.BrokeSerialising? || f.BrokeRolling? then [] else [!f.Failed?])
    {
      hide Inv;
      hide Do;
      hide Work;
      CrashStep(setup, State());
      HoldsNext(setup, State());
      if f.BrokeSerialising? {
        Break();
        return;
      }
      CountStepOf(setup, State());
      CountRow();
      CrashStep(setup, State());
      if f.BrokeRolling? {
        Break();
        return;
      }
      WriteStepOf(setup, State(), !f.Failed?);
      WriteLine(!f.Failed?);
      CrashStep(setup, State());
      if f.BrokeFlushing? {
        Break();
      }
    }
  }

  /** What becomes of a row: its line is written, the write fails and is counted, or an error escapes
      in serialising the envelope, in rolling to a new shard, or in the flush or manifest afterwards. */
  datatype Fate = Wrote | Failed | BrokeSerialising | BrokeRolling | BrokeFlushing

  predicate Survived(f: Fate) {
    f.Wrote? || f.Failed?
  }

  /** The rows after the first m, up to the n-th, all survive. */
  ghost predicate AllSurvive(fate: nat -> Fate, m: nat, n: nat) {
    forall k :: m < k <= n ==> Survived(fate(k))
  }

  lemma NoneSurvive(fate: nat -> Fate, m: nat)
    ensures AllSurvive(fate, m, m)
  {
  }

  lemma OneMoreSurvives(fate: nat -> Fate, m: nat, n: nat, all: nat)
    requires m <= n < all && AllSurvive(fate, m, n)
    ensures Survived(fate(n + 1)) ==> AllSurvive(fate, m, n + 1)
    ensures !Survived(fate(n + 1)) ==> !AllSurvive(fate, m, all)
  {
  }

  /** The further writes turned out as their rows' fates say. */
  ghost predicate TurnedOut(before: seq<bool>, results: seq<bool>, fate: nat -> Fate) {
    before <= results && forall n :: |before| < n <= |results| ==> results[n - 1] == !fate(n).Failed?
  }

  lemma NothingTried(results: seq<bool>, fate: nat -> Fate)
    ensures TurnedOut(results, results, fate)
  {
  }

  lemma OneMoreTried(before: seq<bool>, results: seq<bool>, fate: nat -> Fate)
    requires TurnedOut(before, results, fate)
    ensures TurnedOut(before, results + [!fate(|results| + 1).Failed?], fate)
  {
  }

  lemma TakeStep(c: Setup, s: CaptureModel.State)
    requires c.capacity > 0 && Inv(c, s) && s.closed && s.writer.Waiting?
    ensures s.queue != []
    ensures var s' := Do(c, s, Take);
            && Inv(c, s') && Work(s') < Work(s) && s'.closed && s'.rows == s.rows && s'.accepted == s.accepted
            && s'.results == s.results && (s'.writer.Stopped? || s'.writer.Holding?)
  {
    assert Enabled(c, s, Take);
    Steps(c, s, Take);
  }

  lemma CountStepOf(c: Setup, s: CaptureModel.State)
    requires c.capacity > 0 && Inv(c, s) && s.writer.Holding?
    ensures var s' := Do(c, s, Count);
            && Inv(c, s') && Work(s') < Work(s) && s'.writer.Counted? && s'.rows == s.rows + 1
            && s'.accepted == s.accepted && s'.results == s.results && s'.shards != []
  {
    hide Inv;
    hide Bump;
    HasShard(c, s);
    Steps(c, s, Count);
  }

  lemma WriteStepOf(c: Setup, s: CaptureModel.State, ok: bool)
    requires c.capacity > 0 && Inv(c, s) && s.writer.Counted? && s.shards != []
    ensures var s' := Do(c, s, Write(ok));
            && Inv(c, s') && Work(s') < Work(s) && s'.writer.Waiting? && s'.rows == s.rows && s'.accepted == s.accepted
            && s'.results == s.results + [ok]
  {
    hide Inv;
    hide RollShard;
    Steps(c, s, Write(ok));
    QueueUntouched(c, s, s.writer.e);
  }

  lemma CrashStep(c: Setup, s: CaptureModel.State)
    requires c.capacity > 0 && Inv(c, s) && !Ended(s.writer)
    ensures var s' := Do(c, s, Crash);
            && Inv(c, s') && Work(s') < Work(s) && s'.writer.Crashed? && s'.rows == s.rows && s'.accepted == s.accepted
            && s'.closed == s.closed && s'.results == s.results
  {
    hide Inv;
    Steps(c, s, Crash);
  }

  lemma HoldsNext(c: Setup, s: CaptureModel.State)
    requires Inv(c, s) && s.writer.Holding?
    ensures s.rows < |s.accepted| && |s.results| == s.rows
  {
  }

  lemma HasShard(c: Setup, s: CaptureModel.State)
    requires Inv(c, s)
    ensures s.shards != []
  {
  }

  lemma Finished(c: Setup, s: CaptureModel.State)
    requires Inv(c, s)
    ensures |s.results| <= |s.accepted| && Concat(s.shards) == Kept(s.accepted[..|s.results|], s.results)
    ensures s.writer.Stopped? ==> s.queue == [] && s.rows == |s.accepted| == |s.results|
  {
  }

  lemma Steps(c: Setup, s: CaptureModel.State, step: Step)
    requires c.capacity > 0 && Inv(c, s) && Enabled(c, s, step) && WriterStep(step)
    ensures Inv(c, Do(c, s, step))
    ensures Work(Do(c, s, step)) < Work(s) && Do(c, s, step).closed == s.closed
  {
    hide Inv;
    hide Do;
    StepKeeps(c, s, step);
    WriterStepWorks(c, s, step);
  }

  // ---- Shard file names ----

  function Digits(n: nat): (d: string)
    ensures |d| > 0
  {
    if n < 10 then [DigitChar(n)] else Digits(n / 10) + [DigitChar(n % 10)]
  }

  function DigitChar(d: nat): char
    requires d < 10
  {
    '0' + d as char
  }

  /** At least four digits, zero-padded on the left. */
  function Padded(n: nat): string {
    var d := Digits(n);
    seq((if |d| < 4 then 4 - |d| else 0), _ => '0') + d
  }

  function ShardName(stem: string, suffix: string, idx: nat): string {
    if idx == 0 then stem + suffix else stem + "-" + Padded(idx) + suffix
  }

  /** The number a digit string denotes. */
  function Denotes(d: string): int {
    if d == "" then 0 else 10 * Denotes(d[..|d| - 1]) + (d[|d| - 1] as int - '0' as int)
  }

  lemma {:induction false} DigitsDenote(n: nat)
    ensures Denotes(Digits(n)) == n
  {
    var d := Digits(n);
    if n >= 10 {
      DigitsDenote(n / 10);
      assert d[..|d| - 1] == Digits(n / 10);
    }
  }

  lemma {:induction false} ZerosDenoteNothing(k: nat, d: string)
    ensures Denotes(seq(k, _ => '0') + d) == Denotes(d)
  {
    var zs := seq(k, _ => '0') + d;
    if d != "" {
      assert zs[..|zs| - 1] == seq(k, _ => '0') + d[..|d| - 1];
      ZerosDenoteNothing(k, d[..|d| - 1]);
    } else if k > 0 {
      assert zs[..k - 1] == seq(k - 1, _ => '0') + "";
      ZerosDenoteNothing(k - 1, "");
    }
  }

  /** The first shard keeps the given name. A later one has its index after the stem, in at least four digits
      and with no more leading zeros than that takes. */
  lemma ShardNameShape(stem: string, suffix: string, idx: nat)
    ensures ShardName(stem, suffix, 0) == stem + suffix
    ensures idx > 0 ==>
      var d := Padded(idx);
      && ShardName(stem, suffix, idx) == stem + "-" + d + suffix && Denotes(d) == idx
      && |d| >= 4 && (|d| > 4 ==> d[0] != '0') && forall k :: 0 <= k < |d| ==> '0' <= d[k] <= '9'
  {
    PaddedDenotes(idx);
    DigitsAreDigits(idx);
  }

  lemma {:induction false} DigitsAreDigits(n: nat)
    ensures var d := Digits(n); (n > 0 ==> d[0] != '0') && forall k :: 0 <= k < |d| ==> '0' <= d[k] <= '9'
  {
    if n < 10 {
    } else {
      DigitsAreDigits(n / 10);
    }
  }

  /** No two shards of a run share a file. */
  lemma ShardNamesDiffer(stem: string, suffix: string, i: nat, j: nat)
    requires ShardName(stem, suffix, i) == ShardName(stem, suffix, j)
    ensures i == j
  {
    var a, b := ShardName(stem, suffix, i), ShardName(stem, suffix, j);
    if i > 0 && j > 0 {
      assert Padded(i) == a[|stem| + 1..|a| - |suffix|];
      assert Padded(j) == b[|stem| + 1..|b| - |suffix|];
      PaddedDenotes(i);
      PaddedDenotes(j);
    }
  }

  lemma PaddedDenotes(n: nat)
    ensures Denotes(Padded(n)) == n
  {
    var d := Digits(n);
    DigitsDenote(n);
    ZerosDenoteNothing(if |d| < 4 then 4 - |d| else 0, d);
  }
}

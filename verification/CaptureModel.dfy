/** The hand-off between the websocket receiver and the disk-writer thread, as a system of
    interleaved atomic steps over a bounded queue. */
module CaptureModel {
  import opened Options

  /** bytes is the encoded length of the line the envelope serialises to. */
  datatype Envelope = Envelope(line: string, bytes: nat, channel: string, ticker: Option<string>)

  datatype Item = Data(e: Envelope) | Sentinel

  /** Where the writer thread is: waiting on the queue, holding an envelope it has not counted yet,
      about to write a counted one, returned, or ended by an error outside the guarded write. */
  datatype Writer = Waiting | Holding(e: Envelope) | Counted(e: Envelope) | Stopped | Crashed(hand: Hand)

  /** What a crashed writer had in hand. */
  datatype Hand = Nothing | Uncounted(e: Envelope) | Unsaved(e: Envelope)

  /** Queue bound, shard cap, and the size each shard's file already has, all of them opened to append. */
  datatype Setup = Setup(capacity: nat, shardMax: nat, existing: nat -> nat)

  const QUEUE_CAPACITY := 1_000_000
  const SHARD_MAX_BYTES := 3_500_000_000

  /** offered, accepted and results are the history: every envelope received, those put on the
      queue, and the outcome of every write. The rest is what the program keeps. */
  datatype State = State(
    queue: seq<Item>, closed: bool, dropped: nat,
    writer: Writer, rows: nat, byChannel: map<string, nat>, byTicker: map<string, nat>, writeErrors: nat,
    shards: seq<seq<Envelope>>, written: nat,
    offered: seq<Envelope>, accepted: seq<Envelope>, results: seq<bool>)

  function Init(c: Setup): State {
    State([], false, 0, Waiting, 0, map[], map[], 0, [[]], c.existing(0), [], [], [])
  }

  /** Crash is an error in opening, rolling or flushing a shard, in serialising a line or in writing
      the manifest: it ends the thread wherever it is. */
  datatype Step = Receive(e: Envelope) | Close | Take | Count | Write(ok: bool) | Crash

  predicate Ended(w: Writer) {
    w.Stopped? || w.Crashed?
  }

  function LeftInHand(w: Writer): Hand {
    match w
    case Holding(e) => Uncounted(e)
    case Counted(e) => Unsaved(e)
    case _ => Nothing
  }

  predicate Enabled(c: Setup, s: State, step: Step) {
    match step
    case Receive(_) => !s.closed
    case Close => !s.closed && |s.queue| < c.capacity
    case Take => s.writer.Waiting? && s.queue != []
    case Count => s.writer.Holding?
    case Write(_) => s.writer.Counted? && s.shards != []
    case Crash => !Ended(s.writer)
  }

  function Bump(m: map<string, nat>, k: string): map<string, nat> {
    m[k := (if k in m then m[k] else 0) + 1]
  }

  /** Roll to the next shard when the line would take the current one over the cap. The count starts
      again from nothing, whatever that shard's file already holds. */
  function RollShard(c: Setup, s: State, e: Envelope): State {
    if s.written + e.bytes > c.shardMax then s.(shards := s.shards + [[]], written := 0) else s
  }

  function AppendLine(s: State, e: Envelope): State
    requires s.shards != []
  {
    var last := |s.shards| - 1;
    s.(shards := s.shards[last := s.shards[last] + [e]], written := s.written + e.bytes, results := s.results + [true])
  }

  function Do(c: Setup, s: State, step: Step): State
    requires Enabled(c, s, step)
  {
    match step
    case Receive(e) =>
      if |s.queue| < c.capacity
      then s.(offered := s.offered + [e], queue := s.queue + [Data(e)], accepted := s.accepted + [e])
      else s.(offered := s.offered + [e], dropped := s.dropped + 1)
    case Close => s.(queue := s.queue + [Sentinel], closed := true)
    case Take =>
      s.(queue := s.queue[1..], writer := if s.queue[0].Sentinel? then Stopped else Holding(s.queue[0].e))
    case Count =>
      var e := s.writer.e;
      s.(rows := s.rows + 1, byChannel := Bump(s.byChannel, e.channel),
         byTicker := if e.ticker.Some? then Bump(s.byTicker, e.ticker.value) else s.byTicker,
         writer := Counted(e))
    case Write(ok) =>
      var e := s.writer.e;
      var rolled := RollShard(c, s, e);
      if ok then AppendLine(rolled, e).(writer := Waiting)
      else rolled.(writeErrors := s.writeErrors + 1, results := s.results + [false], writer := Waiting)
    case Crash => s.(writer := Crashed(LeftInHand(s.writer)))
  }

  /** Every step of the schedule is enabled when it is taken, so this covers every interleaving. */
  ghost predicate Runs(c: Setup, s: State, steps: seq<Step>)
    decreases |steps|
  {
    steps == [] || (Enabled(c, s, steps[0]) && Runs(c, Do(c, s, steps[0]), steps[1..]))
  }

  ghost function After(c: Setup, s: State, steps: seq<Step>): State
    requires Runs(c, s, steps)
    decreases |steps|
  {
    if steps == [] then s else After(c, Do(c, s, steps[0]), steps[1..])
  }

  // ---- Readings of the history ----

  function Concat(shards: seq<seq<Envelope>>): seq<Envelope> {
    if shards == [] then [] else Concat(shards[..|shards| - 1]) + shards[|shards| - 1]
  }

  /** The envelopes whose write succeeded, in order. */
  function Kept(es: seq<Envelope>, results: seq<bool>): seq<Envelope>
    requires |es| == |results|
  {
    if es == [] then []
    else
      var n := |es| - 1;
      Kept(es[..n], results[..n]) + (if results[n] then [es[n]] else [])
  }

  function Bytes(es: seq<Envelope>): nat {
    if es == [] then 0 else Bytes(es[..|es| - 1]) + es[|es| - 1].bytes
  }

  /** Size of the i-th shard's file. */
  function ShardBytes(c: Setup, shards: seq<seq<Envelope>>, i: nat): nat
    requires i < |shards|
  {
    Bytes(shards[i]) + c.existing(i)
  }

  /** The part of it that the writer counts: of the bytes already there, only those of the first shard. */
  function BytesCounted(c: Setup, shards: seq<seq<Envelope>>, i: nat): nat
    requires i < |shards|
  {
    Bytes(shards[i]) + (if i == 0 then c.existing(0) else 0)
  }

  function Items(es: seq<Envelope>): (q: seq<Item>)
    ensures |q| == |es| && forall i :: 0 <= i < |q| ==> q[i] == Data(es[i])
  {
    seq(|es|, i requires 0 <= i < |es| => Data(es[i]))
  }

  function CountTrue(results: seq<bool>): nat {
    if results == [] then 0 else CountTrue(results[..|results| - 1]) + (if results[|results| - 1] then 1 else 0)
  }

  function ChannelCount(es: seq<Envelope>, k: string): nat {
    if es == [] then 0 else ChannelCount(es[..|es| - 1], k) + (if es[|es| - 1].channel == k then 1 else 0)
  }

  function TickerCount(es: seq<Envelope>, k: string): nat {
    if es == [] then 0 else TickerCount(es[..|es| - 1], k) + (if es[|es| - 1].ticker == Some(k) then 1 else 0)
  }

  /** Envelopes taken off the queue but not counted yet, and counted but not written yet. */
  function InHand(s: State): nat {
    if s.writer.Holding? || (s.writer.Crashed? && s.writer.hand.Uncounted?) then 1 else 0
  }

  function Unwritten(s: State): nat {
    if s.writer.Counted? || (s.writer.Crashed? && s.writer.hand.Unsaved?) then 1 else 0
  }
}

/** Which shard every line goes to, said of the stream alone: a line joins the shard of the line before it
    if it fits beside what that shard holds, and opens the next shard if it does not. */
module CapturePacking {
  import opened CaptureModel
  import opened CaptureProof

  // ---- Where lines go ----

  /** The lines of shard j: those sent there whose write succeeded, in order. */
  function Lines(es: seq<Envelope>, results: seq<bool>, places: seq<nat>, j: nat): seq<Envelope>
    requires |es| == |results| == |places|
  {
    if es == [] then []
    else
      var n := |es| - 1;
      Lines(es[..n], results[..n], places[..n], j) + (if results[n] && places[n] == j then [es[n]] else [])
  }

  function Latest(places: seq<nat>): nat {
    if places == [] then 0 else places[|places| - 1]
  }

  /** The bytes shard j is known to hold. */
  function Load(c: Setup, es: seq<Envelope>, results: seq<bool>, places: seq<nat>, j: nat): nat
    requires |es| == |results| == |places|
  {
    Bytes(Lines(es, results, places, j)) + (if j == 0 then c.existing(0) else 0)
  }

  /** The shard of every line, es being the lines tried and results the outcome of their writes. */
  function Places(c: Setup, es: seq<Envelope>, results: seq<bool>): (places: seq<nat>)
    requires |es| == |results|
    ensures |places| == |es|
  {
    if es == [] then []
    else
      var n := |es| - 1;
      var before := Places(c, es[..n], results[..n]);
      var j := Latest(before);
      before + [if Load(c, es[..n], results[..n], before, j) + es[n].bytes <= c.shardMax then j else j + 1]
  }

  ghost predicate PackInv(c: Setup, s: State) {
    && |s.results| <= |s.accepted|
    && var es := s.accepted[..|s.results|];
       var places := Places(c, es, s.results);
       && |s.shards| == Latest(places) + 1
       && forall j :: 0 <= j < |s.shards| ==> s.shards[j] == Lines(es, s.results, places, j)
  }

  // ---- Every run packs that way ----

  lemma LinesExtend(es: seq<Envelope>, results: seq<bool>, places: seq<nat>, e: Envelope, ok: bool, p: nat, j: nat)
    requires |es| == |results| == |places|
    ensures Lines(es + [e], results + [ok], places + [p], j) ==
      Lines(es, results, places, j) + (if ok && p == j then [e] else [])
  {
    var n := |es|;
    assert (es + [e])[..n] == es && (results + [ok])[..n] == results && (places + [p])[..n] == places;
  }

  lemma PlacesExtend(c: Setup, es: seq<Envelope>, results: seq<bool>, e: Envelope, ok: bool)
    requires |es| == |results|
    ensures var before := Places(c, es, results);
            var j := Latest(before);
            Places(c, es + [e], results + [ok]) ==
              before + [if Load(c, es, results, before, j) + e.bytes <= c.shardMax then j else j + 1]
  {
    hide Load;
    var n := |es|;
    var es', results' := es + [e], results + [ok];
    assert es'[..n] == es && results'[..n] == results && es'[n] == e;
    assert Places(c, es', results')[..n] == Places(c, es, results);
  }

  /** Lines never go back to an earlier shard. */
  lemma {:induction false} PlacesAscend(c: Setup, es: seq<Envelope>, results: seq<bool>, r: nat)
    requires |es| == |results| && r < |es|
    ensures Places(c, es, results)[r] <= Latest(Places(c, es, results))
  {
    hide Load;
    var n := |es| - 1;
    if r < n {
      PlacesAscend(c, es[..n], results[..n], r);
    }
  }

  lemma {:induction false} NothingBeyond(es: seq<Envelope>, results: seq<bool>, places: seq<nat>, j: nat)
    requires |es| == |results| == |places| && forall r :: 0 <= r < |places| ==> places[r] < j
    ensures Lines(es, results, places, j) == []
  {
    if es == [] {
    } else {
      var n := |es| - 1;
      NothingBeyond(es[..n], results[..n], places[..n], j);
    }
  }

  /** The shards after one more line. */
  function Packed(c: Setup, shards: seq<seq<Envelope>>, written: nat, e: Envelope, ok: bool): seq<seq<Envelope>>
    requires shards != []
  {
    var rolled := if written + e.bytes <= c.shardMax then shards else shards + [[]];
    var last := |rolled| - 1;
    if ok then rolled[last := rolled[last] + [e]] else rolled
  }

  lemma WritePacks(c: Setup, s: State, ok: bool)
    requires Enabled(c, s, Write(ok))
    ensures var s' := Do(c, s, Write(ok));
            && s'.shards == Packed(c, s.shards, s.written, s.writer.e, ok)
            && s'.results == s.results + [ok] && s'.accepted == s.accepted
  {
  }

  lemma PackedLines(c: Setup, es: seq<Envelope>, results: seq<bool>, shards: seq<seq<Envelope>>, written: nat,
                    e: Envelope, ok: bool)
    requires |es| == |results| && shards != []
    requires var places := Places(c, es, results);
             && |shards| == Latest(places) + 1 && written == Load(c, es, results, places, Latest(places))
             && forall j :: 0 <= j < |shards| ==> shards[j] == Lines(es, results, places, j)
    ensures var places := Places(c, es + [e], results + [ok]);
            var packed := Packed(c, shards, written, e, ok);
            && |packed| == Latest(places) + 1
            && forall j :: 0 <= j < |packed| ==> packed[j] == Lines(es + [e], results + [ok], places, j)
  {
    hide Lines;
    hide Load;
    hide Packed;
    hide Places;
    var before := Places(c, es, results);
    var p := if written + e.bytes <= c.shardMax then Latest(before) else Latest(before) + 1;
    PlacesExtend(c, es, results, e, ok);
    PackedShape(c, shards, written, e, ok);
    var packed := Packed(c, shards, written, e, ok);
    forall j | 0 <= j < |packed|
      ensures packed[j] == Lines(es + [e], results + [ok], before + [p], j)
    {
      LinesExtend(es, results, before, e, ok, p, j);
      if j == |shards| {
        NothingYet(c, es, results, j);
      }
    }
  }

  lemma PackedShape(c: Setup, shards: seq<seq<Envelope>>, written: nat, e: Envelope, ok: bool)
    requires shards != []
    ensures var packed, fits := Packed(c, shards, written, e, ok), written + e.bytes <= c.shardMax;
            var last := if fits then |shards| - 1 else |shards|;
            && |packed| == last + 1
            && forall j :: 0 <= j < |packed| ==>
                 packed[j] == (if j < |shards| then shards[j] else []) + (if ok && j == last then [e] else [])
  {
  }

  lemma NothingYet(c: Setup, es: seq<Envelope>, results: seq<bool>, j: nat)
    requires |es| == |results| && Latest(Places(c, es, results)) < j
    ensures Lines(es, results, Places(c, es, results), j) == []
  {
    hide Places;
    hide Lines;
    forall r | 0 <= r < |es|
      ensures Places(c, es, results)[r] < j
    {
      PlacesAscend(c, es, results, r);
    }
    NothingBeyond(es, results, Places(c, es, results), j);
  }

  lemma PackStep(c: Setup, s: State, step: Step)
    requires Inv(c, s) && PackInv(c, s) && Enabled(c, s, step)
    ensures PackInv(c, Do(c, s, step))
  {
    hide Bump;
    hide Items;
    hide Kept;
    hide Concat;
    hide Lines;
    hide Places;
    var k := |s.results|;
    var es := s.accepted[..k];
    var s' := Do(c, s, step);
    if step.Write? {
      PackWrite(c, s, step.ok);
    } else {
      assert s'.shards == s.shards && s'.results == s.results && s.accepted <= s'.accepted;
      assert s'.accepted[..k] == es;
    }
  }

  lemma PackWrite(c: Setup, s: State, ok: bool)
    requires Inv(c, s) && PackInv(c, s) && Enabled(c, s, Write(ok))
    ensures PackInv(c, Do(c, s, Write(ok)))
  {
    hide Lines;
    hide Places;
    hide Packed;
    hide Load;
    WritePacks(c, s, ok);
    LastLoad(c, s);
    NextRow(c, s);
    hide Do;
    hide Inv;
    var es, e := s.accepted[..|s.results|], s.writer.e;
    assert s.accepted[..|s.results| + 1] == es + [e];
    PackedLines(c, es, s.results, s.shards, s.written, e, ok);
  }

  lemma NextRow(c: Setup, s: State)
    requires Inv(c, s) && s.writer.Counted?
    ensures |s.results| < |s.accepted| && s.accepted[|s.results|] == s.writer.e && s.shards != []
  {
  }

  lemma LastLoad(c: Setup, s: State)
    requires Inv(c, s) && PackInv(c, s)
    ensures var es := s.accepted[..|s.results|];
            var places := Places(c, es, s.results);
            s.written == Load(c, es, s.results, places, Latest(places))
  {
    hide Lines;
    hide Places;
  }

  lemma {:induction false} RunPacks(c: Setup, s: State, steps: seq<Step>)
    requires c.capacity > 0 && Inv(c, s) && PackInv(c, s) && Runs(c, s, steps)
    ensures PackInv(c, After(c, s, steps))
    decreases |steps|
  {
    hide Inv;
    hide PackInv;
    hide Do;
    if steps == [] {
    } else {
      PackStep(c, s, steps[0]);
      StepKeeps(c, s, steps[0]);
      RunPacks(c, Do(c, s, steps[0]), steps[1..]);
    }
  }

  /** Over every run, every shard holds exactly the lines sent to it, and the last shard is that of the last
      line tried. */
  lemma ShardsArePacked(c: Setup, s: State)
    requires c.capacity > 0 && Reachable(c, s)
    ensures PackInv(c, s)
  {
    hide Inv;
    hide Do;
    var steps :| Runs(c, Init(c), steps) && After(c, Init(c), steps) == s;
    InitInv(c);
    RunPacks(c, Init(c), steps);
  }

  // ---- No shard too many ----

  /** Row r is the first line tried after shard i, and did not fit beside what that shard holds. */
  ghost predicate Overflows(c: Setup, es: seq<Envelope>, results: seq<bool>, i: nat, r: nat)
    requires |es| == |results|
  {
    var places := Places(c, es, results);
    && r < |es| && places[r] == i + 1 && (forall q :: 0 <= q < r ==> places[q] <= i)
    && Load(c, es, results, places, i) + es[r].bytes > c.shardMax
  }

  lemma {:induction false} SomethingOverflows(c: Setup, es: seq<Envelope>, results: seq<bool>, i: nat) returns (r: nat)
    requires |es| == |results| && i < Latest(Places(c, es, results))
    ensures Overflows(c, es, results, i, r)
  {
    hide Lines;
    hide Places;
    var n := |es| - 1;
    LatestOf(c, es, results);
    var es', results', e, ok := es[..n], results[..n], es[n], results[n];
    assert es == es' + [e] && results == results' + [ok];
    var before := Places(c, es', results');
    PlacesExtend(c, es', results', e, ok);
    var p := Latest(Places(c, es, results));
    assert Places(c, es, results) == before + [p];
    LinesExtend(es', results', before, e, ok, p, i);
    assert Lines(es', results', before, i) + [] == Lines(es', results', before, i);
    assert Load(c, es, results, before + [p], i) == Load(c, es', results', before, i);
    if i < Latest(before) {
      r := SomethingOverflows(c, es', results', i);
    } else {
      r := n;
      forall q | 0 <= q < n
        ensures before[q] <= i
      {
        PlacesAscend(c, es', results', q);
      }
    }
  }

  lemma LatestOf(c: Setup, es: seq<Envelope>, results: seq<bool>)
    requires |es| == |results|
    ensures Latest(Places(c, es, results)) > 0 ==> es != []
  {
  }

  /** A shard is left only because the next line tried did not fit. */
  lemma LeftOnlyWhenFull(c: Setup, s: State, i: nat) returns (r: nat)
    requires c.capacity > 0 && Reachable(c, s) && i + 1 < |s.shards|
    ensures r < |s.results| <= |s.accepted|
    ensures BytesCounted(c, s.shards, i) + s.accepted[r].bytes > c.shardMax
    ensures Overflows(c, s.accepted[..|s.results|], s.results, i, r)
  {
    hide Places;
    hide Lines;
    ShardsArePacked(c, s);
    r := SomethingOverflows(c, s.accepted[..|s.results|], s.results, i);
  }

  lemma {:induction false} BytesOfLines(es: seq<Envelope>, results: seq<bool>, places: seq<nat>, j: nat)
    requires |es| == |results| == |places|
    ensures Bytes(Lines(es, results, places, j)) <= Bytes(es)
  {
    if es == [] {
    } else {
      var n := |es| - 1;
      var lines := Lines(es[..n], results[..n], places[..n], j);
      BytesOfLines(es[..n], results[..n], places[..n], j);
      BytesAppend(lines, es[n]);
      assert lines + [] == lines;
    }
  }

  lemma {:induction false} AllFit(c: Setup, es: seq<Envelope>, results: seq<bool>)
    requires |es| == |results| && c.existing(0) + Bytes(es) <= c.shardMax
    ensures Latest(Places(c, es, results)) == 0
  {
    hide Lines;
    if es == [] {
    } else {
      var n := |es| - 1;
      AllFit(c, es[..n], results[..n]);
      BytesOfLines(es[..n], results[..n], Places(c, es[..n], results[..n]), 0);
    }
  }

  /** As long as everything counted fits in the first shard, there is no other. */
  lemma OneShardIsEnough(c: Setup, s: State)
    requires c.capacity > 0 && Reachable(c, s) && s.rows <= |s.accepted|
    requires c.existing(0) + Bytes(s.accepted[..s.rows]) <= c.shardMax
    ensures |s.shards| == 1
  {
    hide Places;
    hide Lines;
    ShardsArePacked(c, s);
    ReachableInv(c, s);
    var es, k := s.accepted[..s.rows], |s.results|;
    assert es[..k] == s.accepted[..k];
    BytesOfPrefix(es, k);
    AllFit(c, es[..k], s.results);
  }

  lemma {:induction false} BytesOfPrefix(es: seq<Envelope>, k: nat)
    requires k <= |es|
    ensures Bytes(es[..k]) <= Bytes(es)
  {
    if k == |es| {
      assert es[..k] == es;
    } else {
      var n := |es| - 1;
      BytesOfPrefix(es[..n], k);
      assert es[..n][..k] == es[..k];
    }
  }
}

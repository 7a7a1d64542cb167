/** The order of a validated chain: the chains of the parents in the order they are listed, each stamp at its
    first occurrence, and then the object. */
module AuditOrder {
  import opened AuditTrail
  import opened AuditWalk
  import opened AuditProof

  // ---- Merging chains ----

  ghost function Add(chain: seq<Stamp>, s: Stamp): seq<Stamp> {
    if s.objectId in Ids(chain) then chain else chain + [s]
  }

  /** One chain after another, without the stamps that are already there. */
  ghost function Merge(chain: seq<Stamp>, more: seq<Stamp>): seq<Stamp> {
    if more == [] then chain else Add(Merge(chain, more[..|more| - 1]), more[|more| - 1])
  }

  ghost function Chain(t: Trail, id: string): seq<Stamp> {
    Walk(t, NOTHING_WALKED, id).ordered
  }

  /** The chains of the parents, one after the other. */
  ghost function MergeAll(t: Trail, chain: seq<Stamp>, parents: seq<string>): seq<Stamp>
    decreases |parents|
  {
    if parents == [] then chain else MergeAll(t, Merge(chain, Chain(t, parents[0])), parents[1..])
  }

  lemma {:induction false} MergeIds(chain: seq<Stamp>, more: seq<Stamp>)
    ensures Ids(Merge(chain, more)) == Ids(chain) + Ids(more)
  {
    if more == [] {
      assert Ids(more) == {};
    } else {
      var init, s := more[..|more| - 1], more[|more| - 1];
      MergeIds(chain, init);
      assert more == init + [s];
      IdsAppend(init, s);
      IdsAppend(Merge(chain, init), s);
    }
  }

  lemma MergeAdd(a: seq<Stamp>, b: seq<Stamp>, s: Stamp)
    ensures Merge(a, Add(b, s)) == Add(Merge(a, b), s)
  {
    MergeIds(a, b);
    if s.objectId !in Ids(b) {
      assert (b + [s])[..|b|] == b;
    }
  }

  lemma {:induction false} MergeAssociates(a: seq<Stamp>, b: seq<Stamp>, c: seq<Stamp>)
    ensures Merge(a, Merge(b, c)) == Merge(Merge(a, b), c)
  {
    hide Add;
    if c == [] {
    } else {
      var init, s := c[..|c| - 1], c[|c| - 1];
      MergeAssociates(a, b, init);
      MergeAdd(a, Merge(b, init), s);
    }
  }

  lemma {:induction false} MergeAllAssociates(t: Trail, a: seq<Stamp>, b: seq<Stamp>, parents: seq<string>)
    ensures Merge(a, MergeAll(t, b, parents)) == MergeAll(t, Merge(a, b), parents)
    decreases |parents|
  {
    hide Merge;
    hide Chain;
    if parents == [] {
    } else {
      var c := Chain(t, parents[0]);
      MergeAllAssociates(t, a, Merge(b, c), parents[1..]);
      MergeAssociates(a, b, c);
    }
  }

  lemma {:induction false} MergeKnown(chain: seq<Stamp>, more: seq<Stamp>)
    requires Ids(more) <= Ids(chain)
    ensures Merge(chain, more) == chain
  {
    if more == [] {
    } else {
      var init, s := more[..|more| - 1], more[|more| - 1];
      assert more == init + [s];
      IdsAppend(init, s);
      MergeKnown(chain, init);
    }
  }

  // ---- Merged chains are chains ----

  lemma ClosedAdd(t: Trail, chain: seq<Stamp>, s: Stamp)
    requires Closed(t, chain) && s.objectId in t.stamps && t.stamps[s.objectId] == s
    requires forall p :: p in s.parentIds ==> p in Ids(chain)
    ensures Closed(t, Add(chain, s))
  {
    if s.objectId !in Ids(chain) {
      var longer := chain + [s];
      forall i, p | 0 <= i < |longer| && p in longer[i].parentIds
        ensures p in Ids(longer[..i])
      {
        if i < |chain| {
          assert longer[..i] == chain[..i];
        } else {
          assert longer[..i] == chain;
        }
      }
      forall i, j | 0 <= i < j < |longer|
        ensures longer[i].objectId != longer[j].objectId
      {
        assert longer[i].objectId in Ids(chain);
      }
    }
  }

  lemma ClosedPrefix(t: Trail, chain: seq<Stamp>)
    requires Closed(t, chain) && chain != []
    ensures var n := |chain| - 1; Closed(t, chain[..n]) && forall p :: p in chain[n].parentIds ==> p in Ids(chain[..n])
  {
    var n := |chain| - 1;
    forall i, p | 0 <= i < n && p in chain[..n][i].parentIds
      ensures p in Ids(chain[..n][..i])
    {
      assert chain[..n][..i] == chain[..i];
    }
  }

  lemma {:induction false} MergeClosed(t: Trail, chain: seq<Stamp>, more: seq<Stamp>)
    requires Closed(t, chain) && Closed(t, more)
    ensures Closed(t, Merge(chain, more))
  {
    if more == [] {
    } else {
      hide Add;
      var init := more[..|more| - 1];
      ClosedPrefix(t, more);
      MergeClosed(t, chain, init);
      MergeIds(chain, init);
      ClosedAdd(t, Merge(chain, init), more[|more| - 1]);
    }
  }

  // ---- Ancestors have shorter chains ----

  lemma ChainOfComplete(t: Trail, id: string)
    requires ValidTrail(t) && CompleteChain(t, id)
    ensures id in t.stamps && id != "" && Validate(t, id) == Complete(Chain(t, id))
    ensures Walk(t, NOTHING_WALKED, id).issues == [] && Closed(t, Chain(t, id))
    ensures forall x :: x in Ids(Chain(t, id)) <==> Reaches(t, id, x)
  {
    hide Walk;
    hide Reaches;
    RootReachesItself(t, id);
    assert Explained(t, id);
    ValidateIff(t, id);
    ChainIsAncestry(t, id);
    WholeWalk(t, id);
  }

  lemma ParentReaches(t: Trail, id: string, p: string, x: string)
    requires id in t.stamps && p in t.stamps[id].parentIds && Reaches(t, p, x)
    ensures Reaches(t, id, x)
  {
    var path :| Path(t, path) && path[0] == p && path[|path| - 1] == x;
    var longer := [id] + path;
    assert longer[|longer| - 1] == x;
    forall i | 0 <= i < |longer| - 1
      ensures longer[i] in t.stamps && longer[i + 1] in t.stamps[longer[i]].parentIds
    {
      if i > 0 {
        assert longer[i] == path[i - 1] && longer[i + 1] == path[i];
      }
    }
    assert Path(t, longer);
  }

  lemma WayBackIsCycle(t: Trail, id: string, p: string)
    requires id in t.stamps && p in t.stamps[id].parentIds && Reaches(t, p, id)
    ensures OnCycle(t, id)
  {
    var path :| Path(t, path) && path[0] == p && path[|path| - 1] == id;
    var c := [id] + path;
    forall i | 0 <= i < |c| - 1
      ensures c[i] in t.stamps && c[i + 1] in t.stamps[c[i]].parentIds
    {
      if i > 0 {
        assert c[i] == path[i - 1] && c[i + 1] == path[i];
      }
    }
    assert Path(t, c) && |c| > 1 && c[0] == id && c[|c| - 1] == id;
  }

  lemma NoWayBack(t: Trail, id: string, p: string)
    requires id in t.stamps && p in t.stamps[id].parentIds && !OnCycle(t, id)
    ensures !Reaches(t, p, id)
  {
    hide OnCycle;
    hide Reaches;
    if Reaches(t, p, id) {
      WayBackIsCycle(t, id, p);
    }
  }

  lemma ParentIsComplete(t: Trail, id: string, p: string)
    requires ValidTrail(t) && CompleteChain(t, id) && id in t.stamps && p in t.stamps[id].parentIds
    ensures CompleteChain(t, p) && |Chain(t, p)| < |Chain(t, id)|
  {
    hide Walk;
    forall x | Reaches(t, p, x)
      ensures Explained(t, x) && Reaches(t, id, x)
    {
      ParentReaches(t, id, p, x);
    }
    ChainOfComplete(t, id);
    ChainOfComplete(t, p);
    hide Reaches;
    RootReachesItself(t, id);
    assert Explained(t, id);
    NoWayBack(t, id, p);
    CountIds(Chain(t, id));
    CountIds(Chain(t, p));
    SubsetSize(Ids(Chain(t, p)), Ids(Chain(t, id)) - {id});
  }

  // ---- The walk merges ----

  ghost predicate Ready(t: Trail, st: Walked) {
    Closed(t, st.ordered) && st.visited == Ids(st.ordered)
  }

  lemma AncestorKnown(t: Trail, chain: seq<Stamp>, id: string, x: string)
    requires Closed(t, chain) && id in Ids(chain) && Reaches(t, id, x)
    ensures x in Ids(chain)
  {
    hide Closed;
    hide Ids;
    var p :| Path(t, p) && p[0] == id && p[|p| - 1] == x;
    PathDescends(t, chain, p, |p| - 1);
  }

  lemma KnownAncestors(t: Trail, chain: seq<Stamp>, id: string)
    requires ValidTrail(t) && Closed(t, chain) && id in Ids(chain) && CompleteChain(t, id)
    ensures Merge(chain, Chain(t, id)) == chain
  {
    hide Chain;
    hide Closed;
    hide Reaches;
    hide Ids;
    hide CompleteChain;
    hide Merge;
    ChainOfComplete(t, id);
    forall x | x in Ids(Chain(t, id))
      ensures x in Ids(chain)
    {
      AncestorKnown(t, chain, id, x);
    }
    MergeKnown(chain, Chain(t, id));
  }

  /** What the parents' chains add to a chain without the object. */
  lemma {:induction false} ParentsMerged(t: Trail, chain: seq<Stamp>, id: string, parents: seq<string>)
    requires ValidTrail(t) && CompleteChain(t, id) && id in t.stamps && Closed(t, chain) && id !in Ids(chain)
    requires forall p :: p in parents ==> p in t.stamps[id].parentIds
    ensures Closed(t, MergeAll(t, chain, parents)) && id !in Ids(MergeAll(t, chain, parents))
    ensures Ids(chain) <= Ids(MergeAll(t, chain, parents))
    ensures forall p :: p in parents ==> p in Ids(MergeAll(t, chain, parents))
    decreases |parents|
  {
    hide Merge;
    hide Chain;
    hide Closed;
    if parents == [] {
    } else {
      var p := parents[0];
      var more := Chain(t, p);
      OneParent(t, id, p);
      MergeIds(chain, more);
      MergeClosed(t, chain, more);
      ParentsMerged(t, Merge(chain, more), id, parents[1..]);
    }
  }

  lemma OneParent(t: Trail, id: string, p: string)
    requires ValidTrail(t) && CompleteChain(t, id) && id in t.stamps && p in t.stamps[id].parentIds
    ensures CompleteChain(t, p) && |Chain(t, p)| < |Chain(t, id)|
    ensures Closed(t, Chain(t, p)) && id !in Ids(Chain(t, p)) && p in Ids(Chain(t, p))
  {
    hide Chain;
    hide Closed;
    RootReachesItself(t, id);
    assert Explained(t, id);
    hide Reaches;
    ParentIsComplete(t, id, p);
    ChainOfComplete(t, p);
    NoWayBack(t, id, p);
    RootReachesItself(t, p);
  }

  lemma {:induction false} WalkMerges(t: Trail, st: Walked, id: string)
    requires ValidTrail(t) && CompleteChain(t, id) && Ready(t, st) && Walk(t, st, id).issues == []
    ensures Walk(t, st, id).ordered == Merge(st.ordered, Chain(t, id)) && Ready(t, Walk(t, st, id))
    decreases |Chain(t, id)|, 2, 0
  {
    ChainOfComplete(t, id);
    if id in st.visited {
      KnownAncestors(t, st.ordered, id);
    } else {
      hide Merge;
      hide MergeAll;
      hide Chain;
      hide CompleteChain;
      hide Closed;
      hide Walk;
      hide WalkParents;
      var parents := t.stamps[id].parentIds;
      WalkOpens(t, st, id);
      WalkParentsMerges(t, Open(t, st, id), id, parents);
      ChainMerges(t, id);
      ParentsMerged(t, st.ordered, id, parents);
      ClosesReady(t, WalkParents(t, Open(t, st, id), id, parents), id);
      MergeObject(t, st.ordered, id);
    }
  }

  lemma MergeObject(t: Trail, chain: seq<Stamp>, id: string)
    requires ValidTrail(t) && CompleteChain(t, id) && id in t.stamps
    ensures var s := t.stamps[id];
            Merge(chain, MergeAll(t, [], s.parentIds) + [s]) == Add(MergeAll(t, chain, s.parentIds), s)
  {
    hide Merge;
    hide MergeAll;
    hide CompleteChain;
    var s := t.stamps[id];
    var before := MergeAll(t, [], s.parentIds);
    NothingClosed(t);
    hide Closed;
    ParentsMerged(t, [], id, s.parentIds);
    MergeAllAssociates(t, chain, [], s.parentIds);
    MergeEmpty(chain);
    MergeAdd(chain, before, s);
  }

  lemma NothingClosed(t: Trail)
    ensures Closed(t, []) && Ids([]) == {}
  {
  }

  lemma MergeEmpty(chain: seq<Stamp>)
    ensures Merge(chain, []) == chain
  {
  }

  lemma WalkOpens(t: Trail, st: Walked, id: string)
    requires Ready(t, st) && id in t.stamps && id !in st.visited && Walk(t, st, id).issues == []
    ensures id !in st.visiting && Ready(t, Open(t, st, id)) && Open(t, st, id).ordered == st.ordered
    ensures WalkParents(t, Open(t, st, id), id, t.stamps[id].parentIds).issues == []
    ensures Walk(t, st, id) == Close(t, WalkParents(t, Open(t, st, id), id, t.stamps[id].parentIds), id)
  {
  }

  lemma ClosesReady(t: Trail, st: Walked, id: string)
    requires ValidTrail(t) && Ready(t, st) && id in t.stamps && id !in Ids(st.ordered)
    requires forall p :: p in t.stamps[id].parentIds ==> p in Ids(st.ordered)
    ensures Ready(t, Close(t, st, id)) && Close(t, st, id).ordered == Add(st.ordered, t.stamps[id])
  {
    hide Closed;
    var s := t.stamps[id];
    ClosedAdd(t, st.ordered, s);
    IdsAppend(st.ordered, s);
  }

  lemma {:induction false} WalkParentsMerges(t: Trail, st: Walked, id: string, parents: seq<string>)
    requires ValidTrail(t) && CompleteChain(t, id) && id in t.stamps && Ready(t, st)
    requires forall p :: p in parents ==> p in t.stamps[id].parentIds
    requires WalkParents(t, st, id, parents).issues == []
    ensures WalkParents(t, st, id, parents).ordered == MergeAll(t, st.ordered, parents)
    ensures Ready(t, WalkParents(t, st, id, parents))
    decreases |Chain(t, id)|, 0, |parents|
  {
    hide Merge;
    hide Chain;
    hide CompleteChain;
    hide Closed;
    hide Walk;
    if parents == [] {
    } else {
      var p := parents[0];
      var timed := st.(issues := st.issues + TimeIssues(t, id, p));
      var walked := Walk(t, timed, p);
      assert WalkParents(t, st, id, parents) == WalkParents(t, walked, id, parents[1..]);
      assert walked.issues <= WalkParents(t, walked, id, parents[1..]).issues;
      OneParent(t, id, p);
      WalkMerges(t, timed, p);
      WalkParentsMerges(t, walked, id, parents[1..]);
    }
  }

  /** The chain of an object with a complete ancestry is its parents' chains, in the order its stamp lists them
      and each stamp at its first occurrence, and then the object. */
  lemma {:induction false} ChainMerges(t: Trail, id: string)
    requires ValidTrail(t) && CompleteChain(t, id)
    ensures id in t.stamps && Chain(t, id) == MergeAll(t, [], t.stamps[id].parentIds) + [t.stamps[id]]
    decreases |Chain(t, id)|, 1, 0
  {
    ChainOfComplete(t, id);
    hide MergeAll;
    hide CompleteChain;
    hide Merge;
    NothingClosed(t);
    hide Closed;
    WalkOpens(t, NOTHING_WALKED, id);
    hide Walk;
    WalkParentsMerges(t, Open(t, NOTHING_WALKED, id), id, t.stamps[id].parentIds);
    hide WalkParents;
    var r := WalkParents(t, Open(t, NOTHING_WALKED, id), id, t.stamps[id].parentIds);
    assert Chain(t, id) == Close(t, r, id).ordered;
  }

  /** The same of what the validator returns. */
  lemma ValidatedOrder(t: Trail, root: string)
    requires ValidTrail(t) && Validate(t, root).Complete?
    ensures root in t.stamps
    ensures Validate(t, root).chain == MergeAll(t, [], t.stamps[root].parentIds) + [t.stamps[root]]
    ensures forall p :: p in t.stamps[root].parentIds ==> Validate(t, p) == Complete(Chain(t, p))
  {
    hide MergeAll;
    hide Walk;
    hide CompleteChain;
    NotEmptyId(t, root);
    ValidateIff(t, root);
    ChainOfComplete(t, root);
    ChainMerges(t, root);
    forall p | p in t.stamps[root].parentIds
      ensures Validate(t, p) == Complete(Chain(t, p))
    {
      OneParent(t, root, p);
      ChainOfComplete(t, p);
    }
  }

  lemma NotEmptyId(t: Trail, root: string)
    requires Validate(t, root).Complete?
    ensures root != ""
  {
  }
}

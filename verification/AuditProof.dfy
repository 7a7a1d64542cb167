/** The walk decides completeness exactly, and its output is a topological order of the ancestors. */
module AuditProof {
  import opened AuditTrail
  import opened AuditWalk

  // ---- What every step of the walk keeps ----

  /** Each stamp has been expanded at most once, only ancestors were touched, every issue is true, and
      as long as there is no issue the output is parents-first and its stamps are in order. */
  ghost predicate Inv(t: Trail, root: string, st: Walked) {
    && st.visited == Ids(st.ordered)
    && NoRepeats(st.ordered)
    && (forall i :: 0 <= i < |st.ordered| ==> Genuine(t, root, st.ordered[i]))
    && (forall i :: 0 <= i < |st.issues| ==> Holds(t, root, st.issues[i]))
    && (st.issues == [] ==> Settled(t, st.ordered))
    && st.visited !! st.visiting
  }

  ghost predicate Genuine(t: Trail, root: string, s: Stamp) {
    s.objectId in t.stamps && t.stamps[s.objectId] == s && Reaches(t, root, s.objectId)
  }

  ghost predicate Settled(t: Trail, chain: seq<Stamp>) {
    Topological(chain) && forall i :: 0 <= i < |chain| ==> InOrder(t, chain[i].objectId)
  }

  ghost predicate InOrder(t: Trail, id: string) {
    id in t.stamps && LinksAgree(t, id) && NoLaterParent(t, id)
  }

  /** The ids being expanded form a path from the root down to the id about to be walked. */
  ghost predicate Stack(t: Trail, root: string, stack: seq<string>, visiting: set<string>, id: string) {
    && Path(t, stack + [id])
    && (stack + [id])[0] == root
    && visiting == set x | x in stack
  }

  lemma StackReaches(t: Trail, root: string, stack: seq<string>, visiting: set<string>, id: string)
    requires Stack(t, root, stack, visiting, id)
    ensures Reaches(t, root, id)
  {
    var p := stack + [id];
    assert p[|p| - 1] == id;
  }

  lemma StackCycle(t: Trail, root: string, stack: seq<string>, visiting: set<string>, id: string)
    requires Stack(t, root, stack, visiting, id) && id in visiting
    ensures OnCycle(t, id)
  {
    var i :| 0 <= i < |stack| && stack[i] == id;
    var whole := stack + [id];
    var p := whole[i..];
    forall k | 0 <= k < |p| - 1
      ensures p[k] in t.stamps && p[k + 1] in t.stamps[p[k]].parentIds
    {
      assert p[k] == whole[i + k] && p[k + 1] == whole[i + k + 1];
    }
    assert Path(t, p) && p[0] == id && p[|p| - 1] == id;
  }

  lemma StackPush(t: Trail, root: string, stack: seq<string>, visiting: set<string>, id: string, parent: string)
    requires Stack(t, root, stack, visiting, id) && id in t.stamps && parent in t.stamps[id].parentIds
    ensures Stack(t, root, stack + [id], visiting + {id}, parent)
  {
    var whole := stack + [id] + [parent];
    forall i | 0 <= i < |whole| - 1
      ensures whole[i] in t.stamps && whole[i + 1] in t.stamps[whole[i]].parentIds
    {
      if i < |stack| {
        assert (stack + [id])[i] == whole[i] && (stack + [id])[i + 1] == whole[i + 1];
      }
    }
  }

  // ---- Issues ----

  lemma {:induction false} UnmatchedAreTrue(id: string, parents: seq<string>, others: seq<string>, missing: bool)
    ensures Unmatched(id, parents, others, missing) == [] <==> forall p :: p in parents ==> p in others
    ensures forall i :: 0 <= i < |Unmatched(id, parents, others, missing)| ==>
      var x := Unmatched(id, parents, others, missing)[i];
      && x.objectId == id && (if missing then x.reason.MissingLink? else x.reason.UnexpectedLink?)
      && x.reason.parent in parents && x.reason.parent !in others
  {
    if parents == [] {
    } else {
      UnmatchedAreTrue(id, parents[1..], others, missing);
    }
  }

  lemma LinkIssuesAreTrue(t: Trail, root: string, id: string)
    requires id in t.stamps && Reaches(t, root, id)
    ensures LinkIssues(t, id) == [] <==> LinksAgree(t, id)
    ensures forall i :: 0 <= i < |LinkIssues(t, id)| ==> Holds(t, root, LinkIssues(t, id)[i])
  {
    var parents := t.stamps[id].parentIds;
    var linked := LinkedParents(Lineage(t, id));
    UnmatchedAreTrue(id, parents, linked, true);
    UnmatchedAreTrue(id, linked, parents, false);
  }

  lemma IdsAppend(chain: seq<Stamp>, s: Stamp)
    ensures Ids(chain + [s]) == Ids(chain) + {s.objectId}
  {
    forall x | x in Ids(chain)
      ensures x in Ids(chain + [s])
    {
      var i :| 0 <= i < |chain| && chain[i].objectId == x;
      assert (chain + [s])[i].objectId == x;
    }
    assert (chain + [s])[|chain|].objectId == s.objectId;
  }

  // ---- The walk keeps the invariant ----

  lemma AddIssueKeeps(t: Trail, root: string, st: Walked, more: seq<Issue>)
    requires Inv(t, root, st) && forall i :: 0 <= i < |more| ==> Holds(t, root, more[i])
    ensures Inv(t, root, st.(issues := st.issues + more))
  {
    hide Holds;
    hide Genuine;
    hide Settled;
  }

  lemma CloseKeeps(t: Trail, root: string, st: Walked, id: string)
    requires ValidTrail(t) && Inv(t, root, st) && id in t.stamps && Reaches(t, root, id)
    requires id in st.visiting && id !in st.visited
    requires st.issues == [] ==> InOrder(t, id) && forall p :: p in t.stamps[id].parentIds ==> p in st.visited
    ensures Inv(t, root, Close(t, st, id))
  {
    hide Holds;
    hide Reaches;
    hide InOrder;
    var s := t.stamps[id];
    var chain := st.ordered + [s];
    IdsAppend(st.ordered, s);
    assert NoRepeats(chain) by {
      forall i, j | 0 <= i < j < |chain|
        ensures chain[i].objectId != chain[j].objectId
      {
        assert chain[i].objectId in Ids(st.ordered);
      }
    }
    if st.issues == [] {
      forall i, p | 0 <= i < |chain| && p in chain[i].parentIds
        ensures p in Ids(chain[..i])
      {
        if i < |st.ordered| {
          assert chain[..i] == st.ordered[..i];
        } else {
          assert chain[..i] == st.ordered;
        }
      }
    }
  }

  lemma {:induction false} WalkKeeps(t: Trail, root: string, st: Walked, id: string, stack: seq<string>)
    requires ValidTrail(t) && Inv(t, root, st) && Stack(t, root, stack, st.visiting, id)
    ensures var r := Walk(t, st, id); Inv(t, root, r) && (r.issues == [] ==> id in r.visited)
    decreases Unvisited(t, st), 0
  {
    hide Inv;
    hide Stack;
    hide Holds;
    hide Reaches;
    StackReaches(t, root, stack, st.visiting, id);
    if id in st.visiting {
      StackCycle(t, root, stack, st.visiting, id);
      var issue := Issue(id, Cycle);
      assert Holds(t, root, issue) by { HoldsCycle(t, root, id); }
      AddIssueKeeps(t, root, st, [issue]);
    } else if id in st.visited {
    } else if id !in t.stamps {
      var issue := Issue(id, MissingStamp);
      assert Holds(t, root, issue) by { HoldsMissing(t, root, id); }
      AddIssueKeeps(t, root, st, [issue]);
    } else {
      var begun := Open(t, st, id);
      var parents := t.stamps[id].parentIds;
      OpenShrinks(t, st, id);
      LinkIssuesAreTrue(t, root, id);
      OpenKeeps(t, root, st, id);
      WalkParentsKeeps(t, root, begun, id, parents, stack, st.visiting);
      var walked := WalkParents(t, begun, id, parents);
      if walked.issues == [] {
        assert begun.issues == [] && LinkIssues(t, id) == [];
        InOrderFromParents(t, id);
      }
      CloseKeeps(t, root, walked, id);
    }
  }

  lemma HoldsCycle(t: Trail, root: string, id: string)
    requires Reaches(t, root, id) && OnCycle(t, id)
    ensures Holds(t, root, Issue(id, Cycle))
  {
  }

  lemma HoldsMissing(t: Trail, root: string, id: string)
    requires Reaches(t, root, id) && id !in t.stamps
    ensures Holds(t, root, Issue(id, MissingStamp))
  {
  }

  lemma OpenKeeps(t: Trail, root: string, st: Walked, id: string)
    requires Inv(t, root, st) && id in t.stamps && id !in st.visited && Reaches(t, root, id)
    ensures Inv(t, root, Open(t, st, id))
  {
    hide Holds;
    hide Genuine;
    hide Settled;
    LinkIssuesAreTrue(t, root, id);
  }

  ghost predicate TimeOk(t: Trail, id: string, parent: string)
    requires id in t.stamps
  {
    TimeIssues(t, id, parent) == []
  }

  lemma InOrderFromParents(t: Trail, id: string)
    requires id in t.stamps && LinksAgree(t, id)
    requires forall p :: p in t.stamps[id].parentIds ==> TimeOk(t, id, p)
    ensures InOrder(t, id)
  {
    forall p | p in t.stamps[id].parentIds && p in t.stamps
      ensures t.stamps[p].producedAt <= t.stamps[id].producedAt
    {
      assert TimeOk(t, id, p);
    }
  }

  lemma {:induction false} WalkParentsKeeps(t: Trail, root: string, st: Walked, id: string, parents: seq<string>,
                                            stack: seq<string>, visiting: set<string>)
    requires ValidTrail(t) && Inv(t, root, st) && id in t.stamps
    requires Stack(t, root, stack, visiting, id) && st.visiting == visiting + {id}
    requires forall p :: p in parents ==> p in t.stamps[id].parentIds
    ensures var r := WalkParents(t, st, id, parents);
            && Inv(t, root, r) && id !in r.visited
            && (r.issues == [] ==> forall p :: p in parents ==> p in r.visited && TimeOk(t, id, p))
    decreases Unvisited(t, st), 1 + |parents|
  {
    hide Inv;
    hide Stack;
    hide Holds;
    if parents == [] {
      InvDisjoint(t, root, st);
    } else {
      var p := parents[0];
      var timed := st.(issues := st.issues + TimeIssues(t, id, p));
      StackReaches(t, root, stack, visiting, id);
      HoldsTime(t, root, id, p);
      AddIssueKeeps(t, root, st, TimeIssues(t, id, p));
      StackPush(t, root, stack, visiting, id, p);
      WalkKeeps(t, root, timed, p, stack + [id]);
      WalkParentsKeeps(t, root, Walk(t, timed, p), id, parents[1..], stack, visiting);
    }
  }

  lemma InvDisjoint(t: Trail, root: string, st: Walked)
    requires Inv(t, root, st)
    ensures st.visited !! st.visiting
  {
  }

  lemma HoldsTime(t: Trail, root: string, id: string, p: string)
    requires id in t.stamps && p in t.stamps[id].parentIds && Reaches(t, root, id)
    ensures forall i :: 0 <= i < |TimeIssues(t, id, p)| ==> Holds(t, root, TimeIssues(t, id, p)[i])
  {
  }

  // ---- From the final order back to the graph ----

  lemma RootReachesItself(t: Trail, root: string)
    ensures Reaches(t, root, root) && Stack(t, root, [], {}, root)
  {
    var p := [root];
    assert [] + [root] == p;
    assert Path(t, p) && p[0] == root && p[|p| - 1] == root;
  }

  /** Position of an id in the order. */
  ghost function Position(chain: seq<Stamp>, id: string): (i: nat)
    requires id in Ids(chain)
    ensures i < |chain| && chain[i].objectId == id
  {
    var i :| 0 <= i < |chain| && chain[i].objectId == id;
    i
  }

  ghost predicate Closed(t: Trail, chain: seq<Stamp>) {
    && Topological(chain) && NoRepeats(chain)
    && forall i :: 0 <= i < |chain| ==> chain[i].objectId in t.stamps && t.stamps[chain[i].objectId] == chain[i]
  }

  lemma ParentIsEarlier(t: Trail, chain: seq<Stamp>, x: string, p: string)
    requires Closed(t, chain) && x in Ids(chain) && p in t.stamps[x].parentIds
    ensures p in Ids(chain) && Position(chain, p) < Position(chain, x)
  {
    var i := Position(chain, x);
    assert p in Ids(chain[..i]);
    var j :| 0 <= j < i && chain[..i][j].objectId == p;
    assert chain[j].objectId == p;
    assert Position(chain, p) == j;
  }

  /** A path that starts in the order stays in it and moves towards its beginning. */
  lemma {:induction false} PathDescends(t: Trail, chain: seq<Stamp>, p: seq<string>, n: nat)
    requires Closed(t, chain) && Path(t, p) && p[0] in Ids(chain) && n < |p|
    ensures p[n] in Ids(chain) && (n > 0 ==> Position(chain, p[n]) < Position(chain, p[0]))
  {
    if n == 0 {
    } else {
      PathDescends(t, chain, p, n - 1);
      ParentIsEarlier(t, chain, p[n - 1], p[n]);
    }
  }

  lemma SettledIsComplete(t: Trail, root: string, chain: seq<Stamp>)
    requires Closed(t, chain) && Settled(t, chain) && root in Ids(chain)
    ensures CompleteChain(t, root)
    ensures forall x :: Reaches(t, root, x) ==> x in Ids(chain)
  {
    forall x | Reaches(t, root, x)
      ensures x in Ids(chain) && Explained(t, x)
    {
      var p :| Path(t, p) && p[0] == root && p[|p| - 1] == x;
      PathDescends(t, chain, p, |p| - 1);
      assert InOrder(t, chain[Position(chain, x)].objectId);
      if OnCycle(t, x) {
        var c :| Path(t, c) && |c| > 1 && c[0] == x && c[|c| - 1] == x;
        PathDescends(t, chain, c, |c| - 1);
        assert false;
      }
    }
  }

  // ---- Main results ----

  /** What the invariant says of a whole walk. */
  lemma WholeWalk(t: Trail, root: string)
    requires ValidTrail(t)
    ensures var r := Walk(t, NOTHING_WALKED, root);
            && Inv(t, root, r) && r.visited == Ids(r.ordered)
            && (r.issues == [] ==> Closed(t, r.ordered) && Settled(t, r.ordered) && root in Ids(r.ordered))
            && (r.issues != [] ==> Holds(t, root, r.issues[0]))
  {
    hide Holds;
    hide Walk;
    hide Reaches;
    RootReachesItself(t, root);
    assert Inv(t, root, NOTHING_WALKED);
    WalkKeeps(t, root, NOTHING_WALKED, root, []);
  }

  /** Validation succeeds exactly on complete chains. */
  lemma ValidateIff(t: Trail, root: string)
    requires ValidTrail(t) && root != ""
    ensures Validate(t, root).Complete? <==> CompleteChain(t, root)
    ensures Validate(t, root).Rejected? <==> !CompleteChain(t, root)
  {
    hide CompleteChain;
    hide Holds;
    hide Walk;
    hide Inv;
    hide Closed;
    hide Settled;
    WholeWalk(t, root);
    var r := Walk(t, NOTHING_WALKED, root);
    if r.issues == [] {
      SettledIsComplete(t, root, r.ordered);
    } else {
      TruthMeansIncomplete(t, root, r.issues[0]);
    }
  }

  /** The chain is duplicate-free, parents-first, exactly the ancestors and the object, object last. */
  lemma ChainIsAncestry(t: Trail, root: string)
    requires ValidTrail(t) && Validate(t, root).Complete?
    ensures var chain := Validate(t, root).chain;
            && NoRepeats(chain) && Topological(chain)
            && (forall x :: x in Ids(chain) <==> Reaches(t, root, x))
            && (forall i :: 0 <= i < |chain| ==>
                  chain[i].objectId in t.stamps && t.stamps[chain[i].objectId] == chain[i])
            && |chain| > 0 && chain[|chain| - 1].objectId == root
  {
    hide Walk;
    hide Holds;
    hide Reaches;
    hide CompleteChain;
    WholeWalk(t, root);
    var chain := Validate(t, root).chain;
    SettledIsComplete(t, root, chain);
    forall x | x in Ids(chain)
      ensures Reaches(t, root, x)
    {
      assert Genuine(t, root, chain[Position(chain, x)]);
    }
    RootIsLast(t, root);
  }

  lemma RootIsLast(t: Trail, root: string)
    requires ValidTrail(t) && Validate(t, root).Complete?
    ensures var chain := Validate(t, root).chain; |chain| > 0 && chain[|chain| - 1].objectId == root
  {
    hide WalkParents;
  }

  /** A rejection lists only true defects of the object's own ancestry, and at least one. */
  lemma RejectionIsTrue(t: Trail, root: string)
    requires ValidTrail(t) && Validate(t, root).Rejected?
    ensures var issues := Validate(t, root).issues;
            |issues| > 0 && forall i :: 0 <= i < |issues| ==> Holds(t, root, issues[i])
  {
    hide Holds;
    hide Walk;
    hide Reaches;
    WholeWalk(t, root);
  }

  /** Cyclic, incomplete or not, the walk expands no stamp twice and nothing outside the trail. */
  lemma ExpandsEachStampOnce(t: Trail, root: string)
    requires ValidTrail(t)
    ensures var r := Walk(t, NOTHING_WALKED, root);
            NoRepeats(r.ordered) && Ids(r.ordered) <= t.stamps.Keys && |r.ordered| <= |t.stamps|
  {
    hide Holds;
    hide Walk;
    hide Reaches;
    WholeWalk(t, root);
    var chain := Walk(t, NOTHING_WALKED, root).ordered;
    CountIds(chain);
    forall x | x in Ids(chain)
      ensures x in t.stamps
    {
      assert Genuine(t, root, chain[Position(chain, x)]);
    }
    SubsetSize(Ids(chain), t.stamps.Keys);
  }

  lemma {:induction false} CountIds(chain: seq<Stamp>)
    requires NoRepeats(chain)
    ensures |Ids(chain)| == |chain|
  {
    if chain == [] {
    } else {
      var init, s := chain[..|chain| - 1], chain[|chain| - 1];
      CountIds(init);
      assert init + [s] == chain;
      IdsAppend(init, s);
      assert s.objectId !in Ids(init);
    }
  }

  lemma {:induction false} SubsetSize<T>(a: set<T>, b: set<T>)
    requires a <= b
    ensures |a| <= |b|
  {
    if a != {} {
      var x :| x in a;
      SubsetSize(a - {x}, b - {x});
    }
  }

  // ---- Validated chains stay validated ----

  /** t' tells the same story as t about id: the same stamp, and links that still agree with it. */
  ghost predicate StillExplained(t: Trail, t': Trail, id: string) {
    id in t.stamps && id in t'.stamps && t'.stamps[id] == t.stamps[id] && LinkIssues(t', id) == []
  }

  ghost predicate SameOn(t: Trail, t': Trail, ids: set<string>) {
    forall x :: x in ids ==> StillExplained(t, t', x)
  }

  /** A walk without issues takes the same course on any trail that agrees on what it visited. */
  lemma {:induction false} WalkSame(t: Trail, t': Trail, st: Walked, id: string)
    requires Walk(t, st, id).issues == [] && SameOn(t, t', Walk(t, st, id).visited)
    ensures Walk(t', st, id) == Walk(t, st, id) && id in Walk(t, st, id).visited
    decreases Unvisited(t, st), 0
  {
    hide LinkIssues;
    if id !in st.visiting && id !in st.visited && id in t.stamps {
      OpenShrinks(t, st, id);
      var begun := Open(t, st, id);
      var r := WalkParents(t, begun, id, t.stamps[id].parentIds);
      assert Walk(t, st, id) == Close(t, r, id);
      assert StillExplained(t, t', id);
      assert begun.issues <= r.issues;
      WalkParentsSame(t, t', begun, id, t.stamps[id].parentIds);
    }
  }

  lemma {:induction false} WalkParentsSame(t: Trail, t': Trail, st: Walked, id: string, parents: seq<string>)
    requires StillExplained(t, t', id)
    requires WalkParents(t, st, id, parents).issues == [] && SameOn(t, t', WalkParents(t, st, id, parents).visited)
    ensures WalkParents(t', st, id, parents) == WalkParents(t, st, id, parents)
    decreases Unvisited(t, st), 1 + |parents|
  {
    hide LinkIssues;
    if parents == [] {
    } else {
      var p := parents[0];
      var timed := st.(issues := st.issues + TimeIssues(t, id, p));
      var walked := Walk(t, timed, p);
      var r := WalkParents(t, walked, id, parents[1..]);
      assert timed.issues <= walked.issues <= r.issues && walked.visited <= r.visited;
      WalkSame(t, t', timed, p);
      WalkParentsSame(t, t', walked, id, parents[1..]);
      assert StillExplained(t, t', p);
      assert TimeIssues(t', id, p) == TimeIssues(t, id, p);
    }
  }

  lemma ChainIsExplained(t: Trail, root: string)
    requires ValidTrail(t) && Validate(t, root).Complete?
    ensures SameOn(t, t, Ids(Validate(t, root).chain))
  {
    hide Path;
    ValidateIff(t, root);
    ChainIsAncestry(t, root);
    forall x | x in Ids(Validate(t, root).chain)
      ensures StillExplained(t, t, x)
    {
      assert Explained(t, x);
      LinkIssuesAreTrue(t, root, x);
    }
  }

  /** An append that leaves the chain's stamps linked to nothing but their parents. */
  predicate Harmless(chain: seq<Stamp>, op: Op) {
    op.AddLink? ==>
      forall i :: 0 <= i < |chain| && chain[i].objectId == op.link.childId ==> op.link.parentId in chain[i].parentIds
  }

  lemma LinkKeepsAgreement(t: Trail, link: Link, id: string)
    requires ValidTrail(t) && ValidLink(link) && id in t.stamps && LinkIssues(t, id) == []
    ensures LinkIssues(Apply(t, AddLink(link)), id) == [] <==>
      (id == link.childId ==> link.parentId in t.stamps[id].parentIds)
  {
    var t' := Apply(t, AddLink(link));
    assert Reaches(t, id, id) && Reaches(t', id, id) by { RootReachesItself(t, id); RootReachesItself(t', id); }
    LinkIssuesAreTrue(t, id, id);
    LinkIssuesAreTrue(t', id, id);
    LinkedAfter(t, link, id);
  }

  lemma LinkedIff(links: seq<Link>, p: string)
    ensures p in LinkedParents(links) <==> exists i :: 0 <= i < |links| && links[i].parentId == p
  {
    if i :| 0 <= i < |links| && links[i].parentId == p {
      assert LinkedParents(links)[i] == p;
    }
  }

  lemma LinkedAfter(t: Trail, link: Link, id: string)
    requires ValidTrail(t) && ValidLink(link)
    ensures var before := LinkedParents(Lineage(t, id));
            var after := LinkedParents(Lineage(Apply(t, AddLink(link)), id));
            forall p :: p in after <==> p in before || (id == link.childId && p == link.parentId)
  {
    hide ValidTrail;
    var before, after := Lineage(t, id), Lineage(Apply(t, AddLink(link)), id);
    assert after == if id == link.childId && link !in before then before + [link] else before;
    forall p
      ensures p in LinkedParents(after) <==> p in LinkedParents(before) || (id == link.childId && p == link.parentId)
    {
      hide LinkedParents;
      LinkedIff(before, p);
      LinkedIff(after, p);
      if i :| 0 <= i < |before| && before[i].parentId == p {
        assert after[i].parentId == p;
      }
      if id == link.childId {
        var i :| 0 <= i < |after| && after[i] == link;
      }
    }
  }

  lemma HarmlessKeeps(t: Trail, root: string, op: Op)
    requires ValidTrail(t) && ValidOp(op) && Validate(t, root).Complete? && Harmless(Validate(t, root).chain, op)
    ensures Validate(Apply(t, op), root) == Validate(t, root)
  {
    hide LinkIssues;
    var chain := Validate(t, root).chain;
    var t' := Apply(t, op);
    ChainIsExplained(t, root);
    ChainIsAncestry(t, root);
    forall x | x in Ids(chain)
      ensures StillExplained(t, t', x)
    {
      assert StillExplained(t, t, x);
      var i := Position(chain, x);
      match op
      case AddStamp(s) => SameLineage(t, t', x);
      case AddLink(l) => LinkKeepsAgreement(t, l, x);
    }
    WalkVisited(t, root);
    WalkSame(t, t', NOTHING_WALKED, root);
  }

  lemma SameLineage(t: Trail, t': Trail, x: string)
    requires x in t.stamps && x in t'.stamps && t'.stamps[x] == t.stamps[x] && t'.links == t.links
    ensures LinkIssues(t', x) == LinkIssues(t, x)
  {
  }

  lemma WalkVisited(t: Trail, root: string)
    requires ValidTrail(t)
    ensures var r := Walk(t, NOTHING_WALKED, root); r.visited == Ids(r.ordered)
  {
    hide Holds;
    hide Walk;
    hide Reaches;
    WholeWalk(t, root);
  }

  /** Over any further run of appends that are harmless to the chain, the validator keeps returning
      the same chain. */
  lemma {:induction false} ChainSurvives(t: Trail, root: string, ops: seq<Op>)
    requires ValidTrail(t) && Validate(t, root).Complete?
    requires forall i :: 0 <= i < |ops| ==> ValidOp(ops[i]) && Harmless(Validate(t, root).chain, ops[i])
    ensures Validate(ApplyAll(t, ops), root) == Validate(t, root)
    decreases ops
  {
    hide Validate;
    hide Harmless;
    if ops == [] {
    } else {
      HarmlessKeeps(t, root, ops[0]);
      ChainSurvives(Apply(t, ops[0]), root, ops[1..]);
    }
  }

  /** A single append breaks a validated chain exactly when it links one of its objects to something
      that is not its parent. */
  lemma AppendBreaksIff(t: Trail, root: string, op: Op)
    requires ValidTrail(t) && ValidOp(op) && Validate(t, root).Complete?
    ensures Validate(Apply(t, op), root).Complete? <==> Harmless(Validate(t, root).chain, op)
  {
    hide LinkIssues;
    hide Walk;
    var chain := Validate(t, root).chain;
    if Harmless(chain, op) {
      HarmlessKeeps(t, root, op);
    } else {
      var t' := Apply(t, op);
      var i :| 0 <= i < |chain| && chain[i].objectId == op.link.childId && op.link.parentId !in chain[i].parentIds;
      var x := chain[i].objectId;
      ChainIsAncestry(t, root);
      assert x in Ids(chain);
      var p :| Path(t, p) && p[0] == root && p[|p| - 1] == x;
      assert Path(t', p);
      assert Reaches(t', root, x);
      LinkedAfter(t, op.link, x);
      assert !Explained(t', x);
      ValidateIff(t', root);
    }
  }
}

/** The report of a rejection is complete: the walk goes on after an issue and misses no defect. */
module AuditReport {
  import opened AuditTrail
  import opened AuditWalk
  import opened AuditProof

  // ---- What the walk has noted ----

  /** All of the issues have been reported. */
  ghost predicate Reported(st: Walked, more: seq<Issue>) {
    forall i :: 0 <= i < |more| ==> more[i] in st.issues
  }

  /** p was walked: it is expanded, or it has no stamp, or it was met while being expanded. */
  ghost predicate Accounted(t: Trail, st: Walked, p: string) {
    || p in st.visited
    || (p !in t.stamps && Issue(p, MissingStamp) in st.issues)
    || (p in st.visiting && Issue(p, Cycle) in st.issues)
  }

  ghost predicate ParentNoted(t: Trail, st: Walked, id: string, p: string)
    requires id in t.stamps
  {
    Reported(st, TimeIssues(t, id, p)) && Accounted(t, st, p)
  }

  ghost predicate LinksNoted(t: Trail, st: Walked, id: string) {
    id in t.stamps && Reported(st, LinkIssues(t, id))
  }

  ghost predicate FullyNoted(t: Trail, st: Walked, id: string) {
    LinksNoted(t, st, id) && forall p :: p in t.stamps[id].parentIds ==> ParentNoted(t, st, id, p)
  }

  /** A stamped parent comes before its child, or was reported as part of a cycle. */
  ghost predicate Layered(t: Trail, chain: seq<Stamp>, issues: seq<Issue>) {
    forall i, p :: 0 <= i < |chain| && p in chain[i].parentIds ==>
      p in Ids(chain[..i]) || p !in t.stamps || Issue(p, Cycle) in issues
  }

  ghost predicate Noted(t: Trail, st: Walked) {
    && st.visited == Ids(st.ordered)
    && (forall x :: x in st.visiting ==> LinksNoted(t, st, x))
    && (forall x :: x in st.visited ==> FullyNoted(t, st, x))
    && Layered(t, st.ordered, st.issues)
  }

  /** r has gone on from st. */
  ghost predicate Further(st: Walked, r: Walked) {
    st.visiting == r.visiting && st.visited <= r.visited && st.issues <= r.issues
  }

  lemma AccountedStays(t: Trail, st: Walked, r: Walked, p: string)
    requires Accounted(t, st, p) && Further(st, r)
    ensures Accounted(t, r, p)
  {
  }

  lemma ParentStaysNoted(t: Trail, st: Walked, r: Walked, id: string, p: string)
    requires id in t.stamps && ParentNoted(t, st, id, p) && Further(st, r)
    ensures ParentNoted(t, r, id, p)
  {
    hide TimeIssues;
  }

  // ---- The walk notes everything ----

  lemma MoreIssues(t: Trail, st: Walked, more: seq<Issue>)
    requires Noted(t, st)
    ensures Noted(t, st.(issues := st.issues + more))
  {
    hide LinkIssues;
    hide TimeIssues;
    hide Ids;
    var r := st.(issues := st.issues + more);
    forall x | x in st.visited
      ensures FullyNoted(t, r, x)
    {
      assert FullyNoted(t, st, x);
    }
  }

  lemma OpenNoted(t: Trail, st: Walked, id: string)
    requires Noted(t, st) && id in t.stamps
    ensures Noted(t, Open(t, st, id))
  {
    hide LinkIssues;
    hide TimeIssues;
    hide Ids;
    var r := Open(t, st, id);
    forall x | x in st.visited
      ensures FullyNoted(t, r, x)
    {
      assert FullyNoted(t, st, x);
      forall p | p in t.stamps[x].parentIds
        ensures ParentNoted(t, r, x, p)
      {
        assert ParentNoted(t, st, x, p);
      }
    }
  }

  lemma CloseNoted(t: Trail, st: Walked, id: string)
    requires ValidTrail(t) && Noted(t, st) && id in st.visiting && FullyNoted(t, st, id)
    ensures Noted(t, Close(t, st, id))
  {
    hide LinkIssues;
    hide TimeIssues;
    var s, r := t.stamps[id], Close(t, st, id);
    IdsAppend(st.ordered, s);
    forall x | x in r.visited
      ensures FullyNoted(t, r, x)
    {
      assert FullyNoted(t, st, x);
      forall p | p in t.stamps[x].parentIds
        ensures ParentNoted(t, r, x, p)
      {
        assert ParentNoted(t, st, x, p);
      }
    }
    forall i, p | 0 <= i < |r.ordered| && p in r.ordered[i].parentIds
      ensures p in Ids(r.ordered[..i]) || p !in t.stamps || Issue(p, Cycle) in r.issues
    {
      if i < |st.ordered| {
        assert r.ordered[..i] == st.ordered[..i] && r.ordered[i] == st.ordered[i];
      } else {
        assert r.ordered[..i] == st.ordered && r.ordered[i] == s;
        assert ParentNoted(t, st, id, p);
      }
    }
  }

  lemma {:induction false} WalkNotes(t: Trail, st: Walked, id: string)
    requires ValidTrail(t) && Noted(t, st)
    ensures Noted(t, Walk(t, st, id)) && Accounted(t, Walk(t, st, id), id)
    decreases Unvisited(t, st), 0
  {
    hide Noted;
    hide LinkIssues;
    hide TimeIssues;
    if id in st.visiting {
      MoreIssues(t, st, [Issue(id, Cycle)]);
    } else if id in st.visited {
    } else if id !in t.stamps {
      MoreIssues(t, st, [Issue(id, MissingStamp)]);
    } else {
      var begun, parents := Open(t, st, id), t.stamps[id].parentIds;
      OpenShrinks(t, st, id);
      OpenNoted(t, st, id);
      WalkParentsNotes(t, begun, id, parents);
      var r := WalkParents(t, begun, id, parents);
      LinksStayNoted(t, r, id);
      CloseNoted(t, r, id);
    }
  }

  lemma LinksStayNoted(t: Trail, st: Walked, id: string)
    requires Noted(t, st) && id in st.visiting
    ensures LinksNoted(t, st, id)
  {
  }

  lemma {:induction false} WalkParentsNotes(t: Trail, st: Walked, id: string, parents: seq<string>)
    requires ValidTrail(t) && Noted(t, st) && id in t.stamps
    ensures var r := WalkParents(t, st, id, parents);
            Noted(t, r) && forall p :: p in parents ==> ParentNoted(t, r, id, p)
    decreases Unvisited(t, st), 1 + |parents|
  {
    hide Noted;
    hide LinkIssues;
    hide TimeIssues;
    if parents == [] {
    } else {
      var p := parents[0];
      var timed := st.(issues := st.issues + TimeIssues(t, id, p));
      MoreIssues(t, st, TimeIssues(t, id, p));
      WalkNotes(t, timed, p);
      var walked := Walk(t, timed, p);
      WalkParentsNotes(t, walked, id, parents[1..]);
      assert ParentNoted(t, walked, id, p);
      ParentStaysNoted(t, walked, WalkParents(t, walked, id, parents[1..]), id, p);
    }
  }

  // ---- Nothing is left out ----

  lemma {:induction false} UnmatchedIsComplete(id: string, parents: seq<string>, others: seq<string>, missing: bool,
                                               p: string)
    requires p in parents && p !in others
    ensures Issue(id, if missing then MissingLink(p) else UnexpectedLink(p)) in Unmatched(id, parents, others, missing)
  {
    if parents[0] != p {
      UnmatchedIsComplete(id, parents[1..], others, missing, p);
    }
  }

  /** The final state of a walk. */
  ghost predicate Finished(t: Trail, root: string, r: Walked) {
    Noted(t, r) && r.visiting == {} && Accounted(t, r, root)
  }

  lemma WalkFinishes(t: Trail, root: string)
    requires ValidTrail(t)
    ensures Finished(t, root, Walk(t, NOTHING_WALKED, root))
  {
    hide Walk;
    assert Noted(t, NOTHING_WALKED);
    WalkNotes(t, NOTHING_WALKED, root);
  }

  /** Every ancestor was walked. */
  lemma {:induction false} PathAccounted(t: Trail, root: string, r: Walked, p: seq<string>, n: nat)
    requires Finished(t, root, r) && Path(t, p) && p[0] == root && n < |p|
    ensures Accounted(t, r, p[n])
  {
    if n == 0 {
    } else {
      PathAccounted(t, root, r, p, n - 1);
      assert p[n - 1] in r.visited && FullyNoted(t, r, p[n - 1]);
      assert ParentNoted(t, r, p[n - 1], p[n]);
    }
  }

  lemma DefectIsReported(t: Trail, root: string, r: Walked, issue: Issue)
    requires Finished(t, root, r) && Holds(t, root, issue) && !issue.reason.Cycle?
    ensures issue in r.issues
  {
    hide LinkIssues;
    var x := issue.objectId;
    var path :| Path(t, path) && path[0] == root && path[|path| - 1] == x;
    PathAccounted(t, root, r, path, |path| - 1);
    if !issue.reason.MissingStamp? {
      assert FullyNoted(t, r, x);
      var p := issue.reason.parent;
      if issue.reason.ProducedAfterChild? {
        assert ParentNoted(t, r, x, p);
        assert TimeIssues(t, x, p)[0] == issue;
      } else {
        LinkIsReported(t, root, x, issue);
        assert Reported(r, LinkIssues(t, x));
      }
    }
  }

  lemma LinkIsReported(t: Trail, root: string, x: string, issue: Issue)
    requires Holds(t, root, issue) && issue.objectId == x && (issue.reason.MissingLink? || issue.reason.UnexpectedLink?)
    ensures issue in LinkIssues(t, x)
  {
    var parents, linked, p := t.stamps[x].parentIds, LinkedParents(Lineage(t, x)), issue.reason.parent;
    if issue.reason.MissingLink? {
      UnmatchedIsComplete(x, parents, linked, true, p);
    } else {
      UnmatchedIsComplete(x, linked, parents, false, p);
    }
  }

  // ---- Cycles ----

  /** Some member of the path was reported as part of a cycle. */
  ghost predicate CycleReported(issues: seq<Issue>, c: seq<string>) {
    exists i :: 0 <= i < |c| && Issue(c[i], Cycle) in issues
  }

  ghost predicate Ordered(t: Trail, chain: seq<Stamp>) {
    NoRepeats(chain) && forall i :: 0 <= i < |chain| ==>
      chain[i].objectId in t.stamps && t.stamps[chain[i].objectId] == chain[i]
  }

  lemma UnreportedParentIsEarlier(t: Trail, chain: seq<Stamp>, issues: seq<Issue>, x: string, p: string)
    requires Ordered(t, chain) && Layered(t, chain, issues) && x in Ids(chain) && p in t.stamps[x].parentIds
    requires p in t.stamps && Issue(p, Cycle) !in issues
    ensures p in Ids(chain) && Position(chain, p) < Position(chain, x)
  {
    var i := Position(chain, x);
    assert p in Ids(chain[..i]);
    var j :| 0 <= j < i && chain[..i][j].objectId == p;
    assert chain[j].objectId == p;
    assert Position(chain, p) == j;
  }

  /** Along stamped, unreported ids a path moves towards the beginning of the order. */
  lemma {:induction false} UnreportedDescends(t: Trail, chain: seq<Stamp>, issues: seq<Issue>, c: seq<string>, n: nat)
    requires Ordered(t, chain) && Layered(t, chain, issues) && Path(t, c) && n < |c| && c[0] in Ids(chain)
    requires !CycleReported(issues, c) && forall i :: 0 <= i <= n ==> c[i] in t.stamps
    ensures c[n] in Ids(chain) && (n > 0 ==> Position(chain, c[n]) < Position(chain, c[0]))
  {
    hide Layered;
    if n == 0 {
    } else {
      UnreportedDescends(t, chain, issues, c, n - 1);
      UnreportedParentIsEarlier(t, chain, issues, c[n - 1], c[n]);
    }
  }

  /** A cycle in the ancestry has a member that is reported. */
  lemma CycleIsReported(t: Trail, root: string, r: Walked, c: seq<string>)
    requires Finished(t, root, r) && Ordered(t, r.ordered)
    requires Path(t, c) && |c| > 1 && c[|c| - 1] == c[0] && Reaches(t, root, c[0])
    ensures CycleReported(r.issues, c)
  {
    hide Layered;
    var path :| Path(t, path) && path[0] == root && path[|path| - 1] == c[0];
    PathAccounted(t, root, r, path, |path| - 1);
    if !CycleReported(r.issues, c) {
      UnreportedDescends(t, r.ordered, r.issues, c, |c| - 1);
      assert false;
    }
  }

  /** A rejection lists exactly the defects of the object's ancestry, and for every cycle in it at
      least one member. */
  lemma RejectionIsComplete(t: Trail, root: string)
    requires ValidTrail(t) && Validate(t, root).Rejected?
    ensures var issues := Validate(t, root).issues;
            forall issue: Issue :: !issue.reason.Cycle? ==> (issue in issues <==> Holds(t, root, issue))
    ensures forall c :: Path(t, c) && |c| > 1 && c[|c| - 1] == c[0] && Reaches(t, root, c[0]) ==>
      CycleReported(Validate(t, root).issues, c)
  {
    hide Walk;
    hide Holds;
    hide Path;
    hide Reaches;
    WholeWalk(t, root);
    WalkFinishes(t, root);
    RejectionIsTrue(t, root);
    var r := Walk(t, NOTHING_WALKED, root);
    forall issue: Issue | Holds(t, root, issue) && !issue.reason.Cycle?
      ensures issue in r.issues
    {
      DefectIsReported(t, root, r, issue);
    }
    WalkOrdered(t, root);
    forall c | Path(t, c) && |c| > 1 && c[|c| - 1] == c[0] && Reaches(t, root, c[0])
      ensures CycleReported(r.issues, c)
    {
      CycleIsReported(t, root, r, c);
    }
  }

  lemma WalkOrdered(t: Trail, root: string)
    requires ValidTrail(t)
    ensures Ordered(t, Walk(t, NOTHING_WALKED, root).ordered)
  {
    hide Walk;
    hide Holds;
    hide Reaches;
    WholeWalk(t, root);
    var chain := Walk(t, NOTHING_WALKED, root).ordered;
    forall i | 0 <= i < |chain|
      ensures chain[i].objectId in t.stamps && t.stamps[chain[i].objectId] == chain[i]
    {
      assert Genuine(t, root, chain[i]);
    }
  }

  // ---- The order of the report ----

  /** The names that the other list lacks, in order. */
  function Lacking(names: seq<string>, others: seq<string>): seq<string> {
    if names == [] then []
    else if names[0] in others then Lacking(names[1..], others)
    else [names[0]] + Lacking(names[1..], others)
  }

  lemma {:induction false} UnmatchedInOrder(id: string, names: seq<string>, others: seq<string>, missing: bool)
    ensures |Unmatched(id, names, others, missing)| == |Lacking(names, others)|
    ensures forall k :: 0 <= k < |Lacking(names, others)| ==>
      Unmatched(id, names, others, missing)[k] ==
        Issue(id, if missing then MissingLink(Lacking(names, others)[k]) else UnexpectedLink(Lacking(names, others)[k]))
  {
    if names == [] {
    } else {
      UnmatchedInOrder(id, names[1..], others, missing);
    }
  }

  /** A report on a stamped object starts with its own link issues: the parents without a link in the order the
      stamp lists them, then the links without a parent in the order they were appended. An object without a
      stamp is the only issue. */
  lemma OwnIssuesFirst(t: Trail, root: string)
    requires Validate(t, root).Rejected?
    ensures root !in t.stamps ==> Validate(t, root).issues == [Issue(root, MissingStamp)]
    ensures root in t.stamps ==>
      var issues, parents := Validate(t, root).issues, t.stamps[root].parentIds;
      var linked := LinkedParents(Lineage(t, root));
      var missing, unexpected := Lacking(parents, linked), Lacking(linked, parents);
      && |missing| + |unexpected| <= |issues|
      && (forall k :: 0 <= k < |missing| ==> issues[k] == Issue(root, MissingLink(missing[k])))
      && (forall k :: 0 <= k < |unexpected| ==>
            issues[|missing| + k] == Issue(root, UnexpectedLink(unexpected[k])))
  {
    hide Lacking;
    hide LinkIssues;
    if root in t.stamps {
      hide Walk;
      OpensWithLinks(t, root);
      LinkIssuesInOrder(t, root);
    }
  }

  lemma LinkIssuesInOrder(t: Trail, id: string)
    requires id in t.stamps
    ensures var parents, linked := t.stamps[id].parentIds, LinkedParents(Lineage(t, id));
            var missing, unexpected := Lacking(parents, linked), Lacking(linked, parents);
            && |LinkIssues(t, id)| == |missing| + |unexpected|
            && (forall k :: 0 <= k < |missing| ==> LinkIssues(t, id)[k] == Issue(id, MissingLink(missing[k])))
            && (forall k :: 0 <= k < |unexpected| ==>
                  LinkIssues(t, id)[|missing| + k] == Issue(id, UnexpectedLink(unexpected[k])))
  {
    hide Unmatched;
    hide Lacking;
    var parents, linked := t.stamps[id].parentIds, LinkedParents(Lineage(t, id));
    UnmatchedInOrder(id, parents, linked, true);
    UnmatchedInOrder(id, linked, parents, false);
  }

  lemma OpensWithLinks(t: Trail, root: string)
    requires root in t.stamps
    ensures LinkIssues(t, root) <= Walk(t, NOTHING_WALKED, root).issues
  {
    hide LinkIssues;
    hide WalkParents;
    var begun := Open(t, NOTHING_WALKED, root);
    var r := WalkParents(t, begun, root, t.stamps[root].parentIds);
    assert [] + LinkIssues(t, root) == LinkIssues(t, root);
    assert begun.issues <= r.issues && Walk(t, NOTHING_WALKED, root) == Close(t, r, root);
  }
}

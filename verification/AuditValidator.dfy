/** The validator itself: a recursive walk that updates its lists and sets in place. */
module AuditValidator {
  import opened AuditTrail
  import opened AuditWalk
  import opened AuditProof

  /** The variables captured by the nested walk. */
  class ChainWalk {
    const trail: InMemoryAuditTrail
    var issues: seq<Issue>
    var ordered: seq<Stamp>
    var visiting: set<string>
    var visited: set<string>

    function State(): Walked
      reads this
    {
      Walked(issues, ordered, visiting, visited)
    }

    constructor (trail: InMemoryAuditTrail)
      ensures this.trail == trail && State() == NOTHING_WALKED
    {
      this.trail := trail;
      issues, ordered, visiting, visited := [], [], {}, {};
    }

    method ReportUnmatched(id: string, parents: seq<string>, others: seq<string>, missing: bool)
      modifies this`issues
      ensures issues == old(issues) + Unmatched(id, parents, others, missing)
    {
      for i := 0 to |parents|
        invariant issues + Unmatched(id, parents[i..], others, missing) ==
                  old(issues) + Unmatched(id, parents, others, missing)
      {
        var p := parents[i];
        assert parents[i..][1..] == parents[i + 1..];
        if p !in others {
          issues := issues + [Issue(id, if missing then MissingLink(p) else UnexpectedLink(p))];
        }
      }
    }

    method Begin(currentId: string)
      requires currentId in trail.stamps
      modifies this`issues, this`visiting
      ensures State() == Open(trail.Contents(), old(State()), currentId)
    {
      hide Unmatched;
      visiting := visiting + {currentId};
      var parents := trail.stamps[currentId].parentIds;
      var linked := LinkedParents(Lineage(trail.Contents(), currentId));
      ReportUnmatched(currentId, parents, linked, true);
      ReportUnmatched(currentId, linked, parents, false);
    }

    method Visit(currentId: string)
      modifies this
      ensures State() == Walk(trail.Contents(), old(State()), currentId)
      decreases Unvisited(trail.Contents(), State()), 0
    {
      if currentId in visiting {
        issues := issues + [Issue(currentId, Cycle)];
        return;
      }
      if currentId in visited {
        return;
      }
      if currentId !in trail.stamps {
        issues := issues + [Issue(currentId, MissingStamp)];
        return;
      }
      hide LinkIssues;
      OpenShrinks(trail.Contents(), State(), currentId);
      Begin(currentId);
      VisitParents(currentId);
      visiting := visiting - {currentId};
      visited := visited + {currentId};
      ordered := ordered + [trail.stamps[currentId]];
    }

    method VisitParents(currentId: string)
      requires currentId in trail.stamps
      modifies this
      ensures State() == WalkParents(trail.Contents(), old(State()), currentId, trail.stamps[currentId].parentIds)
      decreases Unvisited(trail.Contents(), State()), 1
    {
      hide Walk;
      ghost var t, st := trail.Contents(), State();
      var stamp := trail.stamps[currentId];
      var parents := stamp.parentIds;
      assert parents[0..] == parents;
      for i := 0 to |parents|
        invariant visiting == st.visiting
        invariant WalkParents(t, State(), currentId, parents[i..]) == WalkParents(t, st, currentId, parents)
      {
        var p := parents[i];
        assert parents[i..][0] == p && parents[i..][1..] == parents[i + 1..];
        ghost var before := State();
        if p in trail.stamps && trail.stamps[p].producedAt > stamp.producedAt {
          issues := issues + [Issue(currentId, ProducedAfterChild(p))];
        }
        assert State() == before.(issues := before.issues + TimeIssues(t, currentId, p));
        Visit(p);
      }
    }
  }

  /** Returns the chain, or the issues where the validator raises; EmptyId where the store refuses
      an empty id. */
  method ValidateCompleteChain(trail: InMemoryAuditTrail, objectId: string) returns (r: Outcome)
    requires ValidTrail(trail.Contents())
    ensures r == Validate(trail.Contents(), objectId)
    ensures r.Complete? <==> objectId != "" && CompleteChain(trail.Contents(), objectId)
    ensures r.Complete? ==>
      Topological(r.chain) && forall x :: x in Ids(r.chain) <==> Reaches(trail.Contents(), objectId, x)
  {
    if objectId == "" {
      return EmptyId;
    }
    var walk := new ChainWalk(trail);
    walk.Visit(objectId);
    r := if walk.issues == [] then Complete(walk.ordered) else Rejected(walk.issues);
    ValidateIff(trail.Contents(), objectId);
    if r.Complete? {
      ChainIsAncestry(trail.Contents(), objectId);
    }
  }
}

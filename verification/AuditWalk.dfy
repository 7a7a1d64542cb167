/** The depth-first walk of the lineage validator, as a function of the trail and of the walk state,
    together with what a complete chain is. */
module AuditWalk {
  import opened AuditTrail

  datatype Reason =
    | Cycle
    | MissingStamp
    | MissingLink(parent: string)
    | UnexpectedLink(parent: string)
    | ProducedAfterChild(parent: string)

  datatype Issue = Issue(objectId: string, reason: Reason)

  datatype Walked = Walked(issues: seq<Issue>, ordered: seq<Stamp>, visiting: set<string>, visited: set<string>)

  datatype Outcome = Complete(chain: seq<Stamp>) | Rejected(issues: seq<Issue>) | EmptyId

  const NOTHING_WALKED := Walked([], [], {}, {})

  // ---- The walk ----

  function LinkedParents(links: seq<Link>): (ps: seq<string>)
    ensures |ps| == |links| && forall i :: 0 <= i < |ps| ==> ps[i] == links[i].parentId
  {
    seq(|links|, i requires 0 <= i < |links| => links[i].parentId)
  }

  /** One issue for each listed parent that the other list lacks. */
  function Unmatched(id: string, parents: seq<string>, others: seq<string>, missing: bool): seq<Issue> {
    if parents == [] then []
    else
      var p := parents[0];
      var rest := Unmatched(id, parents[1..], others, missing);
      if p in others then rest
      else [Issue(id, if missing then MissingLink(p) else UnexpectedLink(p))] + rest
  }

  function LinkIssues(t: Trail, id: string): seq<Issue>
    requires id in t.stamps
  {
    var parents := t.stamps[id].parentIds;
    var linked := LinkedParents(Lineage(t, id));
    Unmatched(id, parents, linked, true) + Unmatched(id, linked, parents, false)
  }

  function TimeIssues(t: Trail, id: string, parent: string): seq<Issue>
    requires id in t.stamps
  {
    if parent in t.stamps && t.stamps[parent].producedAt > t.stamps[id].producedAt
    then [Issue(id, ProducedAfterChild(parent))] else []
  }

  function Open(t: Trail, st: Walked, id: string): Walked
    requires id in t.stamps
  {
    st.(visiting := st.visiting + {id}, issues := st.issues + LinkIssues(t, id))
  }

  function Close(t: Trail, st: Walked, id: string): Walked
    requires id in t.stamps
  {
    st.(visiting := st.visiting - {id}, visited := st.visited + {id}, ordered := st.ordered + [t.stamps[id]])
  }

  ghost function Unvisited(t: Trail, st: Walked): nat {
    |t.stamps.Keys - st.visiting|
  }

  lemma OpenShrinks(t: Trail, st: Walked, id: string)
    requires id in t.stamps && id !in st.visiting
    ensures Unvisited(t, Open(t, st, id)) < Unvisited(t, st)
  {
    var left := t.stamps.Keys - st.visiting;
    assert t.stamps.Keys - Open(t, st, id).visiting == left - {id};
    assert id in left;
  }

  function Walk(t: Trail, st: Walked, id: string): (r: Walked)
    ensures r.visiting == st.visiting && st.visited <= r.visited
    ensures st.issues <= r.issues && st.ordered <= r.ordered
    decreases Unvisited(t, st), 0
  {
    if id in st.visiting then st.(issues := st.issues + [Issue(id, Cycle)])
    else if id in st.visited then st
    else if id !in t.stamps then st.(issues := st.issues + [Issue(id, MissingStamp)])
    else
      OpenShrinks(t, st, id);
      Close(t, WalkParents(t, Open(t, st, id), id, t.stamps[id].parentIds), id)
  }

  function WalkParents(t: Trail, st: Walked, id: string, parents: seq<string>): (r: Walked)
    requires id in t.stamps
    ensures r.visiting == st.visiting && st.visited <= r.visited
    ensures st.issues <= r.issues && st.ordered <= r.ordered
    decreases Unvisited(t, st), 1 + |parents|
  {
    if parents == [] then st
    else
      var p := parents[0];
      WalkParents(t, Walk(t, st.(issues := st.issues + TimeIssues(t, id, p)), p), id, parents[1..])
  }

  function Validate(t: Trail, id: string): Outcome {
    if id == "" then EmptyId
    else
      var r := Walk(t, NOTHING_WALKED, id);
      if r.issues == [] then Complete(r.ordered) else Rejected(r.issues)
  }

  // ---- What a complete chain is ----

  /** A path upwards: every id but the last is stamped and names the next one as a parent. */
  ghost predicate Path(t: Trail, p: seq<string>) {
    |p| > 0 && forall i :: 0 <= i < |p| - 1 ==> p[i] in t.stamps && p[i + 1] in t.stamps[p[i]].parentIds
  }

  /** x is root or one of its ancestors. */
  ghost predicate Reaches(t: Trail, root: string, x: string) {
    exists p :: Path(t, p) && p[0] == root && p[|p| - 1] == x
  }

  ghost predicate OnCycle(t: Trail, x: string) {
    exists p :: Path(t, p) && |p| > 1 && p[0] == x && p[|p| - 1] == x
  }

  predicate LinksAgree(t: Trail, id: string)
    requires id in t.stamps
  {
    var linked := LinkedParents(Lineage(t, id));
    && (forall p :: p in t.stamps[id].parentIds ==> p in linked)
    && (forall p :: p in linked ==> p in t.stamps[id].parentIds)
  }

  predicate NoLaterParent(t: Trail, id: string)
    requires id in t.stamps
  {
    forall p :: p in t.stamps[id].parentIds && p in t.stamps ==> t.stamps[p].producedAt <= t.stamps[id].producedAt
  }

  ghost predicate Explained(t: Trail, id: string) {
    id in t.stamps && LinksAgree(t, id) && NoLaterParent(t, id) && !OnCycle(t, id)
  }

  /** Every ancestor is stamped, linked to exactly its parents, produced no earlier than them, and on no cycle. */
  ghost predicate CompleteChain(t: Trail, root: string) {
    forall x :: Reaches(t, root, x) ==> Explained(t, x)
  }

  ghost function Ids(chain: seq<Stamp>): set<string> {
    set i | 0 <= i < |chain| :: chain[i].objectId
  }

  /** Parents come before children. */
  ghost predicate Topological(chain: seq<Stamp>) {
    forall i, p :: 0 <= i < |chain| && p in chain[i].parentIds ==> p in Ids(chain[..i])
  }

  ghost predicate NoRepeats(chain: seq<Stamp>) {
    forall i, j :: 0 <= i < j < |chain| ==> chain[i].objectId != chain[j].objectId
  }

  /** An issue tells the truth about the trail. */
  ghost predicate Holds(t: Trail, root: string, issue: Issue) {
    var x := issue.objectId;
    && Reaches(t, root, x)
    && match issue.reason
       case Cycle => OnCycle(t, x)
       case MissingStamp => x !in t.stamps
       case MissingLink(p) =>
         x in t.stamps && p in t.stamps[x].parentIds && p !in LinkedParents(Lineage(t, x))
       case UnexpectedLink(p) =>
         x in t.stamps && p in LinkedParents(Lineage(t, x)) && p !in t.stamps[x].parentIds
       case ProducedAfterChild(p) =>
         x in t.stamps && p in t.stamps[x].parentIds && p in t.stamps && t.stamps[p].producedAt > t.stamps[x].producedAt
  }

  lemma TruthMeansIncomplete(t: Trail, root: string, issue: Issue)
    requires Holds(t, root, issue)
    ensures !CompleteChain(t, root)
  {
    assert !Explained(t, issue.objectId);
  }
}

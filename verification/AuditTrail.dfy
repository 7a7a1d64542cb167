/** The append-only audit store: stamps by object id, lineage links by child id. */
module AuditTrail {

  /** body stands for the fields that are only ever compared: kind, schema, producer, digest, ... */
  datatype Stamp = Stamp(objectId: string, producedAt: int, parentIds: seq<string>, body: string)

  datatype Link = Link(parentId: string, childId: string, relation: string)

  datatype Trail = Trail(stamps: map<string, Stamp>, links: map<string, seq<Link>>)

  /** What the constructors of a stamp and of a link check. */
  predicate ValidStamp(s: Stamp) {
    s.objectId != "" && forall p :: p in s.parentIds ==> p != ""
  }

  predicate ValidLink(l: Link) {
    l.parentId != "" && l.childId != "" && l.relation != ""
  }

  predicate ValidTrail(t: Trail) {
    && (forall k :: k in t.stamps ==> t.stamps[k].objectId == k && ValidStamp(t.stamps[k]))
    && (forall k, i :: k in t.links && 0 <= i < |t.links[k]| ==> t.links[k][i].childId == k && ValidLink(t.links[k][i]))
  }

  datatype Op = AddStamp(stamp: Stamp) | AddLink(link: Link)

  predicate ValidOp(op: Op) {
    match op
    case AddStamp(s) => ValidStamp(s)
    case AddLink(l) => ValidLink(l)
  }

  /** A stamp for an id that already carries a different stamp is refused. */
  predicate Conflicts(t: Trail, s: Stamp) {
    s.objectId in t.stamps && t.stamps[s.objectId] != s
  }

  function Lineage(t: Trail, id: string): seq<Link> {
    if id in t.links then t.links[id] else []
  }

  function Apply(t: Trail, op: Op): (t': Trail)
    requires ValidTrail(t) && ValidOp(op)
    ensures ValidTrail(t')
  {
    match op
    case AddStamp(s) =>
      if Conflicts(t, s) then t else t.(stamps := t.stamps[s.objectId := s])
    case AddLink(l) =>
      var links := Lineage(t, l.childId);
      t.(links := t.links[l.childId := if l in links then links else links + [l]])
  }

  function ApplyAll(t: Trail, ops: seq<Op>): (t': Trail)
    requires ValidTrail(t) && forall i :: 0 <= i < |ops| ==> ValidOp(ops[i])
    ensures ValidTrail(t')
    decreases ops
  {
    if ops == [] then t else ApplyAll(Apply(t, ops[0]), ops[1..])
  }

  class InMemoryAuditTrail {
    var stamps: map<string, Stamp>
    var links: map<string, seq<Link>>

    function Contents(): Trail
      reads this
    {
      Trail(stamps, links)
    }

    constructor ()
      ensures Contents() == Trail(map[], map[])
    {
      stamps, links := map[], map[];
    }

    /** ok is false where the store raises on a conflicting stamp. */
    method AppendStamp(stamp: Stamp) returns (ok: bool)
      requires ValidTrail(Contents()) && ValidStamp(stamp)
      modifies this
      ensures Contents() == Apply(old(Contents()), AddStamp(stamp))
      ensures ok <==> !(stamp.objectId in old(stamps) && old(stamps)[stamp.objectId] != stamp)
    {
      if stamp.objectId in stamps && stamps[stamp.objectId] != stamp {
        return false;
      }
      stamps := stamps[stamp.objectId := stamp];
      ok := true;
    }

    method AppendLink(link: Link)
      requires ValidTrail(Contents()) && ValidLink(link)
      modifies this
      ensures Contents() == Apply(old(Contents()), AddLink(link))
    {
      if link.childId !in links {
        links := links[link.childId := []];
      }
      if link !in links[link.childId] {
        links := links[link.childId := links[link.childId] + [link]];
      }
    }
  }

  /** Stamps are never lost or rewritten, whatever is appended. */
  lemma {:induction false} StampsAreForever(t: Trail, ops: seq<Op>, id: string)
    requires ValidTrail(t) && (forall i :: 0 <= i < |ops| ==> ValidOp(ops[i])) && id in t.stamps
    ensures id in ApplyAll(t, ops).stamps && ApplyAll(t, ops).stamps[id] == t.stamps[id]
    decreases ops
  {
    if ops == [] {
    } else {
      StampsAreForever(Apply(t, ops[0]), ops[1..], id);
    }
  }
}

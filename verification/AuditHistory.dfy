/** What the audit store holds, said of the appends alone. */
module AuditHistory {
  import opened AuditTrail
  import opened Sequences

  const EMPTY := Trail(map[], map[])

  ghost predicate ValidOps(ops: seq<Op>) {
    forall i :: 0 <= i < |ops| ==> ValidOp(ops[i])
  }

  lemma {:induction false} ApplyLast(t: Trail, ops: seq<Op>, op: Op)
    requires ValidTrail(t) && ValidOps(ops) && ValidOp(op)
    ensures ValidOps(ops + [op]) && ApplyAll(t, ops + [op]) == Apply(ApplyAll(t, ops), op)
    decreases ops
  {
    hide Apply;
    hide ValidTrail;
    hide ValidOp;
    var longer := ops + [op];
    if ops == [] {
      assert longer[0] == op && longer[1..] == [];
    } else {
      assert longer[0] == ops[0] && longer[1..] == ops[1..] + [op];
      ApplyLast(Apply(t, ops[0]), ops[1..], op);
    }
  }

  // ---- Stamps ----

  predicate Stamps(op: Op, id: string) {
    op.AddStamp? && op.stamp.objectId == id
  }

  /** The k-th append is the first stamp for the id. */
  ghost predicate FirstStamp(ops: seq<Op>, k: nat, id: string) {
    k < |ops| && Stamps(ops[k], id) && forall m :: 0 <= m < k ==> !Stamps(ops[m], id)
  }

  /** An object carries the first stamp appended for it, and no stamp if there was none. */
  lemma {:induction false} StampsAreFirst(ops: seq<Op>, id: string, k: nat)
    requires ValidOps(ops)
    ensures var t := ApplyAll(EMPTY, ops);
            && (id in t.stamps <==> exists m :: 0 <= m < |ops| && Stamps(ops[m], id))
            && (FirstStamp(ops, k, id) ==> id in t.stamps && t.stamps[id] == ops[k].stamp)
    decreases |ops|
  {
    if ops == [] {
    } else {
      var n := |ops| - 1;
      var init := ops[..n];
      assert ops == init + [ops[n]];
      ApplyLast(EMPTY, init, ops[n]);
      StampsAreFirst(init, id, k);
      hide ApplyAll;
      assert forall m :: 0 <= m < n ==> init[m] == ops[m];
      if m :| 0 <= m < n && Stamps(ops[m], id) {
        assert Stamps(init[m], id);
      }
      if k < n {
        assert FirstStamp(ops, k, id) <==> FirstStamp(init, k, id);
      }
    }
  }

  // ---- Links ----

  ghost predicate Appended(ops: seq<Op>, l: Link) {
    exists k :: 0 <= k < |ops| && ops[k] == AddLink(l)
  }

  /** l was first appended before m was. */
  ghost predicate AppendedBefore(ops: seq<Op>, l: Link, m: Link) {
    exists k :: 0 <= k < |ops| && ops[k] == AddLink(l) && forall j :: 0 <= j <= k ==> ops[j] != AddLink(m)
  }

  ghost predicate LineageOf(ops: seq<Op>, id: string, ls: seq<Link>) {
    && Distinct(ls)
    && (forall l :: l in ls <==> l.childId == id && Appended(ops, l))
    && (forall i, j :: 0 <= i < j < |ls| ==> AppendedBefore(ops, ls[i], ls[j]))
  }

  lemma AppendedLast(ops: seq<Op>, op: Op, l: Link)
    ensures Appended(ops + [op], l) <==> Appended(ops, l) || op == AddLink(l)
  {
    var longer := ops + [op];
    assert longer[|ops|] == op;
    if k :| 0 <= k < |ops| && ops[k] == AddLink(l) {
      assert longer[k] == AddLink(l);
    }
  }

  lemma BeforeStays(ops: seq<Op>, op: Op, l: Link, m: Link)
    requires AppendedBefore(ops, l, m)
    ensures AppendedBefore(ops + [op], l, m)
  {
    var longer := ops + [op];
    var k :| 0 <= k < |ops| && ops[k] == AddLink(l) && forall j :: 0 <= j <= k ==> ops[j] != AddLink(m);
    assert longer[k] == AddLink(l) && forall j :: 0 <= j <= k ==> longer[j] == ops[j];
  }

  lemma OldBeforeNew(ops: seq<Op>, op: Op, l: Link, m: Link)
    requires Appended(ops, l) && !Appended(ops, m)
    ensures AppendedBefore(ops + [op], l, m)
  {
    var k :| 0 <= k < |ops| && ops[k] == AddLink(l);
    assert forall j :: 0 <= j <= k ==> ops[j] != AddLink(m);
    BeforeStays(ops, op, l, m);
  }

  lemma LinkAppended(ops: seq<Op>, id: string, ls: seq<Link>, op: Op)
    requires LineageOf(ops, id, ls)
    ensures LineageOf(ops + [op], id,
              if op.AddLink? && op.link.childId == id && op.link !in ls then ls + [op.link] else ls)
  {
    hide Appended;
    hide AppendedBefore;
    var after := if op.AddLink? && op.link.childId == id && op.link !in ls then ls + [op.link] else ls;
    forall l
      ensures l in after <==> l.childId == id && Appended(ops + [op], l)
    {
      AppendedLast(ops, op, l);
    }
    forall i, j | 0 <= i < j < |after|
      ensures AppendedBefore(ops + [op], after[i], after[j])
    {
      if j < |ls| {
        BeforeStays(ops, op, ls[i], ls[j]);
      } else {
        OldBeforeNew(ops, op, ls[i], op.link);
      }
    }
  }

  /** The lineage of an object is the links appended for it as a child, each once, in the order of their first
      appends. */
  lemma {:induction false} LineageIsHistory(ops: seq<Op>, id: string)
    requires ValidOps(ops)
    ensures LineageOf(ops, id, Lineage(ApplyAll(EMPTY, ops), id))
    decreases |ops|
  {
    if ops == [] {
    } else {
      hide LineageOf;
      var n := |ops| - 1;
      var init, op := ops[..n], ops[n];
      assert ops == init + [op];
      LineageIsHistory(init, id);
      ApplyLast(EMPTY, init, op);
      LinkAppended(init, id, Lineage(ApplyAll(EMPTY, init), id), op);
    }
  }
}

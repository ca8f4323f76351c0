/** Histories of adds and deletes on pointers. */
module UthashHistory {
  import opened FlowTypes
  import opened UthashModel
  import opened Uthash
  import Laws = UthashLaws

  /** The nodes a history is about. */
  ghost function NodesOf(ops: seq<Laws.Op>): set<Flow> {
    set op | op in ops :: op.n
  }

  /** A table of some of these nodes, and in memory that is not the caller's. */
  ghost predicate Holds(h: Hash, head: Flow?, t: Table?, nodes: set<Flow>)
    reads t, BucketsOf(t), ItemsOf(t)`next, ItemsOf(t)`prev, ItemsOf(t)`tbl, ItemsOf(t)`hashv,
          ItemsOf(t)`freed, ItemsOf(t)`hhNext, ItemsOf(t)`hhPrev
  {
    IsTable(h, head, t) && ItemsOf(t) <= nodes
  }

  lemma Represents(h: Hash, head: Flow?, t: Table?)
    requires IsTable(h, head, t)
    ensures WellFormed(h, ModelOf(t))
  {
  }

  method PerformAdd(h: Hash, head: Flow?, n: Flow, ghost t: Table?, ghost nodes: set<Flow>)
    returns (head': Flow, ghost t': Table)
    requires Holds(h, head, t, nodes) && n !in ItemsOf(t) && n in nodes && !n.freed
    modifies t, BucketsOf(t)
    modifies nodes`hashv, nodes`next, nodes`prev, nodes`tbl, nodes`hhNext, nodes`hhPrev
    ensures Holds(h, head', t', nodes) && t'.model == Add(h, old(ModelOf(t)), n)
    ensures if t == null then fresh(t') else t' == t
    ensures t == null || t'.buckets != old(t.buckets) ==> fresh(t'.buckets)
  {
    hide Valid;
    Represents(h, head, t);
    Laws.AddWellFormed(h, ModelOf(t), n);
    head', t' := HashAdd(h, head, n, t);
  }

  method PerformDelete(h: Hash, head: Flow?, n: Flow, ghost t: Table, ghost nodes: set<Flow>)
    returns (head': Flow?, ghost t': Table?)
    requires Holds(h, head, t, nodes) && n in Order(t.model)
    modifies t, t.buckets
    modifies nodes`hashv, nodes`next, nodes`prev, nodes`tbl, nodes`hhNext, nodes`hhPrev
    ensures Holds(h, head', t', nodes) && ModelOf(t') == Delete(h, old(t.model), n)
    ensures t' == null || (t' == t && t.buckets == old(t.buckets))
  {
    hide Valid;
    Represents(h, head, t);
    Laws.DeleteWellFormed(h, t.model, n);
    Laws.RemoveElements(t.model.order, n);
    head', t' := HashDelete(h, head, n, t);
  }

  /** One operation. */
  method Perform(h: Hash, head: Flow?, op: Laws.Op, ghost t: Table?, ghost nodes: set<Flow>)
    returns (head': Flow?, ghost t': Table?)
    requires Holds(h, head, t, nodes) && Laws.Enabled(Order(ModelOf(t)), op) && op.n in nodes && !op.n.freed
    modifies t, BucketsOf(t)
    modifies nodes`hashv, nodes`next, nodes`prev, nodes`tbl, nodes`hhNext, nodes`hhPrev
    ensures Holds(h, head', t', nodes)
    ensures ModelOf(t') == match op
                           case AddOp(n) => Add(h, old(ModelOf(t)), n)
                           case DeleteOp(n) => Delete(h, old(ModelOf(t)), n)
    ensures t' == null || t' == t || fresh(t')
    ensures t' != null ==> t'.buckets in old(BucketsOf(t)) || fresh(t'.buckets)
  {
    hide Holds, Add, Delete;
    match op {
      case AddOp(n) =>
        head', t' := PerformAdd(h, head, n, t, nodes);
      case DeleteOp(n) =>
        head', t' := PerformDelete(h, head, n, t, nodes);
    }
  }

  lemma {:induction false} LegalPrefix(ops: seq<Laws.Op>, i: nat)
    requires Laws.Legal(ops) && i <= |ops|
    ensures Laws.Legal(ops[..i])
  {
    if i == |ops| {
      assert ops[..i] == ops;
    } else {
      LegalPrefix(ops[..|ops| - 1], i);
      assert ops[..|ops| - 1][..i] == ops[..i];
    }
  }

  /** Any legal history, from an empty table on: the pointers end up as a valid table that represents what the
      history leaves. */
  method CarryOut(h: Hash, ops: seq<Laws.Op>) returns (head: Flow?, ghost t: Table?)
    requires Laws.Legal(ops) && forall op :: op in ops ==> !op.n.freed
    modifies NodesOf(ops)`hashv, NodesOf(ops)`next, NodesOf(ops)`prev
    modifies NodesOf(ops)`tbl, NodesOf(ops)`hhNext, NodesOf(ops)`hhPrev
    ensures IsTable(h, head, t) && ModelOf(t) == Laws.Run(h, ops)
  {
    hide Valid, Add, Delete;
    head, t := null, null;
    for i := 0 to |ops|
      invariant Holds(h, head, t, NodesOf(ops)) && Laws.Legal(ops[..i]) && ModelOf(t) == Laws.Run(h, ops[..i])
      invariant t != null ==> fresh(t) && fresh(t.buckets)
    {
      LegalPrefix(ops, i + 1);
      assert ops[..i + 1][..i] == ops[..i];
      head, t := Perform(h, head, ops[i], t, NodesOf(ops));
    }
    assert ops[..|ops|] == ops;
  }

  /** And a look-up then answers as a scan of the list does, which knows nothing of hashing. */
  method FindAfter(h: Hash, ops: seq<Laws.Op>, key: FlowKey) returns (out: Flow?)
    requires Laws.Legal(ops) && forall op :: op in ops ==> !op.n.freed
    modifies NodesOf(ops)`hashv, NodesOf(ops)`next, NodesOf(ops)`prev
    modifies NodesOf(ops)`tbl, NodesOf(ops)`hhNext, NodesOf(ops)`hhPrev
    ensures out == FirstWith(Laws.ListAfter(ops), key)
  {
    hide Valid, Find, FirstWith;
    var head;
    ghost var t;
    head, t := CarryOut(h, ops);
    Laws.KeysStayUnique(ops);
    Laws.FindRefinesScan(h, ModelOf(t), key);
    out := HashFind(h, head, key, t);
  }
}

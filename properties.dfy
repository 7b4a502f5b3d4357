/**
 * Properties of the mutation engine that relate several calls or hold of
 * every operation: versions, isolation of spaces, the namespace quirks and
 * the document invariant.
 */
module Properties {
  import opened Wrappers
  import opened Documents
  import opened Engine

  /**
   * Two unconditional sets of a fresh key: the first stores version 1, the
   * second version 2 and returns the first record as `prev_node`.
   */
  lemma SetTwiceVersions(d: Document, key: string, v1: Value, v2: Value, w: Where)
    requires Lookup(d, w, key).None?
    ensures var d1 := Commit(d, Run(SetOp(key, v1, w), d));
            var s2 := Run(SetOp(key, v2, w), d1);
            && Lookup(d1, w, key) == Some(Rec(v1, 1))
            && Lookup(Commit(d1, s2), w, key) == Some(Rec(v2, 2))
            && s2.out.value.prevNode == Some(Node(1, key, v1))
  {
  }

  /**
   * A successful operation changes, in its own space, only its own key,
   * except that a delete in the namespace named "" drops that namespace.
   */
  lemma SameSpaceOtherKeys(op: Op, d: Document, k: string)
    requires k != op.key
    requires (op.DelOp? || op.CadOp?) ==> op.where != In("")
    ensures Lookup(Commit(d, Run(op, d)), op.where, k) == Lookup(d, op.where, k)
  {
  }

  /**
   * A namespace write and a root write never see each other: a root
   * operation leaves the namespace index as it was, a namespace operation
   * leaves the root records as they were.
   */
  lemma SpacesIsolated(op: Op, d: Document)
    ensures op.where.Root? ==> Commit(d, Run(op, d)).ns == d.ns
    ensures op.where.In? ==> Commit(d, Run(op, d)).root == d.root
    ensures forall w, k :: w != op.where ==> Lookup(Commit(d, Run(op, d)), w, k) == Lookup(d, w, k)
    ensures op.where.In? ==> Commit(d, Run(op, d)).ns - {op.where.name} == d.ns - {op.where.name}
  {
  }

  /**
   * `set` of "foo" in namespace "fubar" into a store without a root "foo":
   * a root `get` of "foo" still finds nothing, the namespace `get` finds it.
   */
  lemma NamespaceSetHiddenFromRoot(d: Document, key: string, value: Value, name: string)
    requires Lookup(d, Root, key).None?
    ensures var d' := Commit(d, Run(SetOp(key, value, In(name)), d));
            Lookup(d', Root, key).None? && Lookup(d', In(name), key) == Some(Rec(value, NextVersion(Lookup(d, In(name), key))))
  {
  }

  /**
   * Deleting the last key of a namespace whose name is not "" leaves the
   * namespace in the index with an empty map: `namespace.empty?` tests the
   * name, not the map.
   */
  lemma EmptiedNamespacePersists(d: Document, name: string, key: string, r: Rec)
    requires name != "" && name in d.ns && d.ns[name] == map[key := r]
    ensures var d' := Commit(d, Run(DelOp(key, In(name)), d));
            name in d'.ns && d'.ns[name] == map[]
  {
  }

  /**
   * A successful delete in the namespace named "" drops the whole
   * namespace, so every other key of it is gone too.
   */
  lemma EmptyNamedNamespaceDropped(d: Document, key: string, other: string)
    requires Lookup(d, In(""), key).Some?
    ensures var d' := Commit(d, Run(DelOp(key, In("")), d));
            "" !in d'.ns && Lookup(d', In(""), other).None?
  {
  }

  /**
   * Versions are not kept across a delete: setting a key again after it
   * was deleted starts over at version 1.
   */
  lemma DeleteThenSetRestartsVersion(d: Document, key: string, value: Value, w: Where)
    requires Lookup(d, w, key).Some?
    ensures var d1 := Commit(d, Run(DelOp(key, w), d));
            Lookup(Commit(d1, Run(SetOp(key, value, w), d1)), w, key) == Some(Rec(value, 1))
  {
  }

  /**
   * Every operation whose key passed `key_check` keeps the document well
   * formed: no record under the reserved key, every version at least 1.
   */
  lemma RunPreservesWf(op: Op, d: Document)
    requires Wf(d) && op.key != NsKey
    ensures Wf(Commit(d, Run(op, d)))
  {
  }
}

/** The read side: `one` and `all` over a loaded document (lib/file_db.rb:114-136). */
module Reads {
  import opened Wrappers
  import opened Documents
  import opened Engine

  /**
   * `one(d, key:, namespace:)`: the `get` state of the record, or NotFound.
   * The `||=` it evaluates only touches the copy being read (see `Touch`).
   */
  function One(d: Document, key: string, w: Where): (r: Result<State, Error>)
    ensures r.Failure? <==> Lookup(d, w, key).None?
    ensures r.Failure? ==> r.error == NotFound
    ensures r.Success? ==>
              && r.value.action == Get && r.value.prevNode == None
              && r.value.node == Some(NodeOf(key, Space(d, w)[key]))
  {
    var p := Lookup(Touch(d, w), w, key);
    if p.None? then Failure(NotFound) else Success(NewState(Get, key, p, None))
  }

  /** The key a listed state reports. */
  function KeyOf(s: State): string
  {
    if s.node.Some? then s.node.value.key else ""
  }

  /** `s` is the `get` state of one record of `m` filed under a user key. */
  ghost predicate Listed(s: State, m: map<string, Rec>)
  {
    && s.node.Some?
    && s.node.value.key in m
    && s.node.value.key != NsKey
    && s == NewState(Get, s.node.value.key, Some(m[s.node.value.key]), None)
  }

  /**
   * `states` lists `m` exactly: one `get` state per key of `m` other than
   * the reserved key, each key once.
   */
  ghost predicate Lists(states: seq<State>, m: map<string, Rec>)
  {
    ListsOf(states, m, m.Keys)
  }

  /** `states` lists the keys `keys` of `m`, the reserved key left out. */
  ghost predicate ListsOf(states: seq<State>, m: map<string, Rec>, keys: set<string>)
  {
    && (forall j :: 0 <= j < |states| ==> Listed(states[j], m))
    && (forall i, j :: 0 <= i < j < |states| ==> KeyOf(states[i]) != KeyOf(states[j]))
    && KeysOf(states) == keys - {NsKey}
  }

  /** The keys a listing reports. */
  ghost function KeysOf(states: seq<State>): set<string>
  {
    if states == [] then {} else KeysOf(states[..|states| - 1]) + {KeyOf(states[|states| - 1])}
  }

  /** Listing one more user key keeps the listing exact. */
  lemma ListsOfAppend(states: seq<State>, m: map<string, Rec>, keys: set<string>, k: string)
    requires ListsOf(states, m, keys)
    requires k in m && k !in keys && k != NsKey
    ensures ListsOf(states + [NewState(Get, k, Some(m[k]), None)], m, keys + {k})
  {
    var s := NewState(Get, k, Some(m[k]), None);
    assert (states + [s])[..|states|] == states;
    assert (keys + {k}) - {NsKey} == (keys - {NsKey}) + {k};
    forall j | 0 <= j < |states| ensures KeyOf(states[j]) != k {
      assert KeyOf(states[j]) in KeysOf(states) by { KeysOfHas(states, j); }
    }
  }

  /** A key no state reports is not among the listed keys. */
  lemma {:induction false} KeysOfOnly(states: seq<State>, x: string)
    requires forall j :: 0 <= j < |states| ==> KeyOf(states[j]) != x
    ensures x !in KeysOf(states)
  {
    if states != [] {
      KeysOfOnly(states[..|states| - 1], x);
    }
  }

  /** States with pairwise distinct keys report as many keys as there are states. */
  lemma {:induction false} DistinctKeysCount(states: seq<State>)
    requires forall i, j :: 0 <= i < j < |states| ==> KeyOf(states[i]) != KeyOf(states[j])
    ensures |KeysOf(states)| == |states|
  {
    if states != [] {
      var prefix := states[..|states| - 1];
      DistinctKeysCount(prefix);
      KeysOfOnly(prefix, KeyOf(states[|states| - 1]));
    }
  }

  /** An exact listing has one state per user key of the space. */
  lemma ListsCount(states: seq<State>, m: map<string, Rec>)
    requires Lists(states, m)
    ensures |states| == |m.Keys - {NsKey}|
  {
    DistinctKeysCount(states);
  }

  /** Passing over the reserved key (`next if k == NS_KEY`) keeps the listing exact. */
  lemma ListsOfSkip(states: seq<State>, m: map<string, Rec>, keys: set<string>)
    requires ListsOf(states, m, keys)
    ensures ListsOf(states, m, keys + {NsKey})
  {
  }

  /** Every state's key is among the listed keys. */
  lemma {:induction false} KeysOfHas(states: seq<State>, j: int)
    requires 0 <= j < |states|
    ensures KeyOf(states[j]) in KeysOf(states)
  {
    if j < |states| - 1 { KeysOfHas(states[..|states| - 1], j); }
  }

  /**
   * `all(d, namespace:)`: walks the space and collects a `get` state per
   * entry, skipping the reserved key (`next if k == NS_KEY`). At the root
   * the reserved entry is the namespace index, which this model keeps in
   * `d.ns`, so the skip matters only for a record filed under that key.
   * Ruby lists in insertion order; a Dafny map has none, so the order of
   * the listing is left open.
   */
  method All(d: Document, w: Where) returns (states: seq<State>)
    ensures Lists(states, Space(d, w))
    ensures |states| == |Space(d, w).Keys - {NsKey}|
  {
    var m := Space(Touch(d, w), w);
    var todo := m.Keys;
    ghost var done: set<string> := {};
    states := [];
    while todo != {}
      invariant done + todo == m.Keys && done !! todo
      invariant ListsOf(states, m, done)
      decreases todo
    {
      var k :| k in todo;
      if k != NsKey {
        ListsOfAppend(states, m, done, k);
        states := states + [NewState(Get, k, Some(m[k]), None)];
      } else {
        ListsOfSkip(states, m, done);
      }
      todo, done := todo - {k}, done + {k};
    }
    ListsCount(states, m);
  }
}

/**
 * The versioned mutation engine: the bodies of the lambdas that `set`,
 * `compare_and_swap`, `del` and `compare_and_delete` build, run against the
 * parsed document inside `rw_unmarshal` (lib/file_db.rb:181-262).
 */
module Engine {
  import opened Wrappers
  import opened Documents

  /** The `action` strings of a `State`. */
  datatype Action = Get | Set | CompareAndSwap | Delete | CompareAndDelete

  /** The exceptions a call can raise. */
  datatype Error =
    | NotFound
    | InvalidKey
    | CompareAndSwapError
    | CompareAndDeleteError
      /** NoMethodError: `compare_check` evaluating `p['i']` with `p` nil. */
    | Crash

  /** `Node = Struct.new(:version, :key, :value)` */
  datatype Node = Node(version: int, key: string, value: Value)

  /** `State = Struct.new(:action, :node, :prev_node)` */
  datatype State = State(action: Action, node: Option<Node>, prevNode: Option<Node>)

  /** The operation a mutation call builds and runs (or enqueues). */
  datatype Op =
    | SetOp(key: string, value: Value, where: Where)
    | CasOp(key: string, value: Value, prev: Option<Node>, where: Where)
    | DelOp(key: string, where: Where)
    | CadOp(key: string, prev: Option<Node>, where: Where)

  /**
   * What running an operation leaves: its result or raised error, and the
   * in-memory document as the block left it (written back only on success).
   */
  datatype Step = Step(out: Result<State, Error>, doc: Document)

  /** The frozen node `Node.new(r['i'], k, r['v'])`. */
  function NodeOf(k: string, r: Rec): Node
  {
    Node(r.i, k, r.v)
  }

  /**
   * `new_state(a, k, n, p)`: a frozen state whose `node` and `prev_node`
   * are present exactly when the records are, each carrying the record's
   * version and value under the key `k`.
   */
  function NewState(a: Action, k: string, n: Option<Rec>, p: Option<Rec>): (r: State)
    ensures r.action == a
    ensures r.node.Some? <==> n.Some?
    ensures r.prevNode.Some? <==> p.Some?
    ensures n.Some? ==> r.node.value.key == k && r.node.value.version == n.value.i && r.node.value.value == n.value.v
    ensures p.Some? ==> r.prevNode.value.key == k && r.prevNode.value.version == p.value.i && r.prevNode.value.value == p.value.v
  {
    State(a,
          if n.Some? then Some(NodeOf(k, n.value)) else None,
          if p.Some? then Some(NodeOf(k, p.value)) else None)
  }

  /** `key_check`: the reserved key is refused with InvalidKey. */
  function KeyCheck(key: string): (r: Option<Error>)
    ensures r.Some? <==> key == NsKey
    ensures r.Some? ==> r.value == InvalidKey
  {
    if key == NsKey then Some(InvalidKey) else None
  }

  /**
   * `compare_check(prev_node, p, e)`: passes when no `prev_node` is given
   * or its version equals the stored one; raises `e` on a mismatch, and
   * NoMethodError when `prev_node` is given but no record is stored.
   */
  function CompareCheck(prev: Option<Node>, p: Option<Rec>, e: Error): (r: Option<Error>)
    ensures r.None? <==> prev.None? || (p.Some? && prev.value.version == p.value.i)
    ensures r.Some? && p.Some? ==> r.value == e
    ensures r.Some? && p.None? ==> r.value == Crash
  {
    if prev.None? then None
    else if p.None? then Some(Crash)
    else if prev.value.version != p.value.i then Some(e)
    else None
  }

  /**
   * The version a write stores, `p ? p['i'] + 1 : 1`: 1 for a key not yet
   * stored, otherwise strictly above the stored version, by exactly one.
   */
  function NextVersion(p: Option<Rec>): (i: int)
    ensures p.None? ==> i == 1
    ensures p.Some? ==> i > p.value.i && i - p.value.i == 1
    ensures (p.None? || p.value.i >= 1) ==> i >= 1
  {
    if p.Some? then p.value.i + 1 else 1
  }

  /** The write shared by `set` and `compare_and_swap`: store `{'v' => value, 'i' => i}`. */
  function Write(d: Document, key: string, value: Value, w: Where, a: Action): Step
  {
    var d' := Touch(d, w);
    var p := Lookup(d', w, key);
    var n := Rec(value, NextVersion(p));
    Step(Success(NewState(a, key, Some(n), p)), Put(d', w, key, n))
  }

  /** The lambda of an unconditional `set` (lib/file_db.rb:188-198). */
  function RunSet(d: Document, key: string, value: Value, w: Where): (s: Step)
    ensures s.out.Success? && s.out.value.action == Set
    ensures Lookup(d, w, key).None? ==>
              Lookup(s.doc, w, key) == Some(Rec(value, 1)) && s.out.value.prevNode == None
    ensures Lookup(d, w, key).Some? ==>
              var was := Lookup(d, w, key).value;
              Lookup(s.doc, w, key) == Some(Rec(value, was.i + 1))
              && s.out.value.prevNode == Some(NodeOf(key, was))
    ensures s.out.value.node == Some(NodeOf(key, Lookup(s.doc, w, key).value))
    ensures forall w', k :: (w' != w || k != key) ==> Lookup(s.doc, w', k) == Lookup(d, w', k)
  {
    Write(d, key, value, w, Set)
  }

  /** The lambda of `compare_and_swap` (lib/file_db.rb:204-215). */
  function RunCas(d: Document, key: string, value: Value, prev: Option<Node>, w: Where): (s: Step)
    ensures s.out == Failure(Crash) <==> prev.Some? && Lookup(d, w, key).None?
    ensures s.out == Failure(CompareAndSwapError) <==>
              prev.Some? && Lookup(d, w, key).Some? && prev.value.version != Lookup(d, w, key).value.i
    ensures s.out.Success? <==>
              prev.None? || (Lookup(d, w, key).Some? && prev.value.version == Lookup(d, w, key).value.i)
    ensures s.out.Failure? ==> s.doc == Touch(d, w)
    ensures s.out.Success? ==>
              var plain := RunSet(d, key, value, w);
              s == plain.(out := Success(plain.out.value.(action := CompareAndSwap)))
  {
    var d' := Touch(d, w);
    match CompareCheck(prev, Lookup(d', w, key), CompareAndSwapError)
    case Some(e) => Step(Failure(e), d')
    case None => Write(d, key, value, w, CompareAndSwap)
  }

  /** The delete both `del` and `compare_and_delete` end in. */
  function Erase(d: Document, key: string, w: Where, a: Action): Step
  {
    var d' := Touch(d, w);
    var p := Lookup(d', w, key);
    Step(Success(NewState(a, key, None, p)), Remove(d', w, key))
  }

  /** The lambda of an unconditional `del` (lib/file_db.rb:225-239). */
  function RunDel(d: Document, key: string, w: Where): (s: Step)
    ensures s.out.Failure? <==> Lookup(d, w, key).None?
    ensures s.out.Failure? ==> s.out.error == NotFound && s.doc == Touch(d, w)
    ensures s.out.Success? ==>
              s.out.value == State(Delete, None, Some(NodeOf(key, Lookup(d, w, key).value)))
              && s.doc == Remove(d, w, key)
  {
    var d' := Touch(d, w);
    if Lookup(d', w, key).None? then Step(Failure(NotFound), d')
    else Erase(d, key, w, Delete)
  }

  /**
   * The lambda of `compare_and_delete` (lib/file_db.rb:245-260): existence
   * is checked before the version, so an absent key is NotFound even when a
   * `prev_node` is given.
   */
  function RunCad(d: Document, key: string, prev: Option<Node>, w: Where): (s: Step)
    ensures Lookup(d, w, key).None? ==> s.out == Failure(NotFound)
    ensures s.out == Failure(CompareAndDeleteError) <==>
              prev.Some? && Lookup(d, w, key).Some? && prev.value.version != Lookup(d, w, key).value.i
    ensures s.out.Success? <==>
              Lookup(d, w, key).Some? && (prev.None? || prev.value.version == Lookup(d, w, key).value.i)
    ensures s.out.Failure? ==> s.doc == Touch(d, w)
    ensures s.out.Success? ==>
              var plain := RunDel(d, key, w);
              s == plain.(out := Success(plain.out.value.(action := CompareAndDelete)))
  {
    var d' := Touch(d, w);
    var p := Lookup(d', w, key);
    if p.None? then Step(Failure(NotFound), d')
    else match CompareCheck(prev, p, CompareAndDeleteError)
      case Some(e) => Step(Failure(e), d')
      case None => Erase(d, key, w, CompareAndDelete)
  }

  /** `operation.call`, up to the end of the `rw_unmarshal` block. */
  function Run(op: Op, d: Document): (s: Step)
    ensures s.out != Failure(InvalidKey)
    ensures s.out == Failure(Crash) <==> op.CasOp? && op.prev.Some? && Lookup(d, op.where, op.key).None?
    ensures s.out.Failure? ==> s.doc == Touch(d, op.where)
    ensures op.where.Root? ==> s.doc.ns == Touch(d, op.where).ns
    ensures op.where.In? ==> s.doc.root == d.root
    ensures forall w, k :: w != op.where ==> Lookup(s.doc, w, k) == Lookup(d, w, k)
    ensures op.where.In? ==> s.doc.ns - {op.where.name} == d.ns - {op.where.name}
  {
    match op
    case SetOp(key, value, w) => RunSet(d, key, value, w)
    case CasOp(key, value, prev, w) => RunCas(d, key, value, prev, w)
    case DelOp(key, w) => RunDel(d, key, w)
    case CadOp(key, prev, w) => RunCad(d, key, prev, w)
  }

  /**
   * `rw_unmarshal` rewrites the file only when the block returns; a raised
   * error escapes before the rewrite and the file keeps its document.
   */
  function Commit(d: Document, s: Step): (r: Document)
    ensures s.out.Failure? ==> r == d
    ensures s.out.Success? ==> r == s.doc
  {
    if s.out.Success? then s.doc else d
  }
}

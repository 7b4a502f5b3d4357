/**
 * The public mutation calls `set`, `compare_and_swap`, `del` and
 * `compare_and_delete` (lib/file_db.rb:181-262): the `prev_node`
 * dispatch, `key_check`, building the operation, and `wait_or_queue`
 * (lib/file_db.rb:160-167), which runs it at once or enqueues it.
 */
module Facade {
  import opened Wrappers
  import opened Documents
  import opened Engine

  /** One public mutation call, with its keyword arguments. */
  datatype Request =
    | SetReq(key: string, value: Value, prev: Option<Node>, where: Where)
    | CasReq(key: string, value: Value, prev: Option<Node>, where: Where)
    | DelReq(key: string, prev: Option<Node>, where: Where)
    | CadReq(key: string, prev: Option<Node>, where: Where)

  /**
   * What a caller gets back: a state, a listing, `true` for an enqueued
   * mutation, or a raised error.
   */
  datatype Reply = Done(state: State) | Listing(states: seq<State>) | Queued | Raised(error: Error)

  /** The store after a call, with the caller's reply. */
  datatype Submission = Submission(file: Document, queue: seq<Op>, reply: Reply)

  /** A raised error becomes `Raised`, a returned state `Done`. */
  function ReplyOf(r: Result<State, Error>): (reply: Reply)
    ensures reply.Done? <==> r.Success?
    ensures r.Success? ==> reply.state == r.value
    ensures r.Failure? ==> reply == Raised(r.error)
  {
    match r
    case Success(s) => Done(s)
    case Failure(e) => Raised(e)
  }

  /**
   * Everything a mutation call does before `wait_or_queue`: `set` and
   * `del` turn into `compare_and_swap` and `compare_and_delete` when a
   * `prev_node` is given, then `key_check` refuses the reserved key before
   * any operation is built.
   */
  function Prepare(req: Request): (r: Result<Op, Error>)
    ensures r.Failure? <==> req.key == NsKey
    ensures r.Failure? ==> r.error == InvalidKey
    ensures r.Success? ==> r.value.key == req.key && r.value.where == req.where
    ensures r.Success? ==> ((r.value.SetOp? || r.value.CasOp?) <==> (req.SetReq? || req.CasReq?))
    ensures r.Success? ==> (r.value.SetOp? || r.value.DelOp?) == ((req.SetReq? || req.DelReq?) && req.prev.None?)
    ensures r.Success? && (r.value.CasOp? || r.value.CadOp?) ==> r.value.prev == req.prev
    ensures r.Success? && (r.value.SetOp? || r.value.CasOp?) ==> r.value.value == req.value
  {
    match KeyCheck(req.key)
    case Some(e) => Failure(e)
    case None =>
      match req
      case SetReq(key, value, prev, w) =>
        Success(if prev.Some? then CasOp(key, value, prev, w) else SetOp(key, value, w))
      case CasReq(key, value, prev, w) => Success(CasOp(key, value, prev, w))
      case DelReq(key, prev, w) =>
        Success(if prev.Some? then CadOp(key, prev, w) else DelOp(key, w))
      case CadReq(key, prev, w) => Success(CadOp(key, prev, w))
  }

  /**
   * A whole mutation call against the file's document and the write
   * queue: with `wait` the operation runs at once and the file is
   * rewritten only if it succeeds; without it the operation is enqueued
   * and the call returns `true`. InvalidKey is raised either way, before
   * anything changes.
   */
  function Call(file: Document, queue: seq<Op>, req: Request, wait: bool): (r: Submission)
    ensures req.key == NsKey ==> r == Submission(file, queue, Raised(InvalidKey))
    ensures req.key != NsKey && !wait ==>
              r == Submission(file, queue + [Prepare(req).value], Queued)
    ensures req.key != NsKey && wait ==>
              var s := Run(Prepare(req).value, file);
              r == Submission(Commit(file, s), queue, ReplyOf(s.out))
    ensures r.reply.Raised? ==> r.file == file && r.queue == queue
    ensures !r.reply.Listing?
  {
    match Prepare(req)
    case Failure(e) => Submission(file, queue, Raised(e))
    case Success(op) =>
      if wait then
        var s := Run(op, file);
        Submission(Commit(file, s), queue, ReplyOf(s.out))
      else
        Submission(file, queue + [op], Queued)
  }

  /** `set` with a `prev_node` is `compare_and_swap`; `del` with one is `compare_and_delete`. */
  lemma PrevNodeDispatch(key: string, value: Value, prev: Node, w: Where)
    ensures Prepare(SetReq(key, value, Some(prev), w)) == Prepare(CasReq(key, value, Some(prev), w))
    ensures Prepare(DelReq(key, Some(prev), w)) == Prepare(CadReq(key, Some(prev), w))
  {
  }

  /**
   * `set(wait: true)` of a key the file does not hold, then
   * `get(wait: true)` of it: the record has the value and version 1.
   */
  lemma SetThenGet(file: Document, queue: seq<Op>, key: string, value: Value, w: Where)
    requires key != NsKey && Lookup(file, w, key).None?
    ensures var c := Call(file, queue, SetReq(key, value, None, w), true);
            && c.reply == Done(State(Set, Some(Node(1, key, value)), None))
            && Lookup(c.file, w, key) == Some(Rec(value, 1))
  {
  }

  /**
   * A `set(wait: true)` carrying the record's current node as `prev_node`
   * succeeds as a compare-and-swap, stores the next version and returns
   * that node as `prev_node`.
   */
  lemma CurrentPrevNodeSucceeds(file: Document, queue: seq<Op>, key: string, v: Value, w: Where)
    requires key != NsKey && Lookup(file, w, key).Some?
    ensures var current := NodeOf(key, Lookup(file, w, key).value);
            var c := Call(file, queue, SetReq(key, v, Some(current), w), true);
            && c.reply.Done?
            && c.reply.state.action == CompareAndSwap
            && c.reply.state.prevNode == Some(current)
            && Lookup(c.file, w, key) == Some(Rec(v, current.version + 1))
            && c.queue == queue
  {
  }

  /**
   * Two `set(wait: true)` calls and then a conditional `set` or `del`
   * carrying the first call's node: the version moved on, so the call
   * raises CompareAndSwap or CompareAndDelete and the file stays as the
   * second set left it.
   */
  lemma StalePrevNodeRaises(file: Document, queue: seq<Op>, key: string, v: Value, w: Where)
    requires key != NsKey
    ensures var c1 := Call(file, queue, SetReq(key, v, None, w), true);
            var c2 := Call(c1.file, queue, SetReq(key, v, None, w), true);
            var stale := c1.reply.state.node;
            && Call(c2.file, queue, SetReq(key, v, stale, w), true)
               == Submission(c2.file, queue, Raised(CompareAndSwapError))
            && Call(c2.file, queue, DelReq(key, stale, w), true)
               == Submission(c2.file, queue, Raised(CompareAndDeleteError))
  {
  }
}

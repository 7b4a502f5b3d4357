/**
 * The writer thread's loop (lib/file_db.rb:58-70) as a sequential fold:
 * queued operations run in FIFO order; NotFound, CompareAndSwap and
 * CompareAndDelete are swallowed; any other error escapes the loop and,
 * with `abort_on_exception`, stops the writer with the rest still queued.
 */
module Writer {
  import opened Wrappers
  import opened Documents
  import opened Engine
  import Properties

  /** Where a drain stops: the queue ran empty, or an unrescued error aborted it. */
  datatype DrainEnd = Drained(doc: Document) | Aborted(doc: Document, rest: seq<Op>)

  /** `rescue NotFound, CompareAndSwap, CompareAndDelete`. */
  predicate Swallowed(e: Error)
  {
    e == NotFound || e == CompareAndSwapError || e == CompareAndDeleteError
  }

  /**
   * One turn of the writer loop: run the operation; the writer moves on to
   * the rewritten file when it succeeds, to the same file when the error is
   * rescued, and stops (None) otherwise. Only the NoMethodError stops it.
   */
  function Advance(d: Document, op: Op): (r: Option<Document>)
    ensures r.None? <==> Run(op, d).out == Failure(Crash)
    ensures r.Some? ==> r.value == Commit(d, Run(op, d))
  {
    var s := Run(op, d);
    if s.out.Success? then Some(s.doc)
    else if Swallowed(s.out.error) then Some(d)
    else None
  }

  /**
   * The writer loop run until the queue is empty or an error escapes it.
   * An abort leaves a strict suffix of the queue; `AbortKeepsEarlierWrites`
   * says which document and which suffix.
   */
  function DrainResult(d: Document, q: seq<Op>): (r: DrainEnd)
    ensures q == [] ==> r == Drained(d)
    ensures r.Aborted? ==> |r.rest| < |q| && r.rest == q[|q| - |r.rest|..]
    decreases |q|
  {
    if q == [] then Drained(d)
    else
      match Advance(d, q[0])
      case Some(d') => DrainResult(d', q[1..])
      case None => Aborted(d, q[1..])
  }

  /**
   * Only NotFound, CompareAndSwap and CompareAndDelete are rescued: an
   * operation raising NoMethodError stops the writer at once, the document
   * as it was and every operation behind it still queued.
   */
  lemma CrashStopsDrain(d: Document, q: seq<Op>)
    ensures q != [] && Run(q[0], d).out == Failure(Crash) ==> DrainResult(d, q) == Aborted(d, q[1..])
  {
  }

  /** One step of the writer that neither aborts nor stops: it moves on to `d'`. */
  lemma DrainStep(d: Document, q: seq<Op>, d': Document)
    requires q != [] && Advance(d, q[0]) == Some(d')
    ensures DrainResult(d, q) == DrainResult(d', q[1..])
  {
  }

  /** The operations before an abort's remaining suffix drain to the end, leaving the aborted document. */
  lemma {:induction false} AbortPrefixDrains(d: Document, q: seq<Op>)
    requires DrainResult(d, q).Aborted?
    ensures |DrainResult(d, q).rest| < |q|
    ensures DrainResult(d, q[..|q| - |DrainResult(d, q).rest| - 1]) == Drained(DrainResult(d, q).doc)
    decreases |q|
  {
    var r := DrainResult(d, q);
    match Advance(d, q[0])
    case Some(d') =>
      DrainStep(d, q, d');
      AbortPrefixDrains(d', q[1..]);
      var p := q[..|q| - |r.rest| - 1];
      assert p[0] == q[0] && p[1..] == q[1..][..|p| - 1];
      DrainStep(d, p, d');
    case None =>
      assert q[..|q| - |r.rest| - 1] == [];
  }

  /** The operation right before an abort's remaining suffix stops the writer on the aborted document. */
  lemma {:induction false} AbortStopsAt(d: Document, q: seq<Op>)
    requires DrainResult(d, q).Aborted?
    ensures |DrainResult(d, q).rest| < |q|
    ensures Advance(DrainResult(d, q).doc, q[|q| - |DrainResult(d, q).rest| - 1]).None?
    decreases |q|
  {
    var r := DrainResult(d, q);
    match Advance(d, q[0])
    case Some(d') =>
      DrainStep(d, q, d');
      AbortStopsAt(d', q[1..]);
      var i := |q| - |r.rest| - 1;
      assert q[1..][i - 1] == q[i];
    case None =>
      assert |q| - |r.rest| - 1 == 0;
  }

  /**
   * What an abort keeps: the operations before the one that raised drain
   * to the end and leave exactly the aborted document, and that operation,
   * run on it, raises the unrescued NoMethodError; its own rewrite never
   * happens.
   */
  lemma AbortKeepsEarlierWrites(d: Document, q: seq<Op>)
    ensures DrainResult(d, q).Aborted? ==>
              var r := DrainResult(d, q);
              var i := |q| - |r.rest| - 1;
              && 0 <= i < |q|
              && DrainResult(d, q[..i]) == Drained(r.doc)
              && Run(q[i], r.doc).out == Failure(Crash)
  {
    if DrainResult(d, q).Aborted? {
      AbortPrefixDrains(d, q);
      AbortStopsAt(d, q);
    }
  }

  /**
   * The reference behaviour of the queue: every operation in FIFO order,
   * each against the document the previous ones left, a failed one
   * leaving it as it was.
   */
  function Replay(d: Document, q: seq<Op>): Document
    decreases |q|
  {
    if q == [] then d else Replay(Commit(d, Run(q[0], d)), q[1..])
  }

  /** Carry on draining `q` from where a drain stopped. */
  function Continue(e: DrainEnd, q: seq<Op>): DrainEnd
  {
    match e
    case Drained(d) => DrainResult(d, q)
    case Aborted(d, rest) => Aborted(d, rest + q)
  }

  /**
   * FIFO: draining `q1 + q2` is draining `q1` and then `q2` from the
   * document `q1` left (or, if `q1` aborted, stopping with `q2` still queued).
   */
  lemma {:induction false} DrainAppend(d: Document, q1: seq<Op>, q2: seq<Op>)
    ensures DrainResult(d, q1 + q2) == Continue(DrainResult(d, q1), q2)
    decreases |q1|
  {
    if q1 != [] {
      assert (q1 + q2)[0] == q1[0];
      assert (q1 + q2)[1..] == q1[1..] + q2;
      match Advance(d, q1[0])
      case Some(d') => DrainAppend(d', q1[1..], q2);
      case None =>
    } else {
      assert q1 + q2 == q2;
    }
  }

  /**
   * An operation that ends in NotFound, CompareAndSwap or CompareAndDelete
   * is dropped: the document is as it was and the next operations still run.
   */
  lemma SwallowedOpDropped(d: Document, op: Op, q: seq<Op>)
    requires Run(op, d).out.Failure? && Swallowed(Run(op, d).out.error)
    ensures DrainResult(d, [op] + q) == DrainResult(d, q)
  {
  }

  /** A drain that runs to the end leaves exactly the document `Replay` describes. */
  lemma {:induction false} DrainedIsReplay(d: Document, q: seq<Op>)
    requires DrainResult(d, q).Drained?
    ensures DrainResult(d, q).doc == Replay(d, q)
    decreases |q|
  {
    if q != [] {
      DrainedIsReplay(Advance(d, q[0]).value, q[1..]);
    }
  }

  /**
   * Only a `compare_and_swap` given a `prev_node` for a key that is not
   * stored can stop the writer; a queue without such operations always
   * drains to the end.
   */
  lemma {:induction false} DrainWithoutBlindCas(d: Document, q: seq<Op>)
    requires forall i :: 0 <= i < |q| ==> !(q[i].CasOp? && q[i].prev.Some?)
    ensures DrainResult(d, q).Drained?
    decreases |q|
  {
    if q != [] {
      DrainWithoutBlindCas(Advance(d, q[0]).value, q[1..]);
    }
  }

  /**
   * Draining operations that all passed `key_check` keeps the document
   * well formed.
   */
  lemma {:induction false} DrainPreservesWf(d: Document, q: seq<Op>)
    requires Wf(d)
    requires forall i :: 0 <= i < |q| ==> q[i].key != NsKey
    ensures Wf(DrainResult(d, q).doc)
    decreases |q|
  {
    if q != [] {
      Properties.RunPreservesWf(q[0], d);
      DrainPreservesWf(Commit(d, Run(q[0], d)), q[1..]);
    }
  }
}

/**
 * The module-level state of FileDB (lib/file_db.rb:37-112): the document
 * in the store file, the reader thread's cached copy `@db`, and the write
 * queue `@queue` that the writer thread drains.
 */
module FileStore {
  import opened Wrappers
  import opened Documents
  import opened Engine
  import opened Reads
  import opened Facade
  import opened Writer

  class Store {
    /** The document the store file holds. */
    var file: Document
    /** `@db`, the copy the reader thread refreshes and non-waiting reads use. */
    var cache: Document
    /** `@queue`, the operations enqueued by non-waiting mutation calls. */
    var queue: seq<Op>

    /** Every document in reach is well formed and every queued operation passed `key_check`. */
    ghost predicate Valid()
      reads this
    {
      Wf(file) && Wf(cache) && forall i :: 0 <= i < |queue| ==> queue[i].key != NsKey
    }

    /**
     * `init(path)` with `ensure_db`: an empty file gets the skeleton
     * `{ NS_KEY => {} }`, otherwise its document is loaded; `@db` starts as
     * that document and the queue starts empty.
     */
    constructor Init(content: Option<Document>)
      requires content.None? || Wf(content.value)
      ensures file == (if content.None? then Skeleton else content.value)
      ensures cache == file && queue == []
      ensures Valid()
    {
      var d := if content.Some? then content.value else Skeleton;
      file, cache, queue := d, d, [];
    }

    /**
     * `flush`: overwrite the file with the skeleton; the value returned is
     * what the final `f.write` returns, the byte count of the skeleton.
     * The queue and `@db` are left alone.
     */
    method Flush() returns (written: nat)
      requires Valid()
      modifies this`file
      ensures file == Skeleton && written == |SkeletonJson|
      ensures forall w :: Space(file, w) == map[]
      ensures Valid()
    {
      file := Skeleton;
      written := |SkeletonJson|;
    }

    /** One turn of the reader thread: `@db = read`. */
    method Refresh()
      requires Valid()
      modifies this`cache
      ensures cache == file
      ensures Valid()
    {
      cache := file;
    }

    /**
     * The writer thread: pop operations in FIFO order and run each one,
     * writing the file back when it succeeds, dropping it when it raises
     * NotFound, CompareAndSwap or CompareAndDelete, and stopping with
     * `crashed` when any other error escapes.
     */
    method Drain() returns (crashed: bool)
      requires Valid()
      modifies this`file, this`queue
      ensures var e := DrainResult(old(file), old(queue));
              && file == e.doc
              && crashed == e.Aborted?
              && queue == (if e.Aborted? then e.rest else [])
      ensures Valid()
    {
      crashed := false;
      while queue != []
        invariant DrainResult(file, queue) == DrainResult(old(file), old(queue))
        invariant Valid()
        decreases |queue|
      {
        var op := queue[0];
        queue := queue[1..];
        var s := Run(op, file);
        if s.out.Success? {
          Properties.RunPreservesWf(op, file);
          file := s.doc;
        } else if !Swallowed(s.out.error) {
          crashed := true;
          return;
        }
      }
    }

    /**
     * `wait_or_queue` after the dispatch and `key_check` of a mutation
     * call: as `Call` describes.
     */
    method Submit(req: Request, wait: bool) returns (reply: Reply)
      requires Valid()
      modifies this`file, this`queue
      ensures Submission(file, queue, reply) == Call(old(file), old(queue), req, wait)
      ensures Valid()
    {
      match Prepare(req)
      case Failure(e) =>
        reply := Raised(e);
      case Success(op) =>
        if wait {
          var s := Run(op, file);
          if s.out.Success? {
            Properties.RunPreservesWf(op, file);
            file := s.doc;
          }
          reply := ReplyOf(s.out);
        } else {
          queue := queue + [op];
          reply := Queued;
        }
    }

    /** `set(key:, value:, prev_node:, namespace:, wait:)` */
    method Set(key: string, value: Value, prev: Option<Node>, w: Where, wait: bool) returns (reply: Reply)
      requires Valid()
      modifies this`file, this`queue
      ensures Submission(file, queue, reply) == Call(old(file), old(queue), SetReq(key, value, prev, w), wait)
      ensures Valid()
    {
      reply := Submit(SetReq(key, value, prev, w), wait);
    }

    /** `compare_and_swap(key:, value:, prev_node:, namespace:, wait:)` */
    method CompareAndSwap(key: string, value: Value, prev: Option<Node>, w: Where, wait: bool) returns (reply: Reply)
      requires Valid()
      modifies this`file, this`queue
      ensures Submission(file, queue, reply) == Call(old(file), old(queue), CasReq(key, value, prev, w), wait)
      ensures Valid()
    {
      reply := Submit(CasReq(key, value, prev, w), wait);
    }

    /** `del(key:, prev_node:, namespace:, wait:)` */
    method Del(key: string, prev: Option<Node>, w: Where, wait: bool) returns (reply: Reply)
      requires Valid()
      modifies this`file, this`queue
      ensures Submission(file, queue, reply) == Call(old(file), old(queue), DelReq(key, prev, w), wait)
      ensures Valid()
    {
      reply := Submit(DelReq(key, prev, w), wait);
    }

    /** `compare_and_delete(key:, prev_node:, namespace:, wait:)` */
    method CompareAndDelete(key: string, prev: Option<Node>, w: Where, wait: bool) returns (reply: Reply)
      requires Valid()
      modifies this`file, this`queue
      ensures Submission(file, queue, reply) == Call(old(file), old(queue), CadReq(key, prev, w), wait)
      ensures Valid()
    {
      reply := Submit(CadReq(key, prev, w), wait);
    }

    /**
     * `get(key:, namespace:, wait:)`. With `wait` the caller waits for the
     * queue to empty, which here is the writer draining it, and reads the
     * file; without it reads `@db`, whose namespace map `||=` may touch.
     * A single key gives `one`, no key gives `all`.
     */
    method Get(key: Option<string>, w: Where, wait: bool) returns (reply: Reply)
      requires Valid()
      modifies this
      ensures wait ==> cache == old(cache)
      ensures !wait ==> file == old(file) && queue == old(queue) && cache == Touch(old(cache), w)
      ensures wait ==> var e := DrainResult(old(file), old(queue));
                       file == e.doc && queue == (if e.Aborted? then e.rest else [])
      ensures wait && DrainResult(old(file), old(queue)).Aborted? ==> reply == Raised(Crash)
      ensures !(wait && DrainResult(old(file), old(queue)).Aborted?) ==>
                var d := if wait then DrainResult(old(file), old(queue)).doc else old(cache);
                && (key.Some? ==> reply == ReplyOf(One(d, key.value, w)))
                && (key.None? ==> reply.Listing? && Lists(reply.states, Space(d, w)))
      ensures Valid()
    {
      var d: Document;
      if wait {
        var crashed := Drain();
        if crashed {
          reply := Raised(Crash);
          return;
        }
        d := file;
      } else {
        d := cache;
        TouchKeepsWf(cache, w);
        cache := Touch(cache, w);
      }
      if key.Some? {
        reply := ReplyOf(One(d, key.value, w));
      } else {
        var states := All(d, w);
        reply := Listing(states);
      }
    }
  }

  /**
   * `flush` and then `get(wait: true)` with nothing queued: the root
   * listing is empty.
   */
  method FlushThenList(s: Store) returns (reply: Reply)
    requires s.Valid() && s.queue == []
    modifies s
    ensures reply == Listing([])
  {
    var _ := s.Flush();
    reply := s.Get(None, Root, true);
    assert reply.Listing? && Lists(reply.states, map[]);
    ListsCount(reply.states, map[]);
  }
}

/**
 * The parsed store document (lib/file_db.rb:5, 28, 92): root keys map to
 * records `{'v' => value, 'i' => version}`, and the reserved root key
 * `_namespaces` maps each namespace name to its own key -> record map.
 */
module Documents {
  import opened Wrappers

  /** The reserved root key holding the namespace index. */
  const NsKey: string := "_namespaces"

  /** The JSON text of the empty skeleton `{ NS_KEY => {} }`. */
  const SkeletonJson: string := "{\"_namespaces\":{}}"

  /** A stored value is opaque JSON; it is never inspected by the store. */
  datatype Value =
    | Null
    | Bool(b: bool)
    | Num(n: int)
    | Str(s: string)
    | List(items: seq<Value>)
    | Object(fields: map<string, Value>)

  /** One record: value `v` and version `i`. */
  datatype Rec = Rec(v: Value, i: int)

  /**
   * The whole document. `root` holds the root-space records; `ns` is the
   * map stored under the reserved key, so the reserved key itself is never
   * a record of `root`.
   */
  datatype Document = Document(root: map<string, Rec>, ns: map<string, map<string, Rec>>)

  /**
   * The space an operation addresses: `namespace` nil is the root; any
   * string, the empty one included (it is truthy in Ruby), names a namespace.
   */
  datatype Where = Root | In(name: string)

  /** The document `flush` and `ensure_db` write: `{ NS_KEY => {} }`. */
  const Skeleton: Document := Document(map[], map[])

  /** The key -> record map a lookup in `w` reads (a missing namespace reads as `{}`). */
  function Space(d: Document, w: Where): map<string, Rec>
  {
    match w
    case Root => d.root
    case In(n) => if n in d.ns then d.ns[n] else map[]
  }

  /**
   * `namespace ? d[NS_KEY][namespace][key] : d[key]`, with nil as None: the
   * record stored under `key` in the space, if any; a namespace that is not
   * there holds nothing.
   */
  function Lookup(d: Document, w: Where, key: string): (r: Option<Rec>)
    ensures r.Some? <==> key in Space(d, w)
    ensures r.Some? ==> r.value == Space(d, w)[key]
    ensures w.Root? ==> (r.Some? <==> key in d.root)
    ensures w.In? && w.name !in d.ns ==> r.None?
  {
    if key in Space(d, w) then Some(Space(d, w)[key]) else None
  }

  /**
   * The side effect of `d[NS_KEY][namespace] ||= {}`: an empty map is
   * stored for a namespace that is not there yet. No lookup can see it.
   */
  function Touch(d: Document, w: Where): (r: Document)
    ensures r.root == d.root
    ensures w.In? ==> w.name in r.ns && r.ns[w.name] == Space(d, w)
    ensures forall n :: n in d.ns ==> n in r.ns && r.ns[n] == d.ns[n]
    ensures forall n :: n in r.ns && n !in d.ns ==> w == In(n) && r.ns[n] == map[]
    ensures forall w' :: Space(r, w') == Space(d, w')
  {
    match w
    case Root => d
    case In(n) => if n in d.ns then d else d.(ns := d.ns[n := map[]])
  }

  /** `namespace ? d[NS_KEY][namespace][key] = n : d[key] = n`. */
  function Put(d: Document, w: Where, key: string, rec: Rec): (r: Document)
    ensures Lookup(r, w, key) == Some(rec)
    ensures forall w', k :: (w' != w || k != key) ==> Lookup(r, w', k) == Lookup(d, w', k)
    ensures w.Root? ==> r.ns == d.ns
    ensures w.In? ==> r.root == d.root && w.name in r.ns
    ensures w.In? ==> r.ns - {w.name} == d.ns - {w.name}
  {
    match w
    case Root => d.(root := d.root[key := rec])
    case In(n) => d.(ns := d.ns[n := Space(d, w)[key := rec]])
  }

  /**
   * The delete branch of `del` and `compare_and_delete`: in a namespace,
   * `d[NS_KEY][namespace].delete(key)` and then
   * `d[NS_KEY].delete(namespace) if namespace.empty?`. That test is on the
   * NAME, not on the namespace's map, so an emptied namespace stays in the
   * document, while the namespace named "" is dropped whole, with all its
   * other keys.
   */
  function Remove(d: Document, w: Where, key: string): (r: Document)
    ensures Lookup(r, w, key) == None
    ensures forall w', k :: Lookup(r, w', k) == Lookup(d, w', k) || Lookup(r, w', k) == None
    ensures forall w', k :: w' != w ==> Lookup(r, w', k) == Lookup(d, w', k)
    ensures w != In("") ==> forall k :: k != key ==> Lookup(r, w, k) == Lookup(d, w, k)
    ensures w == In("") ==> "" !in r.ns
    ensures w.In? && w.name != "" ==> w.name in r.ns
    ensures w.Root? ==> r.ns == d.ns
    ensures w.In? ==> r.root == d.root
    ensures w.In? ==> r.ns - {w.name} == d.ns - {w.name}
  {
    match w
    case Root => d.(root := d.root - {key})
    case In(n) =>
      var ns := d.ns[n := Space(d, w) - {key}];
      d.(ns := if n == "" then ns - {n} else ns)
  }

  /**
   * A document every reachable store state satisfies: no record sits under
   * the reserved key and every version is at least 1.
   */
  ghost predicate Wf(d: Document)
  {
    forall w, k :: Lookup(d, w, k).Some? ==> k != NsKey && Lookup(d, w, k).value.i >= 1
  }

  /** The `||=` neither makes nor breaks a well-formed document. */
  lemma TouchKeepsWf(d: Document, w: Where)
    ensures Wf(Touch(d, w)) <==> Wf(d)
  {
    forall w', k ensures Lookup(Touch(d, w), w', k) == Lookup(d, w', k) {
      assert Space(Touch(d, w), w') == Space(d, w');
    }
  }

  /** The skeleton is well formed and every space of it is empty. */
  lemma SkeletonEmpty(w: Where)
    ensures Wf(Skeleton)
    ensures Space(Skeleton, w) == map[]
  {
  }
}

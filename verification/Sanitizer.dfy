/**
 * The metadata sanitiser. Metadata is a graph of maps, slices and pointers in a heap that may share
 * and loop; the result is a tree. A set of visited addresses cuts every loop.
 */
module Sanitizer {
  import opened Prelude

  /* ---- the input: values and the heap behind them ---- */

  type Addr = nat

  datatype Kind = Chan | Func | Complex | UnsafePointer

  // A dynamic value. References carry the address that reflection reports; None is a nil reference.
  // Typed is any other map or slice type, which is not looked into.
  datatype Value =
    | Nil
    | Scalar(id: nat)
    | Text(s: string)
    | Map(at: Option<Addr>)
    | Slice(at: Option<Addr>, len: nat)
    | Typed(at: Option<Addr>)
    | Pointer(at: Option<Addr>)
    | Struct(fields: seq<Value>)
    | Fundamental(kind: Kind)

  datatype Node =
    | MapNode(entries: map<string, Value>)
    | SliceNode(elems: seq<Value>)
    | PointerNode(target: Value)
    | TypedNode

  type Heap = map<Addr, Node>

  predicate ValueOk(h: Heap, v: Value) {
    match v
    case Map(Some(a)) => a in h && h[a].MapNode?
    case Slice(None, len) => len == 0
    case Slice(Some(a), len) => a in h && h[a].SliceNode? && len <= |h[a].elems|
    case Typed(Some(a)) => a in h
    case Pointer(Some(a)) => a in h && h[a].PointerNode?
    case Struct(fields) => forall i :: 0 <= i < |fields| ==> ValueOk(h, fields[i])
    case _ => true
  }

  predicate NodeOk(h: Heap, n: Node) {
    match n
    case MapNode(entries) => forall k :: k in entries ==> ValueOk(h, entries[k])
    case SliceNode(elems) => forall i :: 0 <= i < |elems| ==> ValueOk(h, elems[i])
    case PointerNode(target) => ValueOk(h, target)
    case TypedNode => true
  }

  predicate HeapOk(h: Heap) {
    forall a :: a in h ==> NodeOk(h, h[a])
  }

  function Entries(h: Heap, at: Option<Addr>): (entries: map<string, Value>)
    requires ValueOk(h, Map(at))
    ensures HeapOk(h) ==> NodeOk(h, MapNode(entries))
  {
    if at.None? then map[] else (assert HeapOk(h) ==> NodeOk(h, h[at.value]); h[at.value].entries)
  }

  function Elements(h: Heap, at: Option<Addr>, len: nat): (elems: seq<Value>)
    requires ValueOk(h, Slice(at, len))
    ensures |elems| == len && (HeapOk(h) ==> NodeOk(h, SliceNode(elems)))
  {
    if at.None? then [] else (assert HeapOk(h) ==> NodeOk(h, h[at.value]); h[at.value].elems[..len])
  }

  /* ---- the output: new maps and slices around values copied as they are ---- */

  datatype Out = OMap(entries: map<string, Out>) | OSlice(elems: seq<Out>) | ONilSlice | OCopy(v: Value)

  const MASKED := OCopy(Text("[REDACTED]"))

  const CYCLIC := "[non-serializable: cyclic reference]"

  function Descriptor(kind: Kind): string {
    match kind
    case Chan => "[non-serializable: chan]"
    case Func => "[non-serializable: func]"
    case Complex => "[non-serializable: complex]"
    case UnsafePointer => "[non-serializable: unsafe.Pointer]"
  }

  // Every sensitive key of every map that was put out is masked.
  predicate AllMasked(sensitive: string -> bool, out: Out) {
    match out
    case OMap(entries) => forall k :: k in entries ==> if sensitive(k) then entries[k] == MASKED else AllMasked(sensitive, entries[k])
    case OSlice(elems) => forall i :: 0 <= i < |elems| ==> AllMasked(sensitive, elems[i])
    case _ => true
  }

  /* ---- the search for non-serializable content ---- */

  lemma NoMoreLeft(h: Heap, visited: set<Addr>, seen: set<Addr>)
    requires visited <= seen
    ensures |h.Keys - seen| <= |h.Keys - visited|
  {
    SmallerSet(h.Keys - seen, h.Keys - visited);
  }

  lemma SmallerSet(a: set<Addr>, b: set<Addr>)
    requires a <= b
    ensures |a| <= |b|
  {
    assert b == a + (b - a);
  }

  lemma FewerLeft(h: Heap, visited: set<Addr>, a: Addr)
    requires a in h && a !in visited
    ensures |h.Keys - (visited + {a})| < |h.Keys - visited|
  {
    assert h.Keys - visited == (h.Keys - (visited + {a})) + {a};
  }

  datatype Found = Found(desc: Option<string>, seen: set<Addr>)

  // Maps and slices are met, not entered: the second meeting is the cycle.
  function Meeting(at: Option<Addr>, visited: set<Addr>): Found {
    if at.None? then Found(None, visited)
    else if at.value in visited then Found(Some(CYCLIC), visited)
    else Found(None, visited + {at.value})
  }

  // What the search answers, and what it has marked by then.
  function Probe(h: Heap, v: Value, visited: set<Addr>): (r: Found)
    requires HeapOk(h) && ValueOk(h, v)
    ensures visited <= r.seen <= visited + h.Keys
    decreases |h.Keys - visited|, v, if v.Struct? then |v.fields| + 1 else 0
  {
    match v
    case Fundamental(kind) => Found(Some(Descriptor(kind)), visited)
    case Map(at) => Meeting(at, visited)
    case Slice(at, _) => Meeting(at, visited)
    case Typed(at) => Meeting(at, visited)
    case Pointer(at) =>
      if at.None? then Found(None, visited)
      else if at.value in visited then Found(Some(CYCLIC), visited)
      else
        FewerLeft(h, visited, at.value);
        assert NodeOk(h, h[at.value]);
        Probe(h, h[at.value].target, visited + {at.value})
    case Struct(fields) => ProbeFields(h, fields, |fields|, visited)
    case _ => Found(None, visited)
  }

  // The first n fields, up to the first that is not serializable.
  function ProbeFields(h: Heap, fields: seq<Value>, n: nat, visited: set<Addr>): (r: Found)
    requires HeapOk(h) && ValueOk(h, Struct(fields)) && n <= |fields|
    ensures visited <= r.seen <= visited + h.Keys
    decreases |h.Keys - visited|, Struct(fields), n
  {
    if n == 0 then Found(None, visited)
    else
      var r := ProbeFields(h, fields, n - 1, visited);
      if r.desc.Some? then r
      else
        NoMoreLeft(h, visited, r.seen);
        Probe(h, fields[n - 1], r.seen)
  }

  lemma {:induction false} FirstFieldStands(h: Heap, fields: seq<Value>, n: nat, m: nat, visited: set<Addr>)
    requires HeapOk(h) && ValueOk(h, Struct(fields)) && n <= m <= |fields|
    requires ProbeFields(h, fields, n, visited).desc.Some?
    ensures ProbeFields(h, fields, m, visited) == ProbeFields(h, fields, n, visited)
    decreases m
  {
    if n < m { FirstFieldStands(h, fields, n, m - 1, visited); }
  }

  // nonSerializableDescriptor, with the visited map handed on.
  method Describe(h: Heap, v: Value, visited: set<Addr>) returns (desc: Option<string>, seen: set<Addr>)
    requires HeapOk(h) && ValueOk(h, v)
    ensures Found(desc, seen) == Probe(h, v, visited)
    decreases |h.Keys - visited|, v, 1
  {
    match v
    case Fundamental(kind) =>
      return Some(Descriptor(kind)), visited;
    case Pointer(at) =>
      desc, seen := DescribePointer(h, at, visited);
    case Struct(fields) =>
      desc, seen := DescribeFields(h, fields, visited);
    case Map(at) =>
      desc, seen := Meet(at, visited);
    case Slice(at, _) =>
      desc, seen := Meet(at, visited);
    case Typed(at) =>
      desc, seen := Meet(at, visited);
    case _ =>
      return None, visited;
  }

  method Meet(at: Option<Addr>, visited: set<Addr>) returns (desc: Option<string>, seen: set<Addr>)
    ensures Found(desc, seen) == Meeting(at, visited)
  {
    if at.None? { return None, visited; }
    if at.value in visited { return Some(CYCLIC), visited; }
    return None, visited + {at.value};
  }

  method DescribePointer(h: Heap, at: Option<Addr>, visited: set<Addr>) returns (desc: Option<string>, seen: set<Addr>)
    requires HeapOk(h) && ValueOk(h, Pointer(at))
    ensures Found(desc, seen) == Probe(h, Pointer(at), visited)
    decreases |h.Keys - visited|, Pointer(at), 0
  {
    if at.None? { return None, visited; }
    if at.value in visited { return Some(CYCLIC), visited; }
    FewerLeft(h, visited, at.value);
    assert NodeOk(h, h[at.value]);
    desc, seen := Describe(h, h[at.value].target, visited + {at.value});
  }

  method DescribeFields(h: Heap, fields: seq<Value>, visited: set<Addr>) returns (desc: Option<string>, seen: set<Addr>)
    requires HeapOk(h) && ValueOk(h, Struct(fields))
    ensures Found(desc, seen) == Probe(h, Struct(fields), visited)
    decreases |h.Keys - visited|, Struct(fields), 0
  {
    desc, seen := None, visited;
    for i := 0 to |fields|
      invariant visited <= seen && Found(None, seen) == ProbeFields(h, fields, i, visited)
    {
      NoMoreLeft(h, visited, seen);
      desc, seen := Describe(h, fields[i], seen);
      if desc.Some? {
        FirstFieldStands(h, fields, i + 1, |fields|, visited);
        return;
      }
    }
    return None, seen;
  }

  /* ---- sanitising, as a relation: the keys of a map come in any order ---- */

  // Sanitising v, when `before` is marked, can put out `out` and leave `after` marked.
  ghost predicate Run(sensitive: string -> bool, h: Heap, v: Value, before: set<Addr>, out: Out, after: set<Addr>)
    requires HeapOk(h) && ValueOk(h, v)
    decreases out, 1, 0
  {
    var found := Probe(h, v, before);
    if found.desc.Some? then out == OCopy(Text(found.desc.value)) && after == found.seen
    else
      match v
      case Map(at) =>
        out.OMap? && out.entries.Keys == Entries(h, at).Keys
        && MapRun(sensitive, h, Entries(h, at), found.seen, out, out.entries.Keys, after)
      case Slice(at, len) =>
        if at.None? then out == ONilSlice && after == found.seen
        else out.OSlice? && |out.elems| == len && SliceRun(sensitive, h, Elements(h, at, len), found.seen, out, len, after)
      case _ => out == OCopy(v) && after == found.seen
  }

  // The keys that are done, in some order.
  ghost predicate MapRun(sensitive: string -> bool, h: Heap, entries: map<string, Value>, before: set<Addr>,
                         out: Out, done: set<string>, after: set<Addr>)
    requires HeapOk(h) && NodeOk(h, MapNode(entries)) && out.OMap? && done <= out.entries.Keys && done <= entries.Keys
    decreases out, 0, |done|
  {
    if done == {} then after == before
    else exists k, mid: set<Addr> ::
           k in done && MapRun(sensitive, h, entries, before, out, done - {k}, mid) && EntryRun(sensitive, h, entries, k, mid, out, after)
  }

  ghost predicate EntryRun(sensitive: string -> bool, h: Heap, entries: map<string, Value>, k: string, before: set<Addr>,
                           out: Out, after: set<Addr>)
    requires HeapOk(h) && NodeOk(h, MapNode(entries)) && out.OMap? && k in out.entries && k in entries
    decreases out, 0, 0
  {
    if sensitive(k) then out.entries[k] == MASKED && after == before
    else Run(sensitive, h, entries[k], before, out.entries[k], after)
  }

  // The first n elements.
  ghost predicate SliceRun(sensitive: string -> bool, h: Heap, elems: seq<Value>, before: set<Addr>, out: Out, n: nat, after: set<Addr>)
    requires HeapOk(h) && NodeOk(h, SliceNode(elems)) && out.OSlice? && n <= |out.elems| && n <= |elems|
    decreases out, 0, 2 * n
  {
    if n == 0 then after == before else UpTo(sensitive, h, elems, before, out, n - 1, after)
  }

  // Element i, after all before it.
  ghost predicate UpTo(sensitive: string -> bool, h: Heap, elems: seq<Value>, before: set<Addr>, out: Out, i: nat, after: set<Addr>)
    requires HeapOk(h) && NodeOk(h, SliceNode(elems)) && out.OSlice? && i < |out.elems| && i < |elems|
    decreases out, 0, 2 * i + 1
  {
    exists mid: set<Addr> ::
      SliceRun(sensitive, h, elems, before, out, i, mid) && Run(sensitive, h, elems[i], mid, out.elems[i], after)
  }

  // The key that was done last.
  lemma LastKey(sensitive: string -> bool, h: Heap, entries: map<string, Value>, before: set<Addr>, out: Out, done: set<string>, after: set<Addr>)
    returns (rest: set<string>, k: string, mid: set<Addr>)
    requires HeapOk(h) && NodeOk(h, MapNode(entries)) && out.OMap? && done <= out.entries.Keys && done <= entries.Keys && done != {}
    requires MapRun(sensitive, h, entries, before, out, done, after)
    ensures k in done && k !in rest && done == rest + {k} && |rest| < |done|
    ensures MapRun(sensitive, h, entries, before, out, rest, mid) && EntryRun(sensitive, h, entries, k, mid, out, after)
  {
    k, mid :| k in done && MapRun(sensitive, h, entries, before, out, done - {k}, mid) && EntryRun(sensitive, h, entries, k, mid, out, after);
    rest := done - {k};
  }

  // Only what is done matters.
  lemma {:induction false} SameMapRun(sensitive: string -> bool, h: Heap, entries: map<string, Value>, before: set<Addr>,
                                      out: Out, out': Out, done: set<string>, after: set<Addr>)
    requires HeapOk(h) && NodeOk(h, MapNode(entries)) && out.OMap? && out'.OMap? && done <= entries.Keys
    requires done <= out.entries.Keys && done <= out'.entries.Keys && forall k :: k in done ==> out.entries[k] == out'.entries[k]
    requires MapRun(sensitive, h, entries, before, out, done, after)
    ensures MapRun(sensitive, h, entries, before, out', done, after)
    decreases |done|
  {
    if done != {} {
      var k, mid: set<Addr> :|
        k in done && MapRun(sensitive, h, entries, before, out, done - {k}, mid) && EntryRun(sensitive, h, entries, k, mid, out, after);
      SameMapRun(sensitive, h, entries, before, out, out', done - {k}, mid);
      assert EntryRun(sensitive, h, entries, k, mid, out', after);
    }
  }

  lemma {:induction false} SameSliceRun(sensitive: string -> bool, h: Heap, elems: seq<Value>, before: set<Addr>,
                                        out: Out, out': Out, n: nat, after: set<Addr>)
    requires HeapOk(h) && NodeOk(h, SliceNode(elems)) && out.OSlice? && out'.OSlice? && n <= |elems|
    requires n <= |out.elems| && n <= |out'.elems| && forall i :: 0 <= i < n ==> out.elems[i] == out'.elems[i]
    requires SliceRun(sensitive, h, elems, before, out, n, after)
    ensures SliceRun(sensitive, h, elems, before, out', n, after)
  {
    if n > 0 {
      var mid: set<Addr> :|
        SliceRun(sensitive, h, elems, before, out, n - 1, mid) && Run(sensitive, h, elems[n - 1], mid, out.elems[n - 1], after);
      SameSliceRun(sensitive, h, elems, before, out, out', n - 1, mid);
    }
  }

  lemma OneMoreEntry(sensitive: string -> bool, h: Heap, entries: map<string, Value>, before: set<Addr>, result: map<string, Out>,
                     done: set<string>, mid: set<Addr>, key: string, value: Out, after: set<Addr>)
    requires HeapOk(h) && NodeOk(h, MapNode(entries)) && result.Keys == done <= entries.Keys && key in entries && key !in done
    requires MapRun(sensitive, h, entries, before, OMap(result), done, mid)
    requires EntryRun(sensitive, h, entries, key, mid, OMap(result[key := value]), after)
    ensures MapRun(sensitive, h, entries, before, OMap(result[key := value]), done + {key}, after)
  {
    var all := done + {key};
    assert all - {key} == done;
    SameMapRun(sensitive, h, entries, before, OMap(result), OMap(result[key := value]), done, mid);
    assert MapRun(sensitive, h, entries, before, OMap(result[key := value]), all - {key}, mid);
  }

  /* ---- what every run does ---- */

  // Marks are never taken back, and only addresses of the heap are marked.
  lemma {:induction false} RunGrows(sensitive: string -> bool, h: Heap, v: Value, before: set<Addr>, out: Out, after: set<Addr>)
    requires HeapOk(h) && ValueOk(h, v) && Run(sensitive, h, v, before, out, after)
    ensures before <= after <= before + h.Keys
    decreases out, 1, 0
  {
    var found := Probe(h, v, before);
    if found.desc.None? {
      if v.Map? {
        MapRunGrows(sensitive, h, Entries(h, v.at), found.seen, out, out.entries.Keys, after);
      } else if v.Slice? && v.at.Some? {
        SliceRunGrows(sensitive, h, Elements(h, v.at, v.len), found.seen, out, v.len, after);
      }
    }
  }

  lemma {:induction false} MapRunGrows(sensitive: string -> bool, h: Heap, entries: map<string, Value>, before: set<Addr>,
                                       out: Out, done: set<string>, after: set<Addr>)
    requires HeapOk(h) && NodeOk(h, MapNode(entries)) && out.OMap? && done <= out.entries.Keys && done <= entries.Keys
    requires MapRun(sensitive, h, entries, before, out, done, after)
    ensures before <= after <= before + h.Keys
    decreases out, 0, |done|
  {
    if done != {} {
      var k, mid: set<Addr> :|
        k in done && MapRun(sensitive, h, entries, before, out, done - {k}, mid) && EntryRun(sensitive, h, entries, k, mid, out, after);
      MapRunGrows(sensitive, h, entries, before, out, done - {k}, mid);
      if !sensitive(k) { RunGrows(sensitive, h, entries[k], mid, out.entries[k], after); }
    }
  }

  lemma {:induction false} SliceRunGrows(sensitive: string -> bool, h: Heap, elems: seq<Value>, before: set<Addr>,
                                         out: Out, n: nat, after: set<Addr>)
    requires HeapOk(h) && NodeOk(h, SliceNode(elems)) && out.OSlice? && n <= |out.elems| && n <= |elems|
    requires SliceRun(sensitive, h, elems, before, out, n, after)
    ensures before <= after <= before + h.Keys
    decreases out, 0, n
  {
    if n > 0 {
      var mid: set<Addr> :|
        SliceRun(sensitive, h, elems, before, out, n - 1, mid) && Run(sensitive, h, elems[n - 1], mid, out.elems[n - 1], after);
      SliceRunGrows(sensitive, h, elems, before, out, n - 1, mid);
      RunGrows(sensitive, h, elems[n - 1], mid, out.elems[n - 1], after);
    }
  }

  // One key of a map that was put out, at the time it was done: after some other keys.
  lemma {:induction false} EntryOfRun(sensitive: string -> bool, h: Heap, entries: map<string, Value>, before: set<Addr>,
                                      out: Out, done: set<string>, after: set<Addr>, k: string)
    returns (earlier: set<string>, mid: set<Addr>, mid': set<Addr>)
    requires HeapOk(h) && NodeOk(h, MapNode(entries)) && out.OMap? && done <= out.entries.Keys && done <= entries.Keys && k in done
    requires MapRun(sensitive, h, entries, before, out, done, after)
    ensures earlier <= done - {k} && MapRun(sensitive, h, entries, before, out, earlier, mid)
    ensures EntryRun(sensitive, h, entries, k, mid, out, mid')
    decreases |done|
  {
    var j, last: set<Addr> :|
      j in done && MapRun(sensitive, h, entries, before, out, done - {j}, last) && EntryRun(sensitive, h, entries, j, last, out, after);
    if j == k {
      earlier, mid, mid' := done - {j}, last, after;
    } else {
      earlier, mid, mid' := EntryOfRun(sensitive, h, entries, before, out, done - {j}, last, k);
    }
  }

  lemma {:induction false} ElementOfRun(sensitive: string -> bool, h: Heap, elems: seq<Value>, before: set<Addr>,
                                        out: Out, n: nat, after: set<Addr>, i: nat)
    returns (mid: set<Addr>, mid': set<Addr>)
    requires HeapOk(h) && NodeOk(h, SliceNode(elems)) && out.OSlice? && i < n <= |out.elems| && n <= |elems|
    requires SliceRun(sensitive, h, elems, before, out, n, after)
    ensures SliceRun(sensitive, h, elems, before, out, i, mid) && Run(sensitive, h, elems[i], mid, out.elems[i], mid')
    decreases n
  {
    var last: set<Addr> :|
      SliceRun(sensitive, h, elems, before, out, n - 1, last) && Run(sensitive, h, elems[n - 1], last, out.elems[n - 1], after);
    if i == n - 1 {
      mid, mid' := last, after;
    } else {
      mid, mid' := ElementOfRun(sensitive, h, elems, before, out, n - 1, last, i);
    }
  }

  // Whatever is put out for a value, for whatever was marked before it, and in whatever order: every
  // sensitive key is masked, at every level.
  lemma {:induction false} RunIsMasked(sensitive: string -> bool, h: Heap, v: Value, before: set<Addr>, out: Out, after: set<Addr>)
    requires HeapOk(h) && ValueOk(h, v) && Run(sensitive, h, v, before, out, after)
    ensures AllMasked(sensitive, out)
    decreases out, 1
  {
    match out
    case OMap(entries) =>
      MapRunIsMasked(sensitive, h, Entries(h, v.at), Probe(h, v, before).seen, out, after);
    case OSlice(elems) =>
      forall i | 0 <= i < |elems| ensures AllMasked(sensitive, elems[i]) {
        var mid, mid' := ElementOfRun(sensitive, h, Elements(h, v.at, v.len), Probe(h, v, before).seen, out, v.len, after, i);
        RunIsMasked(sensitive, h, Elements(h, v.at, v.len)[i], mid, elems[i], mid');
      }
    case _ =>
  }

  lemma MapRunIsMasked(sensitive: string -> bool, h: Heap, entries: map<string, Value>, before: set<Addr>, out: Out, after: set<Addr>)
    requires HeapOk(h) && NodeOk(h, MapNode(entries)) && out.OMap? && out.entries.Keys == entries.Keys
    requires MapRun(sensitive, h, entries, before, out, out.entries.Keys, after)
    ensures AllMasked(sensitive, out)
    decreases out, 0
  {
    forall k | k in out.entries
      ensures if sensitive(k) then out.entries[k] == MASKED else AllMasked(sensitive, out.entries[k])
    {
      var earlier, mid, mid' := EntryOfRun(sensitive, h, entries, before, out, out.entries.Keys, after, k);
      if !sensitive(k) { RunIsMasked(sensitive, h, entries[k], mid, out.entries[k], mid'); }
    }
  }

  /* ---- the code ---- */

  class MetadataSanitizer {
    const sensitive: string -> bool

    constructor (sensitive: string -> bool)
      ensures this.sensitive == sensitive
    {
      this.sensitive := sensitive;
    }

    // Sanitize: nil stays nil, an empty map stays empty. Always terminates; the heap is not changed.
    method Sanitize(h: Heap, metadata: Option<Addr>) returns (out: Option<Out>, ghost seen: set<Addr>)
      requires HeapOk(h) && ValueOk(h, Map(metadata))
      ensures out.None? <==> metadata.None?
      ensures out.Some? ==> out.value.OMap? && out.value.entries.Keys == Entries(h, metadata).Keys
      ensures out.Some? ==> MapRun(sensitive, h, Entries(h, metadata), {}, out.value, out.value.entries.Keys, seen)
      ensures out.Some? ==> AllMasked(sensitive, out.value)
    {
      seen := {};
      if metadata.None? { return None, seen; }
      if |h[metadata.value].entries| == 0 {
        return Some(OMap(map[])), seen;
      }
      var r;
      r, seen := SanitizeMap(h, Entries(h, metadata), {});
      MapRunIsMasked(sensitive, h, Entries(h, metadata), {}, r, seen);
      out := Some(r);
    }

    // One map, its keys in any order.
    method SanitizeMap(h: Heap, entries: map<string, Value>, visited: set<Addr>) returns (out: Out, seen: set<Addr>)
      requires HeapOk(h) && NodeOk(h, MapNode(entries))
      ensures out.OMap? && out.entries.Keys == entries.Keys
      ensures MapRun(sensitive, h, entries, visited, out, entries.Keys, seen)
      decreases |h.Keys - visited|, |entries|, 1
    {
      var result: map<string, Out> := map[];
      seen := visited;
      var rest := entries.Keys;
      while rest != {}
        invariant visited <= seen && Progress(sensitive, h, entries, visited, rest, result, seen)
        decreases |rest|
      {
        var key :| key in rest;
        NoMoreLeft(h, visited, seen);
        var value, after := SanitizeEntry(h, entries, key, seen);
        KeyDone(sensitive, h, entries, visited, rest, result, seen, key, value, after);
        result, seen, rest := result[key := value], after, rest - {key};
      }
      out := OMap(result);
      AllDone(sensitive, h, entries, visited, result, seen);
    }

    method SanitizeEntry(h: Heap, entries: map<string, Value>, key: string, visited: set<Addr>) returns (value: Out, seen: set<Addr>)
      requires HeapOk(h) && NodeOk(h, MapNode(entries)) && key in entries
      ensures visited <= seen
      ensures if sensitive(key) then value == MASKED && seen == visited else Run(sensitive, h, entries[key], visited, value, seen)
      decreases |h.Keys - visited|, |entries|, 0
    {
      if sensitive(key) { return MASKED, visited; }
      HasKey(entries, key);
      value, seen := SanitizeElement(h, entries[key], visited);
    }

    // A map value or a slice element.
    method SanitizeElement(h: Heap, v: Value, visited: set<Addr>) returns (out: Out, seen: set<Addr>)
      requires HeapOk(h) && ValueOk(h, v)
      ensures Run(sensitive, h, v, visited, out, seen) && visited <= seen
      decreases |h.Keys - visited|, 0, 4
    {
      var desc;
      desc, seen := Describe(h, v, visited);
      if desc.Some? { return OCopy(Text(desc.value)), seen; }
      AcceptedIsProgress(h, v, visited, seen);
      out, seen := SanitizeAccepted(h, v, visited, seen);
      RunGrows(sensitive, h, v, visited, out, seen);
    }

    // A value in which nothing non-serializable was found.
    method SanitizeAccepted(h: Heap, v: Value, ghost visited: set<Addr>, met: set<Addr>) returns (out: Out, seen: set<Addr>)
      requires HeapOk(h) && ValueOk(h, v) && Probe(h, v, visited) == Found(None, met)
      ensures Run(sensitive, h, v, visited, out, seen)
      decreases |h.Keys - met|, SizeOf(h, v), 3
    {
      if v.Map? {
        out, seen := SanitizeMap(h, Entries(h, v.at), met);
      } else if v.Slice? && v.at.None? {
        out, seen := ONilSlice, met;
      } else if v.Slice? {
        out, seen := SanitizeSlice(h, Elements(h, v.at, v.len), met);
      } else {
        out, seen := OCopy(v), met;
      }
    }

    method SanitizeSlice(h: Heap, elems: seq<Value>, visited: set<Addr>) returns (out: Out, seen: set<Addr>)
      requires HeapOk(h) && NodeOk(h, SliceNode(elems))
      ensures out.OSlice? && |out.elems| == |elems| && SliceRun(sensitive, h, elems, visited, out, |elems|, seen)
      decreases |h.Keys - visited|, |elems|, 1
    {
      var result: seq<Out> := [];
      seen := visited;
      for i := 0 to |elems|
        invariant |result| == i && visited <= seen && ElementsDone(sensitive, h, elems, visited, result, seen)
      {
        NoMoreLeft(h, visited, seen);
        var value, after := SanitizeElement(h, elems[i], seen);
        ElementDone(sensitive, h, elems, visited, result, seen, value, after);
        result, seen := result + [value], after;
      }
      out := OSlice(result);
    }
  }

  // All keys but the rest are done.
  ghost predicate Progress(sensitive: string -> bool, h: Heap, entries: map<string, Value>, before: set<Addr>,
                           rest: set<string>, result: map<string, Out>, seen: set<Addr>)
    requires HeapOk(h) && NodeOk(h, MapNode(entries))
  {
    rest <= entries.Keys && result.Keys == entries.Keys - rest
    && MapRun(sensitive, h, entries, before, OMap(result), result.Keys, seen)
  }

  // The elements up to the length of the result are done.
  ghost predicate ElementsDone(sensitive: string -> bool, h: Heap, elems: seq<Value>, before: set<Addr>, result: seq<Out>, seen: set<Addr>)
    requires HeapOk(h) && NodeOk(h, SliceNode(elems))
  {
    |result| <= |elems| && SliceRun(sensitive, h, elems, before, OSlice(result), |result|, seen)
  }

  lemma ElementDone(sensitive: string -> bool, h: Heap, elems: seq<Value>, before: set<Addr>, result: seq<Out>,
                    mid: set<Addr>, value: Out, after: set<Addr>)
    requires HeapOk(h) && NodeOk(h, SliceNode(elems)) && |result| < |elems|
    requires ElementsDone(sensitive, h, elems, before, result, mid) && Run(sensitive, h, elems[|result|], mid, value, after)
    ensures ElementsDone(sensitive, h, elems, before, result + [value], after)
  {
    SameSliceRun(sensitive, h, elems, before, OSlice(result), OSlice(result + [value]), |result|, mid);
    assert UpTo(sensitive, h, elems, before, OSlice(result + [value]), |result|, after);
  }

  lemma KeyDone(sensitive: string -> bool, h: Heap, entries: map<string, Value>, before: set<Addr>, rest: set<string>,
                result: map<string, Out>, mid: set<Addr>, key: string, value: Out, after: set<Addr>)
    requires HeapOk(h) && NodeOk(h, MapNode(entries)) && key in rest && Progress(sensitive, h, entries, before, rest, result, mid)
    requires if sensitive(key) then value == MASKED && after == mid else Run(sensitive, h, entries[key], mid, value, after)
    ensures Progress(sensitive, h, entries, before, rest - {key}, result[key := value], after)
  {
    OneFewer(entries.Keys, rest, key);
    assert EntryRun(sensitive, h, entries, key, mid, OMap(result[key := value]), after);
    OneMoreEntry(sensitive, h, entries, before, result, result.Keys, mid, key, value, after);
    assert result[key := value].Keys == result.Keys + {key};
  }

  lemma AllDone(sensitive: string -> bool, h: Heap, entries: map<string, Value>, before: set<Addr>, result: map<string, Out>, seen: set<Addr>)
    requires HeapOk(h) && NodeOk(h, MapNode(entries)) && Progress(sensitive, h, entries, before, {}, result, seen)
    ensures result.Keys == entries.Keys && MapRun(sensitive, h, entries, before, OMap(result), entries.Keys, seen)
  {
    assert entries.Keys - {} == entries.Keys;
  }

  // How many children a reference has; nothing for the rest.
  function SizeOf(h: Heap, v: Value): nat
    requires ValueOk(h, v)
  {
    if v.Map? then |Entries(h, v.at)| else if v.Slice? then v.len else 0
  }

  // A value that was let through has either marked something new or has no children.
  lemma AcceptedIsProgress(h: Heap, v: Value, visited: set<Addr>, met: set<Addr>)
    requires HeapOk(h) && ValueOk(h, v) && Probe(h, v, visited) == Found(None, met)
    ensures |h.Keys - met| <= |h.Keys - visited|
    ensures |h.Keys - met| < |h.Keys - visited| || SizeOf(h, v) == 0
  {
    NoMoreLeft(h, visited, met);
    if (v.Map? || v.Slice?) && v.at.Some? { FewerLeft(h, visited, v.at.value); }
  }

  lemma OneFewer(all: set<string>, rest: set<string>, key: string)
    requires rest <= all && key in rest
    ensures all - rest + {key} == all - (rest - {key}) && key in all && key !in all - rest
  {
  }

  lemma HasKey(entries: map<string, Value>, key: string)
    requires key in entries
    ensures 0 < |entries|
  {
    assert key in entries.Keys;
  }
}

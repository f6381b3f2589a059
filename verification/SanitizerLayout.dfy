/**
 * Every output of the sanitiser can lie in a heap the way Go puts it there, so the results about the second
 * pass speak of every output; and the smallest one that the second pass changes.
 */
module SanitizerLayout {
  import opened Prelude
  import opened Sanitizer
  import opened SanitizerTrees
  import opened SanitizerTwice

  /* ---- every copied value unfolds ---- */

  // What the search lets through unfolds.
  lemma {:induction false} AcceptedUnfolds(h: Heap, v: Value, visited: set<Addr>) returns (p: Probed)
    requires HeapOk(h) && ValueOk(h, v) && Probe(h, v, visited).desc.None?
    ensures ProbeUnfolds(h, v, p)
    decreases |h.Keys - visited|, v, if v.Struct? then |v.fields| + 1 else 0
  {
    match v
    case Struct(fields) =>
      var parts := AcceptedFields(h, fields, |fields|, visited);
      p := PStruct(parts);
    case Pointer(Some(a)) =>
      FewerLeft(h, visited, a);
      assert NodeOk(h, h[a]);
      var target := AcceptedUnfolds(h, h[a].target, visited + {a});
      p := PPointer(a, target);
    case Map(Some(a)) => p := PReference(a);
    case Slice(Some(a), _) => p := PReference(a);
    case Typed(Some(a)) => p := PReference(a);
    case _ => p := PLeaf;
  }

  predicate PartsUnfold(h: Heap, fields: seq<Value>, parts: seq<Probed>) {
    |parts| <= |fields| && forall i :: 0 <= i < |parts| ==> ProbeUnfolds(h, fields[i], parts[i])
  }

  lemma OneMorePart(h: Heap, fields: seq<Value>, parts: seq<Probed>, last: Probed)
    requires PartsUnfold(h, fields, parts) && |parts| < |fields| && ProbeUnfolds(h, fields[|parts|], last)
    ensures PartsUnfold(h, fields, parts + [last])
  {
  }

  lemma {:induction false} AcceptedFields(h: Heap, fields: seq<Value>, n: nat, visited: set<Addr>) returns (parts: seq<Probed>)
    requires HeapOk(h) && ValueOk(h, Struct(fields)) && n <= |fields| && ProbeFields(h, fields, n, visited).desc.None?
    ensures |parts| == n && PartsUnfold(h, fields, parts)
    decreases |h.Keys - visited|, Struct(fields), n
  {
    parts := [];
    if n > 0 {
      parts := AcceptedFields(h, fields, n - 1, visited);
      var met := ProbeFields(h, fields, n - 1, visited).seen;
      NoMoreLeft(h, visited, met);
      var last := AcceptedUnfolds(h, fields[n - 1], met);
      OneMorePart(h, fields, parts, last);
      parts := parts + [last];
    }
  }

  // Each copied value of an output is a value of the old heap, no map or slice, and unfolds in it.
  ghost predicate Labelled(h: Heap, out: Out) {
    match out
    case OMap(entries) => forall k :: k in entries ==> Labelled(h, entries[k])
    case OSlice(elems) => forall i :: 0 <= i < |elems| ==> Labelled(h, elems[i])
    case ONilSlice => true
    case OCopy(v) => ValueOk(h, v) && !v.Map? && !v.Slice? && exists p :: ProbeUnfolds(h, v, p)
  }

  lemma TextIsLabelled(h: Heap, s: string)
    ensures Labelled(h, OCopy(Text(s)))
  {
    assert ProbeUnfolds(h, Text(s), PLeaf);
  }

  lemma {:induction false} RunLabelled(sensitive: string -> bool, h: Heap, v: Value, before: set<Addr>, out: Out, after: set<Addr>)
    requires HeapOk(h) && ValueOk(h, v) && Run(sensitive, h, v, before, out, after)
    ensures Labelled(h, out)
    decreases out, 1
  {
    match out
    case OMap(entries) => MapRunLabelled(sensitive, h, Entries(h, v.at), Probe(h, v, before).seen, out, after);
    case OSlice(elems) =>
      forall i | 0 <= i < |elems| ensures Labelled(h, elems[i]) {
        var mid, mid' := ElementOfRun(sensitive, h, Elements(h, v.at, v.len), Probe(h, v, before).seen, out, v.len, after, i);
        RunLabelled(sensitive, h, Elements(h, v.at, v.len)[i], mid, elems[i], mid');
      }
    case ONilSlice =>
    case OCopy(w) =>
      if Probe(h, v, before).desc.Some? { TextIsLabelled(h, w.s); } else { var p := AcceptedUnfolds(h, v, before); }
  }

  lemma MapRunLabelled(sensitive: string -> bool, h: Heap, entries: map<string, Value>, before: set<Addr>, out: Out, after: set<Addr>)
    requires HeapOk(h) && NodeOk(h, MapNode(entries)) && out.OMap? && out.entries.Keys == entries.Keys
    requires MapRun(sensitive, h, entries, before, out, out.entries.Keys, after)
    ensures Labelled(h, out)
    decreases out, 0
  {
    forall k | k in out.entries ensures Labelled(h, out.entries[k]) {
      var earlier, mid, mid' := EntryOfRun(sensitive, h, entries, before, out, out.entries.Keys, after, k);
      if sensitive(k) { TextIsLabelled(h, MASKED.v.s); } else { RunLabelled(sensitive, h, entries[k], mid, out.entries[k], mid'); }
    }
  }

  /* ---- what stays when a heap grows ---- */

  lemma StillOk(h: Heap, r: Heap)
    requires HeapOk(h) && Grown(h, r)
    ensures forall a :: a in h ==> NodeOk(r, r[a])
  {
    forall a | a in h ensures NodeOk(r, r[a]) {
      assert NodeOk(h, h[a]);
      NodeStillOk(h, r, h[a]);
    }
  }

  lemma NodeStillOk(h: Heap, r: Heap, n: Node)
    requires NodeOk(h, n) && Grown(h, r)
    ensures NodeOk(r, n)
  {
    match n
    case MapNode(entries) => forall k | k in entries ensures ValueOk(r, entries[k]) { ValueStillOk(h, r, entries[k]); }
    case SliceNode(elems) => forall i | 0 <= i < |elems| ensures ValueOk(r, elems[i]) { ValueStillOk(h, r, elems[i]); }
    case PointerNode(target) => ValueStillOk(h, r, target);
    case TypedNode =>
  }

  lemma {:induction false} ValueStillOk(h: Heap, r: Heap, v: Value)
    requires ValueOk(h, v) && Grown(h, r)
    ensures ValueOk(r, v)
  {
    match v
    case Struct(fields) => forall i | 0 <= i < |fields| ensures ValueOk(r, fields[i]) { ValueStillOk(h, r, fields[i]); }
    case _ =>
  }

  lemma {:induction false} ProbeStillUnfolds(h: Heap, r: Heap, v: Value, p: Probed)
    requires Grown(h, r) && ProbeUnfolds(h, v, p)
    ensures ProbeUnfolds(r, v, p)
    decreases p
  {
    match p
    case PPointer(a, target) => ProbeStillUnfolds(h, r, h[a].target, target);
    case PStruct(fields) =>
      forall i | 0 <= i < |fields| ensures ProbeUnfolds(r, v.fields[i], fields[i]) { ProbeStillUnfolds(h, r, v.fields[i], fields[i]); }
    case _ =>
  }

  lemma {:induction false} StillUnfolds(sensitive: string -> bool, h: Heap, r: Heap, t: Tree)
    requires Grown(h, r) && Unfolds(sensitive, h, t)
    ensures Unfolds(sensitive, r, t)
  {
    match t
    case TOther(v, p) => ProbeStillUnfolds(h, r, v, p);
    case TMap(_, entries) =>
      forall k | k in entries && !sensitive(k) ensures Unfolds(sensitive, r, entries[k]) { StillUnfolds(sensitive, h, r, entries[k]); }
    case TSlice(_, elems) =>
      forall i | 0 <= i < |elems| ensures Unfolds(sensitive, r, elems[i]) { StillUnfolds(sensitive, h, r, elems[i]); }
    case _ =>
  }

  /* ---- laying an output out, children first, at one address after another ---- */

  // The old heap with some new objects, all below the next free address, and the empty slice at its place.
  ghost predicate Room(h: Heap, zero: Addr, g: Heap, next: Addr) {
    HeapOk(g) && Grown(h, g) && (forall a :: a in g ==> a < next) && zero in g && g[zero].SliceNode?
  }

  // The tree lies in g and shows the output; its objects have addresses of their own, from lo up to hi.
  ghost predicate Lies(sensitive: string -> bool, h: Heap, zero: Addr, g: Heap, t: Tree, out: Out, lo: Addr, hi: Addr) {
    Shows(t, out) && ValueOk(g, ValueOf(t)) && Unfolds(sensitive, g, t) && New(sensitive, h, zero, t)
    && (forall a: Addr :: HasObject(sensitive, t, a) ==> a == zero || lo <= a < hi)
    && (forall a: Addr :: a != zero ==> ObjectOnce(sensitive, t, a))
  }

  lemma StillLies(sensitive: string -> bool, h: Heap, zero: Addr, g: Heap, r: Heap, t: Tree, out: Out, lo: Addr, hi: Addr, lo': Addr, hi': Addr)
    requires Grown(g, r) && lo' <= lo && hi <= hi' && Lies(sensitive, h, zero, g, t, out, lo, hi)
    ensures Lies(sensitive, h, zero, r, t, out, lo', hi')
  {
    StillUnfolds(sensitive, g, r, t);
    ValueStillOk(g, r, ValueOf(t));
  }

  // No address but zero in two of them.
  ghost predicate NotBoth(sensitive: string -> bool, t: Tree, u: Tree, zero: Addr) {
    forall a: Addr :: a != zero ==> !(HasObject(sensitive, t, a) && HasObject(sensitive, u, a))
  }

  // The entries laid out so far.
  ghost predicate EntriesLie(sensitive: string -> bool, h: Heap, zero: Addr, g: Heap, trees: map<string, Tree>, out: Out, lo: Addr, hi: Addr) {
    out.OMap? && trees.Keys <= out.entries.Keys
    && (forall k :: k in trees ==> Lies(sensitive, h, zero, g, trees[k], out.entries[k], lo, hi))
    && (forall j, k :: j in trees && k in trees && j != k ==> NotBoth(sensitive, trees[j], trees[k], zero))
  }

  ghost predicate ElementsLie(sensitive: string -> bool, h: Heap, zero: Addr, g: Heap, trees: seq<Tree>, out: Out, lo: Addr, hi: Addr) {
    out.OSlice? && |trees| <= |out.elems|
    && (forall i :: 0 <= i < |trees| ==> Lies(sensitive, h, zero, g, trees[i], out.elems[i], lo, hi))
    && (forall i, j :: 0 <= i < j < |trees| ==> NotBoth(sensitive, trees[i], trees[j], zero))
  }

  lemma OneMoreEntryLies(sensitive: string -> bool, h: Heap, zero: Addr, g: Heap, r: Heap, trees: map<string, Tree>, out: Out,
                         k: string, t: Tree, lo: Addr, mid: Addr, hi: Addr)
    requires EntriesLie(sensitive, h, zero, g, trees, out, lo, mid) && Grown(g, r) && lo <= mid <= hi
    requires k in out.entries && k !in trees && Lies(sensitive, h, zero, r, t, out.entries[k], mid, hi)
    ensures EntriesLie(sensitive, h, zero, r, trees[k := t], out, lo, hi)
  {
    forall j | j in trees ensures Lies(sensitive, h, zero, r, trees[j], out.entries[j], lo, hi) && NotBoth(sensitive, trees[j], t, zero) {
      assert Lies(sensitive, h, zero, g, trees[j], out.entries[j], lo, mid);
      StillLies(sensitive, h, zero, g, r, trees[j], out.entries[j], lo, mid, lo, hi);
    }
  }

  lemma OneMoreElementLies(sensitive: string -> bool, h: Heap, zero: Addr, g: Heap, r: Heap, trees: seq<Tree>, out: Out,
                           t: Tree, lo: Addr, mid: Addr, hi: Addr)
    requires ElementsLie(sensitive, h, zero, g, trees, out, lo, mid) && Grown(g, r) && lo <= mid <= hi
    requires |trees| < |out.elems| && Lies(sensitive, h, zero, r, t, out.elems[|trees|], mid, hi)
    ensures ElementsLie(sensitive, h, zero, r, trees + [t], out, lo, hi)
  {
    forall i | 0 <= i < |trees| ensures Lies(sensitive, h, zero, r, trees[i], out.elems[i], lo, hi) && NotBoth(sensitive, trees[i], t, zero) {
      assert Lies(sensitive, h, zero, g, trees[i], out.elems[i], lo, mid);
      StillLies(sensitive, h, zero, g, r, trees[i], out.elems[i], lo, mid, lo, hi);
    }
  }

  lemma {:induction false} LayOut(sensitive: string -> bool, h: Heap, zero: Addr, g: Heap, next: Addr, out: Out)
    returns (r: Heap, t: Tree, hi: Addr)
    requires Room(h, zero, g, next) && Labelled(h, out)
    ensures next <= hi && Room(h, zero, r, hi) && Grown(g, r) && Lies(sensitive, h, zero, r, t, out, next, hi)
    decreases out, 1, 0
  {
    match out
    case OMap(entries) =>
      var trees;
      r, trees, hi := LayOutEntries(sensitive, h, zero, g, next, out, entries.Keys);
      r, t, hi := PutMap(sensitive, h, zero, r, trees, out, next, hi);
    case OSlice(elems) =>
      var trees;
      r, trees, hi := LayOutElements(sensitive, h, zero, g, next, out, |elems|);
      r, t, hi := PutSlice(sensitive, h, zero, r, trees, out, next, hi);
    case ONilSlice => r, t, hi := g, TNilSlice, next;
    case OCopy(v) =>
      var p :| ProbeUnfolds(h, v, p);
      ProbeStillUnfolds(h, g, v, p);
      ValueStillOk(h, g, v);
      r, t, hi := g, TOther(v, p), next;
  }

  lemma {:induction false} LayOutEntries(sensitive: string -> bool, h: Heap, zero: Addr, g: Heap, next: Addr, out: Out, keys: set<string>)
    returns (r: Heap, trees: map<string, Tree>, hi: Addr)
    requires Room(h, zero, g, next) && Labelled(h, out) && out.OMap? && keys <= out.entries.Keys
    ensures next <= hi && Room(h, zero, r, hi) && Grown(g, r) && trees.Keys == keys
    ensures EntriesLie(sensitive, h, zero, r, trees, out, next, hi)
    decreases out, 0, |keys|
  {
    r, trees, hi := g, map[], next;
    if keys != {} {
      var k :| k in keys;
      var g1, before, mid := LayOutEntries(sensitive, h, zero, g, next, out, keys - {k});
      var t;
      r, t, hi := LayOut(sensitive, h, zero, g1, mid, out.entries[k]);
      OneMoreEntryLies(sensitive, h, zero, g1, r, before, out, k, t, next, mid, hi);
      trees := before[k := t];
    }
  }

  lemma {:induction false} LayOutElements(sensitive: string -> bool, h: Heap, zero: Addr, g: Heap, next: Addr, out: Out, n: nat)
    returns (r: Heap, trees: seq<Tree>, hi: Addr)
    requires Room(h, zero, g, next) && Labelled(h, out) && out.OSlice? && n <= |out.elems|
    ensures next <= hi && Room(h, zero, r, hi) && Grown(g, r) && |trees| == n
    ensures ElementsLie(sensitive, h, zero, r, trees, out, next, hi)
    decreases out, 0, n
  {
    r, trees, hi := g, [], next;
    if n > 0 {
      var g1, before, mid := LayOutElements(sensitive, h, zero, g, next, out, n - 1);
      var t;
      r, t, hi := LayOut(sensitive, h, zero, g1, mid, out.elems[n - 1]);
      OneMoreElementLies(sensitive, h, zero, g1, r, before, out, t, next, mid, hi);
      trees := before + [t];
    }
  }

  // A new object at the next free address.
  lemma Allocate(h: Heap, zero: Addr, g: Heap, next: Addr, n: Node) returns (r: Heap)
    requires Room(h, zero, g, next) && NodeOk(g, n)
    ensures r == g[next := n] && Grown(g, r) && Room(h, zero, r, next + 1) && next !in h && next != zero
  {
    r := g[next := n];
    StillOk(g, r);
    NodeStillOk(g, r, n);
  }

  lemma PutMap(sensitive: string -> bool, h: Heap, zero: Addr, g: Heap, trees: map<string, Tree>, out: Out, lo: Addr, next: Addr)
    returns (r: Heap, t: Tree, hi: Addr)
    requires Room(h, zero, g, next) && lo <= next && EntriesLie(sensitive, h, zero, g, trees, out, lo, next) && trees.Keys == out.entries.Keys
    ensures next <= hi && Room(h, zero, r, hi) && Grown(g, r) && Lies(sensitive, h, zero, r, t, out, lo, hi)
  {
    var entries := map k | k in trees :: ValueOf(trees[k]);
    r := Allocate(h, zero, g, next, MapNode(entries));
    t, hi := TMap(next, trees), next + 1;
    forall k | k in trees ensures Lies(sensitive, h, zero, r, trees[k], out.entries[k], lo, next) {
      StillLies(sensitive, h, zero, g, r, trees[k], out.entries[k], lo, next, lo, next);
    }
    MapLies(sensitive, h, zero, r, trees, out, lo, next);
  }

  lemma MapLies(sensitive: string -> bool, h: Heap, zero: Addr, r: Heap, trees: map<string, Tree>, out: Out, lo: Addr, a: Addr)
    requires EntriesLie(sensitive, h, zero, r, trees, out, lo, a) && trees.Keys == out.entries.Keys && lo <= a
    requires a in r && a !in h && a != zero && r[a].MapNode? && r[a].entries.Keys == trees.Keys
    requires forall k :: k in trees ==> r[a].entries[k] == ValueOf(trees[k])
    ensures Lies(sensitive, h, zero, r, TMap(a, trees), out, lo, a + 1)
  {
    var t := TMap(a, trees);
    forall b: Addr | b != zero ensures ObjectOnce(sensitive, t, b) {
      forall k | k in trees ensures ObjectOnce(sensitive, trees[k], b) && (HasObject(sensitive, trees[k], b) ==> b < a) {
        assert Lies(sensitive, h, zero, r, trees[k], out.entries[k], lo, a);
      }
      forall j, k | j in trees && k in trees && j != k ensures !(HasObject(sensitive, trees[j], b) && HasObject(sensitive, trees[k], b)) {
        assert NotBoth(sensitive, trees[j], trees[k], zero);
      }
    }
  }

  lemma PutSlice(sensitive: string -> bool, h: Heap, zero: Addr, g: Heap, trees: seq<Tree>, out: Out, lo: Addr, next: Addr)
    returns (r: Heap, t: Tree, hi: Addr)
    requires Room(h, zero, g, next) && lo <= next && ElementsLie(sensitive, h, zero, g, trees, out, lo, next) && |trees| == |out.elems|
    ensures next <= hi && Room(h, zero, r, hi) && Grown(g, r) && Lies(sensitive, h, zero, r, t, out, lo, hi)
  {
    if trees == [] {
      r, t, hi := g, TSlice(zero, []), next;
    } else {
      var elems := seq(|trees|, i requires 0 <= i < |trees| => ValueOf(trees[i]));
      r := Allocate(h, zero, g, next, SliceNode(elems));
      t, hi := TSlice(next, trees), next + 1;
      forall i | 0 <= i < |trees| ensures Lies(sensitive, h, zero, r, trees[i], out.elems[i], lo, next) {
        StillLies(sensitive, h, zero, g, r, trees[i], out.elems[i], lo, next, lo, next);
      }
      SliceLies(sensitive, h, zero, r, trees, out, lo, next);
    }
  }

  lemma SliceLies(sensitive: string -> bool, h: Heap, zero: Addr, r: Heap, trees: seq<Tree>, out: Out, lo: Addr, a: Addr)
    requires ElementsLie(sensitive, h, zero, r, trees, out, lo, a) && |trees| == |out.elems| > 0 && lo <= a
    requires a in r && a !in h && a != zero && r[a].SliceNode? && |r[a].elems| == |trees|
    requires forall i :: 0 <= i < |trees| ==> r[a].elems[i] == ValueOf(trees[i])
    ensures Lies(sensitive, h, zero, r, TSlice(a, trees), out, lo, a + 1)
  {
    var t := TSlice(a, trees);
    forall b: Addr | b != zero ensures ObjectOnce(sensitive, t, b) {
      forall i | 0 <= i < |trees| ensures ObjectOnce(sensitive, trees[i], b) && (HasObject(sensitive, trees[i], b) ==> b < a) {
        assert Lies(sensitive, h, zero, r, trees[i], out.elems[i], lo, a);
      }
      forall i, j | 0 <= i < j < |trees| ensures !(HasObject(sensitive, trees[i], b) && HasObject(sensitive, trees[j], b)) {
        assert NotBoth(sensitive, trees[i], trees[j], zero);
      }
    }
  }

  lemma {:induction false} Above(addresses: set<Addr>) returns (next: Addr)
    ensures forall a :: a in addresses ==> a < next
  {
    next := 0;
    if addresses != {} {
      var a :| a in addresses;
      var below := Above(addresses - {a});
      next := if below <= a then a + 1 else below;
      forall b: Addr | b in addresses ensures b < next { if b != a { assert b in addresses - {a}; } }
    }
  }

  // Whatever a first call puts out, and wherever the empty slice lies, if nothing else lies there: there is a
  // heap in which the second call finds it.
  lemma FirstPassExists(sensitive: string -> bool, h: Heap, metadata: Addr, once: Out, seen: set<Addr>, zero: Addr) returns (h2: Heap, t: Tree)
    requires HeapOk(h) && ValueOk(h, Map(Some(metadata))) && once.OMap? && once.entries.Keys == Entries(h, Some(metadata)).Keys
    requires MapRun(sensitive, h, Entries(h, Some(metadata)), {}, once, once.entries.Keys, seen)
    requires zero in h ==> h[zero].SliceNode?
    ensures FirstPass(sensitive, h, metadata, once, seen, h2, zero, t)
  {
    MapRunLabelled(sensitive, h, Entries(h, Some(metadata)), {}, once, seen);
    var g := if zero in h then h else h[zero := SliceNode([])];
    StillOk(h, g);
    var next := Above(g.Keys);
    var hi;
    h2, t, hi := LayOut(sensitive, h, zero, g, next, once);
  }

  /* ---- two empty slices ---- */

  function TwoSlices(x: Addr, y: Addr): map<string, Value> {
    map["a" := Slice(Some(x), 0), "b" := Slice(Some(y), 0)]
  }

  function TwoSlicesTree(root: Addr, x: Addr, y: Addr): Tree {
    TMap(root, map["a" := TSlice(x, []), "b" := TSlice(y, [])])
  }

  const TWO_EMPTY := OMap(map["a" := OSlice([]), "b" := OSlice([])])

  // One pass over two empty slices: they come out as they are exactly when their addresses differ.
  method TwoEmptySlices(sanitizer: MetadataSanitizer, h: Heap, root: Addr, x: Addr, y: Addr)
    returns (out: Option<Out>, ghost seen: set<Addr>)
    requires HeapOk(h) && ValueOk(h, Map(Some(root))) && h[root].entries == TwoSlices(x, y)
    requires !sanitizer.sensitive("a") && !sanitizer.sensitive("b")
    ensures out.Some? && out.value.OMap? && out.value.entries.Keys == Entries(h, Some(root)).Keys
    ensures MapRun(sanitizer.sensitive, h, Entries(h, Some(root)), {}, out.value, out.value.entries.Keys, seen)
    ensures out.value == TWO_EMPTY <==> x != y
  {
    out, seen := sanitizer.Sanitize(h, Some(root));
    ghost var t := TwoSlicesTree(root, x, y);
    TwoSlicesUnfold(sanitizer.sensitive, h, root, x, y);
    SanitizeExact(sanitizer.sensitive, h, t, out.value, seen);
    TwoSlicesFacts(sanitizer.sensitive, root, x, y);
  }

  lemma TwoSlicesUnfold(sensitive: string -> bool, h: Heap, root: Addr, x: Addr, y: Addr)
    requires HeapOk(h) && ValueOk(h, Map(Some(root))) && h[root].entries == TwoSlices(x, y)
    ensures NodeOk(h, h[root]) && Unfolds(sensitive, h, TwoSlicesTree(root, x, y))
    ensures TwoSlicesTree(root, x, y).entries.Keys == h[root].entries.Keys
  {
    var t := TwoSlicesTree(root, x, y);
    assert NodeOk(h, h[root]);
    assert ValueOk(h, h[root].entries["a"]) && ValueOk(h, h[root].entries["b"]);
    assert Unfolds(sensitive, h, TSlice(x, [])) && Unfolds(sensitive, h, TSlice(y, []));
  }

  lemma TwoSlicesFacts(sensitive: string -> bool, root: Addr, x: Addr, y: Addr)
    requires !sensitive("a") && !sensitive("b")
    ensures var t := TwoSlicesTree(root, x, y);
            Plain(sensitive, t) == TWO_EMPTY && (CleanAt(sensitive, t, t.entries.Keys) <==> x != y)
  {
    var t := TwoSlicesTree(root, x, y);
    assert t.entries["a"] == TSlice(x, []) && t.entries["b"] == TSlice(y, []);
    assert Met(sensitive, TSlice(x, [])) == {x} && Met(sensitive, TSlice(y, [])) == {y};
    assert Clean(sensitive, TSlice(x, [])) && Clean(sensitive, TSlice(y, []));
    assert Plain(sensitive, TSlice(x, [])) == OSlice([]) == Plain(sensitive, TSlice(y, []));
    assert Plain(sensitive, t).entries == TWO_EMPTY.entries;
  }

  // A heap with a map of two empty slices added.
  function WithTwoSlices(h: Heap, root: Addr, x: Addr, y: Addr): (r: Heap)
    requires HeapOk(h) && root !in h && x in h && y in h && h[x] == h[y] == SliceNode([])
    ensures HeapOk(r) && ValueOk(r, Map(Some(root))) && r[root].entries == TwoSlices(x, y)
    ensures forall a :: a in h ==> a in r && r[a] == h[a]
  {
    var r := h[root := MapNode(TwoSlices(x, y))];
    StillOk(h, r);
    assert NodeOk(r, r[root]);
    r
  }

  lemma TwoSlicesShown(sensitive: string -> bool, h: Heap, root: Addr, zero: Addr)
    requires root !in h && root != zero
    ensures var t := TwoSlicesTree(root, zero, zero); Shows(t, TWO_EMPTY) && New(sensitive, h, zero, t)
  {
    var empty: Tree := TSlice(zero, []);
    assert Shows(empty, OSlice([])) && New(sensitive, h, zero, empty);
  }

  lemma TwoSlicesApart(sensitive: string -> bool, root: Addr, zero: Addr, a: Addr)
    requires a != zero
    ensures ObjectOnce(sensitive, TwoSlicesTree(root, zero, zero), a)
  {
    var empty: Tree := TSlice(zero, []);
    assert ObjectOnce(sensitive, empty, a) && !HasObject(sensitive, empty, a);
  }

  // The output of a pass over two empty slices, as it lies in the heap.
  lemma TwoSlicesLaidOut(sensitive: string -> bool, h: Heap, root: Addr, zero: Addr)
    requires HeapOk(h) && root !in h && root != zero && zero in h && h[zero] == SliceNode([])
    ensures LaidOut(sensitive, h, WithTwoSlices(h, root, zero, zero), zero, TwoSlicesTree(root, zero, zero), TWO_EMPTY)
  {
    TwoSlicesUnfold(sensitive, WithTwoSlices(h, root, zero, zero), root, zero, zero);
    TwoSlicesShown(sensitive, h, root, zero);
    forall a: Addr | a != zero ensures ObjectOnce(sensitive, TwoSlicesTree(root, zero, zero), a) {
      TwoSlicesApart(sensitive, root, zero, a);
    }
  }

  // Two empty slices with arrays of their own go through unchanged; their copies share the zero address, and
  // one of them is taken for a cycle by the second call. The two heaps are those that the calls ran on.
  method SecondEmptySliceIsCut(sensitive: string -> bool, root: Addr, x: Addr, y: Addr, zero: Addr, root2: Addr)
    returns (once: Option<Out>, again: Option<Out>, ghost h: Heap, ghost seen: set<Addr>, ghost h2: Heap, ghost t: Tree, ghost seen2: set<Addr>)
    requires !sensitive("a") && !sensitive("b") && x != y && root !in {x, y, zero} && root2 !in {root, x, y, zero}
    ensures once == Some(TWO_EMPTY) && again.Some? && again != once
    ensures FirstPass(sensitive, h, root, TWO_EMPTY, seen, h2, zero, t) && !AtMostOnce(sensitive, t, zero)
    ensures again.value.OMap? && again.value.entries.Keys == t.entries.Keys && NodeOk(h2, h2[t.a])
    ensures MapRun(sensitive, h2, h2[t.a].entries, {}, again.value, again.value.entries.Keys, seen2)
  {
    var sanitizer := new MetadataSanitizer(sensitive);
    var arrays: Heap := map[x := SliceNode([]), y := SliceNode([]), zero := SliceNode([])];
    var input := WithTwoSlices(arrays, root, x, y);
    once, seen := TwoEmptySlices(sanitizer, input, root, x, y);
    var output := WithTwoSlices(input, root2, zero, zero);
    again, seen2 := TwoEmptySlices(sanitizer, output, root2, zero, zero);
    h, h2, t := input, output, TwoSlicesTree(root2, zero, zero);
    TwoSlicesLaidOut(sensitive, input, root2, zero);
    TwoSlicesUnfold(sensitive, output, root2, zero, zero);
    SecondPassIff(sensitive, input, root, once.value, seen, output, zero, t, again.value, seen2);
  }
}

/**
 * Sanitising what was sanitised. The first output is a new object graph: a new map has an address of its own,
 * a new slice as well, but all slices of length zero share one. Copied values still point into the old heap.
 */
module SanitizerTwice {
  import opened Prelude
  import opened Sanitizer
  import opened SanitizerTrees

  /* ---- one address, met at most once ---- */

  predicate AtMostOnce(sensitive: string -> bool, t: Tree, a: Addr)
    decreases t, 1
  {
    match t
    case TOther(_, p) => ProbeOnce(p)
    case TMap(b, entries) => OnceAt(sensitive, t, a, entries.Keys) && (a == b ==> a !in MetAt(sensitive, t, entries.Keys))
    case TSlice(b, elems) => OnceUpTo(sensitive, t, a, |elems|) && (a == b ==> a !in MetUpTo(sensitive, t, |elems|))
    case _ => true
  }

  predicate OnceAt(sensitive: string -> bool, t: Tree, a: Addr, keys: set<string>)
    requires t.TMap?
    decreases t, 0
  {
    (forall k :: k in keys && k in t.entries && !sensitive(k) ==> AtMostOnce(sensitive, t.entries[k], a))
    && forall j, k :: j in keys && k in keys && j in t.entries && k in t.entries && j != k && !sensitive(j) && !sensitive(k) ==>
         !(a in Met(sensitive, t.entries[j]) && a in Met(sensitive, t.entries[k]))
  }

  predicate OnceUpTo(sensitive: string -> bool, t: Tree, a: Addr, n: nat)
    requires t.TSlice? && n <= |t.elems|
    decreases t, 0
  {
    (forall i :: 0 <= i < n ==> AtMostOnce(sensitive, t.elems[i], a))
    && forall i, j :: 0 <= i < j < n ==> !(a in Met(sensitive, t.elems[i]) && a in Met(sensitive, t.elems[j]))
  }

  lemma {:induction false} CleanIsOnce(sensitive: string -> bool, t: Tree, a: Addr)
    requires Clean(sensitive, t)
    ensures AtMostOnce(sensitive, t, a)
  {
    match t
    case TMap(b, entries) =>
      forall k | k in entries && !sensitive(k) ensures AtMostOnce(sensitive, entries[k], a) { CleanIsOnce(sensitive, entries[k], a); }
    case TSlice(b, elems) =>
      forall i | 0 <= i < |elems| ensures AtMostOnce(sensitive, elems[i], a) { CleanIsOnce(sensitive, elems[i], a); }
    case _ =>
  }

  ghost predicate AllOnce(sensitive: string -> bool, t: Tree) {
    forall a :: AtMostOnce(sensitive, t, a)
  }

  lemma {:induction false} OnceIsClean(sensitive: string -> bool, t: Tree)
    requires AllOnce(sensitive, t)
    ensures Clean(sensitive, t)
  {
    match t
    case TMap(b, entries) => OnceIsCleanAt(sensitive, t);
    case TSlice(b, elems) => OnceIsCleanUpTo(sensitive, t);
    case TOther(_, _) => assert AtMostOnce(sensitive, t, 0);
    case _ =>
  }

  lemma EntriesOnce(sensitive: string -> bool, t: Tree, a: Addr)
    requires t.TMap? && AtMostOnce(sensitive, t, a)
    ensures OnceAt(sensitive, t, a, t.entries.Keys) && (a == t.a ==> a !in MetAt(sensitive, t, t.entries.Keys))
  {
  }

  lemma ElementsOnce(sensitive: string -> bool, t: Tree, a: Addr)
    requires t.TSlice? && AtMostOnce(sensitive, t, a)
    ensures OnceUpTo(sensitive, t, a, |t.elems|) && (a == t.a ==> a !in MetUpTo(sensitive, t, |t.elems|))
  {
  }

  lemma {:induction false} OnceIsCleanAt(sensitive: string -> bool, t: Tree)
    requires t.TMap? && AllOnce(sensitive, t)
    ensures Clean(sensitive, t)
    decreases t, 0
  {
    forall a ensures OnceAt(sensitive, t, a, t.entries.Keys) { EntriesOnce(sensitive, t, a); }
    forall k | k in t.entries && !sensitive(k) ensures Clean(sensitive, t.entries[k]) {
      forall a ensures AtMostOnce(sensitive, t.entries[k], a) { assert OnceAt(sensitive, t, a, t.entries.Keys); }
      OnceIsClean(sensitive, t.entries[k]);
    }
    forall j, k | j in t.entries && k in t.entries && j != k && !sensitive(j) && !sensitive(k)
      ensures Met(sensitive, t.entries[j]) !! Met(sensitive, t.entries[k])
    {
      forall a | a in Met(sensitive, t.entries[j]) ensures a !in Met(sensitive, t.entries[k]) {
        assert OnceAt(sensitive, t, a, t.entries.Keys);
      }
    }
    EntriesOnce(sensitive, t, t.a);
  }

  lemma {:induction false} OnceIsCleanUpTo(sensitive: string -> bool, t: Tree)
    requires t.TSlice? && AllOnce(sensitive, t)
    ensures Clean(sensitive, t)
    decreases t, 0
  {
    forall a ensures OnceUpTo(sensitive, t, a, |t.elems|) { ElementsOnce(sensitive, t, a); }
    forall i | 0 <= i < |t.elems| ensures Clean(sensitive, t.elems[i]) {
      forall a ensures AtMostOnce(sensitive, t.elems[i], a) { assert OnceUpTo(sensitive, t, a, |t.elems|); }
      OnceIsClean(sensitive, t.elems[i]);
    }
    forall i, j | 0 <= i < j < |t.elems| ensures Met(sensitive, t.elems[i]) !! Met(sensitive, t.elems[j]) {
      forall a | a in Met(sensitive, t.elems[i]) ensures a !in Met(sensitive, t.elems[j]) {
        assert OnceUpTo(sensitive, t, a, |t.elems|);
      }
    }
    ElementsOnce(sensitive, t, t.a);
  }

  /* ---- the output as an object graph ---- */

  // The tree looks like the output.
  predicate Shows(t: Tree, out: Out) {
    match out
    case OMap(entries) => t.TMap? && t.entries.Keys == entries.Keys && forall k :: k in entries ==> Shows(t.entries[k], entries[k])
    case OSlice(elems) => t.TSlice? && |t.elems| == |elems| && forall i :: 0 <= i < |elems| ==> Shows(t.elems[i], elems[i])
    case ONilSlice => t.TNilSlice?
    case OCopy(v) => t.TOther? && t.v == v
  }

  // New objects lie outside the old heap; slices of length zero lie at the zero address, nothing else new does.
  predicate New(sensitive: string -> bool, h: Heap, zero: Addr, t: Tree) {
    match t
    case TMap(a, entries) => a !in h && a != zero && forall k :: k in entries && !sensitive(k) ==> New(sensitive, h, zero, entries[k])
    case TSlice(a, elems) =>
      (if elems == [] then a == zero else a !in h && a != zero)
      && forall i :: 0 <= i < |elems| ==> New(sensitive, h, zero, elems[i])
    case _ => true
  }

  predicate HasObject(sensitive: string -> bool, t: Tree, a: Addr) {
    match t
    case TMap(b, entries) => a == b || exists k :: k in entries && !sensitive(k) && HasObject(sensitive, entries[k], a)
    case TSlice(b, elems) => a == b || exists i :: 0 <= i < |elems| && HasObject(sensitive, elems[i], a)
    case _ => false
  }

  // No two objects at one address.
  predicate ObjectOnce(sensitive: string -> bool, t: Tree, a: Addr) {
    match t
    case TMap(b, entries) =>
      (forall k :: k in entries && !sensitive(k) ==> ObjectOnce(sensitive, entries[k], a) && !(a == b && HasObject(sensitive, entries[k], a)))
      && forall j, k :: j in entries && k in entries && j != k && !sensitive(j) && !sensitive(k) ==>
           !(HasObject(sensitive, entries[j], a) && HasObject(sensitive, entries[k], a))
    case TSlice(b, elems) =>
      (forall i :: 0 <= i < |elems| ==> ObjectOnce(sensitive, elems[i], a) && !(a == b && HasObject(sensitive, elems[i], a)))
      && forall i, j :: 0 <= i < j < |elems| ==> !(HasObject(sensitive, elems[i], a) && HasObject(sensitive, elems[j], a))
    case _ => true
  }

  // How Go lays the output out: h2 is the old heap with the new objects added.
  ghost predicate LaidOut(sensitive: string -> bool, h: Heap, h2: Heap, zero: Addr, t: Tree, out: Out) {
    HeapOk(h2) && (forall a :: a in h ==> a in h2 && h2[a] == h[a])
    && Shows(t, out) && ValueOk(h2, ValueOf(t)) && Unfolds(sensitive, h2, t) && New(sensitive, h, zero, t)
    && forall a :: a != zero ==> ObjectOnce(sensitive, t, a)
  }

  /* ---- the copied values of the first output ---- */

  lemma {:induction false} UnfoldsBefore(h: Heap, h2: Heap, v: Value, p: Probed)
    requires HeapOk(h) && ValueOk(h, v) && (forall a :: a in h ==> a in h2 && h2[a] == h[a]) && ProbeUnfolds(h2, v, p)
    ensures ProbeUnfolds(h, v, p) && ProbeMet(p) <= h.Keys
    decreases p, if p.PStruct? then |p.fields| + 1 else 0
  {
    match p
    case PPointer(a, target) =>
      assert NodeOk(h, h[a]);
      UnfoldsBefore(h, h2, h[a].target, target);
    case PStruct(fields) =>
      forall i | 0 <= i < |fields| ensures ProbeUnfolds(h, v.fields[i], fields[i]) && ProbeMet(fields[i]) <= h.Keys {
        UnfoldsBefore(h, h2, v.fields[i], fields[i]);
      }
      FieldsMetInside(p, |fields|, h.Keys);
    case _ =>
  }

  lemma {:induction false} FieldsMetInside(p: Probed, n: nat, all: set<Addr>)
    requires p.PStruct? && n <= |p.fields| && forall i :: 0 <= i < n ==> ProbeMet(p.fields[i]) <= all
    ensures FieldsMet(p, n) <= all
  {
    if n > 0 { FieldsMetInside(p, n - 1, all); }
  }

  // A copied value has no verdict, meets no address twice, and only addresses of the old heap.
  predicate LeafFine(h: Heap, p: Probed) {
    Verdict(p).None? && ProbeOnce(p) && ProbeMet(p) <= h.Keys
  }

  predicate LeavesFine(sensitive: string -> bool, h: Heap, t: Tree) {
    match t
    case TOther(_, p) => LeafFine(h, p)
    case TMap(_, entries) => forall k :: k in entries && !sensitive(k) ==> LeavesFine(sensitive, h, entries[k])
    case TSlice(_, elems) => forall i :: 0 <= i < |elems| ==> LeavesFine(sensitive, h, elems[i])
    case _ => true
  }

  ghost predicate Grown(h: Heap, h2: Heap) {
    forall a :: a in h ==> a in h2 && h2[a] == h[a]
  }

  lemma CopyIsFine(sensitive: string -> bool, h: Heap, v: Value, before: set<Addr>, out: Out, after: set<Addr>, h2: Heap, t: Tree)
    requires HeapOk(h) && ValueOk(h, v) && Run(sensitive, h, v, before, out, after)
    requires Grown(h, h2) && t.TOther? && Unfolds(sensitive, h2, t) && Shows(t, out)
    ensures LeafFine(h, t.p) && ProbeMet(t.p) !! before && ProbeMet(t.p) <= after
  {
    if Probe(h, v, before).desc.None? {
      UnfoldsBefore(h, h2, v, t.p);
      ProbeExact(h, v, t.p, before);
    } else {
      assert t.p.PLeaf?;
    }
  }

  lemma {:induction false} RunLeaves(sensitive: string -> bool, h: Heap, v: Value, before: set<Addr>, out: Out, after: set<Addr>, h2: Heap, t: Tree)
    requires HeapOk(h) && ValueOk(h, v) && Run(sensitive, h, v, before, out, after)
    requires Grown(h, h2) && Unfolds(sensitive, h2, t) && Shows(t, out)
    ensures LeavesFine(sensitive, h, t)
    decreases t, 1
  {
    match t
    case TOther(_, _) => CopyIsFine(sensitive, h, v, before, out, after, h2, t);
    case TMap(_, entries) => MapRunLeaves(sensitive, h, Entries(h, v.at), Probe(h, v, before).seen, out, after, h2, t);
    case TSlice(_, elems) =>
      forall i | 0 <= i < |elems| ensures LeavesFine(sensitive, h, elems[i]) {
        var mid, mid' := ElementOfRun(sensitive, h, Elements(h, v.at, v.len), Probe(h, v, before).seen, out, v.len, after, i);
        RunLeaves(sensitive, h, Elements(h, v.at, v.len)[i], mid, out.elems[i], mid', h2, elems[i]);
      }
    case _ =>
  }

  lemma {:induction false} MapRunLeaves(sensitive: string -> bool, h: Heap, entries: map<string, Value>, before: set<Addr>, out: Out,
                                        after: set<Addr>, h2: Heap, t: Tree)
    requires HeapOk(h) && NodeOk(h, MapNode(entries)) && out.OMap? && out.entries.Keys == entries.Keys
    requires MapRun(sensitive, h, entries, before, out, out.entries.Keys, after)
    requires Grown(h, h2) && t.TMap? && Unfolds(sensitive, h2, t) && Shows(t, out)
    ensures LeavesFine(sensitive, h, t)
    decreases t, 0
  {
    forall k | k in t.entries && !sensitive(k) ensures LeavesFine(sensitive, h, t.entries[k]) {
      var earlier, mid, mid' := EntryOfRun(sensitive, h, entries, before, out, out.entries.Keys, after, k);
      RunLeaves(sensitive, h, entries[k], mid, out.entries[k], mid', h2, t.entries[k]);
    }
  }

  // What the plain function would put out for the first output is the first output.
  lemma {:induction false} PlainTwice(sensitive: string -> bool, h: Heap, t: Tree, out: Out)
    requires Shows(t, out) && LeavesFine(sensitive, h, t) && AllMasked(sensitive, out)
    ensures Plain(sensitive, t) == out
  {
    match t
    case TMap(_, entries) =>
      forall k | k in entries && !sensitive(k) ensures Plain(sensitive, entries[k]) == out.entries[k] {
        PlainTwice(sensitive, h, entries[k], out.entries[k]);
      }
      assert Plain(sensitive, t).entries == out.entries;
    case TSlice(_, elems) =>
      forall i | 0 <= i < |elems| ensures Plain(sensitive, elems[i]) == out.elems[i] {
        PlainTwice(sensitive, h, elems[i], out.elems[i]);
      }
      assert Plain(sensitive, t).elems == out.elems;
    case _ =>
  }

  /* ---- which addresses the second pass can meet twice ---- */

  // An address of the old heap: it is met through copied values only, and by no two of them.
  lemma {:induction false} OldOnce(sensitive: string -> bool, h: Heap, v: Value, before: set<Addr>, out: Out, after: set<Addr>,
                                   h2: Heap, zero: Addr, t: Tree, a: Addr)
    requires HeapOk(h) && ValueOk(h, v) && Run(sensitive, h, v, before, out, after)
    requires Grown(h, h2) && Unfolds(sensitive, h2, t) && Shows(t, out) && New(sensitive, h, zero, t) && a in h && a != zero
    ensures OldAt(sensitive, t, a, before, after)
    decreases t, 1, 0
  {
    match t
    case TOther(_, _) => CopyIsFine(sensitive, h, v, before, out, after, h2, t);
    case TMap(_, entries) =>
      MapOldOnce(sensitive, h, Entries(h, v.at), Probe(h, v, before).seen, out, entries.Keys, after, h2, zero, t, a);
    case TSlice(_, elems) =>
      SliceOldOnce(sensitive, h, Elements(h, v.at, v.len), Probe(h, v, before).seen, out, |elems|, after, h2, zero, t, a);
    case _ =>
  }

  // The second pass over copies of the first, at one key or index: an address is met there once, and was marked then.
  ghost predicate OldAt(sensitive: string -> bool, t: Tree, a: Addr, before: set<Addr>, after: set<Addr>) {
    AtMostOnce(sensitive, t, a) && (a in Met(sensitive, t) ==> a !in before && a in after)
  }

  ghost predicate OldAtKeys(sensitive: string -> bool, t: Tree, a: Addr, keys: set<string>, before: set<Addr>, after: set<Addr>)
    requires t.TMap?
  {
    OnceAt(sensitive, t, a, keys) && (a in MetAt(sensitive, t, keys) ==> a !in before && a in after)
  }

  lemma OldAtOneMore(sensitive: string -> bool, t: Tree, a: Addr, keys: set<string>, k: string, before: set<Addr>, mid: set<Addr>, after: set<Addr>)
    requires t.TMap? && k in t.entries && k !in keys && before <= mid <= after
    requires OldAtKeys(sensitive, t, a, keys, before, mid)
    requires !sensitive(k) ==> OldAt(sensitive, t.entries[k], a, mid, after)
    ensures OldAtKeys(sensitive, t, a, keys + {k}, before, after)
  {
    OnceAtMore(sensitive, t, a, keys, k);
  }

  lemma {:induction false} MapOldOnce(sensitive: string -> bool, h: Heap, entries: map<string, Value>, before: set<Addr>, out: Out,
                                      keys: set<string>, after: set<Addr>, h2: Heap, zero: Addr, t: Tree, a: Addr)
    requires HeapOk(h) && NodeOk(h, MapNode(entries)) && out.OMap? && keys <= out.entries.Keys && keys <= entries.Keys
    requires MapRun(sensitive, h, entries, before, out, keys, after)
    requires Grown(h, h2) && t.TMap? && Unfolds(sensitive, h2, t) && Shows(t, out) && New(sensitive, h, zero, t) && a in h && a != zero
    ensures OldAtKeys(sensitive, t, a, keys, before, after)
    decreases t, 0, |keys|
  {
    if keys == {} {
      assert MetAt(sensitive, t, keys) == {};
    } else {
      var rest, k, mid := LastKey(sensitive, h, entries, before, out, keys, after);
      MapOldOnce(sensitive, h, entries, before, out, rest, mid, h2, zero, t, a);
      MapRunGrows(sensitive, h, entries, before, out, rest, mid);
      EntryOldOnce(sensitive, h, entries, out, k, mid, after, h2, zero, t, a);
      OldAtOneMore(sensitive, t, a, rest, k, before, mid, after);
    }
  }

  lemma {:induction false} EntryOldOnce(sensitive: string -> bool, h: Heap, entries: map<string, Value>, out: Out, k: string,
                                        mid: set<Addr>, after: set<Addr>, h2: Heap, zero: Addr, t: Tree, a: Addr)
    requires HeapOk(h) && NodeOk(h, MapNode(entries)) && out.OMap? && k in out.entries && k in entries
    requires EntryRun(sensitive, h, entries, k, mid, out, after)
    requires Grown(h, h2) && t.TMap? && Unfolds(sensitive, h2, t) && Shows(t, out) && New(sensitive, h, zero, t) && a in h && a != zero
    ensures mid <= after && (!sensitive(k) ==> OldAt(sensitive, t.entries[k], a, mid, after))
    decreases t, 0, 0
  {
    if !sensitive(k) {
      RunGrows(sensitive, h, entries[k], mid, out.entries[k], after);
      OldOnce(sensitive, h, entries[k], mid, out.entries[k], after, h2, zero, t.entries[k], a);
    }
  }

  lemma OnceAtMore(sensitive: string -> bool, t: Tree, a: Addr, keys: set<string>, k: string)
    requires t.TMap? && k in t.entries && OnceAt(sensitive, t, a, keys)
    requires !sensitive(k) ==> AtMostOnce(sensitive, t.entries[k], a) && !(a in Met(sensitive, t.entries[k]) && a in MetAt(sensitive, t, keys))
    ensures OnceAt(sensitive, t, a, keys + {k})
    ensures a in MetAt(sensitive, t, keys + {k}) <==> a in MetAt(sensitive, t, keys) || (!sensitive(k) && a in Met(sensitive, t.entries[k]))
  {
  }

  ghost predicate OldUpTo(sensitive: string -> bool, t: Tree, a: Addr, n: nat, before: set<Addr>, after: set<Addr>)
    requires t.TSlice? && n <= |t.elems|
  {
    OnceUpTo(sensitive, t, a, n) && (a in MetUpTo(sensitive, t, n) ==> a !in before && a in after)
  }

  lemma OldUpToOneMore(sensitive: string -> bool, t: Tree, a: Addr, n: nat, before: set<Addr>, mid: set<Addr>, after: set<Addr>)
    requires t.TSlice? && n < |t.elems| && before <= mid <= after
    requires OldUpTo(sensitive, t, a, n, before, mid) && OldAt(sensitive, t.elems[n], a, mid, after)
    ensures OldUpTo(sensitive, t, a, n + 1, before, after)
  {
    MetUpToMore(sensitive, t, n);
  }

  lemma {:induction false} SliceOldOnce(sensitive: string -> bool, h: Heap, elems: seq<Value>, before: set<Addr>, out: Out,
                                        n: nat, after: set<Addr>, h2: Heap, zero: Addr, t: Tree, a: Addr)
    requires HeapOk(h) && NodeOk(h, SliceNode(elems)) && out.OSlice? && n <= |out.elems| && n <= |elems|
    requires SliceRun(sensitive, h, elems, before, out, n, after)
    requires Grown(h, h2) && t.TSlice? && Unfolds(sensitive, h2, t) && Shows(t, out) && New(sensitive, h, zero, t) && a in h && a != zero
    ensures OldUpTo(sensitive, t, a, n, before, after)
    decreases t, 0, n
  {
    if n > 0 {
      var mid: set<Addr> :|
        SliceRun(sensitive, h, elems, before, out, n - 1, mid) && Run(sensitive, h, elems[n - 1], mid, out.elems[n - 1], after);
      SliceOldOnce(sensitive, h, elems, before, out, n - 1, mid, h2, zero, t, a);
      SliceRunGrows(sensitive, h, elems, before, out, n - 1, mid);
      RunGrows(sensitive, h, elems[n - 1], mid, out.elems[n - 1], after);
      OldOnce(sensitive, h, elems[n - 1], mid, out.elems[n - 1], after, h2, zero, t.elems[n - 1], a);
      OldUpToOneMore(sensitive, t, a, n - 1, before, mid, after);
    }
  }

  // An address outside the old heap is met where an object has it, and nowhere else.
  lemma {:induction false} NewOnce(sensitive: string -> bool, h: Heap, t: Tree, a: Addr)
    requires LeavesFine(sensitive, h, t) && ObjectOnce(sensitive, t, a) && a !in h
    ensures AtMostOnce(sensitive, t, a) && (a in Met(sensitive, t) <==> HasObject(sensitive, t, a))
  {
    match t
    case TMap(b, entries) =>
      forall k | k in entries && !sensitive(k)
        ensures AtMostOnce(sensitive, entries[k], a) && (a in Met(sensitive, entries[k]) <==> HasObject(sensitive, entries[k], a))
      {
        NewOnce(sensitive, h, entries[k], a);
      }
    case TSlice(b, elems) =>
      forall i | 0 <= i < |elems|
        ensures AtMostOnce(sensitive, elems[i], a) && (a in Met(sensitive, elems[i]) <==> HasObject(sensitive, elems[i], a))
      {
        NewOnce(sensitive, h, elems[i], a);
      }
    case _ =>
  }

  /* ---- the second pass ---- */

  // The first call, and its output as the second call finds it.
  ghost predicate FirstPass(sensitive: string -> bool, h: Heap, metadata: Addr, once: Out, seen: set<Addr>, h2: Heap, zero: Addr, t: Tree) {
    HeapOk(h) && ValueOk(h, Map(Some(metadata))) && once.OMap? && once.entries.Keys == Entries(h, Some(metadata)).Keys
    && MapRun(sensitive, h, Entries(h, Some(metadata)), {}, once, once.entries.Keys, seen)
    && LaidOut(sensitive, h, h2, zero, t, once)
  }

  // Apart from the zero address, the second pass meets nothing twice.
  lemma OthersOnce(sensitive: string -> bool, h: Heap, metadata: Addr, once: Out, seen: set<Addr>, h2: Heap, zero: Addr, t: Tree, a: Addr)
    requires FirstPass(sensitive, h, metadata, once, seen, h2, zero, t) && LeavesFine(sensitive, h, t) && a != zero
    ensures AtMostOnce(sensitive, t, a)
  {
    if a in h {
      MapOldOnce(sensitive, h, Entries(h, Some(metadata)), {}, once, once.entries.Keys, seen, h2, zero, t, a);
    } else {
      NewOnce(sensitive, h, t, a);
    }
  }

  // Sanitising the output of the sanitiser changes nothing exactly when the address that all empty slices
  // share is met at most once in it.
  lemma SecondPassIff(sensitive: string -> bool, h: Heap, metadata: Addr, once: Out, seen: set<Addr>, h2: Heap, zero: Addr, t: Tree,
                      again: Out, seen2: set<Addr>)
    requires FirstPass(sensitive, h, metadata, once, seen, h2, zero, t)
    requires again.OMap? && again.entries.Keys == t.entries.Keys && NodeOk(h2, h2[t.a])
    requires MapRun(sensitive, h2, h2[t.a].entries, {}, again, again.entries.Keys, seen2)
    ensures again == once <==> AtMostOnce(sensitive, t, zero)
  {
    MapRunLeaves(sensitive, h, Entries(h, Some(metadata)), {}, once, seen, h2, t);
    MapRunIsMasked(sensitive, h, Entries(h, Some(metadata)), {}, once, seen);
    PlainTwice(sensitive, h, t, once);
    SanitizeExact(sensitive, h2, t, again, seen2);
    RootOnce(sensitive, h, metadata, once, seen, h2, zero, t);
  }

  // The root's own address is new, so it is not met below it.
  lemma RootOnce(sensitive: string -> bool, h: Heap, metadata: Addr, once: Out, seen: set<Addr>, h2: Heap, zero: Addr, t: Tree)
    requires FirstPass(sensitive, h, metadata, once, seen, h2, zero, t) && LeavesFine(sensitive, h, t)
    ensures CleanAt(sensitive, t, t.entries.Keys) <==> AtMostOnce(sensitive, t, zero)
  {
    forall a | a != zero ensures AtMostOnce(sensitive, t, a) { OthersOnce(sensitive, h, metadata, once, seen, h2, zero, t, a); }
    if AtMostOnce(sensitive, t, zero) {
      OnceIsClean(sensitive, t);
    }
    if CleanAt(sensitive, t, t.entries.Keys) {
      assert AtMostOnce(sensitive, t, t.a);
      assert Clean(sensitive, t);
      CleanIsOnce(sensitive, t, zero);
    }
  }

  /* ---- counted on the output itself ---- */

  predicate HasEmptySlice(sensitive: string -> bool, out: Out) {
    match out
    case OMap(entries) => exists k :: k in entries && !sensitive(k) && HasEmptySlice(sensitive, entries[k])
    case OSlice(elems) => elems == [] || exists i :: 0 <= i < |elems| && HasEmptySlice(sensitive, elems[i])
    case _ => false
  }

  // At most one empty slice in all of it, sensitive keys aside.
  predicate OneEmptySlice(sensitive: string -> bool, out: Out) {
    match out
    case OMap(entries) =>
      (forall k :: k in entries && !sensitive(k) ==> OneEmptySlice(sensitive, entries[k]))
      && forall j, k :: j in entries && k in entries && j != k && !sensitive(j) && !sensitive(k) ==>
           !(HasEmptySlice(sensitive, entries[j]) && HasEmptySlice(sensitive, entries[k]))
    case OSlice(elems) =>
      (forall i :: 0 <= i < |elems| ==> OneEmptySlice(sensitive, elems[i]))
      && forall i, j :: 0 <= i < j < |elems| ==> !(HasEmptySlice(sensitive, elems[i]) && HasEmptySlice(sensitive, elems[j]))
    case _ => true
  }

  // No copied value reaches the zero address: none is or holds an empty slice of another type.
  predicate CopiesAvoid(sensitive: string -> bool, t: Tree, zero: Addr) {
    match t
    case TOther(_, p) => zero !in ProbeMet(p)
    case TMap(_, entries) => forall k :: k in entries && !sensitive(k) ==> CopiesAvoid(sensitive, entries[k], zero)
    case TSlice(_, elems) => forall i :: 0 <= i < |elems| ==> CopiesAvoid(sensitive, elems[i], zero)
    case _ => true
  }

  lemma {:induction false} ZeroIsEmpty(sensitive: string -> bool, h: Heap, zero: Addr, t: Tree, out: Out)
    requires Shows(t, out) && New(sensitive, h, zero, t) && LeavesFine(sensitive, h, t) && CopiesAvoid(sensitive, t, zero)
    ensures zero in Met(sensitive, t) <==> HasEmptySlice(sensitive, out)
    ensures AtMostOnce(sensitive, t, zero) <==> OneEmptySlice(sensitive, out)
  {
    match t
    case TMap(_, entries) =>
      forall k | k in entries && !sensitive(k)
        ensures zero in Met(sensitive, entries[k]) <==> HasEmptySlice(sensitive, out.entries[k])
        ensures AtMostOnce(sensitive, entries[k], zero) <==> OneEmptySlice(sensitive, out.entries[k])
      {
        ZeroIsEmpty(sensitive, h, zero, entries[k], out.entries[k]);
      }
    case TSlice(_, elems) =>
      forall i | 0 <= i < |elems|
        ensures zero in Met(sensitive, elems[i]) <==> HasEmptySlice(sensitive, out.elems[i])
        ensures AtMostOnce(sensitive, elems[i], zero) <==> OneEmptySlice(sensitive, out.elems[i])
      {
        ZeroIsEmpty(sensitive, h, zero, elems[i], out.elems[i]);
      }
    case _ =>
  }

  // Without empty slices of other types: exactly when the output holds at most one empty slice.
  lemma SecondPassCounted(sensitive: string -> bool, h: Heap, metadata: Addr, once: Out, seen: set<Addr>, h2: Heap, zero: Addr, t: Tree,
                          again: Out, seen2: set<Addr>)
    requires FirstPass(sensitive, h, metadata, once, seen, h2, zero, t) && CopiesAvoid(sensitive, t, zero)
    requires again.OMap? && again.entries.Keys == t.entries.Keys && NodeOk(h2, h2[t.a])
    requires MapRun(sensitive, h2, h2[t.a].entries, {}, again, again.entries.Keys, seen2)
    ensures again == once <==> OneEmptySlice(sensitive, once)
  {
    SecondPassIff(sensitive, h, metadata, once, seen, h2, zero, t, again, seen2);
    MapRunLeaves(sensitive, h, Entries(h, Some(metadata)), {}, once, seen, h2, t);
    ZeroIsEmpty(sensitive, h, zero, t, once);
  }
}

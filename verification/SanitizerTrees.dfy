/**
 * Metadata without loops unfolds to a tree. On trees there is the plain recursive masking, and the sanitiser
 * computes it exactly when no address is met twice outside sensitive keys.
 */
module SanitizerTrees {
  import opened Prelude
  import opened Sanitizer

  /* ---- what the search for non-serializable content goes through ---- */

  // Pointers and struct fields; maps and slices below them are met, not entered.
  datatype Probed = PLeaf | PFundamental(kind: Kind) | PReference(a: Addr) | PPointer(a: Addr, target: Probed) | PStruct(fields: seq<Probed>)

  predicate ProbeUnfolds(h: Heap, v: Value, p: Probed)
    decreases p
  {
    match p
    case PLeaf => v.Nil? || v.Scalar? || v.Text? || ((v.Map? || v.Slice? || v.Typed? || v.Pointer?) && v.at.None?)
    case PFundamental(kind) => v == Fundamental(kind)
    case PReference(a) => (v.Map? || v.Slice? || v.Typed?) && v.at == Some(a)
    case PPointer(a, target) => v == Pointer(Some(a)) && a in h && h[a].PointerNode? && ProbeUnfolds(h, h[a].target, target)
    case PStruct(fields) => v.Struct? && |v.fields| == |fields| && forall i :: 0 <= i < |fields| ==> ProbeUnfolds(h, v.fields[i], fields[i])
  }

  // The first non-serializable content below pointers and struct fields.
  function Verdict(p: Probed): Option<string>
    decreases p, if p.PStruct? then |p.fields| + 1 else 0
  {
    match p
    case PFundamental(kind) => Some(Descriptor(kind))
    case PPointer(_, target) => Verdict(target)
    case PStruct(fields) => FirstVerdict(p, |fields|)
    case _ => None
  }

  function FirstVerdict(p: Probed, n: nat): Option<string>
    requires p.PStruct? && n <= |p.fields|
    decreases p, n
  {
    if n == 0 then None else if FirstVerdict(p, n - 1).Some? then FirstVerdict(p, n - 1) else Verdict(p.fields[n - 1])
  }

  // The addresses met up to there.
  function ProbeMet(p: Probed): set<Addr>
    decreases p, if p.PStruct? then |p.fields| + 1 else 0
  {
    match p
    case PReference(a) => {a}
    case PPointer(a, target) => {a} + ProbeMet(target)
    case PStruct(fields) => FieldsMet(p, |fields|)
    case _ => {}
  }

  function FieldsMet(p: Probed, n: nat): set<Addr>
    requires p.PStruct? && n <= |p.fields|
    decreases p, n
  {
    if n == 0 then {}
    else if FirstVerdict(p, n - 1).Some? then FieldsMet(p, n - 1)
    else FieldsMet(p, n - 1) + ProbeMet(p.fields[n - 1])
  }

  // None of them twice.
  predicate ProbeOnce(p: Probed)
    decreases p, if p.PStruct? then |p.fields| + 1 else 0
  {
    match p
    case PPointer(a, target) => a !in ProbeMet(target) && ProbeOnce(target)
    case PStruct(fields) => FieldsOnce(p, |fields|)
    case _ => true
  }

  predicate FieldsOnce(p: Probed, n: nat)
    requires p.PStruct? && n <= |p.fields|
    decreases p, n
  {
    n == 0
    || (FieldsOnce(p, n - 1)
        && (FirstVerdict(p, n - 1).None? ==> ProbeOnce(p.fields[n - 1]) && FieldsMet(p, n - 1) !! ProbeMet(p.fields[n - 1])))
  }

  // The search finds exactly the verdict and marks exactly what it met, or has met something for the second time.
  lemma {:induction false} ProbeExact(h: Heap, v: Value, p: Probed, visited: set<Addr>)
    requires HeapOk(h) && ValueOk(h, v) && ProbeUnfolds(h, v, p)
    ensures if ProbeOnce(p) && ProbeMet(p) !! visited then Probe(h, v, visited) == Found(Verdict(p), visited + ProbeMet(p))
            else Probe(h, v, visited).desc == Some(CYCLIC)
    decreases p, if p.PStruct? then |p.fields| + 1 else 0
  {
    match p
    case PPointer(a, target) =>
      if a !in visited {
        assert NodeOk(h, h[a]);
        ProbeExact(h, h[a].target, target, visited + {a});
        assert visited + {a} + ProbeMet(target) == visited + ({a} + ProbeMet(target));
      }
    case PStruct(fields) => FieldsExact(h, v.fields, p, |fields|, visited);
    case _ =>
  }

  // The same for the first n fields.
  ghost predicate ExactFields(h: Heap, fields: seq<Value>, p: Probed, n: nat, visited: set<Addr>)
    requires HeapOk(h) && ValueOk(h, Struct(fields)) && p.PStruct? && n <= |p.fields| == |fields|
  {
    if FieldsOnce(p, n) && FieldsMet(p, n) !! visited
    then ProbeFields(h, fields, n, visited) == Found(FirstVerdict(p, n), visited + FieldsMet(p, n))
    else ProbeFields(h, fields, n, visited).desc == Some(CYCLIC)
  }

  lemma {:induction false} FieldsExact(h: Heap, fields: seq<Value>, p: Probed, n: nat, visited: set<Addr>)
    requires HeapOk(h) && ValueOk(h, Struct(fields)) && ProbeUnfolds(h, Struct(fields), p) && p.PStruct? && n <= |p.fields| == |fields|
    ensures ExactFields(h, fields, p, n, visited)
    decreases p, n
  {
    if n > 0 {
      FieldsExact(h, fields, p, n - 1, visited);
      if ProbeFields(h, fields, n - 1, visited).desc.Some? {
        FieldsStand(h, fields, p, n - 1, visited);
      } else {
        ProbeExact(h, fields[n - 1], p.fields[n - 1], visited + FieldsMet(p, n - 1));
        OneMoreField(h, fields, p, n - 1, visited);
      }
    }
  }

  lemma FieldsStand(h: Heap, fields: seq<Value>, p: Probed, n: nat, visited: set<Addr>)
    requires HeapOk(h) && ValueOk(h, Struct(fields)) && p.PStruct? && n < |p.fields| == |fields|
    requires ExactFields(h, fields, p, n, visited) && ProbeFields(h, fields, n, visited).desc.Some?
    ensures ExactFields(h, fields, p, n + 1, visited)
  {
  }

  lemma OneMoreField(h: Heap, fields: seq<Value>, p: Probed, n: nat, visited: set<Addr>)
    requires HeapOk(h) && ValueOk(h, Struct(fields)) && p.PStruct? && n < |p.fields| == |fields|
    requires ExactFields(h, fields, p, n, visited) && ProbeFields(h, fields, n, visited).desc.None?
    requires var met, q := visited + FieldsMet(p, n), p.fields[n];
             if ProbeOnce(q) && ProbeMet(q) !! met then Probe(h, fields[n], met) == Found(Verdict(q), met + ProbeMet(q))
             else Probe(h, fields[n], met).desc == Some(CYCLIC)
    ensures ExactFields(h, fields, p, n + 1, visited)
  {
    var met, q := FieldsMet(p, n), p.fields[n];
    assert FieldsMet(p, n + 1) == met + ProbeMet(q);
    assert visited + met + ProbeMet(q) == visited + (met + ProbeMet(q));
  }

  /* ---- metadata as a tree ---- */

  datatype Tree =
    | TOther(v: Value, p: Probed)
    | TNilMap
    | TNilSlice
    | TMap(a: Addr, entries: map<string, Tree>)
    | TSlice(a: Addr, elems: seq<Tree>)

  function ValueOf(t: Tree): Value {
    match t
    case TOther(v, _) => v
    case TNilMap => Map(None)
    case TNilSlice => Slice(None, 0)
    case TMap(a, _) => Map(Some(a))
    case TSlice(a, elems) => Slice(Some(a), |elems|)
  }

  // The heap behind the value unfolds to the tree. What lies under sensitive keys may loop.
  predicate Unfolds(sensitive: string -> bool, h: Heap, t: Tree) {
    match t
    case TOther(v, p) => !v.Map? && !v.Slice? && ProbeUnfolds(h, v, p)
    case TMap(a, entries) =>
      a in h && h[a].MapNode? && h[a].entries.Keys == entries.Keys
      && forall k :: k in entries && !sensitive(k) ==> h[a].entries[k] == ValueOf(entries[k]) && Unfolds(sensitive, h, entries[k])
    case TSlice(a, elems) =>
      a in h && h[a].SliceNode? && |elems| <= |h[a].elems|
      && forall i :: 0 <= i < |elems| ==> h[a].elems[i] == ValueOf(elems[i]) && Unfolds(sensitive, h, elems[i])
    case _ => true
  }

  // The addresses met outside sensitive keys.
  function Met(sensitive: string -> bool, t: Tree): set<Addr>
    decreases t, 1
  {
    match t
    case TOther(_, p) => ProbeMet(p)
    case TMap(a, entries) => {a} + MetAt(sensitive, t, entries.Keys)
    case TSlice(a, elems) => {a} + MetUpTo(sensitive, t, |elems|)
    case _ => {}
  }

  function MetAt(sensitive: string -> bool, t: Tree, keys: set<string>): set<Addr>
    requires t.TMap?
    decreases t, 0
  {
    set k, b | k in keys && k in t.entries && !sensitive(k) && b in Met(sensitive, t.entries[k]) :: b
  }

  function MetUpTo(sensitive: string -> bool, t: Tree, n: nat): set<Addr>
    requires t.TSlice? && n <= |t.elems|
    decreases t, 0
  {
    set i, b | 0 <= i < n && b in Met(sensitive, t.elems[i]) :: b
  }

  // None of them twice.
  predicate Clean(sensitive: string -> bool, t: Tree)
    decreases t, 1
  {
    match t
    case TOther(_, p) => ProbeOnce(p)
    case TMap(a, entries) => CleanAt(sensitive, t, entries.Keys) && a !in MetAt(sensitive, t, entries.Keys)
    case TSlice(a, elems) => CleanUpTo(sensitive, t, |elems|) && a !in MetUpTo(sensitive, t, |elems|)
    case _ => true
  }

  predicate CleanAt(sensitive: string -> bool, t: Tree, keys: set<string>)
    requires t.TMap?
    decreases t, 0
  {
    (forall k :: k in keys && k in t.entries && !sensitive(k) ==> Clean(sensitive, t.entries[k]))
    && forall j, k :: j in keys && k in keys && j in t.entries && k in t.entries && j != k && !sensitive(j) && !sensitive(k) ==>
         Met(sensitive, t.entries[j]) !! Met(sensitive, t.entries[k])
  }

  predicate CleanUpTo(sensitive: string -> bool, t: Tree, n: nat)
    requires t.TSlice? && n <= |t.elems|
    decreases t, 0
  {
    (forall i :: 0 <= i < n ==> Clean(sensitive, t.elems[i]))
    && forall i, j :: 0 <= i < j < n ==> Met(sensitive, t.elems[i]) !! Met(sensitive, t.elems[j])
  }

  // The plain recursive masking function.
  function Plain(sensitive: string -> bool, t: Tree): Out {
    match t
    case TOther(v, p) => if Verdict(p).Some? then OCopy(Text(Verdict(p).value)) else OCopy(v)
    case TMap(_, entries) => OMap(map k | k in entries :: if sensitive(k) then MASKED else Plain(sensitive, entries[k]))
    case TSlice(_, elems) => OSlice(seq(|elems|, i requires 0 <= i < |elems| => Plain(sensitive, elems[i])))
    case TNilMap => OMap(map[])
    case TNilSlice => ONilSlice
  }

  /* ---- one more key, one more element ---- */

  lemma MetAtMore(sensitive: string -> bool, t: Tree, keys: set<string>, k: string)
    requires t.TMap? && k in t.entries
    ensures MetAt(sensitive, t, keys + {k}) == MetAt(sensitive, t, keys) + if sensitive(k) then {} else Met(sensitive, t.entries[k])
  {
  }

  lemma CleanAtMore(sensitive: string -> bool, t: Tree, keys: set<string>, k: string)
    requires t.TMap? && k in t.entries && k !in keys
    ensures CleanAt(sensitive, t, keys + {k})
            <==> CleanAt(sensitive, t, keys)
                 && (!sensitive(k) ==> Clean(sensitive, t.entries[k]) && Met(sensitive, t.entries[k]) !! MetAt(sensitive, t, keys))
  {
    if CleanAt(sensitive, t, keys + {k}) && !sensitive(k) {
      forall b | b in MetAt(sensitive, t, keys) ensures b !in Met(sensitive, t.entries[k]) {
        var j :| j in keys && j in t.entries && !sensitive(j) && b in Met(sensitive, t.entries[j]);
        assert j in keys + {k} && k in keys + {k};
      }
    }
    if CleanAt(sensitive, t, keys) && !sensitive(k) && Met(sensitive, t.entries[k]) !! MetAt(sensitive, t, keys) {
      forall j | j in keys && j in t.entries && !sensitive(j) ensures Met(sensitive, t.entries[j]) !! Met(sensitive, t.entries[k]) {
        assert Met(sensitive, t.entries[j]) <= MetAt(sensitive, t, keys);
      }
    }
  }

  lemma MetUpToMore(sensitive: string -> bool, t: Tree, n: nat)
    requires t.TSlice? && n < |t.elems|
    ensures MetUpTo(sensitive, t, n + 1) == MetUpTo(sensitive, t, n) + Met(sensitive, t.elems[n])
  {
  }

  lemma CleanUpToMore(sensitive: string -> bool, t: Tree, n: nat)
    requires t.TSlice? && n < |t.elems|
    ensures CleanUpTo(sensitive, t, n + 1)
            <==> CleanUpTo(sensitive, t, n) && Clean(sensitive, t.elems[n]) && Met(sensitive, t.elems[n]) !! MetUpTo(sensitive, t, n)
  {
    if CleanUpTo(sensitive, t, n + 1) {
      forall b | b in MetUpTo(sensitive, t, n) ensures b !in Met(sensitive, t.elems[n]) {
        var i :| 0 <= i < n && b in Met(sensitive, t.elems[i]);
      }
    }
    if CleanUpTo(sensitive, t, n) && Met(sensitive, t.elems[n]) !! MetUpTo(sensitive, t, n) {
      forall i | 0 <= i < n ensures Met(sensitive, t.elems[i]) !! Met(sensitive, t.elems[n]) {
        assert Met(sensitive, t.elems[i]) <= MetUpTo(sensitive, t, n);
      }
    }
  }

  /* ---- the sanitiser against the plain function ---- */

  // Nothing in the tree is met twice, nor was any of it before.
  predicate FirstTime(sensitive: string -> bool, t: Tree, before: set<Addr>) {
    Clean(sensitive, t) && Met(sensitive, t) !! before
  }

  lemma {:induction false} RunExact(sensitive: string -> bool, h: Heap, t: Tree, before: set<Addr>, out: Out, after: set<Addr>)
    requires HeapOk(h) && ValueOk(h, ValueOf(t)) && Unfolds(sensitive, h, t) && Run(sensitive, h, ValueOf(t), before, out, after)
    ensures out == Plain(sensitive, t) <==> FirstTime(sensitive, t, before)
    ensures FirstTime(sensitive, t, before) ==> after == before + Met(sensitive, t)
    decreases t, 1, 0
  {
    match t
    case TOther(v, p) => OtherExact(sensitive, h, t, before, out, after);
    case TMap(a, entries) => if a !in before { MapExact(sensitive, h, t, before, out, after); }
    case TSlice(a, elems) => if a !in before { SliceExact(sensitive, h, t, before, out, after); }
    case TNilMap => NilMapExact(sensitive, h, before, out, after);
    case TNilSlice =>
  }

  lemma NilMapExact(sensitive: string -> bool, h: Heap, before: set<Addr>, out: Out, after: set<Addr>)
    requires HeapOk(h) && Run(sensitive, h, Map(None), before, out, after)
    ensures out == OMap(map[]) && after == before
  {
    assert out.entries == map[];
  }

  lemma OtherExact(sensitive: string -> bool, h: Heap, t: Tree, before: set<Addr>, out: Out, after: set<Addr>)
    requires HeapOk(h) && t.TOther? && ValueOk(h, t.v) && Unfolds(sensitive, h, t) && Run(sensitive, h, t.v, before, out, after)
    ensures out == Plain(sensitive, t) <==> FirstTime(sensitive, t, before)
    ensures FirstTime(sensitive, t, before) ==> after == before + Met(sensitive, t)
  {
    ProbeExact(h, t.v, t.p, before);
    if !FirstTime(sensitive, t, before) {
      assert out == OCopy(Text(CYCLIC)) && !t.p.PLeaf? && !t.v.Text?;
      VerdictIsNoCycle(t.p);
    }
  }

  lemma {:induction false} VerdictIsNoCycle(p: Probed)
    ensures Verdict(p) != Some(CYCLIC)
    decreases p, if p.PStruct? then |p.fields| + 1 else 0
  {
    match p
    case PPointer(_, target) => VerdictIsNoCycle(target);
    case PStruct(fields) => FirstVerdictIsNoCycle(p, |fields|);
    case _ =>
  }

  lemma {:induction false} FirstVerdictIsNoCycle(p: Probed, n: nat)
    requires p.PStruct? && n <= |p.fields|
    ensures FirstVerdict(p, n) != Some(CYCLIC)
    decreases p, n
  {
    if n > 0 {
      FirstVerdictIsNoCycle(p, n - 1);
      VerdictIsNoCycle(p.fields[n - 1]);
    }
  }

  lemma {:induction false} MapExact(sensitive: string -> bool, h: Heap, t: Tree, before: set<Addr>, out: Out, after: set<Addr>)
    requires HeapOk(h) && t.TMap? && Unfolds(sensitive, h, t) && t.a !in before && Run(sensitive, h, ValueOf(t), before, out, after)
    ensures out == Plain(sensitive, t) <==> FirstTime(sensitive, t, before)
    ensures FirstTime(sensitive, t, before) ==> after == before + Met(sensitive, t)
    decreases t, 0, |t.entries.Keys| + 1
  {
    var keys := t.entries.Keys;
    EntriesExact(sensitive, h, t, before + {t.a}, out, keys, after);
    assert before + {t.a} + MetAt(sensitive, t, keys) == before + ({t.a} + MetAt(sensitive, t, keys));
    SameEntries(sensitive, t, out);
  }

  // An output map is the plain one exactly when it is at every key.
  lemma SameEntries(sensitive: string -> bool, t: Tree, out: Out)
    requires t.TMap? && out.OMap? && out.entries.Keys == t.entries.Keys
    ensures out == Plain(sensitive, t) <==> PlainAt(sensitive, t, out, t.entries.Keys)
  {
    if PlainAt(sensitive, t, out, t.entries.Keys) { assert Plain(sensitive, t).entries == out.entries; }
  }

  predicate PlainAt(sensitive: string -> bool, t: Tree, out: Out, keys: set<string>)
    requires t.TMap? && out.OMap? && keys <= t.entries.Keys && keys <= out.entries.Keys
  {
    forall k :: k in keys ==> out.entries[k] == if sensitive(k) then MASKED else Plain(sensitive, t.entries[k])
  }

  predicate FirstTimeAt(sensitive: string -> bool, t: Tree, keys: set<string>, before: set<Addr>)
    requires t.TMap?
  {
    CleanAt(sensitive, t, keys) && MetAt(sensitive, t, keys) !! before
  }

  // Some keys of a map have come out plain exactly when nothing under them was met before, or twice.
  ghost predicate ExactAt(sensitive: string -> bool, t: Tree, before: set<Addr>, out: Out, keys: set<string>, after: set<Addr>)
    requires t.TMap? && out.OMap? && keys <= out.entries.Keys && keys <= t.entries.Keys
  {
    (PlainAt(sensitive, t, out, keys) <==> FirstTimeAt(sensitive, t, keys, before))
    && (FirstTimeAt(sensitive, t, keys, before) ==> after == before + MetAt(sensitive, t, keys))
  }

  lemma NoKeysExact(sensitive: string -> bool, t: Tree, before: set<Addr>, out: Out)
    requires t.TMap? && out.OMap?
    ensures ExactAt(sensitive, t, before, out, {}, before)
  {
    assert MetAt(sensitive, t, {}) == {};
  }

  lemma {:induction false} EntriesExact(sensitive: string -> bool, h: Heap, t: Tree, before: set<Addr>, out: Out, keys: set<string>, after: set<Addr>)
    requires HeapOk(h) && t.TMap? && Unfolds(sensitive, h, t) && NodeOk(h, h[t.a])
    requires out.OMap? && keys <= out.entries.Keys && keys <= t.entries.Keys
    requires MapRun(sensitive, h, h[t.a].entries, before, out, keys, after)
    ensures ExactAt(sensitive, t, before, out, keys, after)
    decreases t, 0, |keys|
  {
    if keys == {} {
      NoKeysExact(sensitive, t, before, out);
    } else {
      var rest, k, mid := LastKey(sensitive, h, h[t.a].entries, before, out, keys, after);
      EntriesExact(sensitive, h, t, before, out, rest, mid);
      EntryExact(sensitive, h, t, out, k, mid, after);
      OneMoreKey(sensitive, t, before, out, rest, k, mid, after);
    }
  }

  lemma {:induction false} EntryExact(sensitive: string -> bool, h: Heap, t: Tree, out: Out, k: string, mid: set<Addr>, after: set<Addr>)
    requires HeapOk(h) && t.TMap? && Unfolds(sensitive, h, t) && NodeOk(h, h[t.a]) && out.OMap? && k in out.entries && k in t.entries
    requires EntryRun(sensitive, h, h[t.a].entries, k, mid, out, after)
    ensures sensitive(k) ==> out.entries[k] == MASKED && after == mid
    ensures !sensitive(k) ==> (out.entries[k] == Plain(sensitive, t.entries[k]) <==> FirstTime(sensitive, t.entries[k], mid))
    ensures !sensitive(k) && FirstTime(sensitive, t.entries[k], mid) ==> after == mid + Met(sensitive, t.entries[k])
    decreases t, 0, 0
  {
    if !sensitive(k) { RunExact(sensitive, h, t.entries[k], mid, out.entries[k], after); }
  }

  lemma OneMoreKey(sensitive: string -> bool, t: Tree, before: set<Addr>, out: Out, keys: set<string>, k: string,
                   mid: set<Addr>, after: set<Addr>)
    requires t.TMap? && out.OMap? && keys + {k} <= out.entries.Keys && keys + {k} <= t.entries.Keys && k !in keys
    requires ExactAt(sensitive, t, before, out, keys, mid)
    requires sensitive(k) ==> out.entries[k] == MASKED && after == mid
    requires !sensitive(k) ==> (out.entries[k] == Plain(sensitive, t.entries[k]) <==> FirstTime(sensitive, t.entries[k], mid))
    requires !sensitive(k) && FirstTime(sensitive, t.entries[k], mid) ==> after == mid + Met(sensitive, t.entries[k])
    ensures ExactAt(sensitive, t, before, out, keys + {k}, after)
  {
    MetAtMore(sensitive, t, keys, k);
    CleanAtMore(sensitive, t, keys, k);
    assert PlainAt(sensitive, t, out, keys + {k})
           <==> PlainAt(sensitive, t, out, keys) && out.entries[k] == if sensitive(k) then MASKED else Plain(sensitive, t.entries[k]);
  }

  lemma {:induction false} SliceExact(sensitive: string -> bool, h: Heap, t: Tree, before: set<Addr>, out: Out, after: set<Addr>)
    requires HeapOk(h) && t.TSlice? && Unfolds(sensitive, h, t) && t.a !in before && Run(sensitive, h, ValueOf(t), before, out, after)
    ensures out == Plain(sensitive, t) <==> FirstTime(sensitive, t, before)
    ensures FirstTime(sensitive, t, before) ==> after == before + Met(sensitive, t)
    decreases t, 0, |t.elems| + 1
  {
    var n := |t.elems|;
    ElementsExact(sensitive, h, t, before + {t.a}, out, n, after);
    assert before + {t.a} + MetUpTo(sensitive, t, n) == before + ({t.a} + MetUpTo(sensitive, t, n));
    SameElements(sensitive, t, out);
  }

  lemma SameElements(sensitive: string -> bool, t: Tree, out: Out)
    requires t.TSlice? && out.OSlice? && |out.elems| == |t.elems|
    ensures out == Plain(sensitive, t) <==> PlainUpTo(sensitive, t, out, |t.elems|)
  {
    if PlainUpTo(sensitive, t, out, |t.elems|) { assert Plain(sensitive, t).elems == out.elems; }
  }

  predicate PlainUpTo(sensitive: string -> bool, t: Tree, out: Out, n: nat)
    requires t.TSlice? && out.OSlice? && n <= |t.elems| && n <= |out.elems|
  {
    forall i :: 0 <= i < n ==> out.elems[i] == Plain(sensitive, t.elems[i])
  }

  predicate FirstTimeUpTo(sensitive: string -> bool, t: Tree, n: nat, before: set<Addr>)
    requires t.TSlice? && n <= |t.elems|
  {
    CleanUpTo(sensitive, t, n) && MetUpTo(sensitive, t, n) !! before
  }

  lemma {:induction false} ElementsExact(sensitive: string -> bool, h: Heap, t: Tree, before: set<Addr>, out: Out, n: nat, after: set<Addr>)
    requires HeapOk(h) && t.TSlice? && Unfolds(sensitive, h, t) && n <= |t.elems|
    requires out.OSlice? && |out.elems| == |t.elems|
    requires SliceRun(sensitive, h, Elements(h, Some(t.a), |t.elems|), before, out, n, after)
    ensures PlainUpTo(sensitive, t, out, n) <==> FirstTimeUpTo(sensitive, t, n, before)
    ensures FirstTimeUpTo(sensitive, t, n, before) ==> after == before + MetUpTo(sensitive, t, n)
    decreases t, 0, n
  {
    if n > 0 {
      var elems := Elements(h, Some(t.a), |t.elems|);
      var mid: set<Addr> :|
        SliceRun(sensitive, h, elems, before, out, n - 1, mid) && Run(sensitive, h, elems[n - 1], mid, out.elems[n - 1], after);
      ElementsExact(sensitive, h, t, before, out, n - 1, mid);
      RunExact(sensitive, h, t.elems[n - 1], mid, out.elems[n - 1], after);
      MetUpToMore(sensitive, t, n - 1);
      CleanUpToMore(sensitive, t, n - 1);
    }
  }

  // The whole call, for every input that unfolds outside its sensitive keys: the output is the plain recursive
  // masking exactly when no address is met twice there.
  lemma SanitizeExact(sensitive: string -> bool, h: Heap, t: Tree, out: Out, seen: set<Addr>)
    requires HeapOk(h) && t.TMap? && Unfolds(sensitive, h, t)
    requires out.OMap? && out.entries.Keys == t.entries.Keys
    requires NodeOk(h, h[t.a]) && MapRun(sensitive, h, h[t.a].entries, {}, out, out.entries.Keys, seen)
    ensures out == Plain(sensitive, t) <==> CleanAt(sensitive, t, t.entries.Keys)
    ensures CleanAt(sensitive, t, t.entries.Keys) ==> seen == MetAt(sensitive, t, t.entries.Keys)
  {
    EntriesExact(sensitive, h, t, {}, out, t.entries.Keys, seen);
    SameEntries(sensitive, t, out);
  }
}

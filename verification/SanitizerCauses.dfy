/** Why the sanitiser puts a descriptor somewhere: places of the metadata graph, and what is met twice. */
module SanitizerCauses {
  import opened Prelude
  import opened Sanitizer

  // A place is a path from the root: keys that are not sensitive, indices, pointers followed, fields.
  datatype Hop = Key(k: string) | Index(i: nat) | Target | Field(f: nat)

  type Path = seq<Hop>

  function Hopped(sensitive: string -> bool, h: Heap, v: Value, hop: Hop): (w: Option<Value>)
    requires HeapOk(h) && ValueOk(h, v)
    ensures w.Some? ==> ValueOk(h, w.value)
  {
    match hop
    case Key(k) => if v.Map? && k in Entries(h, v.at) && !sensitive(k) then Some(Entries(h, v.at)[k]) else None
    case Index(i) => if v.Slice? && i < v.len then Some(Elements(h, v.at, v.len)[i]) else None
    case Target => if v.Pointer? && v.at.Some? then (assert NodeOk(h, h[v.at.value]); Some(h[v.at.value].target)) else None
    case Field(f) => if v.Struct? && f < |v.fields| then Some(v.fields[f]) else None
  }

  function Follow(sensitive: string -> bool, h: Heap, v: Value, path: Path): (w: Option<Value>)
    requires HeapOk(h) && ValueOk(h, v)
    ensures w.Some? ==> ValueOk(h, w.value)
    decreases |path|
  {
    if path == [] then Some(v)
    else
      var w := Hopped(sensitive, h, v, path[0]);
      if w.None? then None else Follow(sensitive, h, w.value, path[1..])
  }

  function AddressOf(v: Value): Option<Addr> {
    if v.Map? || v.Slice? || v.Typed? || v.Pointer? then v.at else None
  }

  predicate MeetsAt(sensitive: string -> bool, h: Heap, v: Value, path: Path, a: Addr)
    requires HeapOk(h) && ValueOk(h, v)
  {
    var w := Follow(sensitive, h, v, path);
    w.Some? && AddressOf(w.value) == Some(a)
  }

  lemma Deeper(sensitive: string -> bool, h: Heap, v: Value, hop: Hop, path: Path)
    requires HeapOk(h) && ValueOk(h, v) && Hopped(sensitive, h, v, hop).Some?
    ensures Follow(sensitive, h, v, [hop] + path) == Follow(sensitive, h, Hopped(sensitive, h, v, hop).value, path)
  {
    assert ([hop] + path)[1..] == path;
  }

  /* ---- what is marked was met ---- */

  lemma {:induction false} ProbeMeets(sensitive: string -> bool, h: Heap, v: Value, visited: set<Addr>, a: Addr) returns (path: Path)
    requires HeapOk(h) && ValueOk(h, v) && a in Probe(h, v, visited).seen && a !in visited
    ensures MeetsAt(sensitive, h, v, path, a)
    decreases |h.Keys - visited|, v, if v.Struct? then |v.fields| + 1 else 0
  {
    if v.Struct? {
      path := ProbeFieldsMeets(sensitive, h, v.fields, |v.fields|, visited, a);
    } else if v.at == Some(a) {
      path := [];
    } else {
      FewerLeft(h, visited, v.at.value);
      var rest := ProbeMeets(sensitive, h, h[v.at.value].target, visited + {v.at.value}, a);
      Deeper(sensitive, h, v, Target, rest);
      path := [Target] + rest;
    }
  }

  lemma {:induction false} ProbeFieldsMeets(sensitive: string -> bool, h: Heap, fields: seq<Value>, n: nat, visited: set<Addr>, a: Addr)
    returns (path: Path)
    requires HeapOk(h) && ValueOk(h, Struct(fields)) && n <= |fields|
    requires a in ProbeFields(h, fields, n, visited).seen && a !in visited
    ensures MeetsAt(sensitive, h, Struct(fields), path, a)
    ensures path != [] && path[0].Field? && path[0].f < n
    decreases |h.Keys - visited|, Struct(fields), n
  {
    var r := ProbeFields(h, fields, n - 1, visited);
    if a in r.seen {
      path := ProbeFieldsMeets(sensitive, h, fields, n - 1, visited, a);
    } else {
      NoMoreLeft(h, visited, r.seen);
      var rest := ProbeMeets(sensitive, h, fields[n - 1], r.seen, a);
      Deeper(sensitive, h, Struct(fields), Field(n - 1), rest);
      path := [Field(n - 1)] + rest;
    }
  }

  lemma {:induction false} RunMeets(sensitive: string -> bool, h: Heap, v: Value, before: set<Addr>, out: Out, after: set<Addr>, a: Addr)
    returns (path: Path)
    requires HeapOk(h) && ValueOk(h, v) && Run(sensitive, h, v, before, out, after) && a in after && a !in before
    ensures MeetsAt(sensitive, h, v, path, a)
    decreases out, 1, 0
  {
    var found := Probe(h, v, before);
    if a in found.seen {
      path := ProbeMeets(sensitive, h, v, before, a);
    } else if v.Map? {
      path := MapRunMeets(sensitive, h, v, found.seen, out, out.entries.Keys, after, a);
    } else {
      path := SliceRunMeets(sensitive, h, v, found.seen, out, v.len, after, a);
    }
  }

  lemma {:induction false} MapRunMeets(sensitive: string -> bool, h: Heap, v: Value, before: set<Addr>, out: Out, done: set<string>,
                                       after: set<Addr>, a: Addr) returns (path: Path)
    requires HeapOk(h) && ValueOk(h, v) && v.Map? && out.OMap? && done <= out.entries.Keys && done <= Entries(h, v.at).Keys
    requires MapRun(sensitive, h, Entries(h, v.at), before, out, done, after) && a in after && a !in before
    ensures MeetsAt(sensitive, h, v, path, a)
    ensures path != [] && path[0].Key? && path[0].k in done
    decreases out, 0, |done|
  {
    var entries := Entries(h, v.at);
    var k, mid: set<Addr> :|
      k in done && MapRun(sensitive, h, entries, before, out, done - {k}, mid) && EntryRun(sensitive, h, entries, k, mid, out, after);
    if a in mid {
      path := MapRunMeets(sensitive, h, v, before, out, done - {k}, mid, a);
    } else {
      var rest := RunMeets(sensitive, h, entries[k], mid, out.entries[k], after, a);
      Deeper(sensitive, h, v, Key(k), rest);
      path := [Key(k)] + rest;
    }
  }

  lemma {:induction false} SliceRunMeets(sensitive: string -> bool, h: Heap, v: Value, before: set<Addr>, out: Out, n: nat,
                                         after: set<Addr>, a: Addr) returns (path: Path)
    requires HeapOk(h) && ValueOk(h, v) && v.Slice? && out.OSlice? && n <= |out.elems| && n <= v.len
    requires SliceRun(sensitive, h, Elements(h, v.at, v.len), before, out, n, after) && a in after && a !in before
    ensures MeetsAt(sensitive, h, v, path, a)
    ensures path != [] && path[0].Index? && path[0].i < n
    decreases out, 0, n
  {
    var elems := Elements(h, v.at, v.len);
    var mid: set<Addr> :|
      SliceRun(sensitive, h, elems, before, out, n - 1, mid) && Run(sensitive, h, elems[n - 1], mid, out.elems[n - 1], after);
    if a in mid {
      path := SliceRunMeets(sensitive, h, v, before, out, n - 1, mid, a);
    } else {
      var rest := RunMeets(sensitive, h, elems[n - 1], mid, out.elems[n - 1], after, a);
      Deeper(sensitive, h, v, Index(n - 1), rest);
      path := [Index(n - 1)] + rest;
    }
  }

  /* ---- causes ---- */

  predicate HoldsAt(sensitive: string -> bool, h: Heap, v: Value, path: Path, kind: Kind)
    requires HeapOk(h) && ValueOk(h, v)
  {
    Follow(sensitive, h, v, path) == Some(Fundamental(kind))
  }

  // A reference whose address is among the marked ones, or is met at another place as well.
  ghost predicate MetAgainAt(sensitive: string -> bool, h: Heap, v: Value, path: Path, a: Addr, marked: set<Addr>)
    requires HeapOk(h) && ValueOk(h, v)
  {
    MeetsAt(sensitive, h, v, path, a) && (a in marked || exists other: Path :: other != path && MeetsAt(sensitive, h, v, other, a))
  }

  // What a descriptor says is so, at or below a place.
  ghost predicate Caused(sensitive: string -> bool, h: Heap, v: Value, place: Path, marked: set<Addr>, desc: string)
    requires HeapOk(h) && ValueOk(h, v)
  {
    || (exists path: Path, kind :: place <= path && HoldsAt(sensitive, h, v, path, kind) && desc == Descriptor(kind))
    || (desc == CYCLIC && exists path: Path, a :: place <= path && MetAgainAt(sensitive, h, v, path, a, marked))
  }

  // Marks that are accounted for elsewhere than behind one hop.
  ghost predicate MetElsewhere(sensitive: string -> bool, h: Heap, v: Value, hop: Hop, a: Addr)
    requires HeapOk(h) && ValueOk(h, v)
  {
    exists path: Path :: (path == [] || path[0] != hop) && MeetsAt(sensitive, h, v, path, a)
  }

  lemma LiftHeld(sensitive: string -> bool, h: Heap, v: Value, hop: Hop, place: Path, marked: set<Addr>, path: Path, kind: Kind)
    requires HeapOk(h) && ValueOk(h, v) && Hopped(sensitive, h, v, hop).Some? && place <= path
    requires HoldsAt(sensitive, h, Hopped(sensitive, h, v, hop).value, path, kind)
    ensures Caused(sensitive, h, v, [hop] + place, marked, Descriptor(kind))
  {
    Deeper(sensitive, h, v, hop, path);
    assert [hop] + place <= [hop] + path && HoldsAt(sensitive, h, v, [hop] + path, kind);
  }

  // Two places behind one hop are two places.
  lemma LiftOther(sensitive: string -> bool, h: Heap, v: Value, hop: Hop, path: Path, other: Path, a: Addr, marked: set<Addr>)
    requires HeapOk(h) && ValueOk(h, v) && Hopped(sensitive, h, v, hop).Some?
    requires MeetsAt(sensitive, h, Hopped(sensitive, h, v, hop).value, path, a)
    requires other != path && MeetsAt(sensitive, h, Hopped(sensitive, h, v, hop).value, other, a)
    ensures MetAgainAt(sensitive, h, v, [hop] + path, a, marked)
  {
    Deeper(sensitive, h, v, hop, path);
    Deeper(sensitive, h, v, hop, other);
    assert ([hop] + other)[1..] == other && ([hop] + path)[1..] == path;
    assert MeetsAt(sensitive, h, v, [hop] + other, a);
  }

  lemma LiftMarked(sensitive: string -> bool, h: Heap, v: Value, hop: Hop, path: Path, a: Addr, marked: set<Addr>)
    requires HeapOk(h) && ValueOk(h, v) && Hopped(sensitive, h, v, hop).Some?
    requires MeetsAt(sensitive, h, Hopped(sensitive, h, v, hop).value, path, a)
    requires a in marked || MetElsewhere(sensitive, h, v, hop, a)
    ensures MetAgainAt(sensitive, h, v, [hop] + path, a, marked)
  {
    Deeper(sensitive, h, v, hop, path);
    if a !in marked {
      var other: Path :| (other == [] || other[0] != hop) && MeetsAt(sensitive, h, v, other, a);
      assert other != [hop] + path;
    }
  }

  lemma LiftMet(sensitive: string -> bool, h: Heap, v: Value, hop: Hop, inner: set<Addr>, marked: set<Addr>, path: Path, a: Addr)
    requires HeapOk(h) && ValueOk(h, v) && Hopped(sensitive, h, v, hop).Some?
    requires MetAgainAt(sensitive, h, Hopped(sensitive, h, v, hop).value, path, a, inner)
    requires a in inner ==> a in marked || MetElsewhere(sensitive, h, v, hop, a)
    ensures MetAgainAt(sensitive, h, v, [hop] + path, a, marked)
  {
    if a in inner {
      LiftMarked(sensitive, h, v, hop, path, a, marked);
    } else {
      var other: Path :| other != path && MeetsAt(sensitive, h, Hopped(sensitive, h, v, hop).value, other, a);
      LiftOther(sensitive, h, v, hop, path, other, a, marked);
    }
  }

  // A cause behind one hop is a cause.
  lemma LiftCause(sensitive: string -> bool, h: Heap, v: Value, hop: Hop, place: Path, inner: set<Addr>, marked: set<Addr>, desc: string)
    requires HeapOk(h) && ValueOk(h, v) && Hopped(sensitive, h, v, hop).Some?
    requires Caused(sensitive, h, Hopped(sensitive, h, v, hop).value, place, inner, desc)
    requires forall a :: a in inner ==> a in marked || MetElsewhere(sensitive, h, v, hop, a)
    ensures Caused(sensitive, h, v, [hop] + place, marked, desc)
  {
    var w := Hopped(sensitive, h, v, hop).value;
    if path: Path, kind :| place <= path && HoldsAt(sensitive, h, w, path, kind) && desc == Descriptor(kind) {
      LiftHeld(sensitive, h, v, hop, place, marked, path, kind);
    } else {
      var path: Path, a :| place <= path && MetAgainAt(sensitive, h, w, path, a, inner);
      LiftMet(sensitive, h, v, hop, inner, marked, path, a);
      assert [hop] + place <= [hop] + path;
    }
  }

  lemma AnywhereBelow(sensitive: string -> bool, h: Heap, v: Value, place: Path, marked: set<Addr>, desc: string)
    requires HeapOk(h) && ValueOk(h, v) && Caused(sensitive, h, v, place, marked, desc)
    ensures Caused(sensitive, h, v, [], marked, desc)
  {
    if path: Path, kind :| place <= path && HoldsAt(sensitive, h, v, path, kind) && desc == Descriptor(kind) {
      assert [] <= path;
    } else {
      var path: Path, a :| place <= path && MetAgainAt(sensitive, h, v, path, a, marked);
      assert [] <= path;
    }
  }

  // The search below pointers and fields speaks only of what is there.
  lemma {:induction false} ProbeIsCaused(sensitive: string -> bool, h: Heap, v: Value, visited: set<Addr>)
    requires HeapOk(h) && ValueOk(h, v) && Probe(h, v, visited).desc.Some?
    ensures Caused(sensitive, h, v, [], visited, Probe(h, v, visited).desc.value)
    decreases |h.Keys - visited|, v, if v.Struct? then |v.fields| + 1 else 1
  {
    var none: Path := [];
    if v.Struct? {
      ProbeFieldsIsCaused(sensitive, h, v.fields, |v.fields|, visited);
    } else if v.Fundamental? {
      assert HoldsAt(sensitive, h, v, none, v.kind);
    } else if v.at.value in visited {
      assert MetAgainAt(sensitive, h, v, none, v.at.value, visited);
    } else {
      PointerIsCaused(sensitive, h, v, visited);
    }
  }

  lemma {:induction false} PointerIsCaused(sensitive: string -> bool, h: Heap, v: Value, visited: set<Addr>)
    requires HeapOk(h) && ValueOk(h, v) && v.Pointer? && v.at.Some? && v.at.value !in visited && Probe(h, v, visited).desc.Some?
    ensures Caused(sensitive, h, v, [], visited, Probe(h, v, visited).desc.value)
    decreases |h.Keys - visited|, v, 0
  {
    var a := v.at.value;
    var none: Path := [];
    FewerLeft(h, visited, a);
    ProbeIsCaused(sensitive, h, h[a].target, visited + {a});
    assert MetElsewhere(sensitive, h, v, Target, a) by { assert MeetsAt(sensitive, h, v, none, a); }
    LiftCause(sensitive, h, v, Target, [], visited + {a}, visited, Probe(h, v, visited).desc.value);
    AnywhereBelow(sensitive, h, v, [Target] + [], visited, Probe(h, v, visited).desc.value);
  }

  lemma EarlierFields(sensitive: string -> bool, h: Heap, fields: seq<Value>, n: nat, visited: set<Addr>)
    requires HeapOk(h) && ValueOk(h, Struct(fields)) && n < |fields|
    ensures forall a :: a in ProbeFields(h, fields, n, visited).seen
              ==> a in visited || MetElsewhere(sensitive, h, Struct(fields), Field(n), a)
  {
    forall a | a in ProbeFields(h, fields, n, visited).seen && a !in visited
      ensures MetElsewhere(sensitive, h, Struct(fields), Field(n), a)
    {
      var path := ProbeFieldsMeets(sensitive, h, fields, n, visited, a);
    }
  }

  lemma {:induction false} ProbeFieldsIsCaused(sensitive: string -> bool, h: Heap, fields: seq<Value>, n: nat, visited: set<Addr>)
    requires HeapOk(h) && ValueOk(h, Struct(fields)) && n <= |fields| && ProbeFields(h, fields, n, visited).desc.Some?
    ensures Caused(sensitive, h, Struct(fields), [], visited, ProbeFields(h, fields, n, visited).desc.value)
    decreases |h.Keys - visited|, Struct(fields), n
  {
    var r := ProbeFields(h, fields, n - 1, visited);
    if r.desc.Some? {
      ProbeFieldsIsCaused(sensitive, h, fields, n - 1, visited);
    } else {
      NoMoreLeft(h, visited, r.seen);
      ProbeIsCaused(sensitive, h, fields[n - 1], r.seen);
      FieldIsCaused(sensitive, h, fields, n - 1, visited, ProbeFields(h, fields, n, visited).desc.value);
    }
  }

  lemma FieldIsCaused(sensitive: string -> bool, h: Heap, fields: seq<Value>, n: nat, visited: set<Addr>, desc: string)
    requires HeapOk(h) && ValueOk(h, Struct(fields)) && n < |fields|
    requires Caused(sensitive, h, fields[n], [], ProbeFields(h, fields, n, visited).seen, desc)
    ensures Caused(sensitive, h, Struct(fields), [], visited, desc)
  {
    EarlierFields(sensitive, h, fields, n, visited);
    LiftCause(sensitive, h, Struct(fields), Field(n), [], ProbeFields(h, fields, n, visited).seen, visited, desc);
    AnywhereBelow(sensitive, h, Struct(fields), [Field(n)] + [], visited, desc);
  }

  /* ---- what is put out at a place ---- */

  // What was put out at a place; None where a descriptor or a copy stands above it.
  function OutAt(out: Out, path: Path): Option<Out>
    decreases |path|
  {
    if path == [] then Some(out)
    else if path[0].Key? && out.OMap? && path[0].k in out.entries then OutAt(out.entries[path[0].k], path[1..])
    else if path[0].Index? && out.OSlice? && path[0].i < |out.elems| then OutAt(out.elems[path[0].i], path[1..])
    else None
  }

  // A value that was put out in place of another one is a descriptor, and it is right.
  lemma {:induction false} RunIsCaused(sensitive: string -> bool, h: Heap, v: Value, before: set<Addr>, out: Out, after: set<Addr>,
                                       place: Path, w: Value)
    requires HeapOk(h) && ValueOk(h, v) && Run(sensitive, h, v, before, out, after)
    requires OutAt(out, place) == Some(OCopy(w)) && Follow(sensitive, h, v, place).Some? && Follow(sensitive, h, v, place) != Some(w)
    ensures w.Text? && Caused(sensitive, h, v, place, before, w.s)
    decreases |place|, 1
  {
    var found := Probe(h, v, before);
    if place == [] {
      ProbeIsCaused(sensitive, h, v, before);
    } else if out.OMap? {
      MapRunIsCaused(sensitive, h, v, found.seen, out, after, place, w);
      OwnAddress(sensitive, h, v, before, place, w.s);
    } else {
      SliceRunIsCaused(sensitive, h, v, found.seen, out, after, place, w);
      OwnAddress(sensitive, h, v, before, place, w.s);
    }
  }

  // Having entered a map or slice: its own address is met at its own place.
  lemma OwnAddress(sensitive: string -> bool, h: Heap, v: Value, before: set<Addr>, place: Path, desc: string)
    requires HeapOk(h) && ValueOk(h, v) && (v.Map? || v.Slice?) && place != []
    requires Caused(sensitive, h, v, place, Probe(h, v, before).seen, desc)
    ensures Caused(sensitive, h, v, place, before, desc)
  {
    var marked := Probe(h, v, before).seen;
    if path: Path, kind :| place <= path && HoldsAt(sensitive, h, v, path, kind) && desc == Descriptor(kind) {
    } else {
      var path: Path, a :| place <= path && MetAgainAt(sensitive, h, v, path, a, marked);
      if a in marked && a !in before {
        var none: Path := [];
        assert none != path && MeetsAt(sensitive, h, v, none, a);
      }
      assert MetAgainAt(sensitive, h, v, path, a, before);
    }
  }

  lemma {:induction false} MapRunIsCaused(sensitive: string -> bool, h: Heap, v: Value, before: set<Addr>, out: Out, after: set<Addr>,
                                          place: Path, w: Value)
    requires HeapOk(h) && ValueOk(h, v) && v.Map? && out.OMap? && out.entries.Keys == Entries(h, v.at).Keys
    requires MapRun(sensitive, h, Entries(h, v.at), before, out, out.entries.Keys, after)
    requires place != [] && OutAt(out, place) == Some(OCopy(w))
    requires Follow(sensitive, h, v, place).Some? && Follow(sensitive, h, v, place) != Some(w)
    ensures w.Text? && Caused(sensitive, h, v, place, before, w.s)
    decreases |place|, 0
  {
    var entries, k := Entries(h, v.at), place[0].k;
    var earlier, mid, mid' := EntryOfRun(sensitive, h, entries, before, out, out.entries.Keys, after, k);
    RunIsCaused(sensitive, h, entries[k], mid, out.entries[k], mid', place[1..], w);
    forall a | a in mid ensures a in before || MetElsewhere(sensitive, h, v, Key(k), a) {
      if a !in before { var path := MapRunMeets(sensitive, h, v, before, out, earlier, mid, a); }
    }
    LiftCause(sensitive, h, v, Key(k), place[1..], mid, before, w.s);
    assert place == [Key(k)] + place[1..];
  }

  lemma {:induction false} SliceRunIsCaused(sensitive: string -> bool, h: Heap, v: Value, before: set<Addr>, out: Out, after: set<Addr>,
                                            place: Path, w: Value)
    requires HeapOk(h) && ValueOk(h, v) && v.Slice? && out.OSlice? && |out.elems| == v.len
    requires SliceRun(sensitive, h, Elements(h, v.at, v.len), before, out, v.len, after)
    requires place != [] && OutAt(out, place) == Some(OCopy(w))
    requires Follow(sensitive, h, v, place).Some? && Follow(sensitive, h, v, place) != Some(w)
    ensures w.Text? && Caused(sensitive, h, v, place, before, w.s)
    decreases |place|, 0
  {
    var elems, i := Elements(h, v.at, v.len), place[0].i;
    var mid, mid' := ElementOfRun(sensitive, h, elems, before, out, v.len, after, i);
    RunIsCaused(sensitive, h, elems[i], mid, out.elems[i], mid', place[1..], w);
    forall a | a in mid ensures a in before || MetElsewhere(sensitive, h, v, Index(i), a) {
      if a !in before { var path := SliceRunMeets(sensitive, h, v, before, out, i, mid, a); }
    }
    LiftCause(sensitive, h, v, Index(i), place[1..], mid, before, w.s);
    assert place == [Index(i)] + place[1..];
  }

  // Wherever the output of Sanitize differs from the value at that place of the input, other than by the
  // masking of a sensitive key above it or by a new map or slice, it is a descriptor; and then either something
  // of the kind it names lies at or below the place, or it says "cyclic" and an address met at or below the
  // place is met at another place too.
  lemma DescriptorsAreCaused(sensitive: string -> bool, h: Heap, metadata: Addr, out: Out, seen: set<Addr>, place: Path, w: Value)
    requires HeapOk(h) && ValueOk(h, Map(Some(metadata))) && out.OMap? && out.entries.Keys == Entries(h, Some(metadata)).Keys
    requires MapRun(sensitive, h, Entries(h, Some(metadata)), {}, out, out.entries.Keys, seen)
    requires OutAt(out, place) == Some(OCopy(w))
    requires Follow(sensitive, h, Map(Some(metadata)), place).Some? && Follow(sensitive, h, Map(Some(metadata)), place) != Some(w)
    ensures w.Text?
    ensures (exists path: Path, kind ::
               place <= path && HoldsAt(sensitive, h, Map(Some(metadata)), path, kind) && w.s == Descriptor(kind))
            || (w.s == CYCLIC && exists path: Path, other: Path, a ::
                  place <= path && other != path && MeetsAt(sensitive, h, Map(Some(metadata)), path, a)
                  && MeetsAt(sensitive, h, Map(Some(metadata)), other, a))
  {
    var v := Map(Some(metadata));
    MapRunIsCaused(sensitive, h, v, {}, out, seen, place, w);
    if path: Path, kind :| place <= path && HoldsAt(sensitive, h, v, path, kind) && w.s == Descriptor(kind) {
    } else {
      var path: Path, a :| place <= path && MetAgainAt(sensitive, h, v, path, a, {});
      var other: Path :| other != path && MeetsAt(sensitive, h, v, other, a);
    }
  }
}

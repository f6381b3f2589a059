/**
 * Lifecycle commands on rules and limits, each split into its read and its guarded write, with the
 * steps of any number of commands interleaved in any way.
 */
module Lifecycle {
  import opened Prelude
  import opened Calendar
  import opened Rules

  datatype Entity = RuleEntity | LimitEntity

  // `content` stands for all columns other than status and deleted_at.
  datatype Row = Row(entity: Entity, content: nat, status: Status, deletedAt: Option<Instant>)

  datatype Op = Activate | Deactivate | Redraft | Delete | Edit(content: nat)

  // What a command is going to write, decided from the row it read.
  datatype Write =
    | WriteRow(content: nat, status: Status)             // Update: every column but deleted_at
    | WriteStatus(status: Status, at: Instant)           // LimitRepository.UpdateStatus
    | MarkDeleted(at: Instant)                           // Repository.Delete of rules

  // `read` is history: the status that the command saw.
  datatype Pending = Pending(id: nat, write: Write, read: Status)

  datatype State = State(table: map<nat, Row>, pending: map<nat, Pending>)

  datatype Action =
    | Insert(id: nat, entity: Entity, content: nat)
    | Read(cmd: nat, id: nat, op: Op, now: Instant)
    | Store(cmd: nat)
    | GiveUp(cmd: nat)

  const Initial := State(map[], map[])

  function TargetOf(op: Op, row: Row): Status {
    match op
    case Activate => Active
    case Deactivate => Inactive
    case Redraft => Draft
    case Delete => Deleted
    case Edit(_) => row.status
  }

  // What the command decides on the row it has read; None ends it, as an error or as a no-op.
  function Plan(row: Row, op: Op, now: Instant): Option<Write> {
    if row.deletedAt.Some? then None
    else if op.Edit? then (if row.status == Deleted then None else Some(WriteRow(op.content, row.status)))
    else
      var to := TargetOf(op, row);
      if row.status == to || !CanTransition(row.status, to) then None
      else if row.entity.LimitEntity? then Some(WriteStatus(to, now))
      else if op.Delete? then Some(MarkDeleted(now))
      else Some(WriteRow(row.content, to))
  }

  // UPDATE ... WHERE id = ? AND deleted_at IS NULL
  function Written(row: Row, w: Write): Row {
    if row.deletedAt.Some? then row
    else
      match w
      case WriteRow(content, status) => row.(content := content, status := status)
      case WriteStatus(status, at) => row.(status := status, deletedAt := if status == Deleted then Some(at) else row.deletedAt)
      case MarkDeleted(at) => row.(status := Deleted, deletedAt := Some(at))
  }

  predicate Enabled(s: State, a: Action) {
    match a
    case Insert(id, _, _) => id !in s.table
    case Read(cmd, id, op, now) => cmd !in s.pending && id in s.table && Plan(s.table[id], op, now).Some?
    case Store(cmd) => cmd in s.pending && s.pending[cmd].id in s.table
    case GiveUp(cmd) => cmd in s.pending
  }

  function Apply(s: State, a: Action): State
    requires Enabled(s, a)
  {
    match a
    case Insert(id, entity, content) => s.(table := s.table[id := Row(entity, content, Draft, None)])
    case Read(cmd, id, op, now) => s.(pending := s.pending[cmd := Pending(id, Plan(s.table[id], op, now).value, s.table[id].status)])
    case Store(cmd) =>
      var p := s.pending[cmd];
      State(s.table[p.id := Written(s.table[p.id], p.write)], s.pending - {cmd})
    case GiveUp(cmd) => s.(pending := s.pending - {cmd})
  }

  predicate Runs(s: State, actions: seq<Action>, t: State)
    decreases |actions|
  {
    if actions == [] then s == t else Enabled(s, actions[0]) && Runs(Apply(s, actions[0]), actions[1..], t)
  }

  /* ---- deletion ---- */

  predicate RowOk(row: Row) {
    row.deletedAt.Some? <==> row.status == Deleted
  }

  // The status a write carries.
  function WrittenStatus(w: Write): Status {
    if w.MarkDeleted? then Deleted else w.status
  }

  // A command never acts on a deleted row, never puts DELETED into a whole row, and takes what it read
  // along an arrow of the table.
  predicate PendingOk(p: Pending) {
    p.read != Deleted && (p.write.WriteRow? ==> p.write.status != Deleted)
    && (p.read == WrittenStatus(p.write) || CanTransition(p.read, WrittenStatus(p.write)))
  }

  predicate Inv(s: State) {
    (forall id :: id in s.table ==> RowOk(s.table[id]))
    && forall cmd :: cmd in s.pending ==> PendingOk(s.pending[cmd])
  }

  // No row disappears, and a deleted row is what it was.
  predicate Kept(before: map<nat, Row>, after: map<nat, Row>) {
    forall id :: id in before ==> id in after && (before[id].deletedAt.Some? ==> after[id] == before[id])
  }

  lemma PlanIsOk(id: nat, row: Row, op: Op, now: Instant)
    requires RowOk(row) && Plan(row, op, now).Some?
    ensures PendingOk(Pending(id, Plan(row, op, now).value, row.status))
  {
  }

  lemma StepKeeps(s: State, a: Action)
    requires Inv(s) && Enabled(s, a)
    ensures Inv(Apply(s, a))
    ensures Kept(s.table, Apply(s, a).table)
  {
    if a.Read? { PlanIsOk(a.id, s.table[a.id], a.op, a.now); }
  }

  // Whatever the interleaving: deleted_at is set exactly on the DELETED rows, no row disappears, and a
  // deleted row never changes again.
  lemma {:induction false} DeletionIsFinal(s: State, actions: seq<Action>, t: State)
    requires Inv(s) && Runs(s, actions, t)
    ensures Inv(t) && Kept(s.table, t.table)
    decreases |actions|
  {
    if actions != [] {
      StepKeeps(s, actions[0]);
      DeletionIsFinal(Apply(s, actions[0]), actions[1..], t);
    }
  }

  lemma DeletedIffMarked(actions: seq<Action>, t: State, id: nat)
    requires Runs(Initial, actions, t) && id in t.table
    ensures t.table[id].deletedAt.Some? <==> t.table[id].status == Deleted
  {
    DeletionIsFinal(Initial, actions, t);
  }

  /* ---- the transition table ---- */

  predicate Follows(before: Row, after: Row) {
    before.status == after.status || CanTransition(before.status, after.status)
  }

  // Which statuses let a command go on to its write; a repeat of the present status is a no-op.
  predicate Starts(op: Op, status: Status) {
    match op
    case Activate => status == Draft || status == Inactive
    case Deactivate => status == Active
    case Redraft => status == Inactive
    case Delete => status == Draft || status == Inactive
    case Edit(_) => status != Deleted
  }

  // The row that a command leaves when nothing comes between its read and its write.
  function After(row: Row, op: Op, now: Instant): Row {
    match op
    case Activate => row.(status := Active)
    case Deactivate => row.(status := Inactive)
    case Redraft => row.(status := Draft)
    case Delete => row.(status := Deleted, deletedAt := Some(now))
    case Edit(content) => row.(content := content)
  }

  lemma ReadyIff(s: State, cmd: nat, id: nat, op: Op, now: Instant)
    requires Inv(s)
    ensures Enabled(s, Read(cmd, id, op, now)) <==> cmd !in s.pending && id in s.table && Starts(op, s.table[id].status)
  {
    if id in s.table { assert RowOk(s.table[id]); }
  }

  // A command goes on to its write from exactly the statuses that the table names; if the write comes straight
  // after the read, whatever else is pending, it leaves the row that was asked for, along the table, and no other.
  lemma WholeCommandFollows(s: State, cmd: nat, id: nat, op: Op, now: Instant)
    requires Inv(s)
    ensures Enabled(s, Read(cmd, id, op, now)) <==> cmd !in s.pending && id in s.table && Starts(op, s.table[id].status)
    ensures Enabled(s, Read(cmd, id, op, now)) ==>
              var s1 := Apply(s, Read(cmd, id, op, now));
              Enabled(s1, Store(cmd))
              && (var t := Apply(s1, Store(cmd));
                  Follows(s.table[id], t.table[id]) && t == s.(table := s.table[id := After(s.table[id], op, now)]))
  {
    ReadyIff(s, cmd, id, op, now);
    if Enabled(s, Read(cmd, id, op, now)) { WholeCommand(s, cmd, id, op, now); }
  }

  lemma WholeCommand(s: State, cmd: nat, id: nat, op: Op, now: Instant)
    requires Inv(s) && Enabled(s, Read(cmd, id, op, now))
    ensures Enabled(Apply(s, Read(cmd, id, op, now)), Store(cmd))
    ensures var t := Apply(Apply(s, Read(cmd, id, op, now)), Store(cmd));
            Follows(s.table[id], t.table[id]) && t == s.(table := s.table[id := After(s.table[id], op, now)])
  {
    assert RowOk(s.table[id]);
    var t := Apply(Apply(s, Read(cmd, id, op, now)), Store(cmd));
    assert t.pending == s.pending;
  }

  // The write of a pending command, on the row as it is by then, follows the table.
  predicate StoreFollows(s: State, cmd: nat)
    requires Enabled(s, Store(cmd))
  {
    Follows(s.table[s.pending[cmd].id], Apply(s, Store(cmd)).table[s.pending[cmd].id])
  }

  // In every interleaving, a command whose row still has the status it read follows the table.
  lemma UnmovedStoreFollows(actions: seq<Action>, s: State, cmd: nat)
    requires Runs(Initial, actions, s) && Enabled(s, Store(cmd))
    requires s.table[s.pending[cmd].id].status == s.pending[cmd].read
    ensures StoreFollows(s, cmd)
  {
    DeletionIsFinal(Initial, actions, s);
  }

  // In every interleaving, a write breaks the table in three cases and no other: INACTIVE over DRAFT, and
  // DRAFT or DELETED over ACTIVE; and then the row was moved after the command had read it.
  lemma StoreBreaksIff(actions: seq<Action>, s: State, cmd: nat)
    requires Runs(Initial, actions, s) && Enabled(s, Store(cmd))
    ensures var p := s.pending[cmd];
            var found, to := s.table[p.id].status, WrittenStatus(p.write);
            (!StoreFollows(s, cmd)
             <==> (found == Draft && to == Inactive) || (found == Active && (to == Draft || to == Deleted)))
            && (!StoreFollows(s, cmd) ==> found != p.read && p.read != Deleted && (p.read == to || CanTransition(p.read, to)))
  {
    DeletionIsFinal(Initial, actions, s);
  }

  ghost predicate Reachable(s: State) {
    exists actions: seq<Action> :: Runs(Initial, actions, s)
  }

  ghost predicate Breaks(s: State, cmd: nat, found: Status, to: Status) {
    Reachable(s) && Enabled(s, Store(cmd)) && !StoreFollows(s, cmd)
    && s.table[s.pending[cmd].id].status == found && WrittenStatus(s.pending[cmd].write) == to
  }

  lemma {:induction false} OneMore(s: State, actions: seq<Action>, t: State, a: Action)
    requires Runs(s, actions, t) && Enabled(t, a)
    ensures Runs(s, actions + [a], Apply(t, a))
    decreases |actions|
  {
    if actions == [] {
      assert ([a])[1..] == [];
    } else {
      assert (actions + [a])[1..] == actions[1..] + [a];
      OneMore(Apply(s, actions[0]), actions[1..], t, a);
    }
  }

  ghost function Next(s: State, a: Action): (t: State)
    requires Reachable(s) && Enabled(s, a)
    ensures t == Apply(s, a) && Reachable(t)
  {
    var actions: seq<Action> :| Runs(Initial, actions, s);
    OneMore(Initial, actions, s, a);
    Apply(s, a)
  }

  // A whole command of caller 2.
  ghost function Whole(s: State, id: nat, op: Op, now: Instant): (t: State)
    requires Reachable(s) && Enabled(s, Read(2, id, op, now))
    ensures Reachable(t) && t.pending == s.pending
    ensures t.table == s.table[id := Written(s.table[id], Plan(s.table[id], op, now).value)]
  {
    var t := Next(Next(s, Read(2, id, op, now)), Store(2));
    assert t.pending == s.pending;
    t
  }

  // Each of the three happens, on rules and on limits: a stale edit or deletion of a draft that was
  // activated, and a stale deactivation of a row that has become a draft.
  lemma OverlapBreaksTable(entity: Entity, content: nat, now: Instant)
    ensures exists s: State :: Breaks(s, 1, Active, Draft)
    ensures exists s: State :: Breaks(s, 1, Active, Deleted)
    ensures exists s: State :: Breaks(s, 1, Draft, Inactive)
  {
    assert Runs(Initial, [], Initial);
    var created := Next(Initial, Insert(7, entity, 0));
    StaleEdit(created, entity, content, now);
    StaleDelete(created, entity, now);
    StaleDeactivate(created, entity, now);
  }

  ghost predicate OneDraft(s: State, entity: Entity) {
    Reachable(s) && s == State(map[7 := Row(entity, 0, Draft, None)], map[])
  }

  lemma StaleEdit(created: State, entity: Entity, content: nat, now: Instant)
    requires OneDraft(created, entity)
    ensures exists s: State :: Breaks(s, 1, Active, Draft)
  {
    var s := Whole(Next(created, Read(1, 7, Edit(content), now)), 7, Activate, now);
    assert Breaks(s, 1, Active, Draft);
  }

  lemma StaleDelete(created: State, entity: Entity, now: Instant)
    requires OneDraft(created, entity)
    ensures exists s: State :: Breaks(s, 1, Active, Deleted)
  {
    var s := Whole(Next(created, Read(1, 7, Delete, now)), 7, Activate, now);
    assert Breaks(s, 1, Active, Deleted);
  }

  lemma StaleDeactivate(created: State, entity: Entity, now: Instant)
    requires OneDraft(created, entity)
    ensures exists s: State :: Breaks(s, 1, Draft, Inactive)
  {
    var active := Whole(created, 7, Activate, now);
    var read := Next(active, Read(1, 7, Deactivate, now));
    var to := Plan(Row(entity, 0, Active, None), Deactivate, now).value;
    assert read == State(map[7 := Row(entity, 0, Active, None)], map[1 := Pending(7, to, Active)]);
    StaleAfterRedraft(read, entity, to, now);
  }

  lemma StaleAfterRedraft(read: State, entity: Entity, to: Write, now: Instant)
    requires Reachable(read) && read == State(map[7 := Row(entity, 0, Active, None)], map[1 := Pending(7, to, Active)])
    requires WrittenStatus(to) == Inactive
    ensures exists s: State :: Breaks(s, 1, Draft, Inactive)
  {
    var stopped := Whole(read, 7, Deactivate, now);
    assert stopped.table[7] == Row(entity, 0, Inactive, None);
    var s := Whole(stopped, 7, Redraft, now);
    assert s.table[7] == Row(entity, 0, Draft, None);
    assert Breaks(s, 1, Draft, Inactive);
  }
}

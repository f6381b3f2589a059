/** The rule entity: its status machine and the table row it is stored as. */
module Rules {
  import opened Prelude
  import opened Calendar
  import opened Scopes
  import V = ValidationProtocol

  datatype Status = Draft | Active | Inactive | Deleted

  datatype Rule = Rule(
    id: nat, name: string, description: Option<string>, expression: string, action: V.Decision, scopes: seq<Scope>,
    status: Status, createdAt: Instant, updatedAt: Instant,
    activatedAt: Option<Instant>, deactivatedAt: Option<Instant>, deletedAt: Option<Instant>)

  // validTransitions; limits use the same table.
  function ValidTransitions(from: Status): seq<Status> {
    match from
    case Draft => [Active, Deleted]
    case Active => [Inactive]
    case Inactive => [Draft, Active, Deleted]
    case Deleted => []
  }

  predicate CanTransition(from: Status, to: Status) {
    to in ValidTransitions(from)
  }

  datatype StatusResult = Changed(rule: Rule) | Unchanged | Invalid

  // SetStatus on a rule held by the caller.
  function SetStatus(r: Rule, to: Status, now: Instant): StatusResult {
    if r.status == to then Unchanged
    else if !CanTransition(r.status, to) then Invalid
    else
      var moved := r.(status := to, updatedAt := now);
      Changed(match to
              case Active => moved.(activatedAt := Some(now), deactivatedAt := None, deletedAt := None)
              case Inactive => moved.(deactivatedAt := Some(now), deletedAt := None)
              case Deleted => moved.(deletedAt := Some(now))
              case Draft => moved.(activatedAt := None, deactivatedAt := None, deletedAt := None))
  }

  // The four arrows into ACTIVE, INACTIVE, DRAFT and DELETED, and nothing else: DELETED is terminal and ACTIVE is not
  // deleted directly. A change carries its time in the timestamp of the status it leads to.
  lemma StatusChanges(r: Rule, to: Status, now: Instant)
    ensures SetStatus(r, to, now).Unchanged? <==> r.status == to
    ensures SetStatus(r, to, now).Changed?
            <==> ((to == Active || to == Deleted) && (r.status == Draft || r.status == Inactive))
                 || (to == Inactive && r.status == Active) || (to == Draft && r.status == Inactive)
    ensures SetStatus(r, to, now).Changed? ==>
              var after := SetStatus(r, to, now).rule;
              after.status == to && after.updatedAt == now
              && (to == Active ==> after.activatedAt == Some(now))
              && (to == Inactive ==> after.deactivatedAt == Some(now) && after.activatedAt == r.activatedAt)
              && (to == Deleted ==> after.deletedAt == Some(now) && after.activatedAt == r.activatedAt && after.deactivatedAt == r.deactivatedAt)
  {
    assert to in ValidTransitions(r.status) <==> exists i :: 0 <= i < |ValidTransitions(r.status)| && ValidTransitions(r.status)[i] == to;
  }

  // Which timestamps a status carries.
  predicate TimesFit(r: Rule) {
    (r.deletedAt.Some? <==> r.status == Deleted)
    && (r.status == Draft ==> r.activatedAt.None? && r.deactivatedAt.None?)
    && (r.status == Active ==> r.activatedAt.Some? && r.deactivatedAt.None?)
    && (r.status == Inactive ==> r.activatedAt.Some? && r.deactivatedAt.Some?)
  }

  datatype Change = Change(to: Status, now: Instant)

  function AfterChanges(r: Rule, changes: seq<Change>): Rule {
    if changes == [] then r
    else
      var before := AfterChanges(r, changes[..|changes| - 1]);
      var c := changes[|changes| - 1];
      var result := SetStatus(before, c.to, c.now);
      if result.Changed? then result.rule else before
  }

  // Over any sequence of status changes, refused ones included, the timestamps fit the status, a deleted
  // rule stays as it is, and nothing but status and timestamps moves.
  lemma {:induction false} StatusRunsFit(r: Rule, changes: seq<Change>)
    requires TimesFit(r)
    ensures var after := AfterChanges(r, changes);
            TimesFit(after) && (r.status == Deleted ==> after == r)
            && after == r.(status := after.status, updatedAt := after.updatedAt, activatedAt := after.activatedAt,
                           deactivatedAt := after.deactivatedAt, deletedAt := after.deletedAt)
  {
    if changes != [] { StatusRunsFit(r, changes[..|changes| - 1]); }
  }

  type Table = map<nat, Rule>

  // deleted_at is set exactly on the rows whose status is DELETED.
  predicate RowOk(id: nat, row: Rule) {
    row.id == id && (row.deletedAt.Some? <==> row.status == Deleted)
  }

  predicate TableOk(table: Table) {
    forall id :: id in table ==> RowOk(id, table[id])
  }

  predicate Visible(table: Table, id: nat) {
    id in table && table[id].deletedAt.None?
  }

  // UPDATE rules SET name, description, expression, action, scopes, status, updated_at
  // WHERE id = ? AND deleted_at IS NULL. The activation timestamps are not written.
  function Written(table: Table, r: Rule): Option<Table> {
    if !Visible(table, r.id) then None
    else
      var row := table[r.id];
      Some(table[r.id := row.(name := r.name, description := r.description, expression := r.expression,
                              action := r.action, scopes := r.scopes, status := r.status, updatedAt := r.updatedAt)])
  }

  // UPDATE rules SET status = DELETED, deleted_at = now, updated_at = now WHERE id = ? AND deleted_at IS NULL.
  function Removed(table: Table, id: nat, now: Instant): Option<Table> {
    if !Visible(table, id) then None
    else Some(table[id := table[id].(status := Deleted, deletedAt := Some(now), updatedAt := now)])
  }
}

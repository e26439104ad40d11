/**
 Deleting users without ever losing the last administrator (crates/foims-auth/src/user.rs, `delete_user`).

 Requests run side by side, each statement of a transaction seeing what is committed; a deletion is
 seen once it commits. `locking` says whether the transactions take the advisory lock, as the source does.
 */
module UserDelete {
  import opened Wrappers

  type UserId = nat
  type TxId = nat

  datatype Role = Admin | SysAdmin | SecAdmin | Auditor | User

  type Users = map<UserId, Role>

  datatype Request = Request(requester: UserId, requesterRole: Role, target: UserId)

  datatype Error = CannotDeleteSelf | NotFound | AdminAccountAdminOnly | LastAdminProtected

  /** How far a transaction has come: its next statement follows. */
  datatype Phase = Begun | Locked | RoleRead(role: Role) | Allowed(role: Role) | Deleted(role: Role)

  datatype Tx = Tx(request: Request, phase: Phase)

  datatype State = State(users: Users, lock: Option<TxId>, txs: map<TxId, Tx>)

  predicate IsAdministrator(role: Role) {
    role == Admin || role == SecAdmin
  }

  function Administrators(users: Users): set<UserId> {
    set id | id in users && IsAdministrator(users[id])
  }

  function OtherAdministrators(users: Users, target: UserId): nat {
    |Administrators(users) - {target}|
  }

  /** What the checks inside the transaction object to. */
  function Objection(users: Users, request: Request, role: Role): Option<Error> {
    if !IsAdministrator(role) then None
    else if role == Admin && request.requesterRole != Admin then Some(AdminAccountAdminOnly)
    else if OtherAdministrators(users, request.target) == 0 then Some(LastAdminProtected)
    else None
  }

  // ---- One request on its own ----

  /** What a request nobody interrupts returns. */
  function Outcome(users: Users, request: Request): Option<Error> {
    if request.requester == request.target then Some(CannotDeleteSelf)
    else if request.target !in users then Some(NotFound)
    else Objection(users, request, users[request.target])
  }

  predicate HasAdministrator(users: Users) {
    exists id | id in users :: users[id] == Admin || users[id] == SecAdmin
  }

  lemma AdministratorsExist(users: Users)
    ensures Administrators(users) != {} <==> HasAdministrator(users)
  {
    if Administrators(users) != {} {
      var id :| id in Administrators(users);
      assert id in users;
    }
    if id :| id in users && (users[id] == Admin || users[id] == SecAdmin) {
      assert id in Administrators(users);
    }
  }

  lemma OtherAdministratorsNone(users: Users, target: UserId)
    ensures OtherAdministrators(users, target) == 0 <==> !HasAdministrator(users - {target})
  {
    assert Administrators(users - {target}) == Administrators(users) - {target};
    AdministratorsExist(users - {target});
  }

  /** The errors in the order of the source, each by its own condition; without one the request is granted. */
  lemma OutcomeIs(users: Users, request: Request)
    ensures Outcome(users, request)
         == var id := request.target;
            if request.requester == id then Some(CannotDeleteSelf)
            else if id !in users then Some(NotFound)
            else if users[id] == Admin && request.requesterRole != Admin then Some(AdminAccountAdminOnly)
            else if users[id] in {Admin, SecAdmin} && !HasAdministrator(users - {id}) then Some(LastAdminProtected)
            else None
  {
    OtherAdministratorsNone(users, request.target);
  }

  class UserTable {
    var users: Users

    constructor (users: Users)
      ensures this.users == users
    {
      this.users := users;
    }

    method DeleteUser(request: Request) returns (r: Result<(), Error>)
      modifies this
      ensures r == var id := request.target;
                   if request.requester == id then Err(CannotDeleteSelf)
                   else if id !in old(users) then Err(NotFound)
                   else if old(users)[id] == Admin && request.requesterRole != Admin then Err(AdminAccountAdminOnly)
                   else if old(users)[id] in {Admin, SecAdmin} && !HasAdministrator(old(users) - {id})
                     then Err(LastAdminProtected)
                   else Ok(())
      ensures users == if r.Ok? then old(users) - {request.target} else old(users)
      ensures Outcome(old(users), request) == if r.Ok? then None else Some(r.error)
    {
      OutcomeIs(users, request);
      if request.requester == request.target {
        return Err(CannotDeleteSelf);
      }
      if request.target !in users {
        return Err(NotFound);
      }
      var targetRole := users[request.target];
      if targetRole == Admin || targetRole == SecAdmin {
        if targetRole == Admin && request.requesterRole != Admin {
          return Err(AdminAccountAdminOnly);
        }
        var otherAdmins := |set id | id in users && id != request.target && IsAdministrator(users[id])|;
        assert (set id | id in users && id != request.target && IsAdministrator(users[id]))
            == Administrators(users) - {request.target};
        if otherAdmins == 0 {
          return Err(LastAdminProtected);
        }
      }
      users := users - {request.target};
      r := Ok(());
    }
  }

  // ---- Requests side by side ----

  datatype Op =
    | Create(id: UserId, role: Role)
    | Begin(tx: TxId, request: Request)
    | Lock(tx: TxId)
    | ReadRole(tx: TxId)
    | Check(tx: TxId)
    | Delete(tx: TxId)
    | Commit(tx: TxId)
    | Abort(tx: TxId)

  /** Whether another transaction holds the row a transaction wants to read `FOR UPDATE`. */
  predicate RowIsHeld(s: State, tx: TxId) {
    tx in s.txs && exists other | other in s.txs ::
      other != tx && s.txs[other].request.target == s.txs[tx].request.target
      && (s.txs[other].phase.RoleRead? || s.txs[other].phase.Allowed? || s.txs[other].phase.Deleted?)
  }

  predicate Enabled(locking: bool, s: State, op: Op) {
    match op
    case Create(id, _) => id !in s.users
    case Begin(tx, request) => tx !in s.txs && request.requester != request.target && request.target in s.users
    case Lock(tx) => tx in s.txs && s.txs[tx].phase.Begun? && (locking ==> s.lock == None)
    case ReadRole(tx) => tx in s.txs && s.txs[tx].phase.Locked? && !RowIsHeld(s, tx)
    case Check(tx) => tx in s.txs && s.txs[tx].phase.RoleRead?
    case Delete(tx) => tx in s.txs && s.txs[tx].phase.Allowed?
    case Commit(tx) => tx in s.txs && s.txs[tx].phase.Deleted?
    case Abort(tx) => tx in s.txs
  }

  /** A transaction ends, and its lock with it. */
  function Ended(s: State, tx: TxId): State {
    s.(txs := s.txs - {tx}, lock := if s.lock == Some(tx) then None else s.lock)
  }

  function At(s: State, tx: TxId, phase: Phase): State
    requires tx in s.txs
  {
    s.(txs := s.txs[tx := s.txs[tx].(phase := phase)])
  }

  function Next(locking: bool, s: State, op: Op): State
    requires Enabled(locking, s, op)
  {
    match op
    case Create(id, role) => s.(users := s.users[id := role])
    case Begin(tx, request) => s.(txs := s.txs[tx := Tx(request, Begun)])
    case Lock(tx) => At(s, tx, Locked).(lock := if locking then Some(tx) else s.lock)
    case ReadRole(tx) =>
      var target := s.txs[tx].request.target;
      if target in s.users then At(s, tx, RoleRead(s.users[target])) else Ended(s, tx)
    case Check(tx) =>
      var role := s.txs[tx].phase.role;
      if Objection(s.users, s.txs[tx].request, role) == None then At(s, tx, Allowed(role)) else Ended(s, tx)
    case Delete(tx) => At(s, tx, Deleted(s.txs[tx].phase.role))
    case Commit(tx) => Ended(s, tx).(users := s.users - {s.txs[tx].request.target})
    case Abort(tx) => Ended(s, tx)
  }

  function Step(locking: bool, s: State, op: Op): State {
    if Enabled(locking, s, op) then Next(locking, s, op) else s
  }

  function Run(locking: bool, s: State, ops: seq<Op>): State
    decreases |ops|
  {
    if ops == [] then s else Run(locking, Step(locking, s, ops[0]), ops[1..])
  }

  function Initial(users: Users): State {
    State(users, None, map[])
  }

  // ---- Safety ----

  /** Whoever is past the lock holds it. */
  predicate LockIsHeld(s: State) {
    forall tx | tx in s.txs && !s.txs[tx].phase.Begun? :: s.lock == Some(tx)
  }

  predicate KnowsRole(users: Users, request: Request, role: Role) {
    request.target in users && users[request.target] == role && request.requester != request.target
  }

  /** What a transaction has found out still holds. */
  predicate FindingsHold(users: Users, t: Tx) {
    match t.phase
    case Begun => t.request.requester != t.request.target
    case Locked => t.request.requester != t.request.target
    case RoleRead(role) => KnowsRole(users, t.request, role)
    case Allowed(role) => KnowsRole(users, t.request, role) && Objection(users, t.request, role) == None
    case Deleted(role) => KnowsRole(users, t.request, role) && Objection(users, t.request, role) == None
  }

  predicate Invariant(s: State) {
    LockIsHeld(s) && forall tx | tx in s.txs :: FindingsHold(s.users, s.txs[tx])
  }

  lemma CreateKeepsFindings(users: Users, id: UserId, role: Role, t: Tx)
    requires id !in users && FindingsHold(users, t)
    ensures FindingsHold(users[id := role], t)
  {
    var before := Administrators(users) - {t.request.target};
    var after := Administrators(users[id := role]) - {t.request.target};
    assert before <= after;
    if x :| x in before {
      assert x in after;
    }
  }

  lemma StepKeepsInvariant(s: State, op: Op)
    requires Enabled(true, s, op) && Invariant(s)
    ensures Invariant(Next(true, s, op))
  {
    if op.Create? {
      forall tx | tx in s.txs
        ensures FindingsHold(Next(true, s, op).users, s.txs[tx])
      {
        CreateKeepsFindings(s.users, op.id, op.role, s.txs[tx]);
      }
    }
  }

  lemma {:induction false} RunsKeepInvariant(s: State, ops: seq<Op>)
    requires Invariant(s)
    ensures Invariant(Run(true, s, ops))
    decreases |ops|
  {
    if ops == [] {
    } else {
      if Enabled(true, s, ops[0]) {
        StepKeepsInvariant(s, ops[0]);
      }
      RunsKeepInvariant(Step(true, s, ops[0]), ops[1..]);
    }
  }

  /**
   A user disappears only by a commit whose request would, on its own, have been granted at that very
   moment: the requester is someone else, is an admin if the user is one, and an administrator remains
   if the user is an administrator.
   */
  lemma OnlyGrantedDeletions(users: Users, ops: seq<Op>, op: Op, id: UserId)
    requires Enabled(true, Run(true, Initial(users), ops), op)
    requires id in Run(true, Initial(users), ops).users && id !in Next(true, Run(true, Initial(users), ops), op).users
    ensures var s := Run(true, Initial(users), ops);
            && op.Commit? && s.txs[op.tx].request.target == id
            && Outcome(s.users, s.txs[op.tx].request) == None
            && s.txs[op.tx].request.requester != id
            && (s.users[id] == Admin ==> s.txs[op.tx].request.requesterRole == Admin)
            && (s.users[id] == Admin || s.users[id] == SecAdmin ==>
                  exists other | other in s.users :: other != id && s.users[other] in {Admin, SecAdmin})
  {
    var s := Run(true, Initial(users), ops);
    RunsKeepInvariant(Initial(users), ops);
    assert FindingsHold(s.users, s.txs[op.tx]);
    OutcomeIs(s.users, s.txs[op.tx].request);
    if HasAdministrator(s.users - {id}) {
      var other :| other in s.users - {id} && (s.users[other] == Admin || s.users[other] == SecAdmin);
      assert other != id && s.users[other] in {Admin, SecAdmin};
    }
  }

  lemma GrantKeepsAdministrator(users: Users, request: Request)
    requires Outcome(users, request) == None && Administrators(users) != {}
    ensures Administrators(users - {request.target}) != {}
  {
    var left := Administrators(users) - {request.target};
    assert left == Administrators(users - {request.target});
    if !IsAdministrator(users[request.target]) {
      assert request.target !in Administrators(users);
      assert left == Administrators(users);
    }
  }

  lemma StepKeepsAdministrator(s: State, op: Op)
    requires Invariant(s) && Administrators(s.users) != {}
    ensures Administrators(Step(true, s, op).users) != {}
  {
    var x :| x in Administrators(s.users);
    if Enabled(true, s, op) && op.Commit? {
      assert FindingsHold(s.users, s.txs[op.tx]);
      GrantKeepsAdministrator(s.users, s.txs[op.tx].request);
    } else {
      assert x in Administrators(Step(true, s, op).users);
    }
  }

  lemma {:induction false} RunsKeepAdministrator(s: State, ops: seq<Op>)
    requires Invariant(s) && Administrators(s.users) != {}
    ensures Administrators(Run(true, s, ops).users) != {}
    decreases |ops|
  {
    if ops == [] {
    } else {
      StepKeepsAdministrator(s, ops[0]);
      if Enabled(true, s, ops[0]) {
        StepKeepsInvariant(s, ops[0]);
      }
      RunsKeepAdministrator(Step(true, s, ops[0]), ops[1..]);
    }
  }

  /** Once there is an admin or secadmin, there is one whatever happens later. */
  lemma AdministratorsNeverRunOut(users: Users, earlier: seq<Op>, later: seq<Op>)
    requires var before := Run(true, Initial(users), earlier).users;
             exists id | id in before :: before[id] == Admin || before[id] == SecAdmin
    ensures var after := Run(true, Run(true, Initial(users), earlier), later).users;
            exists id | id in after :: after[id] == Admin || after[id] == SecAdmin
  {
    AdministratorsExist(Run(true, Initial(users), earlier).users);
    AdministratorsExist(Run(true, Run(true, Initial(users), earlier), later).users);
    RunsKeepInvariant(Initial(users), earlier);
    RunsKeepAdministrator(Run(true, Initial(users), earlier), later);
  }

  // ---- The protocol on its own, and without its lock ----

  lemma RunStep(locking: bool, s: State, op: Op, rest: seq<Op>)
    ensures Run(locking, s, [op] + rest) == Run(locking, Step(locking, s, op), rest)
  {
    assert ([op] + rest)[1..] == rest;
  }

  function Statements(tx: TxId, request: Request): seq<Op> {
    [Begin(tx, request), Lock(tx), ReadRole(tx), Check(tx), Delete(tx), Commit(tx)]
  }

  /** With nobody else around, the statements of a transaction do what the request returns. */
  lemma StatementsFollowOutcome(users: Users, tx: TxId, request: Request)
    ensures Run(true, Initial(users), Statements(tx, request))
         == Initial(if Outcome(users, request) == None then users - {request.target} else users)
  {
    var ops := Statements(tx, request);
    var s1 := Step(true, Initial(users), ops[0]);
    var s2 := Step(true, s1, ops[1]);
    var s3 := Step(true, s2, ops[2]);
    var s4 := Step(true, s3, ops[3]);
    var s5 := Step(true, s4, ops[4]);
    assert ops == [ops[0]] + ([ops[1]] + ([ops[2]] + ([ops[3]] + ([ops[4]] + ([ops[5]] + [])))));
    RunStep(true, Initial(users), ops[0], [ops[1]] + ([ops[2]] + ([ops[3]] + ([ops[4]] + ([ops[5]] + [])))));
    RunStep(true, s1, ops[1], [ops[2]] + ([ops[3]] + ([ops[4]] + ([ops[5]] + []))));
    RunStep(true, s2, ops[2], [ops[3]] + ([ops[4]] + ([ops[5]] + [])));
    RunStep(true, s3, ops[3], [ops[4]] + ([ops[5]] + []));
    RunStep(true, s4, ops[4], [ops[5]] + []);
    RunStep(true, s5, ops[5], []);
  }

  const TWO_SECADMINS: Users := map[1 := SecAdmin, 2 := SecAdmin]

  const FIRST := Request(1, SecAdmin, 2)
  const SECOND := Request(2, SecAdmin, 1)

  function Both(first: Phase, second: Phase): State {
    State(TWO_SECADMINS, None, map[1 := Tx(FIRST, first), 2 := Tx(SECOND, second)])
  }

  /** The end state of both taking the same step, one after the other. */
  function InTurn(s: State, a: Op, b: Op): State {
    Step(false, Step(false, s, a), b)
  }

  lemma BothBegin()
    ensures InTurn(Initial(TWO_SECADMINS), Begin(1, FIRST), Begin(2, SECOND)) == Both(Begun, Begun)
  {
  }

  lemma BothReadRoles()
    ensures InTurn(Both(Begun, Begun), Lock(1), Lock(2)) == Both(Locked, Locked)
    ensures InTurn(Both(Locked, Locked), ReadRole(1), ReadRole(2)) == Both(RoleRead(SecAdmin), RoleRead(SecAdmin))
  {
    assert Step(false, Both(Begun, Begun), Lock(1)) == Both(Locked, Begun);
    assert Step(false, Both(Locked, Locked), ReadRole(1)) == Both(RoleRead(SecAdmin), Locked);
    assert Step(false, Both(RoleRead(SecAdmin), Locked), ReadRole(2)) == Both(RoleRead(SecAdmin), RoleRead(SecAdmin));
  }

  lemma BothPassTheCheck()
    ensures InTurn(Both(RoleRead(SecAdmin), RoleRead(SecAdmin)), Check(1), Check(2))
         == Both(Allowed(SecAdmin), Allowed(SecAdmin))
  {
    assert Administrators(TWO_SECADMINS) == {1, 2};
    assert {1, 2} - {FIRST.target} == {1} && {1, 2} - {SECOND.target} == {2};
  }

  lemma BothDelete()
    ensures InTurn(Both(Allowed(SecAdmin), Allowed(SecAdmin)), Delete(1), Delete(2))
         == Both(Deleted(SecAdmin), Deleted(SecAdmin))
    ensures InTurn(Both(Deleted(SecAdmin), Deleted(SecAdmin)), Commit(1), Commit(2)).users == map[]
  {
  }

  lemma RunTwo(s: State, a: Op, b: Op, rest: seq<Op>)
    ensures Run(false, s, [a, b] + rest) == Run(false, InTurn(s, a, b), rest)
  {
    assert [a, b] + rest == [a] + ([b] + rest);
    RunStep(false, s, a, [b] + rest);
    RunStep(false, Step(false, s, a), b, rest);
  }

  lemma CrossedDeletionsEnd(s: State)
    requires s == Both(RoleRead(SecAdmin), RoleRead(SecAdmin))
    ensures exists ops :: Run(false, s, ops).users == map[]
  {
    var commits := [Commit(1), Commit(2)] + [];
    var deletes := [Delete(1), Delete(2)] + commits;
    RunTwo(s, Check(1), Check(2), deletes);
    BothPassTheCheck();
    RunTwo(Both(Allowed(SecAdmin), Allowed(SecAdmin)), Delete(1), Delete(2), commits);
    BothDelete();
    RunTwo(Both(Deleted(SecAdmin), Deleted(SecAdmin)), Commit(1), Commit(2), []);
    assert Run(false, s, [Check(1), Check(2)] + deletes).users == map[];
  }

  /** Without the lock, two security administrators that delete each other leave nobody. */
  lemma WithoutLockNobodyRemains()
    ensures Administrators(TWO_SECADMINS) == {1, 2}
    ensures exists ops :: Run(false, Initial(TWO_SECADMINS), ops).users == map[]
  {
    BothBegin();
    BothReadRoles();
    CrossedDeletionsEnd(Both(RoleRead(SecAdmin), RoleRead(SecAdmin)));
    var end :| Run(false, Both(RoleRead(SecAdmin), RoleRead(SecAdmin)), end).users == map[];
    var reading := [ReadRole(1), ReadRole(2)] + end;
    var locking := [Lock(1), Lock(2)] + reading;
    RunTwo(Initial(TWO_SECADMINS), Begin(1, FIRST), Begin(2, SECOND), locking);
    RunTwo(Both(Begun, Begun), Lock(1), Lock(2), reading);
    RunTwo(Both(Locked, Locked), ReadRole(1), ReadRole(2), end);
    assert Run(false, Initial(TWO_SECADMINS), [Begin(1, FIRST), Begin(2, SECOND)] + locking).users == map[];
  }
}

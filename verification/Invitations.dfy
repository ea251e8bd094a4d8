/** The life of an organization invitation under concurrent transactions. Every transaction
    locks the organization row, checks, writes and commits, or changes nothing; the part
    under the lock is one step. Only the first read of an acceptance happens before the
    lock, so the invitation it saw may be out of date when the rest runs. Under the lock
    its plain reads see what other transactions have committed or, on a database that
    repeats the first read, still the rows as they were then. Writes always meet the rows
    as they are.
 */
module Invitations {
  import opened Options

  datatype Role = Owner | Admin | Member

  datatype Membership = Membership(role: Role, active: bool)

  datatype Status = Pending | Accepted | Revoked

  datatype Invitation = Invitation(
    organization: int, email: string, role: Role, invitedBy: int, status: Status, expiresAt: int)

  /** Owners of the organizations, memberships by organization and user, and invitations
      by id. */
  datatype Tables = Tables(
    owners: map<int, int>,
    members: map<(int, int), Membership>,
    invitations: seq<Invitation>)

  const LIFETIME: int := 7 * 24 * 60 * 60

  predicate CanManage(role: Role) {
    role.Owner? || role.Admin?
  }

  predicate IsActive(t: Tables, organization: int, user: int) {
    (organization, user) in t.members && t.members[(organization, user)].active
  }

  function RoleOf(t: Tables, organization: int, user: int): Role
    requires (organization, user) in t.members
  {
    t.members[(organization, user)].role
  }

  predicate IsManager(t: Tables, organization: int, user: int) {
    IsActive(t, organization, user) && CanManage(RoleOf(t, organization, user))
  }

  predicate IsOwner(t: Tables, organization: int, user: int) {
    IsActive(t, organization, user) && RoleOf(t, organization, user).Owner?
  }

  /** Whether a manager may deal with an invitation or a member of this role. */
  predicate MayHandle(t: Tables, organization: int, user: int, role: Role) {
    IsManager(t, organization, user) && (role.Admin? ==> RoleOf(t, organization, user).Owner?)
  }

  predicate Live(i: Invitation, now: int) {
    i.status.Pending? && i.expiresAt > now
  }

  predicate HasLive(t: Tables, organization: int, email: string, now: int) {
    exists k :: 0 <= k < |t.invitations| && Live(t.invitations[k], now)
                && t.invitations[k].organization == organization && t.invitations[k].email == email
  }

  // ------------------------------------------------------------ transactions

  function SetMember(t: Tables, organization: int, user: int, m: Membership): Tables {
    t.(members := t.members[(organization, user) := m])
  }

  function SetStatus(t: Tables, id: nat, status: Status): Tables
    requires id < |t.invitations|
  {
    t.(invitations := t.invitations[id := t.invitations[id].(status := status)])
  }

  function CreateOrganization(t: Tables, id: int, owner: int): Option<Tables> {
    if id in t.owners then None
    else Some(SetMember(t.(owners := t.owners[id := owner]), id, owner, Membership(Owner, true)))
  }

  /** `target` is the user who has the invited address, if there is one. */
  function CreateInvitation(
    t: Tables, organization: int, actor: int, email: string, role: Role, target: Option<int>, now: int): Option<Tables>
  {
    if role.Owner? || organization !in t.owners || !MayHandle(t, organization, actor, role) then None
    else if HasLive(t, organization, email, now) then None
    else if target.Some? && IsActive(t, organization, target.value) then None
    else Some(
           t.(invitations := t.invitations + [Invitation(organization, email, role, actor, Pending, now + LIFETIME)]))
  }

  /** The read at the start of an acceptance. */
  function ReadInvitation(t: Tables, id: int, email: string, now: int): Option<Invitation> {
    if 0 <= id < |t.invitations| && t.invitations[id].email == email && Live(t.invitations[id], now)
    then Some(t.invitations[id]) else None
  }

  /** The rest of an acceptance, under the lock, with the invitation as it was read. */
  function Accept(t: Tables, id: nat, seen: Invitation, user: int, now: int): Option<Tables> {
    var organization := seen.organization;
    if organization !in t.owners || !MayHandle(t, organization, seen.invitedBy, seen.role) then None
    else if IsActive(t, organization, user) then None
    else if id >= |t.invitations| || !Live(t.invitations[id], now) then None  // the compare-and-set hits no row
    else Some(SetStatus(SetMember(t, organization, user, Membership(seen.role, true)), id, Accepted))
  }

  /** The checks of an acceptance, when its plain reads see s and the rows are those of t: a
      membership that the reads do not see can only be inserted where there is none. */
  predicate Passes(t: Tables, s: Tables, i: Invitation, user: int) {
    && i.organization in t.owners && MayHandle(s, i.organization, i.invitedBy, i.role)
    && !IsActive(s, i.organization, user)
    && ((i.organization, user) in s.members || (i.organization, user) !in t.members)
  }

  /** The rest of an acceptance whose plain reads repeat the snapshot of its first one. */
  function AcceptFromSnapshot(t: Tables, s: Tables, id: nat, seen: Invitation, user: int, now: int): Option<Tables> {
    if !Passes(t, s, seen, user) then None
    else if id >= |t.invitations| || !Live(t.invitations[id], now) then None
    else Some(SetStatus(SetMember(t, seen.organization, user, Membership(seen.role, true)), id, Accepted))
  }

  function Revoke(t: Tables, organization: int, actor: int, id: int): Option<Tables> {
    if organization !in t.owners || !IsManager(t, organization, actor) then None
    else if !(0 <= id < |t.invitations|) || t.invitations[id].organization != organization
            || !t.invitations[id].status.Pending? then None
    else if !MayHandle(t, organization, actor, t.invitations[id].role) then None
    else Some(SetStatus(t, id, Revoked))
  }

  /** A change without a role leaves the role as it is. */
  function UpdateMember(t: Tables, organization: int, actor: int, target: int, role: Option<Role>): Option<Tables> {
    if role == Some(Owner) || organization !in t.owners || !IsManager(t, organization, actor) then None
    else if !IsActive(t, organization, target) || RoleOf(t, organization, target).Owner? then None
    else if !RoleOf(t, organization, actor).Owner?
            && (RoleOf(t, organization, target).Admin? || role == Some(Admin)) then None
    else if role.None? then Some(t)
    else Some(SetMember(t, organization, target, Membership(role.value, true)))
  }

  function RemoveMember(t: Tables, organization: int, actor: int, target: int): Option<Tables> {
    if organization !in t.owners || !IsActive(t, organization, actor) || !IsActive(t, organization, target) then None
    else if RoleOf(t, organization, target).Owner? then None
    else if actor != target && !MayHandle(t, organization, actor, RoleOf(t, organization, target)) then None
    else Some(SetMember(t, organization, target, Membership(RoleOf(t, organization, target), false)))
  }

  function TransferOwnership(t: Tables, organization: int, actor: int, target: int): Option<Tables> {
    if actor == target || organization !in t.owners || t.owners[organization] != actor then None
    else if !IsActive(t, organization, target) then None
    else
      var demoted := if (organization, actor) !in t.members then t
                     else SetMember(t, organization, actor, t.members[(organization, actor)].(role := Admin));
      var promoted := SetMember(demoted, organization, target, Membership(Owner, true));
      Some(promoted.(owners := t.owners[organization := target]))
  }

  // -------------------------------------------------------------------- runs

  /** What the plain reads of a transaction see after its first one. */
  datatype Isolation = ReadCommitted | RepeatableRead

  /** An acceptance between its first read and its lock. */
  datatype Attempt = Attempt(id: nat, seen: Invitation, user: int, snapshot: Tables)

  datatype World = World(tables: Tables, clock: int, attempts: map<int, Attempt>)

  datatype Event =
    | Wait(seconds: nat)
    | Found(organization: int, owner: int)
    | Invite(organization: int, actor: int, email: string, role: Role, invitee: Option<int>)
    | BeginAccept(transaction: int, id: int, email: string, user: int)
    | FinishAccept(transaction: int)
    | Withdraw(organization: int, actor: int, id: int)
    | Change(organization: int, actor: int, target: int, newRole: Option<Role>)
    | Dismiss(organization: int, actor: int, target: int)
    | Transfer(organization: int, actor: int, target: int)

  /** What the event's transaction makes of the tables; nothing when it fails. */
  function Outcome(level: Isolation, w: World, e: Event): Option<Tables> {
    match e
    case Wait(_) => None
    case Found(o, owner) => CreateOrganization(w.tables, o, owner)
    case Invite(o, actor, email, role, target) =>
      CreateInvitation(w.tables, o, actor, email, role, target, w.clock)
    case BeginAccept(_, _, _, _) => None
    case FinishAccept(x) =>
      if x !in w.attempts then None
      else
        var a := w.attempts[x];
        if level.ReadCommitted? then Accept(w.tables, a.id, a.seen, a.user, w.clock)
        else AcceptFromSnapshot(w.tables, a.snapshot, a.id, a.seen, a.user, w.clock)
    case Withdraw(o, actor, id) => Revoke(w.tables, o, actor, id)
    case Change(o, actor, target, role) => UpdateMember(w.tables, o, actor, target, role)
    case Dismiss(o, actor, target) => RemoveMember(w.tables, o, actor, target)
    case Transfer(o, actor, target) => TransferOwnership(w.tables, o, actor, target)
  }

  function TablesAfter(level: Isolation, w: World, e: Event): Tables {
    match Outcome(level, w, e)
    case None => w.tables
    case Some(t) => t
  }

  function AttemptsAfter(w: World, e: Event): map<int, Attempt> {
    match e
    case BeginAccept(x, id, email, user) =>
      (match ReadInvitation(w.tables, id, email, w.clock)
       case None => w.attempts
       case Some(seen) => if x in w.attempts then w.attempts else w.attempts[x := Attempt(id, seen, user, w.tables)])
    case FinishAccept(x) => w.attempts - {x}
    case _ => w.attempts
  }

  function Step(level: Isolation, w: World, e: Event): World {
    World(TablesAfter(level, w, e), if e.Wait? then w.clock + e.seconds else w.clock, AttemptsAfter(w, e))
  }

  function Run(level: Isolation, w: World, events: seq<Event>): World {
    if events == [] then w else Step(level, Run(level, w, events[..|events| - 1]), events[|events| - 1])
  }

  const EMPTY: World := World(Tables(map[], map[], []), 0, map[])

  // -------------------------------------------------------------- invariants

  predicate SameTerms(a: Invitation, b: Invitation) {
    a.(status := Pending) == b.(status := Pending)
  }

  /** The organization's owner is an active member with that role. */
  predicate OwnerHolds(t: Tables, o: int) {
    o in t.owners ==> IsOwner(t, o, t.owners[o])
  }

  /** Whoever has the role is the organization's owner. */
  predicate OwnerNamed(t: Tables, k: (int, int)) {
    k in t.members ==> k.0 in t.owners && (t.members[k].role.Owner? ==> t.owners[k.0] == k.1)
  }

  ghost predicate EveryOwnerHolds(t: Tables) {
    forall o :: OwnerHolds(t, o)
  }

  ghost predicate EveryOwnerNamed(t: Tables) {
    forall k :: OwnerNamed(t, k)
  }

  predicate NoOwnerInvited(s: seq<Invitation>) {
    forall i :: 0 <= i < |s| ==> !s[i].role.Owner?
  }

  /** Of two invitations of one address to one organization at most one is live. */
  predicate OneLiveEach(s: seq<Invitation>, now: int) {
    forall i, j :: 0 <= i < j < |s| && s[i].organization == s[j].organization && s[i].email == s[j].email
                   ==> !(Live(s[i], now) && Live(s[j], now))
  }

  /** What an acceptance read still describes the invitation, but for its status. */
  predicate Remembers(a: Attempt, s: seq<Invitation>) {
    a.id < |s| && a.seen.status.Pending? && SameTerms(a.seen, s[a.id])
  }

  predicate AllRemember(attempts: map<int, Attempt>, s: seq<Invitation>) {
    forall x :: x in attempts ==> Remembers(attempts[x], s)
  }

  /** What holds on every level of isolation. */
  ghost predicate Common(w: World) {
    EveryOwnerNamed(w.tables) && NoOwnerInvited(w.tables.invitations)
    && OneLiveEach(w.tables.invitations, w.clock) && AllRemember(w.attempts, w.tables.invitations)
  }

  ghost predicate Invariant(w: World) {
    Common(w) && EveryOwnerHolds(w.tables)
  }

  /** Invitations stay, keep their terms, and keep a status that is no longer pending. */
  predicate Later(s: seq<Invitation>, u: seq<Invitation>) {
    |s| <= |u| && forall i :: 0 <= i < |s| ==> SameTerms(s[i], u[i]) && (!s[i].status.Pending? ==> u[i] == s[i])
  }

  lemma StepLater(level: Isolation, w: World, e: Event)
    ensures Later(w.tables.invitations, Step(level, w, e).tables.invitations)
  {
  }

  lemma LaterTrans(s: seq<Invitation>, t: seq<Invitation>, u: seq<Invitation>)
    requires Later(s, t) && Later(t, u)
    ensures Later(s, u)
  {
    forall i | 0 <= i < |s|
      ensures SameTerms(s[i], u[i]) && (!s[i].status.Pending? ==> u[i] == s[i])
    {
      assert SameTerms(s[i], t[i]) && SameTerms(t[i], u[i]);
    }
  }

  lemma LaterRemembers(attempts: map<int, Attempt>, s: seq<Invitation>, u: seq<Invitation>)
    requires AllRemember(attempts, s) && Later(s, u)
    ensures AllRemember(attempts, u)
  {
    forall x | x in attempts
      ensures Remembers(attempts[x], u)
    {
      assert SameTerms(s[attempts[x].id], u[attempts[x].id]);
    }
  }

  lemma StepRemembers(level: Isolation, w: World, e: Event)
    requires Common(w)
    ensures AllRemember(AttemptsAfter(w, e), TablesAfter(level, w, e).invitations)
  {
    StepLater(level, w, e);
    LaterRemembers(w.attempts, w.tables.invitations, TablesAfter(level, w, e).invitations);
  }

  lemma StepNames(level: Isolation, w: World, e: Event)
    requires Common(w)
    ensures EveryOwnerNamed(TablesAfter(level, w, e))
  {
    forall k
      ensures OwnerNamed(TablesAfter(level, w, e), k)
    {
      assert OwnerNamed(w.tables, k);
      if e.FinishAccept? && e.transaction in w.attempts {
        assert Remembers(w.attempts[e.transaction], w.tables.invitations);
      }
    }
  }

  lemma StepHolds(w: World, e: Event)
    requires Invariant(w)
    ensures EveryOwnerHolds(TablesAfter(ReadCommitted, w, e))
  {
    forall o
      ensures OwnerHolds(TablesAfter(ReadCommitted, w, e), o)
    {
      assert OwnerHolds(w.tables, o);
    }
  }

  lemma StepLive(level: Isolation, w: World, e: Event)
    requires Common(w)
    ensures OneLiveEach(TablesAfter(level, w, e).invitations, Step(level, w, e).clock)
    ensures NoOwnerInvited(TablesAfter(level, w, e).invitations)
  {
  }

  lemma StepCommon(level: Isolation, w: World, e: Event)
    requires Common(w)
    ensures Common(Step(level, w, e))
  {
    StepNames(level, w, e);
    StepLive(level, w, e);
    StepRemembers(level, w, e);
  }

  lemma {:induction false} RunCommon(level: Isolation, events: seq<Event>)
    ensures Common(Run(level, EMPTY, events))
    ensures level.ReadCommitted? ==> Invariant(Run(level, EMPTY, events))
  {
    if events != [] {
      var w, last := Run(level, EMPTY, events[..|events| - 1]), events[|events| - 1];
      RunCommon(level, events[..|events| - 1]);
      StepCommon(level, w, last);
      if level.ReadCommitted? {
        StepHolds(w, last);
      }
    }
  }

  // ----------------------------------------------------------- what runs keep

  /** In every state that can be reached nobody but the user an organization's row names is
      its owner; with committed reads that user is, so that there is exactly one active
      owner. No invitation is for an owner, and an address has at most one live invitation
      to an organization, on every level of isolation.
   */
  lemma ReachableStates(level: Isolation, events: seq<Event>)
    ensures var w := Run(level, EMPTY, events);
            && (forall o, u :: IsOwner(w.tables, o, u) ==> o in w.tables.owners && u == w.tables.owners[o])
            && (level.ReadCommitted? ==>
                  forall o, u :: o in w.tables.owners ==> (IsOwner(w.tables, o, u) <==> u == w.tables.owners[o]))
            && NoOwnerInvited(w.tables.invitations)
            && OneLiveEach(w.tables.invitations, w.clock)
  {
    RunCommon(level, events);
    var t := Run(level, EMPTY, events).tables;
    forall o, u | IsOwner(t, o, u)
      ensures o in t.owners && u == t.owners[o]
    {
      assert OwnerNamed(t, (o, u));
    }
    if level.ReadCommitted? {
      forall o, u | o in t.owners
        ensures IsOwner(t, o, u) <==> u == t.owners[o]
      {
        assert OwnerHolds(t, o) && OwnerNamed(t, (o, u));
      }
    }
  }

  /** With committed reads an acceptance goes through exactly when, at its lock and by the
      invitation as it then stands, the invitation is live, its sender still may send it and
      the user is not an active member. It then activates that one membership with the
      invited role and accepts that one invitation; otherwise it changes nothing.
   */
  lemma AcceptanceExactly(w: World, x: int)
    requires Common(w) && x in w.attempts
    ensures w.attempts[x].id < |w.tables.invitations|
    ensures var id, user, t := w.attempts[x].id, w.attempts[x].user, w.tables;
            var u := Step(ReadCommitted, w, FinishAccept(x)).tables;
            var i := t.invitations[id];
            if Live(i, w.clock) && MayHandle(t, i.organization, i.invitedBy, i.role)
               && !IsActive(t, i.organization, user)
            then
              && !i.role.Owner?
              && u == Tables(t.owners, t.members[(i.organization, user) := Membership(i.role, true)],
                             t.invitations[id := i.(status := Accepted)])
            else u == t
  {
    assert Remembers(w.attempts[x], w.tables.invitations);
    assert SameTerms(w.attempts[x].seen, w.tables.invitations[w.attempts[x].id]);
    assert OwnerNamed(w.tables, (w.attempts[x].seen.organization, w.attempts[x].seen.invitedBy));
  }

  /** Only founding an organization or accepting an invitation to it makes a user active,
      and the acceptance gives the role of the invitation it uses up.
   */
  lemma ActivatedByInvitation(level: Isolation, w: World, e: Event, o: int, u: int)
    requires Common(w) && !IsActive(w.tables, o, u) && IsActive(Step(level, w, e).tables, o, u)
    ensures e == Found(o, u)
            || (&& e.FinishAccept? && e.transaction in w.attempts && w.attempts[e.transaction].user == u
                && var id := w.attempts[e.transaction].id;
                && id < |w.tables.invitations| && w.tables.invitations[id].organization == o
                && w.tables.invitations[id].status.Pending?
                && Step(level, w, e).tables.invitations[id].status.Accepted?
                && RoleOf(Step(level, w, e).tables, o, u) == w.tables.invitations[id].role)
  {
    if e.FinishAccept? && e.transaction in w.attempts {
      assert Remembers(w.attempts[e.transaction], w.tables.invitations);
    }
  }

  predicate PendingAt(w: World, id: nat) {
    id < |w.tables.invitations| && w.tables.invitations[id].status.Pending?
  }

  /** How often the invitation leaves the pending status in a run. */
  function Departures(level: Isolation, w: World, events: seq<Event>, id: nat): nat {
    if events == [] then 0
    else
      var before := events[..|events| - 1];
      Departures(level, w, before, id)
      + if PendingAt(Run(level, w, before), id) && !PendingAt(Run(level, w, events), id) then 1 else 0
  }

  /** An invitation leaves pending at most once in any run, from any state and on every level
      of isolation, and once it has left it is never pending again.
   */
  lemma {:induction false} LeavesPendingOnce(level: Isolation, w: World, events: seq<Event>, id: nat)
    ensures Later(w.tables.invitations, Run(level, w, events).tables.invitations)
    ensures Departures(level, w, events, id) <= 1
    ensures Departures(level, w, events, id) == 1
            ==> id < |Run(level, w, events).tables.invitations| && !PendingAt(Run(level, w, events), id)
  {
    if events != [] {
      var before, last := events[..|events| - 1], events[|events| - 1];
      LeavesPendingOnce(level, w, before, id);
      StepLater(level, Run(level, w, before), last);
      LaterTrans(w.tables.invitations, Run(level, w, before).tables.invitations,
                 Run(level, w, events).tables.invitations);
    }
  }

  // ---------------------------------------------------------- repeated reads

  /** Reads from the snapshot and reads of the rows lead to the same result exactly when the
      invitation is no longer live or the checks come out the same on both. */
  lemma SnapshotAgreesExactly(w: World, x: int)
    requires Common(w) && x in w.attempts
    ensures var a := w.attempts[x];
            && a.id < |w.tables.invitations|
            && var i := w.tables.invitations[a.id];
            (Step(RepeatableRead, w, FinishAccept(x)) == Step(ReadCommitted, w, FinishAccept(x))
             <==> (Live(i, w.clock) ==>
                     (Passes(w.tables, a.snapshot, i, a.user) <==> Passes(w.tables, w.tables, i, a.user))))
  {
    var a := w.attempts[x];
    assert Remembers(a, w.tables.invitations);
    var i := w.tables.invitations[a.id];
    assert a.seen == i.(status := Pending);
    if Live(i, w.clock) {
      var joined := SetMember(w.tables, i.organization, a.user, Membership(i.role, true));
      assert SetStatus(joined, a.id, Accepted).invitations[a.id] != i;
    }
  }

  predicate SameRow(t: Tables, s: Tables, k: (int, int)) {
    (k in t.members <==> k in s.members) && (k in t.members ==> t.members[k] == s.members[k])
  }

  /** In particular nothing is different while the two rows that an acceptance reads, of the
      sender and of the user, are as they were. */
  lemma UnchangedRowsAgree(w: World, x: int)
    requires Common(w) && x in w.attempts
    requires var a := w.attempts[x];
             && SameRow(w.tables, a.snapshot, (a.seen.organization, a.seen.invitedBy))
             && SameRow(w.tables, a.snapshot, (a.seen.organization, a.user))
    ensures Step(RepeatableRead, w, FinishAccept(x)) == Step(ReadCommitted, w, FinishAccept(x))
  {
    assert Remembers(w.attempts[x], w.tables.invitations);
    SnapshotAgreesExactly(w, x);
  }

  /** An acceptance from a snapshot takes the owner away from an organization exactly when it
      goes through for the user who is the owner by then. */
  lemma SnapshotKeepsOwnerExactly(w: World, x: int)
    requires Invariant(w) && x in w.attempts
    ensures var a := w.attempts[x];
            && a.id < |w.tables.invitations|
            && var i := w.tables.invitations[a.id];
            (EveryOwnerHolds(Step(RepeatableRead, w, FinishAccept(x)).tables)
             <==> !(Live(i, w.clock) && Passes(w.tables, a.snapshot, i, a.user)
                     && w.tables.owners[i.organization] == a.user))
  {
    var a, o := w.attempts[x], w.attempts[x].seen.organization;
    var u := Step(RepeatableRead, w, FinishAccept(x)).tables;
    assert Remembers(a, w.tables.invitations);
    if Outcome(RepeatableRead, w, FinishAccept(x)).Some? {
      if w.tables.owners[o] == a.user {
        assert !OwnerHolds(u, o);
      } else {
        forall k
          ensures OwnerHolds(u, k)
        {
          assert OwnerHolds(w.tables, k);
        }
      }
    }
  }

  /** A transfer of the organization to a user whose other acceptance, begun while they were
      inactive, is still to finish: that one makes the new owner a plain member, and nobody
      is the owner any more. */
  lemma DemotedOwner(w: World, x: int, o: int, actor: int, user: int)
    requires Invariant(w) && x in w.attempts && w.attempts[x].seen.organization == o && w.attempts[x].user == user
    requires actor != user && o in w.tables.owners && w.tables.owners[o] == actor && IsActive(w.tables, o, user)
    requires (o, user) in w.attempts[x].snapshot.members && !IsActive(w.attempts[x].snapshot, o, user)
    requires MayHandle(w.attempts[x].snapshot, o, w.attempts[x].seen.invitedBy, w.attempts[x].seen.role)
    requires Live(w.tables.invitations[w.attempts[x].id], w.clock)
    ensures var u := Step(RepeatableRead, Step(RepeatableRead, w, Transfer(o, actor, user)), FinishAccept(x)).tables;
            forall v :: !IsOwner(u, o, v)
  {
    var w1 := Step(RepeatableRead, w, Transfer(o, actor, user));
    var u := Step(RepeatableRead, w1, FinishAccept(x)).tables;
    assert Remembers(w.attempts[x], w.tables.invitations);
    forall v
      ensures !IsOwner(u, o, v)
    {
      assert OwnerNamed(w.tables, (o, v));
    }
  }

  // ---------------------------------------------------------------- counting

  function AcceptedIn(s: seq<Invitation>): nat {
    if s == [] then 0 else AcceptedIn(s[..|s| - 1]) + if s[|s| - 1].status.Accepted? then 1 else 0
  }

  /** The acceptance activates the membership of its user. */
  predicate Activates(level: Isolation, w: World, e: Event) {
    && e.FinishAccept? && e.transaction in w.attempts
    && var a := w.attempts[e.transaction];
    && !IsActive(w.tables, a.seen.organization, a.user)
    && IsActive(Step(level, w, e).tables, a.seen.organization, a.user)
  }

  /** Memberships that acceptances activated in a run. */
  function Activations(level: Isolation, events: seq<Event>): nat {
    if events == [] then 0
    else
      var before, last := events[..|events| - 1], events[|events| - 1];
      Activations(level, before) + if Activates(level, Run(level, EMPTY, before), last) then 1 else 0
  }

  lemma {:induction false} AcceptedInUpdate(s: seq<Invitation>, i: nat, status: Status)
    requires i < |s| && s[i].status.Pending?
    ensures AcceptedIn(s[i := s[i].(status := status)]) == AcceptedIn(s) + if status.Accepted? then 1 else 0
  {
    var u := s[i := s[i].(status := status)];
    if i == |s| - 1 {
      assert u[..|u| - 1] == s[..|s| - 1];
    } else {
      AcceptedInUpdate(s[..|s| - 1], i, status);
      assert u[..|u| - 1] == s[..|s| - 1][i := s[i].(status := status)];
    }
  }

  lemma StepAccepted(level: Isolation, w: World, e: Event)
    ensures AcceptedIn(Step(level, w, e).tables.invitations)
            == AcceptedIn(w.tables.invitations) + if e.FinishAccept? && Outcome(level, w, e).Some? then 1 else 0
  {
    var s, u := w.tables.invitations, Step(level, w, e).tables.invitations;
    if Outcome(level, w, e).Some? {
      match e
      case Invite(_, _, _, _, _) => assert u[..|u| - 1] == s;
      case FinishAccept(x) => AcceptedInUpdate(s, w.attempts[x].id, Accepted);
      case Withdraw(_, _, id) => AcceptedInUpdate(s, id, Revoked);
      case _ =>
    }
  }

  /** With committed reads accepted invitations and activated memberships pair off over every
      run; with repeated reads there are at least as many accepted invitations. */
  lemma {:induction false} OneActivationPerInvitation(level: Isolation, events: seq<Event>)
    ensures Activations(level, events) <= AcceptedIn(Run(level, EMPTY, events).tables.invitations)
    ensures level.ReadCommitted? ==>
      Activations(level, events) == AcceptedIn(Run(level, EMPTY, events).tables.invitations)
  {
    if events != [] {
      var w := Run(level, EMPTY, events[..|events| - 1]);
      OneActivationPerInvitation(level, events[..|events| - 1]);
      StepAccepted(level, w, events[|events| - 1]);
    }
  }

  // ------------------------------------------------------------- the database

  /** The three tables, updated in place row by row; a failed transaction is rolled back. */
  class Database {
    var owners: map<int, int>
    var members: map<(int, int), Membership>
    var invitations: seq<Invitation>

    function View(): Tables
      reads this
    {
      Tables(owners, members, invitations)
    }

    method Restore(saved: Tables)
      modifies this
      ensures View() == saved
    {
      owners, members, invitations := saved.owners, saved.members, saved.invitations;
    }

    /** The conditional update of an invitation's status, with the number of rows it hit. */
    method CompareAndSet(id: int, now: Option<int>, status: Status) returns (rows: nat)
      modifies this`invitations
      ensures rows == if 0 <= id < |old(invitations)| && old(invitations)[id].status.Pending?
                         && (now.Some? ==> old(invitations)[id].expiresAt > now.value) then 1 else 0
      ensures rows == 0 ==> invitations == old(invitations)
      ensures rows == 1 ==> View() == SetStatus(old(View()), id, status)
    {
      rows := 0;
      if 0 <= id < |invitations| && invitations[id].status.Pending?
         && (now.Some? ==> invitations[id].expiresAt > now.value)
      {
        invitations := invitations[id := invitations[id].(status := status)];
        rows := 1;
      }
    }

    /** The membership is written before the status is compared and set. */
    method AcceptInvitation(id: nat, seen: Invitation, user: int, now: int) returns (ok: bool)
      modifies this
      ensures ok == Accept(old(View()), id, seen, user, now).Some?
      ensures View() == if ok then Accept(old(View()), id, seen, user, now).value else old(View())
    {
      var saved := View();
      var key := (seen.organization, user);
      if seen.organization !in owners || !IsActive(saved, seen.organization, seen.invitedBy) {
        return false;
      }
      var inviter := members[(seen.organization, seen.invitedBy)].role;
      if !CanManage(inviter) || (seen.role.Admin? && !inviter.Owner?) {
        return false;
      }
      if key !in members {
        members := members[key := Membership(seen.role, true)];
      } else if members[key].active {
        return false;
      } else {
        members := members[key := members[key].(role := seen.role, active := true)];
      }
      var rows := CompareAndSet(id, Some(now), Accepted);
      ok := rows == 1;
      if !ok {
        Restore(saved);
      }
    }

    method RevokeInvitation(organization: int, actor: int, id: int) returns (ok: bool)
      modifies this
      ensures ok == Revoke(old(View()), organization, actor, id).Some?
      ensures View() == if ok then Revoke(old(View()), organization, actor, id).value else old(View())
    {
      if organization !in owners || !IsManager(View(), organization, actor) {
        return false;
      }
      if !(0 <= id < |invitations|) || invitations[id].organization != organization
         || !invitations[id].status.Pending?
      {
        return false;
      }
      if invitations[id].role.Admin? && !members[(organization, actor)].role.Owner? {
        return false;
      }
      var rows := CompareAndSet(id, None, Revoked);
      ok := rows == 1;
    }

    method InviteUser(organization: int, actor: int, email: string, role: Role, target: Option<int>, now: int)
      returns (ok: bool)
      modifies this`invitations
      ensures ok == CreateInvitation(old(View()), organization, actor, email, role, target, now).Some?
      ensures View() == if ok then CreateInvitation(old(View()), organization, actor, email, role, target, now).value
                        else old(View())
    {
      if role.Owner? || organization !in owners || !IsManager(View(), organization, actor) {
        return false;
      }
      if !members[(organization, actor)].role.Owner? && role.Admin? {
        return false;
      }
      var k := 0;
      while k < |invitations|
        invariant 0 <= k <= |invitations|
        invariant invitations == old(invitations)
        invariant forall j :: 0 <= j < k && Live(invitations[j], now) && invitations[j].organization == organization
                              ==> invitations[j].email != email
      {
        if Live(invitations[k], now) && invitations[k].organization == organization && invitations[k].email == email {
          return false;
        }
        k := k + 1;
      }
      if target.Some? && IsActive(View(), organization, target.value) {
        return false;
      }
      invitations := invitations + [Invitation(organization, email, role, actor, Pending, now + LIFETIME)];
      ok := true;
    }

    /** Both memberships and the organization row change in one transaction. */
    method TransferTo(organization: int, actor: int, target: int) returns (ok: bool)
      modifies this
      ensures ok == TransferOwnership(old(View()), organization, actor, target).Some?
      ensures View() == if ok then TransferOwnership(old(View()), organization, actor, target).value else old(View())
    {
      if actor == target || organization !in owners || owners[organization] != actor {
        return false;
      }
      if !IsActive(View(), organization, target) {
        return false;
      }
      if (organization, actor) in members {
        members := members[(organization, actor) := members[(organization, actor)].(role := Admin)];
      }
      members := members[(organization, target) := members[(organization, target)].(role := Owner)];
      owners := owners[organization := target];
      ok := true;
    }
  }
}

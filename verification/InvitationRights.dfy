/** Who may do what in an organization: every transaction goes through exactly for those
    whose membership row allows it, and then changes exactly what it is for. The laws are
    about the step of a run, on either level of isolation, and speak of the rows themselves.
 */
module InvitationRights {
  import opened Invitations
  import opened Options

  /** The user's row is active and has the role. */
  predicate Ranks(t: Tables, o: int, user: int, role: Role) {
    (o, user) in t.members && t.members[(o, user)] == Membership(role, true)
  }

  predicate Active(t: Tables, o: int, user: int) {
    (o, user) in t.members && t.members[(o, user)].active
  }

  /** An owner may deal with admins and members, an admin with members only. */
  predicate Entitled(t: Tables, o: int, user: int, role: Role) {
    Ranks(t, o, user, Owner) || (Ranks(t, o, user, Admin) && role.Member?)
  }

  lemma EntitledExactly(t: Tables, o: int, user: int, role: Role)
    requires !role.Owner?
    ensures Entitled(t, o, user, role) <==> MayHandle(t, o, user, role)
  {
  }

  lemma ManagerExactly(t: Tables, o: int, user: int)
    requires EveryOwnerNamed(t)
    ensures IsManager(t, o, user) <==> Ranks(t, o, user, Owner) || Ranks(t, o, user, Admin)
    ensures Active(t, o, user) ==> o in t.owners
  {
    assert OwnerNamed(t, (o, user));
  }

  /** Somebody who founds an organization is its owner, unless there is one already. */
  lemma FoundingExactly(level: Isolation, w: World, o: int, owner: int)
    ensures var t := w.tables;
            Step(level, w, Found(o, owner))
            == if o in t.owners then w
               else w.(tables := Tables(t.owners[o := owner], t.members[(o, owner) := Membership(Owner, true)],
                                        t.invitations))
  {
  }

  /** A pending invitation of the organization is withdrawn by its owner, or by an admin if it
      is for a member, and by nobody else. */
  lemma RevocationExactly(level: Isolation, w: World, o: int, actor: int, id: int)
    requires Common(w)
    ensures var s := w.tables.invitations;
            Step(level, w, Withdraw(o, actor, id))
            == if 0 <= id < |s| && s[id].organization == o && s[id].status.Pending?
                  && Entitled(w.tables, o, actor, s[id].role)
               then w.(tables := w.tables.(invitations := s[id := s[id].(status := Revoked)]))
               else w
  {
    ManagerExactly(w.tables, o, actor);
    if 0 <= id < |w.tables.invitations| {
      EntitledExactly(w.tables, o, actor, w.tables.invitations[id].role);
    }
  }

  /** An invitation that can still be accepted. */
  predicate Stands(i: Invitation, o: int, email: string, now: int) {
    i.organization == o && i.email == email && i.status.Pending? && i.expiresAt > now
  }

  ghost predicate Invitable(w: World, o: int, email: string, target: Option<int>) {
    && (forall k :: 0 <= k < |w.tables.invitations| ==> !Stands(w.tables.invitations[k], o, email, w.clock))
    && (target.Some? ==> !Active(w.tables, o, target.value))
  }

  /** The owner invites admins and members and an admin invites members, one address once at
      a time and nobody who is there; the invitation stands for seven days. */
  lemma InvitationExactly(
    level: Isolation, w: World, o: int, actor: int, email: string, role: Role, target: Option<int>)
    requires Common(w)
    ensures var invitation := Invitation(o, email, role, actor, Pending, w.clock + 604800);
            Step(level, w, Invite(o, actor, email, role, target))
            == if !role.Owner? && Entitled(w.tables, o, actor, role) && Invitable(w, o, email, target)
               then w.(tables := w.tables.(invitations := w.tables.invitations + [invitation]))
               else w
  {
    ManagerExactly(w.tables, o, actor);
    if !role.Owner? {
      EntitledExactly(w.tables, o, actor, role);
    }
    if HasLive(w.tables, o, email, w.clock) {
      var k :| 0 <= k < |w.tables.invitations| && Live(w.tables.invitations[k], w.clock)
               && w.tables.invitations[k].organization == o && w.tables.invitations[k].email == email;
      assert Stands(w.tables.invitations[k], o, email, w.clock);
    } else {
      assert forall k :: 0 <= k < |w.tables.invitations| ==> !Stands(w.tables.invitations[k], o, email, w.clock);
    }
  }

  /** The owner changes the role of an admin or a member, and an admin leaves a member a
      member; nobody becomes an owner this way and no owner is changed. */
  lemma ChangeExactly(level: Isolation, w: World, o: int, actor: int, target: int, role: Option<Role>)
    requires Common(w)
    ensures var t := w.tables;
            var allowed := && Active(t, o, target) && !t.members[(o, target)].role.Owner? && role != Some(Owner)
                           && Entitled(t, o, actor, t.members[(o, target)].role)
                           && (role.Some? ==> Entitled(t, o, actor, role.value));
            Step(level, w, Change(o, actor, target, role))
            == if allowed && role.Some?
               then w.(tables := t.(members := t.members[(o, target) := Membership(role.value, true)]))
               else w
  {
    ManagerExactly(w.tables, o, actor);
  }

  /** The owner dismisses admins and members, an admin dismisses members, and everybody but
      the owner may leave. The row stays, with its role. */
  lemma DismissalExactly(level: Isolation, w: World, o: int, actor: int, target: int)
    requires Common(w)
    ensures var t, k := w.tables, (o, target);
            Step(level, w, Dismiss(o, actor, target))
            == if && Active(t, o, target) && !t.members[(o, target)].role.Owner?
                  && (actor == target || Entitled(t, o, actor, t.members[(o, target)].role))
               then w.(tables := t.(members := t.members[k := Membership(t.members[k].role, false)]))
               else w
  {
    ManagerExactly(w.tables, o, actor);
    ManagerExactly(w.tables, o, target);
  }

  /** The members after a transfer: the new owner, and the former one as an admin. */
  function HandedOver(t: Tables, o: int, actor: int, target: int): map<(int, int), Membership> {
    var others := if (o, actor) in t.members
                  then t.members[(o, actor) := Membership(Admin, t.members[(o, actor)].active)]
                  else t.members;
    others[(o, target) := Membership(Owner, true)]
  }

  /** Only the user that the organization's row names hands it over, to another active
      member, and stays as an admin. */
  lemma TransferExactly(level: Isolation, w: World, o: int, actor: int, target: int)
    ensures var t := w.tables;
            Step(level, w, Transfer(o, actor, target))
            == if o in t.owners && t.owners[o] == actor && target != actor && Active(t, o, target)
               then w.(tables := Tables(t.owners[o := target], HandedOver(t, o, actor, target), t.invitations))
               else w
    ensures Invariant(w) && o in w.tables.owners ==> Ranks(w.tables, o, w.tables.owners[o], Owner)
  {
    if Invariant(w) {
      assert OwnerHolds(w.tables, o);
    }
  }

  // ----------------------------------------------------- who accepts for whom

  /** The first read of an acceptance finds an invitation exactly if it is sent to the address
      and stands; whose membership it will be is fixed then. */
  lemma ReadingExactly(level: Isolation, w: World, x: int, id: int, email: string, user: int)
    ensures var s := w.tables.invitations;
            Step(level, w, BeginAccept(x, id, email, user))
            == if x !in w.attempts && 0 <= id < |s| && Stands(s[id], s[id].organization, email, w.clock)
               then w.(attempts := w.attempts[x := Attempt(id, s[id], user, w.tables)])
               else w
  {
  }

  /** Such an acceptance was begun in the run, for that address. */
  ghost predicate Begun(events: seq<Event>, id: int, email: string, user: int) {
    exists k :: 0 <= k < |events| && events[k].BeginAccept?
                && events[k].id == id && events[k].email == email && events[k].user == user
  }

  lemma {:induction false} BegunMore(events: seq<Event>, e: Event, id: int, email: string, user: int)
    requires Begun(events, id, email, user)
    ensures Begun(events + [e], id, email, user)
  {
    var k :| 0 <= k < |events| && events[k].BeginAccept?
             && events[k].id == id && events[k].email == email && events[k].user == user;
    assert (events + [e])[k] == events[k];
  }

  ghost predicate AllBegun(events: seq<Event>, w: World) {
    forall x :: x in w.attempts ==> Begun(events, w.attempts[x].id, w.attempts[x].seen.email, w.attempts[x].user)
  }

  lemma {:induction false} StepBegun(level: Isolation, events: seq<Event>, w: World, e: Event)
    requires AllBegun(events, w)
    ensures AllBegun(events + [e], Step(level, w, e))
  {
    var all, after := events + [e], Step(level, w, e);
    forall x | x in after.attempts
      ensures Begun(all, after.attempts[x].id, after.attempts[x].seen.email, after.attempts[x].user)
    {
      if x in w.attempts && after.attempts[x] == w.attempts[x] {
        BegunMore(events, e, w.attempts[x].id, w.attempts[x].seen.email, w.attempts[x].user);
      } else {
        assert all[|events|] == e;
      }
    }
  }

  lemma {:induction false} RunBegun(level: Isolation, events: seq<Event>)
    ensures AllBegun(events, Run(level, EMPTY, events))
  {
    if events != [] {
      var before, last := events[..|events| - 1], events[|events| - 1];
      RunBegun(level, before);
      StepBegun(level, before, Run(level, EMPTY, before), last);
      assert before + [last] == events;
    }
  }

  /** On every run and either level: whoever becomes active in an organization has founded it,
      or has begun an acceptance for the address that the invitation was sent to. */
  lemma {:induction false} OnlyAddresseesJoin(level: Isolation, events: seq<Event>, e: Event, o: int, user: int)
    requires var w := Run(level, EMPTY, events);
             !Active(w.tables, o, user) && Active(Step(level, w, e).tables, o, user)
    ensures e == Found(o, user)
            || exists id :: && 0 <= id < |Run(level, EMPTY, events).tables.invitations|
                            && var i := Run(level, EMPTY, events).tables.invitations[id];
                               i.organization == o && i.status.Pending? && Begun(events, id, i.email, user)
  {
    var w := Run(level, EMPTY, events);
    RunCommon(level, events);
    RunBegun(level, events);
    ActivatedByInvitation(level, w, e, o, user);
    if e != Found(o, user) {
      var a := w.attempts[e.transaction];
      assert Remembers(a, w.tables.invitations);
      assert Begun(events, a.id, w.tables.invitations[a.id].email, user);
    }
  }
}

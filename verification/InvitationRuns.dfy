/** Two runs in which repeated reads break a law of invitations: one admits a member on the
    word of somebody who was dismissed, the other leaves an organization without an owner.
 */
module InvitationRuns {
  import opened Invitations
  import opened Options

  /** One more event after a run that led to a known state. */
  lemma Then(level: Isolation, events: seq<Event>, w: World, e: Event, after: World)
    requires Run(level, EMPTY, events) == w && Step(level, w, e) == after
    ensures Run(level, EMPTY, events + [e]) == after
  {
    assert (events + [e])[..|events|] == events;
  }

  /** An invitation to organization 1, sent at the start. */
  function ToOne(email: string, role: Role, sender: int, status: Status): Invitation {
    Invitation(1, email, role, sender, status, LIFETIME)
  }

  /** Organization 1, owned by user 10, with one more member. */
  function One(user: int, m: Membership, invitations: seq<Invitation>): Tables {
    Tables(map[1 := 10], map[(1, 10) := Membership(Owner, true), (1, user) := m], invitations)
  }

  /** The organization is founded and its owner invites an address, whose user accepts. */
  lemma Joined(level: Isolation, user: int, role: Role) returns (events: seq<Event>)
    requires user != 10 && !role.Owner?
    ensures events == [Found(1, 10), Invite(1, 10, "a", role, None), BeginAccept(1, 0, "a", user), FinishAccept(1)]
    ensures Run(level, EMPTY, events) ==
        World(One(user, Membership(role, true), [ToOne("a", role, 10, Accepted)]), 0, map[])
  {
    var owner := map[(1, 10) := Membership(Owner, true)];
    var a := ToOne("a", role, 10, Pending);
    var t := Tables(map[1 := 10], owner, [a]);
    var w1 := World(Tables(map[1 := 10], owner, []), 0, map[]);
    Then(level, [], EMPTY, Found(1, 10), w1);
    var w2 := World(t, 0, map[]);
    Then(level, [Found(1, 10)], w1, Invite(1, 10, "a", role, None), w2);
    var w3 := World(t, 0, map[1 := Attempt(0, a, user, t)]);
    var begun := [Found(1, 10)] + [Invite(1, 10, "a", role, None)];
    Then(level, begun, w2, BeginAccept(1, 0, "a", user), w3);
    FinishFirst(level, t, a, user);
    events := begun + [BeginAccept(1, 0, "a", user)] + [FinishAccept(1)];
    Then(level, begun + [BeginAccept(1, 0, "a", user)], w3, FinishAccept(1),
         World(One(user, Membership(a.role, true), [a.(status := Accepted)]), 0, map[]));
  }

  lemma FinishFirst(level: Isolation, t: Tables, a: Invitation, user: int)
    requires t == Tables(map[1 := 10], map[(1, 10) := Membership(Owner, true)], [a]) && user != 10
    requires a.organization == 1 && a.invitedBy == 10 && Live(a, 0)
    ensures Step(level, World(t, 0, map[1 := Attempt(0, a, user, t)]), FinishAccept(1))
            == World(One(user, Membership(a.role, true), [a.(status := Accepted)]), 0, map[])
  {
  }

  // ------------------------------------------------------ a dismissed inviter

  /** Administrator 20 invites an address, and user 30 begins to accept. */
  lemma BegunByAdmin(level: Isolation) returns (events: seq<Event>)
    ensures events == [Found(1, 10), Invite(1, 10, "a", Admin, None), BeginAccept(1, 0, "a", 20), FinishAccept(1)]
                      + [Invite(1, 20, "b", Member, None)] + [BeginAccept(2, 1, "b", 30)]
    ensures var b := ToOne("b", Member, 20, Pending);
            var t := One(20, Membership(Admin, true), [ToOne("a", Admin, 10, Accepted), b]);
            Run(level, EMPTY, events) == World(t, 0, map[2 := Attempt(1, b, 30, t)])
  {
    events := Joined(level, 20, Admin);
    var a, b := ToOne("a", Admin, 10, Accepted), ToOne("b", Member, 20, Pending);
    var w := World(One(20, Membership(Admin, true), [a]), 0, map[]);
    var t := One(20, Membership(Admin, true), [a, b]);
    assert [a] + [b] == [a, b];
    Then(level, events, w, Invite(1, 20, "b", Member, None), World(t, 0, map[]));
    events := events + [Invite(1, 20, "b", Member, None)];
    Then(level, events, World(t, 0, map[]), BeginAccept(2, 1, "b", 30), World(t, 0, map[2 := Attempt(1, b, 30, t)]));
    events := events + [BeginAccept(2, 1, "b", 30)];
  }

  /** The inviter is dismissed between the two halves of an acceptance. With committed reads
      it then fails; with repeated reads the user becomes a member on the word of somebody
      who is none. */
  lemma DismissedInviter(level: Isolation) returns (events: seq<Event>)
    ensures events == [Found(1, 10), Invite(1, 10, "a", Admin, None), BeginAccept(1, 0, "a", 20), FinishAccept(1)]
                      + [Invite(1, 20, "b", Member, None)] + [BeginAccept(2, 1, "b", 30)]
                      + [Dismiss(1, 10, 20)] + [FinishAccept(2)]
    ensures !IsActive(Run(level, EMPTY, events).tables, 1, 20)
    ensures IsActive(Run(level, EMPTY, events).tables, 1, 30) <==> level.RepeatableRead?
  {
    var begun := BegunByAdmin(level);
    var a, b := ToOne("a", Admin, 10, Accepted), ToOne("b", Member, 20, Pending);
    var t := One(20, Membership(Admin, true), [a, b]);
    var w := World(t, 0, map[2 := Attempt(1, b, 30, t)]);
    var w1 := World(One(20, Membership(Admin, false), [a, b]), 0, w.attempts);
    Then(level, begun, w, Dismiss(1, 10, 20), w1);
    Then(level, begun + [Dismiss(1, 10, 20)], w1, FinishAccept(2), Step(level, w1, FinishAccept(2)));
    events := begun + [Dismiss(1, 10, 20)] + [FinishAccept(2)];
  }

  // ----------------------------------------------------------- a lost owner

  /** User 30 joins and is dismissed. */
  lemma Dismissed() returns (events: seq<Event>)
    ensures Run(RepeatableRead, EMPTY, events)
            == World(One(30, Membership(Member, false), [ToOne("a", Member, 10, Accepted)]), 0, map[])
  {
    var was := ToOne("a", Member, 10, Accepted);
    events := Joined(RepeatableRead, 30, Member);
    Then(RepeatableRead, events, World(One(30, Membership(Member, true), [was]), 0, map[]), Dismiss(1, 10, 30),
         World(One(30, Membership(Member, false), [was]), 0, map[]));
    events := events + [Dismiss(1, 10, 30)];
  }

  lemma InviteAgain(t: Tables, email: string)
    requires 1 in t.owners && IsOwner(t, 1, 10) && !HasLive(t, 1, email, 0)
    ensures Step(RepeatableRead, World(t, 0, map[]), Invite(1, 10, email, Member, None))
            == World(t.(invitations := t.invitations + [ToOne(email, Member, 10, Pending)]), 0, map[])
  {
  }

  /** They are invited again under two addresses. */
  lemma InvitedTwice() returns (events: seq<Event>)
    ensures var was, a, b := ToOne("a", Member, 10, Accepted),
                ToOne("a", Member, 10, Pending), ToOne("b", Member, 10, Pending);
            Run(RepeatableRead, EMPTY, events) == World(One(30, Membership(Member, false), [was, a, b]), 0, map[])
  {
    var was, a, b := ToOne("a", Member, 10, Accepted), ToOne("a", Member, 10, Pending), ToOne("b", Member, 10, Pending);
    var gone := Membership(Member, false);
    events := Dismissed();
    var t1, t2 := One(30, gone, [was]), One(30, gone, [was, a]);
    InviteAgain(t1, "a");
    assert [was] + [a] == [was, a];
    Then(RepeatableRead, events, World(t1, 0, map[]), Invite(1, 10, "a", Member, None), World(t2, 0, map[]));
    events := events + [Invite(1, 10, "a", Member, None)];
    InviteAgain(t2, "b");
    assert [was, a] + [b] == [was, a, b];
    Then(RepeatableRead, events, World(t2, 0, map[]), Invite(1, 10, "b", Member, None),
         World(One(30, gone, [was, a, b]), 0, map[]));
    events := events + [Invite(1, 10, "b", Member, None)];
  }

  /** They begin to accept both and finish with the second. */
  lemma AcceptedOne() returns (events: seq<Event>)
    ensures var was, a, b := ToOne("a", Member, 10, Accepted),
                ToOne("a", Member, 10, Pending), ToOne("b", Member, 10, Pending);
            var s := One(30, Membership(Member, false), [was, a, b]);
            Run(RepeatableRead, EMPTY, events)
            == World(One(30, Membership(Member, true), [was, a, b.(status := Accepted)]),
                     0, map[2 := Attempt(1, a, 30, s)])
  {
    var was, a, b := ToOne("a", Member, 10, Accepted), ToOne("a", Member, 10, Pending), ToOne("b", Member, 10, Pending);
    var s := One(30, Membership(Member, false), [was, a, b]);
    var first, second := Attempt(1, a, 30, s), Attempt(2, b, 30, s);
    events := InvitedTwice();
    Then(RepeatableRead, events, World(s, 0, map[]), BeginAccept(2, 1, "a", 30), World(s, 0, map[2 := first]));
    events := events + [BeginAccept(2, 1, "a", 30)];
    var w := World(s, 0, map[2 := first, 3 := second]);
    Then(RepeatableRead, events, World(s, 0, map[2 := first]), BeginAccept(3, 2, "b", 30), w);
    events := events + [BeginAccept(3, 2, "b", 30)];
    var t := One(30, Membership(Member, true), [was, a, b.(status := Accepted)]);
    FinishSecond(w, s, first, second, t);
    Then(RepeatableRead, events, w, FinishAccept(3), World(t, 0, map[2 := first]));
    events := events + [FinishAccept(3)];
  }

  lemma FinishSecond(w: World, s: Tables, first: Attempt, second: Attempt, t: Tables)
    requires w == World(s, 0, map[2 := first, 3 := second]) && second.id == 2
             && second.snapshot == s && second.user == 30
    requires |s.invitations| == 3 && second.seen == s.invitations[2]
             && second.seen.organization == 1 && Live(second.seen, 0)
    requires 1 in s.owners && MayHandle(s, 1, second.seen.invitedBy, second.seen.role)
    requires (1, 30) in s.members && !IsActive(s, 1, 30)
    requires t == Tables(s.owners, s.members[(1, 30) := Membership(second.seen.role, true)],
                         s.invitations[2 := second.seen.(status := Accepted)])
    ensures Step(RepeatableRead, w, FinishAccept(3)) == World(t, 0, map[2 := first])
  {
    assert w.attempts - {3} == map[2 := first];
  }

  /** The organization is transferred to them before they finish with the first, and has no
      owner afterwards. */
  lemma OwnerLost() returns (events: seq<Event>)
    ensures 1 in Run(RepeatableRead, EMPTY, events).tables.owners
    ensures forall v :: !IsOwner(Run(RepeatableRead, EMPTY, events).tables, 1, v)
  {
    var begun := AcceptedOne();
    var w := Run(RepeatableRead, EMPTY, begun);
    RunCommon(RepeatableRead, begun);
    forall o
      ensures OwnerHolds(w.tables, o)
    {
      assert w.tables.owners == map[1 := 10];
    }
    DemotedOwner(w, 2, 1, 10, 30);
    var w1 := Step(RepeatableRead, w, Transfer(1, 10, 30));
    Then(RepeatableRead, begun, w, Transfer(1, 10, 30), w1);
    Then(RepeatableRead, begun + [Transfer(1, 10, 30)], w1, FinishAccept(2), Step(RepeatableRead, w1, FinishAccept(2)));
    events := begun + [Transfer(1, 10, 30)] + [FinishAccept(2)];
  }
}

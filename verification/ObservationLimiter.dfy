/** Admission of task observations: a global counter and one counter per plugin, user and
    token, taken in that order with a roll-back when a later one is full, and given back
    once by whoever holds the lease.
 */
module ObservationLimiter {
  import opened Options
  import opened Text

  datatype Limits = Limits(global: int, perPlugin: int, perUser: int, perToken: int)

  const DefaultLimits := Limits(128, 32, 4, 2)

  datatype Scope = Global | Plugin | User | Token

  datatype Refusal =
    | MissingPluginKey
    | InvalidUser
    | InvalidToken
    | LimitExceeded(scope: Scope, limit: int)

  /** One holder of the per-key counters: a plugin, a user or a token. */
  datatype Party = OfPlugin(key: string) | OfUser(id: int) | OfToken(id: int)

  function Count<K(==)>(counters: map<K, int>, key: K): int {
    if key in counters then counters[key] else 0
  }

  function Increment<K(==)>(counters: map<K, int>, key: K): map<K, int> {
    counters[key := Count(counters, key) + 1]
  }

  /** The decrement that deletes an entry which reaches zero. */
  function Decrement<K(==)>(counters: map<K, int>, key: K): map<K, int> {
    var n := Count(counters, key) - 1;
    if n == 0 then counters - {key} else counters[key := n]
  }

  /** Taking a slot and giving it back restores the counters, deleted entries included. */
  lemma RollBack<K>(counters: map<K, int>, key: K)
    requires key in counters ==> counters[key] != 0
    ensures Decrement(Increment(counters, key), key) == counters
  {
  }

  /** The counters of all four scopes. */
  datatype Counters = Counters(global: int, plugin: map<string, int>, user: map<int, int>, token: map<int, int>)

  const NoCounts := Counters(0, map[], map[], map[])

  predicate RoomFor(c: Counters, limits: Limits, plugin: string, user: int, token: int) {
    && c.global < limits.global && Count(c.plugin, plugin) < limits.perPlugin
    && Count(c.user, user) < limits.perUser && Count(c.token, token) < limits.perToken
  }

  function Charged(c: Counters, plugin: string, user: int, token: int): Counters {
    Counters(c.global + 1, Increment(c.plugin, plugin), Increment(c.user, user), Increment(c.token, token))
  }

  function Discharged(c: Counters, plugin: string, user: int, token: int): Counters {
    Counters(c.global - 1, Decrement(c.plugin, plugin), Decrement(c.user, user), Decrement(c.token, token))
  }

  function CounterOf(c: Counters, party: Party): int {
    match party
    case OfPlugin(key) => Count(c.plugin, key)
    case OfUser(id) => Count(c.user, id)
    case OfToken(id) => Count(c.token, id)
  }

  predicate ListedIn(c: Counters, party: Party) {
    match party
    case OfPlugin(key) => key in c.plugin
    case OfUser(id) => id in c.user
    case OfToken(id) => id in c.token
  }

  function LimitFor(limits: Limits, party: Party): int {
    match party
    case OfPlugin(_) => limits.perPlugin
    case OfUser(_) => limits.perUser
    case OfToken(_) => limits.perToken
  }

  /** Whether a lease of this identity is counted for the party. */
  predicate Names(plugin: string, user: int, token: int, party: Party) {
    match party
    case OfPlugin(key) => plugin == key
    case OfUser(id) => user == id
    case OfToken(id) => token == id
  }

  function One(b: bool): nat {
    if b then 1 else 0
  }

  lemma ChargedCounter(c: Counters, plugin: string, user: int, token: int, party: Party)
    ensures var u := Charged(c, plugin, user, token);
            && CounterOf(u, party) == CounterOf(c, party) + One(Names(plugin, user, token, party))
            && (ListedIn(u, party) <==> ListedIn(c, party) || Names(plugin, user, token, party))
  {
  }

  lemma DischargedCounter(c: Counters, plugin: string, user: int, token: int, party: Party)
    ensures var u := Discharged(c, plugin, user, token);
            && CounterOf(u, party) == CounterOf(c, party) - One(Names(plugin, user, token, party))
            && (ListedIn(u, party) ==>
                  CounterOf(u, party) != 0 || (ListedIn(c, party) && !Names(plugin, user, token, party)))
  {
  }

  /** Where there is room for a lease there is room for each party it names. */
  lemma RoomForParty(limits: Limits, c: Counters, plugin: string, user: int, token: int, party: Party)
    requires RoomFor(c, limits, plugin, user, token) && Names(plugin, user, token, party)
    ensures CounterOf(c, party) < LimitFor(limits, party)
  {
  }

  /** The refusal names a full scope and its limit, and every scope before it has room. */
  predicate NamesFirstFull(
    c: Counters, limits: Limits, plugin: string, user: int, token: int, refusal: Refusal)
  {
    && refusal.LimitExceeded?
    && (refusal.scope.Global? || c.global < limits.global)
    && (refusal.scope.Global? || refusal.scope.Plugin? || Count(c.plugin, plugin) < limits.perPlugin)
    && (refusal.scope.Token? ==> Count(c.user, user) < limits.perUser)
    && match refusal.scope
       case Global => c.global >= refusal.limit == limits.global
       case Plugin => Count(c.plugin, plugin) >= refusal.limit == limits.perPlugin
       case User => Count(c.user, user) >= refusal.limit == limits.perUser
       case Token => Count(c.token, token) >= refusal.limit == limits.perToken
  }

  /** An identity that `acquire` does not turn away at once. */
  predicate Identified(pluginKey: string, userID: int, tokenID: int) {
    TrimSpace(pluginKey) != "" && userID > 0 && tokenID > 0
  }

  /** The release closure that an admission returns; `released` is its `sync.Once`. */
  class Lease {
    const limiter: Limiter
    const plugin: string
    const user: int
    const token: int
    var released: bool

    constructor (limiter: Limiter, plugin: string, user: int, token: int)
      ensures this.limiter == limiter && this.plugin == plugin && this.user == user && this.token == token && !released
    {
      this.limiter, this.plugin, this.user, this.token := limiter, plugin, user, token;
      released := false;
    }

    predicate Charges(party: Party) {
      Names(plugin, user, token, party)
    }

    /** Gives the slots back the first time it is called, and does nothing afterwards. */
    method Release()
      requires limiter.Valid() && (released <==> this !in limiter.leases)
      modifies this, limiter
      ensures released && limiter.Valid() && limiter.leases == old(limiter.leases) - {this}
      ensures old(released) ==> unchanged(limiter)
      ensures !old(released) ==>
        limiter.View() == Discharged(old(limiter.View()), plugin, user, token)
        && limiter.removals == old(limiter.removals) + 1
    {
      if released {
        return;
      }
      limiter.Remove(this);
      released := true;
    }
  }

  ghost function Charging(leases: set<Lease>, party: Party): set<Lease> {
    set l | l in leases && l.Charges(party)
  }

  lemma ChargingAdd(leases: set<Lease>, l: Lease, party: Party)
    requires l !in leases
    ensures |Charging(leases + {l}, party)| == |Charging(leases, party)| + (if l.Charges(party) then 1 else 0)
  {
    if l.Charges(party) {
      assert Charging(leases + {l}, party) == Charging(leases, party) + {l};
    } else {
      assert Charging(leases + {l}, party) == Charging(leases, party);
    }
  }

  class Limiter {
    const limits: Limits
    var global: int
    var plugin: map<string, int>
    var user: map<int, int>
    var token: map<int, int>
    /** The leases that have not been released, and how many have. */
    ghost var leases: set<Lease>
    ghost var removals: nat

    function View(): Counters
      reads `global, `plugin, `user, `token
    {
      Counters(global, plugin, user, token)
    }

    /** The counter of a party is the number of its leases, kept only while it is not
        zero and never above the limit. */
    ghost predicate CounterOk(party: Party)
      reads this
    {
      && CounterOf(View(), party) == |Charging(leases, party)| <= AtLeastZero(LimitFor(limits, party))
      && (ListedIn(View(), party) ==> CounterOf(View(), party) != 0)
    }

    ghost predicate Valid()
      reads this
    {
      && global == |leases| <= AtLeastZero(limits.global)
      && (forall p :: CounterOk(p))
      && (forall l :: l in leases ==> l.limiter == this)
    }

    constructor (limits: Limits)
      ensures Valid() && this.limits == limits && leases == {} && View() == NoCounts && removals == 0
    {
      this.limits := limits;
      global, plugin, user, token, leases, removals := 0, map[], map[], map[], {}, 0;
    }

    /** All four scopes of an identity have room. */
    ghost predicate HasRoom(pluginKey: string, userID: int, tokenID: int)
      reads this
    {
      && |leases| < limits.global
      && |Charging(leases, OfPlugin(pluginKey))| < limits.perPlugin
      && |Charging(leases, OfUser(userID))| < limits.perUser
      && |Charging(leases, OfToken(tokenID))| < limits.perToken
    }

    /** The first full scope, in the order global, plugin, user, token. */
    function Blocking(key: string, userID: int, tokenID: int): Refusal
      reads this
    {
      if global >= limits.global then LimitExceeded(Global, limits.global)
      else if Count(plugin, key) >= limits.perPlugin then LimitExceeded(Plugin, limits.perPlugin)
      else if Count(user, userID) >= limits.perUser then LimitExceeded(User, limits.perUser)
      else LimitExceeded(Token, limits.perToken)
    }

    /** A refusal leaves the limiter exactly as it was, whatever was taken before the full
        scope was found; an admission happens exactly when there is room everywhere. */
    method Acquire(pluginKey: string, userID: int, tokenID: int) returns (lease: Lease?, refusal: Refusal)
      requires Valid()
      modifies this
      ensures Valid()
      ensures lease != null <==>
        Identified(pluginKey, userID, tokenID) && old(HasRoom(TrimSpace(pluginKey), userID, tokenID))
      ensures lease == null ==> View() == old(View()) && leases == old(leases)
      ensures removals == old(removals)
      ensures lease == null ==>
        refusal == if TrimSpace(pluginKey) == "" then MissingPluginKey
                   else if userID <= 0 then InvalidUser
                   else if tokenID <= 0 then InvalidToken
                   else old(Blocking(TrimSpace(pluginKey), userID, tokenID))
      ensures lease == null && Identified(pluginKey, userID, tokenID) ==>
        NamesFirstFull(old(View()), limits, TrimSpace(pluginKey), userID, tokenID, refusal)
      ensures lease != null ==>
        && fresh(lease) && lease.limiter == this && !lease.released
        && lease.plugin == TrimSpace(pluginKey) && lease.user == userID && lease.token == tokenID
        && leases == old(leases) + {lease} && View() == Charged(old(View()), lease.plugin, userID, tokenID)
    {
      lease, refusal := null, MissingPluginKey;
      var key := TrimSpace(pluginKey);
      if key == "" {
        return;
      }
      if userID <= 0 {
        refusal := InvalidUser;
        return;
      }
      if tokenID <= 0 {
        refusal := InvalidToken;
        return;
      }
      assert CounterOk(OfPlugin(key)) && CounterOk(OfUser(userID)) && CounterOk(OfToken(tokenID));
      lease, refusal := Admit(key, userID, tokenID);
    }

    /** `acquire` for a valid identity. */
    method Admit(key: string, userID: int, tokenID: int) returns (lease: Lease?, refusal: Refusal)
      requires Valid()
      modifies this
      ensures Valid()
      ensures lease != null <==> old(HasRoom(key, userID, tokenID))
      ensures lease == null ==> refusal == old(Blocking(key, userID, tokenID))
      ensures lease == null ==> View() == old(View()) && leases == old(leases)
      ensures removals == old(removals)
      ensures lease != null ==>
        && fresh(lease) && lease.limiter == this && !lease.released
        && lease.plugin == key && lease.user == userID && lease.token == tokenID
        && leases == old(leases) + {lease} && View() == Charged(old(View()), key, userID, tokenID)
    {
      assert CounterOk(OfPlugin(key)) && CounterOk(OfUser(userID)) && CounterOk(OfToken(tokenID));
      var full;
      full, refusal := Take(key, userID, tokenID);
      if full {
        lease := null;
        forall p ensures CounterOk(p) {
          assert old(CounterOk(p));
        }
      } else {
        lease := new Lease(this, key, userID, tokenID);
        leases := leases + {lease};
        forall p ensures CounterOk(p) {
          assert old(CounterOk(p));
          ChargingAdd(old(leases), lease, p);
          ChargedCounter(old(View()), key, userID, tokenID, p);
          if Names(key, userID, tokenID, p) {
            RoomForParty(limits, old(View()), key, userID, tokenID, p);
          }
        }
      }
    }

    /** The part of `acquire` under the mutex: count one scope after the other, and undo
        everything when one is full. */
    method Take(key: string, userID: int, tokenID: int) returns (full: bool, refusal: Refusal)
      requires key in plugin ==> plugin[key] != 0
      requires userID in user ==> user[userID] != 0
      modifies `global, `plugin, `user, `token
      ensures full <==> !RoomFor(old(View()), limits, key, userID, tokenID)
      ensures full ==> refusal == old(Blocking(key, userID, tokenID)) && View() == old(View())
      ensures !full ==> View() == Charged(old(View()), key, userID, tokenID)
    {
      RollBack(plugin, key);
      RollBack(user, userID);
      if global >= limits.global {
        return true, LimitExceeded(Global, limits.global);
      }
      global := global + 1;

      if Count(plugin, key) >= limits.perPlugin {
        global := global - 1;
        return true, LimitExceeded(Plugin, limits.perPlugin);
      }
      plugin := Increment(plugin, key);

      if Count(user, userID) >= limits.perUser {
        global := global - 1;
        plugin := Decrement(plugin, key);
        return true, LimitExceeded(User, limits.perUser);
      }
      user := Increment(user, userID);

      if Count(token, tokenID) >= limits.perToken {
        global := global - 1;
        plugin := Decrement(plugin, key);
        user := Decrement(user, userID);
        return true, LimitExceeded(Token, limits.perToken);
      }
      token := Increment(token, tokenID);
      return false, LimitExceeded(Token, limits.perToken);
    }

    /** The body that `once` guards in the release closure. */
    method Remove(lease: Lease)
      requires Valid() && lease in leases
      modifies this
      ensures Valid() && leases == old(leases) - {lease} && removals == old(removals) + 1
      ensures View() == Discharged(old(View()), lease.plugin, lease.user, lease.token)
    {
      removals := removals + 1;
      global := global - 1;
      plugin := Decrement(plugin, lease.plugin);
      user := Decrement(user, lease.user);
      token := Decrement(token, lease.token);
      leases := leases - {lease};
      assert leases + {lease} == old(leases);
      forall p ensures CounterOk(p) {
        assert old(CounterOk(p));
        ChargingAdd(leases, lease, p);
        DischargedCounter(old(View()), lease.plugin, lease.user, lease.token, p);
      }
    }

    /** When every lease has been released nothing is left behind. */
    lemma IdleIsInitial()
      requires Valid() && leases == {}
      ensures View() == NoCounts
    {
      forall p ensures !ListedIn(View(), p) {
        assert CounterOk(p) && Charging(leases, p) == {};
      }
      forall k ensures k !in plugin { assert !ListedIn(View(), OfPlugin(k)); }
      forall k ensures k !in user { assert !ListedIn(View(), OfUser(k)); }
      forall k ensures k !in token { assert !ListedIn(View(), OfToken(k)); }
    }
  }
}

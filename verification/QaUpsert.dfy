/**
 The QA bootstrap's upsert: one tagged hotel and its users, created or brought
 up to date, or nothing at all.
 */
module QaUpsert {
  import opened Wrappers

  // ----- rows; `rest` stands for the columns the bootstrap never writes -----

  datatype Marker = Marker(runId: string, isolated: bool, synthetic: bool)

  datatype Settings = Settings(subscriptionActive: bool, currency: string, timezone: string, cash: bool,
                               bankTransfer: bool, otherPayments: bool, channelSync: bool, analyticsAi: bool)

  datatype Hotel = Hotel(name: string, ownerEmail: Option<string>, settings: Settings, marker: Option<Marker>, rest: int)

  datatype User = User(email: string, passwordHash: string, active: bool, verified: bool, role: string, rest: int)

  datatype Membership = Membership(role: string, status: string, rest: int)

  datatype Subscription = Subscription(plan: int, status: string, rest: int)

  datatype Onboarding = Onboarding(ownerName: string, ownerEmail: string, staff: seq<(string, string, string)>,
                                   finished: bool, rest: int)

  datatype Persona = Persona(name: string, email: string, password: string, role: string)

  /** `hash` gives some hash of a password, `verifies` checks one; a check that raises is false. */
  datatype Crypto = Crypto(hash: string -> string, verifies: (string, string) -> bool)

  datatype Config = Config(runId: string, hotelName: string, owner: Persona, personas: seq<Persona>)

  datatype Outcome = Outcome(hotelId: int, usersCreated: int, membershipsCreated: int)

  datatype Refusal = SeveralHotels | ForeignMarker | OwnerElsewhere | PersonaElsewhere

  const QA_SETTINGS := Settings(true, "ARS", "America/Argentina/Buenos_Aires", true, true, false, false, false)
  const ACTIVE := "active"

  /** What the configuration loader guarantees: distinct addresses, the owner among the personas. */
  ghost predicate GoodConfig(c: Config) {
    && c.owner in c.personas
    && forall i, j | 0 <= i < j < |c.personas| :: c.personas[i].email != c.personas[j].email
  }

  /** One database state; memberships have one row per hotel and user, subscriptions and onboarding one per hotel. */
  datatype Tables = Tables(hotels: map<int, Hotel>, users: map<int, User>, memberships: map<(int, int), Membership>,
                           subscriptions: map<int, Subscription>, onboarding: map<int, Onboarding>)

  ghost predicate UniqueAddresses(users: map<int, User>) {
    forall a, b | a in users && b in users && users[a].email == users[b].email :: a == b
  }

  ghost predicate MembersExist(users: map<int, User>, memberships: map<(int, int), Membership>) {
    forall m | m in memberships :: m.1 in users
  }

  /** Unique addresses, and memberships that refer to existing rows. */
  ghost predicate Consistent(t: Tables) {
    && UniqueAddresses(t.users) && MembersExist(t.users, t.memberships)
    && (forall m | m in t.memberships :: m.0 in t.hotels)
  }

  // ----- which hotel, and whether the run refuses -----

  function OwnedHotels(hotels: map<int, Hotel>, email: string): set<int> {
    set h | h in hotels && hotels[h].ownerEmail == Some(email)
  }

  predicate MarkerMatches(h: Hotel, runId: string) {
    h.marker.Some? && h.marker.value.runId == runId && h.marker.value.isolated
  }

  function UsersWith(users: map<int, User>, email: string): set<int> {
    set u | u in users && users[u].email == email
  }

  function HotelsOf(memberships: map<(int, int), Membership>, user: int): set<int> {
    set m | m in memberships && m.1 == user :: m.0
  }

  /** One past the greatest hotel id. */
  predicate IsNextHotelId(hotels: map<int, Hotel>, h: int) {
    if hotels == map[] then h == 1 else h - 1 in hotels && forall k | k in hotels :: k < h
  }

  /** The hotel that the run works on. */
  ghost predicate IsTarget(t: Tables, c: Config, h: int) {
    if OwnedHotels(t.hotels, c.owner.email) == {} then IsNextHotelId(t.hotels, h)
    else OwnedHotels(t.hotels, c.owner.email) == {h}
  }

  /** No account under the address has a membership. */
  predicate NoMembershipOf(users: map<int, User>, memberships: map<(int, int), Membership>, email: string) {
    forall m | m in memberships && m.1 in users :: users[m.1].email != email
  }

  ghost predicate AttachedOnlyTo(users: map<int, User>, memberships: map<(int, int), Membership>, email: string, h: int) {
    forall u | u in users && users[u].email == email :: HotelsOf(memberships, u) <= {h}
  }

  /** Everything the run asks of the database it finds. */
  ghost predicate Accepts(t: Tables, c: Config, h: int) {
    && IsTarget(t, c, h)
    && (h in t.hotels ==> MarkerMatches(t.hotels[h], c.runId))
    && forall p | p in c.personas :: AttachedOnlyTo(t.users, t.memberships, p.email, h)
  }

  // ----- the rows that a run writes -----

  function TaggedHotel(hotels: map<int, Hotel>, h: int, c: Config): Hotel {
    Hotel(c.hotelName, Some(c.owner.email), QA_SETTINGS, Some(Marker(c.runId, true, true)),
          if h in hotels then hotels[h].rest else 0)
  }

  function CreatedUser(crypto: Crypto, p: Persona): User {
    User(p.email, crypto.hash(p.password), true, true, p.role, 0)
  }

  function UpdatedUser(crypto: Crypto, u: User, p: Persona): User {
    User(u.email, if crypto.verifies(p.password, u.passwordHash) then u.passwordHash else crypto.hash(p.password),
         true, true, p.role, u.rest)
  }

  function GrantedMembership(memberships: map<(int, int), Membership>, key: (int, int), p: Persona): Membership {
    Membership(p.role, ACTIVE, if key in memberships then memberships[key].rest else 0)
  }

  function StaffOf(personas: seq<Persona>): seq<(string, string, string)> {
    seq(|personas|, i requires 0 <= i < |personas| => (personas[i].name, personas[i].email, personas[i].role))
  }

  function FirstOnboarding(c: Config): Onboarding {
    Onboarding("Owner QA " + c.runId, c.owner.email, StaffOf(c.personas), false, 0)
  }

  /** The persona with an address. */
  function PersonaAt(personas: seq<Persona>, email: string): Option<Persona> {
    if personas == [] then None
    else if personas[|personas| - 1].email == email then Some(personas[|personas| - 1])
    else PersonaAt(personas[..|personas| - 1], email)
  }

  // ----- the outcome of the persona loop, row by row -----

  /** What becomes of a user that was there. */
  function KeptUser(crypto: Crypto, u: User, done: seq<Persona>): User {
    match PersonaAt(done, u.email)
    case None => u
    case Some(p) => UpdatedUser(crypto, u, p)
  }

  /** Users: old ones stay, touched only if a persona's; new ones are a persona's that had none; each persona has one. */
  ghost predicate UsersUpserted(crypto: Crypto, before: map<int, User>, after: map<int, User>, done: seq<Persona>) {
    && (forall u | u in before :: u in after && after[u] == KeptUser(crypto, before[u], done))
    && (forall u | u in after && u !in before ::
          && PersonaAt(done, after[u].email).Some?
          && after[u] == CreatedUser(crypto, PersonaAt(done, after[u].email).value)
          && UsersWith(before, after[u].email) == {})
    && (forall email | PersonaAt(done, email).Some? :: UsersWith(after, email) != {})
  }

  /** The persona whose membership of hotel h a key names. */
  function Grantee(users: map<int, User>, key: (int, int), h: int, done: seq<Persona>): Option<Persona> {
    if key.0 == h && key.1 in users then PersonaAt(done, users[key.1].email) else None
  }

  /** Memberships: only the personas' own ones of hotel h are written, and all of those are. */
  ghost predicate MembershipsUpserted(before: map<(int, int), Membership>, after: map<(int, int), Membership>,
                                      users: map<int, User>, h: int, done: seq<Persona>) {
    && (forall m :: m in after <==> m in before || Grantee(users, m, h, done).Some?)
    && (forall m | m in after ::
          after[m] == match Grantee(users, m, h, done)
                      case None => before[m]
                      case Some(p) => GrantedMembership(before, m, p))
  }

  /** The whole outcome of an accepted run. */
  ghost predicate Upserted(crypto: Crypto, before: Tables, after: Tables, c: Config, h: int, plan: int) {
    && after.hotels == before.hotels[h := TaggedHotel(before.hotels, h, c)]
    && UsersUpserted(crypto, before.users, after.users, c.personas)
    && MembershipsUpserted(before.memberships, after.memberships, after.users, h, c.personas)
    && after.subscriptions == before.subscriptions[
         h := Subscription(plan, ACTIVE, if h in before.subscriptions then before.subscriptions[h].rest else 0)]
    && after.onboarding == if h in before.onboarding then before.onboarding else before.onboarding[h := FirstOnboarding(c)]
  }

  // ----- one persona after another -----

  lemma PersonaAppended(done: seq<Persona>, p: Persona, email: string)
    ensures PersonaAt(done + [p], email) == if p.email == email then Some(p) else PersonaAt(done, email)
    ensures PersonaAt([p], email) == if p.email == email then Some(p) else None
  {
    assert (done + [p])[..|done|] == done;
    assert [p][..0] == [];
  }

  lemma {:induction false} PersonaAtHasAddress(personas: seq<Persona>, email: string)
    ensures PersonaAt(personas, email).Some? ==> PersonaAt(personas, email).value in personas
    ensures PersonaAt(personas, email).Some? ==> PersonaAt(personas, email).value.email == email
    ensures PersonaAt(personas, email).None? ==> forall p | p in personas :: p.email != email
  {
    if personas != [] {
      var front := personas[..|personas| - 1];
      PersonaAtHasAddress(front, email);
      assert personas == front + [personas[|personas| - 1]];
    }
  }

  lemma AddressesStay(crypto: Crypto, a: map<int, User>, b: map<int, User>, done: seq<Persona>, u: int)
    requires UsersUpserted(crypto, a, b, done)
    ensures u in a ==> u in b && b[u].email == a[u].email
    ensures u in b && u !in a ==> PersonaAt(done, b[u].email).Some?
  {
  }

  lemma UsersCompose(crypto: Crypto, a: map<int, User>, b: map<int, User>, c: map<int, User>,
                     done: seq<Persona>, p: Persona)
    requires UsersUpserted(crypto, a, b, done) && UsersUpserted(crypto, b, c, [p]) && PersonaAt(done, p.email).None?
    ensures UsersUpserted(crypto, a, c, done + [p])
  {
    forall u | u in a ensures u in c && c[u] == KeptUser(crypto, a[u], done + [p]) {
      PersonaAppended(done, p, a[u].email);
      PersonaAppended(done, p, b[u].email);
    }
    forall u | u in c && u !in a
      ensures PersonaAt(done + [p], c[u].email).Some?
        && c[u] == CreatedUser(crypto, PersonaAt(done + [p], c[u].email).value) && UsersWith(a, c[u].email) == {}
    {
      NewUserCompose(crypto, a, b, c, done, p, u);
    }
    forall email | PersonaAt(done + [p], email).Some? ensures UsersWith(c, email) != {} {
      PersonaAppended(done, p, email);
      if email != p.email {
        var u := MemberOf(UsersWith(b, email));
        PersonaAppended(done, p, b[u].email);
        assert u in UsersWith(c, email);
      }
    }
  }

  lemma NewUserCompose(crypto: Crypto, a: map<int, User>, b: map<int, User>, c: map<int, User>,
                       done: seq<Persona>, p: Persona, u: int)
    requires UsersUpserted(crypto, a, b, done) && UsersUpserted(crypto, b, c, [p]) && PersonaAt(done, p.email).None?
    requires u in c && u !in a
    ensures PersonaAt(done + [p], c[u].email).Some?
    ensures c[u] == CreatedUser(crypto, PersonaAt(done + [p], c[u].email).value) && UsersWith(a, c[u].email) == {}
  {
    PersonaAppended(done, p, c[u].email);
    if u in b {
      PersonaAppended(done, p, b[u].email);
      PersonaAtHasAddress(done, b[u].email);
    } else {
      forall v | v in a ensures a[v].email != c[u].email {
        assert v in b && v !in UsersWith(b, c[u].email);
        if PersonaAt(done, a[v].email).Some? { PersonaAtHasAddress(done, a[v].email); }
      }
    }
  }

  lemma GranteeStep(crypto: Crypto, bu: map<int, User>, cu: map<int, User>, h: int, done: seq<Persona>, p: Persona,
                    m: (int, int))
    requires UsersUpserted(crypto, bu, cu, [p]) && PersonaAt(done, p.email).None?
    ensures Grantee(cu, m, h, done + [p]) ==
      if Grantee(cu, m, h, [p]).Some? then Grantee(cu, m, h, [p]) else Grantee(bu, m, h, done)
    ensures Grantee(cu, m, h, [p]).Some? ==> Grantee(bu, m, h, done).None?
  {
    AddressesStay(crypto, bu, cu, [p], m.1);
    if m.1 in cu {
      PersonaAppended(done, p, cu[m.1].email);
    }
  }

  /** No address changes, so a key names the same persona later, and a new user has no membership yet. */
  lemma MembershipsCompose(crypto: Crypto, bu: map<int, User>, cu: map<int, User>,
                           a: map<(int, int), Membership>, b: map<(int, int), Membership>, c: map<(int, int), Membership>,
                           h: int, done: seq<Persona>, p: Persona)
    requires UsersUpserted(crypto, bu, cu, [p]) && PersonaAt(done, p.email).None?
    requires MembershipsUpserted(a, b, bu, h, done) && MembershipsUpserted(b, c, cu, h, [p])
    ensures MembershipsUpserted(a, c, cu, h, done + [p])
  {
    forall m: (int, int)
      ensures m in c <==> m in a || Grantee(cu, m, h, done + [p]).Some?
      ensures m in c ==> c[m] == match Grantee(cu, m, h, done + [p])
                                 case None => a[m]
                                 case Some(q) => GrantedMembership(a, m, q)
    {
      GranteeStep(crypto, bu, cu, h, done, p, m);
      var before, now := Grantee(bu, m, h, done), Grantee(cu, m, h, [p]);
      assert m in c <==> m in b || now.Some?;
      assert m in b <==> m in a || before.Some?;
    }
  }

  /** A persona not yet handled is attached where it was before the loop. */
  lemma AttachmentStays(crypto: Crypto, bu: map<int, User>, cu: map<int, User>,
                        b: map<(int, int), Membership>, c: map<(int, int), Membership>,
                        h: int, done: seq<Persona>, email: string)
    requires UsersUpserted(crypto, bu, cu, done) && MembershipsUpserted(b, c, cu, h, done)
    requires PersonaAt(done, email).None?
    ensures AttachedOnlyTo(cu, c, email, h) <==> AttachedOnlyTo(bu, b, email, h)
  {
    forall u ensures (u in cu && cu[u].email == email) <==> (u in bu && bu[u].email == email) {
      AddressesStay(crypto, bu, cu, done, u);
    }
    forall u ensures HotelsOf(c, u) <= {h} <==> HotelsOf(b, u) <= {h} {
      if HotelsOf(b, u) <= {h} {
        forall g | g in HotelsOf(c, u) ensures g == h {
          assert (g, u) in c;
          if (g, u) in b { assert g in HotelsOf(b, u); }
        }
      }
      if HotelsOf(c, u) <= {h} {
        forall g | g in HotelsOf(b, u) ensures g == h {
          assert (g, u) in c;
          assert g in HotelsOf(c, u);
        }
      }
    }
  }

  // ----- the run -----

  method NextHotelId(hotels: map<int, Hotel>) returns (h: int)
    ensures IsNextHotelId(hotels, h)
  {
    if hotels == map[] {
      return 1;
    }
    var rest := hotels.Keys;
    var max := PickFrom(rest);
    while rest != {}
      invariant rest <= hotels.Keys && max in hotels
      invariant forall k | k in hotels && k !in rest :: k <= max
      decreases |rest|
    {
      var k := PickFrom(rest);
      rest := rest - {k};
      if k > max {
        max := k;
      }
    }
    h := max + 1;
  }

  class Store {
    var hotels: map<int, Hotel>
    var users: map<int, User>
    var memberships: map<(int, int), Membership>
    var subscriptions: map<int, Subscription>
    var onboarding: map<int, Onboarding>

    ghost function View(): Tables
      reads this
    {
      Tables(hotels, users, memberships, subscriptions, onboarding)
    }

    /** The owner's hotel if it is this run's own, or a new one. */
    method FindOrAddHotel(c: Config) returns (r: Result<int, Refusal>)
      requires Consistent(View()) && GoodConfig(c)
      modifies this`hotels
      ensures r.Success? ==>
        && IsTarget(old(View()), c, r.value)
        && (r.value in old(hotels) ==> MarkerMatches(old(hotels)[r.value], c.runId))
        && hotels == old(hotels)[r.value := TaggedHotel(old(hotels), r.value, c)]
      ensures r.Failure? ==> forall h :: !Accepts(old(View()), c, h)
      ensures r.Success? <==>
        if OwnedHotels(old(hotels), c.owner.email) == {} then NoMembershipOf(users, memberships, c.owner.email)
        else exists h | h in old(hotels) ::
          OwnedHotels(old(hotels), c.owner.email) == {h} && MarkerMatches(old(hotels)[h], c.runId)
    {
      var owned := OwnedHotels(hotels, c.owner.email);
      var h;
      if |owned| > 1 {
        return Failure(SeveralHotels);
      } else if owned != {} {
        h := PickFrom(owned);
        OneMember(owned, h);
        if !MarkerMatches(hotels[h], c.runId) {
          return Failure(ForeignMarker);
        }
      } else {
        var accounts := UsersWith(users, c.owner.email);
        if accounts != {} {
          var account := PickFrom(accounts);
          if HotelsOf(memberships, account) != {} {
            OwnerElsewhereIsRefused(View(), c, account);
            return Failure(OwnerElsewhere);
          }
        }
        assert NoMembershipOf(users, memberships, c.owner.email) by {
          forall m | m in memberships && m.1 in users ensures users[m.1].email != c.owner.email {
            assert m.0 in HotelsOf(memberships, m.1);
            assert users[m.1].email == c.owner.email ==> m.1 in accounts;
          }
        }
        h := NextHotelId(hotels);
      }
      hotels := hotels[h := TaggedHotel(hotels, h, c)];
      r := Success(h);
    }

    /** The account of a persona, created or brought up to date; refused if it belongs to another hotel. */
    method UpsertUser(crypto: Crypto, p: Persona, h: int) returns (r: Result<(int, nat), Refusal>)
      requires UniqueAddresses(users)
      modifies this`users
      ensures r.Success? <==> AttachedOnlyTo(old(users), memberships, p.email, h)
      ensures r.Success? ==>
        && UsersUpserted(crypto, old(users), users, [p]) && UniqueAddresses(users)
        && r.value.0 in users && users[r.value.0].email == p.email && |users| == |old(users)| + r.value.1
    {
      var found := UsersWith(users, p.email);
      if found == {} {
        forall u | u in users ensures users[u].email != p.email {
          assert u !in found;
        }
        var user := FreeId(users.Keys);
        NewUserAlone(crypto, users, user, p);
        users := users[user := CreatedUser(crypto, p)];
        r := Success((user, 1));
      } else {
        var user := PickFrom(found);
        if exists g | g in HotelsOf(memberships, user) :: g != h {
          return Failure(PersonaElsewhere);
        }
        OldUserAlone(crypto, users, user, p);
        users := users[user := UpdatedUser(crypto, users[user], p)];
        r := Success((user, 0));
      }
    }

    /** The membership of an account, created or brought up to date. */
    method UpsertMembership(user: int, p: Persona, h: int) returns (created: nat)
      requires UniqueAddresses(users) && MembersExist(users, memberships)
      requires user in users && users[user].email == p.email
      modifies this`memberships
      ensures MembershipsUpserted(old(memberships), memberships, users, h, [p])
      ensures MembersExist(users, memberships) && |memberships| == |old(memberships)| + created
    {
      created := if (h, user) in memberships then 0 else 1;
      OneGrant(users, memberships, h, user, p);
      memberships := memberships[(h, user) := GrantedMembership(memberships, (h, user), p)];
    }

    /** One turn of the persona loop: the account, then its membership of the hotel. */
    method UpsertPersona(crypto: Crypto, p: Persona, h: int) returns (r: Result<(nat, nat), Refusal>)
      requires UniqueAddresses(users) && MembersExist(users, memberships)
      modifies this`users, this`memberships
      ensures r.Success? <==> AttachedOnlyTo(old(users), old(memberships), p.email, h)
      ensures r.Success? ==>
        && UsersUpserted(crypto, old(users), users, [p])
        && MembershipsUpserted(old(memberships), memberships, users, h, [p])
        && UniqueAddresses(users) && MembersExist(users, memberships)
        && |users| == |old(users)| + r.value.0 && |memberships| == |old(memberships)| + r.value.1
    {
      var account := UpsertUser(crypto, p, h);
      if account.Failure? {
        return Failure(account.error);
      }
      var user := account.value.0;
      AccountsStay(crypto, old(users), users, memberships, [p]);
      var created := UpsertMembership(user, p, h);
      r := Success((account.value.1, created));
    }

    /** The persona loop. */
    method UpsertPersonas(crypto: Crypto, c: Config, h: int) returns (r: Result<(nat, nat), Refusal>)
      requires UniqueAddresses(users) && MembersExist(users, memberships) && GoodConfig(c)
      modifies this`users, this`memberships
      ensures r.Failure? ==> exists p | p in c.personas :: !AttachedOnlyTo(old(users), old(memberships), p.email, h)
      ensures r.Success? ==>
        && Progress(crypto, old(users), old(memberships), users, memberships, h, c.personas)
        && |users| == |old(users)| + r.value.0 && |memberships| == |old(memberships)| + r.value.1
    {
      var usersCreated, membershipsCreated := 0, 0;
      ghost var done: seq<Persona> := [];
      for i := 0 to |c.personas|
        invariant done == c.personas[..i]
        invariant Progress(crypto, old(users), old(memberships), users, memberships, h, done)
        invariant |users| == |old(users)| + usersCreated && |memberships| == |old(memberships)| + membershipsCreated
      {
        ghost var usersSoFar, soFar := users, memberships;
        NotHandledYet(c, i);
        var turn := UpsertPersona(crypto, c.personas[i], h);
        Advance(crypto, old(users), old(memberships), usersSoFar, soFar, users, memberships, h, done, c.personas[i],
                turn.Success?);
        if turn.Failure? {
          return Failure(turn.error);
        }
        PrefixStep(c.personas, i);
        done := done + [c.personas[i]];
        usersCreated, membershipsCreated := usersCreated + turn.value.0, membershipsCreated + turn.value.1;
      }
      PrefixEnd(c.personas);
      r := Success((usersCreated, membershipsCreated));
    }

    /** The whole upsert; a refusal may come after some rows were written. */
    method UpsertQaData(crypto: Crypto, c: Config, plan: int) returns (r: Result<Outcome, Refusal>)
      requires Consistent(View()) && GoodConfig(c)
      modifies this
      ensures r.Failure? ==> forall h :: !Accepts(old(View()), c, h)
      ensures r.Success? ==>
        && Accepts(old(View()), c, r.value.hotelId)
        && Upserted(crypto, old(View()), View(), c, r.value.hotelId, plan) && Consistent(View())
        && |users| == |old(users)| + r.value.usersCreated
        && |memberships| == |old(memberships)| + r.value.membershipsCreated
    {
      var target := FindOrAddHotel(c);
      if target.Failure? {
        return Failure(target.error);
      }
      var h := target.value;
      TargetIsUnique(old(View()), c, h);
      var created := UpsertPersonas(crypto, c, h);
      if created.Failure? {
        return Failure(created.error);
      }
      subscriptions := subscriptions[
        h := Subscription(plan, ACTIVE, if h in subscriptions then subscriptions[h].rest else 0)];
      if h !in onboarding {
        onboarding := onboarding[h := FirstOnboarding(c)];
      }
      MembersOfHotels(old(View()), View(), h, c.personas);
      r := Success(Outcome(h, created.value.0, created.value.1));
    }

    /** One transaction: all of the upsert, or a rollback. */
    method BootstrapDatabase(crypto: Crypto, c: Config, plan: int) returns (r: Result<Outcome, Refusal>)
      requires Consistent(View()) && GoodConfig(c)
      modifies this
      ensures r.Success? <==> exists h :: Accepts(old(View()), c, h)
      ensures r.Failure? ==> View() == old(View())
      ensures r.Success? ==>
        && Accepts(old(View()), c, r.value.hotelId)
        && Upserted(crypto, old(View()), View(), c, r.value.hotelId, plan) && Consistent(View())
        && |users| == |old(users)| + r.value.usersCreated
        && |memberships| == |old(memberships)| + r.value.membershipsCreated
    {
      var saved := (hotels, users, memberships, subscriptions, onboarding);
      r := UpsertQaData(crypto, c, plan);
      if r.Failure? {
        hotels, users, memberships, subscriptions, onboarding := saved.0, saved.1, saved.2, saved.3, saved.4;
      }
    }
  }

  lemma NotHandledYet(c: Config, i: nat)
    requires GoodConfig(c) && i < |c.personas|
    ensures PersonaAt(c.personas[..i], c.personas[i].email).None?
  {
    PersonaAtHasAddress(c.personas[..i], c.personas[i].email);
  }

  /** The persona loop after `done`. */
  ghost predicate Progress(crypto: Crypto, bu: map<int, User>, b: map<(int, int), Membership>,
                           users: map<int, User>, memberships: map<(int, int), Membership>, h: int, done: seq<Persona>) {
    && UsersUpserted(crypto, bu, users, done) && UniqueAddresses(users)
    && MembershipsUpserted(b, memberships, users, h, done) && MembersExist(users, memberships)
    && forall p | p in done :: AttachedOnlyTo(bu, b, p.email, h)
  }

  lemma Advance(crypto: Crypto, bu: map<int, User>, b: map<(int, int), Membership>,
                su: map<int, User>, s: map<(int, int), Membership>, cu: map<int, User>, c: map<(int, int), Membership>,
                h: int, done: seq<Persona>, p: Persona, accepted: bool)
    requires Progress(crypto, bu, b, su, s, h, done) && PersonaAt(done, p.email).None?
    requires accepted <==> AttachedOnlyTo(su, s, p.email, h)
    requires accepted ==> UsersUpserted(crypto, su, cu, [p]) && MembershipsUpserted(s, c, cu, h, [p])
    requires accepted ==> UniqueAddresses(cu) && MembersExist(cu, c)
    ensures accepted <==> AttachedOnlyTo(bu, b, p.email, h)
    ensures accepted ==> Progress(crypto, bu, b, cu, c, h, done + [p])
  {
    AttachmentStays(crypto, bu, su, b, s, h, done, p.email);
    if accepted {
      UsersCompose(crypto, bu, su, cu, done, p);
      MembershipsCompose(crypto, su, cu, b, s, c, h, done, p);
    }
  }

  lemma PrefixStep(personas: seq<Persona>, i: nat)
    requires i < |personas|
    ensures personas[..i + 1] == personas[..i] + [personas[i]]
  {
  }

  lemma PrefixEnd(personas: seq<Persona>)
    ensures personas[..|personas|] == personas
  {
  }

  lemma TargetIsUnique(t: Tables, c: Config, h: int)
    requires IsTarget(t, c, h)
    ensures forall g | IsTarget(t, c, g) :: g == h
  {
    forall g | IsTarget(t, c, g) ensures g == h {
      assert OwnedHotels(t.hotels, c.owner.email) != {} ==> g in OwnedHotels(t.hotels, c.owner.email);
    }
  }

  lemma MembersOfHotels(before: Tables, after: Tables, h: int, personas: seq<Persona>)
    requires Consistent(before) && h in after.hotels && before.hotels.Keys <= after.hotels.Keys
    requires MembershipsUpserted(before.memberships, after.memberships, after.users, h, personas)
    ensures forall m | m in after.memberships :: m.0 in after.hotels
  {
    forall m | m in after.memberships ensures m.0 in after.hotels {
      assert m in before.memberships || Grantee(after.users, m, h, personas).Some?;
    }
  }

  lemma NewUserAlone(crypto: Crypto, users: map<int, User>, user: int, p: Persona)
    requires UniqueAddresses(users) && user !in users && UsersWith(users, p.email) == {}
    ensures UsersUpserted(crypto, users, users[user := CreatedUser(crypto, p)], [p])
    ensures UniqueAddresses(users[user := CreatedUser(crypto, p)])
  {
    var after := users[user := CreatedUser(crypto, p)];
    forall u | u in users ensures users[u].email != p.email {
      assert u !in UsersWith(users, p.email);
    }
    forall email ensures PersonaAt([p], email) == if p.email == email then Some(p) else None {
      PersonaAppended([], p, email);
    }
    assert user in UsersWith(after, p.email);
  }

  lemma OldUserAlone(crypto: Crypto, users: map<int, User>, user: int, p: Persona)
    requires UniqueAddresses(users) && user in users && users[user].email == p.email
    ensures UsersUpserted(crypto, users, users[user := UpdatedUser(crypto, users[user], p)], [p])
    ensures UniqueAddresses(users[user := UpdatedUser(crypto, users[user], p)])
  {
    var after := users[user := UpdatedUser(crypto, users[user], p)];
    forall email ensures PersonaAt([p], email) == if p.email == email then Some(p) else None {
      PersonaAppended([], p, email);
    }
    assert user in UsersWith(after, p.email);
  }

  lemma OneGrant(users: map<int, User>, memberships: map<(int, int), Membership>, h: int, user: int, p: Persona)
    requires UniqueAddresses(users) && user in users && users[user].email == p.email
    ensures MembershipsUpserted(memberships, memberships[(h, user) := GrantedMembership(memberships, (h, user), p)],
                                users, h, [p])
  {
    forall m: (int, int) ensures Grantee(users, m, h, [p]) == if m == (h, user) then Some(p) else None {
      assert m == (m.0, m.1);
      if m.1 in users {
        PersonaAppended([], p, users[m.1].email);
        assert users[m.1].email == p.email <==> m.1 == user;
      }
    }
  }

  lemma AccountsStay(crypto: Crypto, a: map<int, User>, b: map<int, User>, memberships: map<(int, int), Membership>,
                     done: seq<Persona>)
    requires UsersUpserted(crypto, a, b, done) && MembersExist(a, memberships)
    ensures MembersExist(b, memberships)
  {
    forall m | m in memberships ensures m.1 in b {
      AddressesStay(crypto, a, b, done, m.1);
    }
  }

  lemma OneMember(s: set<int>, h: int)
    requires h in s && |s| <= 1
    ensures s == {h}
  {
    assert |s - {h}| == |s| - 1;
  }

  lemma OwnerElsewhereIsRefused(t: Tables, c: Config, u: int)
    requires Consistent(t) && GoodConfig(c) && OwnedHotels(t.hotels, c.owner.email) == {}
    requires u in t.users && t.users[u].email == c.owner.email && HotelsOf(t.memberships, u) != {}
    ensures forall h :: !Accepts(t, c, h)
  {
    forall h | IsTarget(t, c, h) ensures !AttachedOnlyTo(t.users, t.memberships, c.owner.email, h) {
      var g := MemberOf(HotelsOf(t.memberships, u));
      assert (g, u) in t.memberships;
      assert g in t.hotels && h !in t.hotels;
    }
  }

  // ----- what an accepted run leaves behind -----

  ghost predicate HashesVerify(crypto: Crypto) {
    forall password :: crypto.verifies(password, crypto.hash(password))
  }

  lemma {:induction false} PersonaIsFound(personas: seq<Persona>, i: nat)
    requires i < |personas| && forall j, k | 0 <= j < k < |personas| :: personas[j].email != personas[k].email
    ensures PersonaAt(personas, personas[i].email) == Some(personas[i])
  {
    if i < |personas| - 1 {
      PersonaIsFound(personas[..|personas| - 1], i);
    }
  }

  /** Each persona has one account, which can log in and whose only membership is an active one of the tagged hotel. */
  lemma EachPersonaHasOneMembership(crypto: Crypto, before: Tables, after: Tables, c: Config, h: int, plan: int,
                                    i: nat, u: int)
    requires GoodConfig(c) && Consistent(before) && Consistent(after) && HashesVerify(crypto) && i < |c.personas|
    requires Accepts(before, c, h) && Upserted(crypto, before, after, c, h, plan)
    ensures UsersWith(after.users, c.personas[i].email) != {}
    ensures u in UsersWith(after.users, c.personas[i].email) ==>
      && UsersWith(after.users, c.personas[i].email) == {u}
      && after.users[u].active && after.users[u].role == c.personas[i].role
      && crypto.verifies(c.personas[i].password, after.users[u].passwordHash)
      && HotelsOf(after.memberships, u) == {h} && (h, u) in after.memberships
      && after.memberships[(h, u)].role == c.personas[i].role && after.memberships[(h, u)].status == ACTIVE
  {
    var p := c.personas[i];
    PersonaIsFound(c.personas, i);
    if u in UsersWith(after.users, p.email) {
      assert Grantee(after.users, (h, u), h, c.personas) == Some(p);
      AddressesStay(crypto, before.users, after.users, c.personas, u);
      assert crypto.verifies(p.password, crypto.hash(p.password));
      assert forall v | v in UsersWith(after.users, p.email) :: v == u;
      assert (h, u) in after.memberships;
      assert AttachedOnlyTo(before.users, before.memberships, p.email, h);
      forall g ensures (g, u) in after.memberships ==> g == h {
        assert g != h ==> Grantee(after.users, (g, u), h, c.personas).None?;
        assert (g, u) in before.memberships ==> u in before.users && g in HotelsOf(before.memberships, u);
      }
      assert h in HotelsOf(after.memberships, u);
    }
  }

  /** Nothing of another hotel, and no other person's account, is written, created or deleted. */
  lemma OtherHotelsAreUntouched(crypto: Crypto, before: Tables, after: Tables, c: Config, h: int, plan: int,
                                g: int, u: int)
    requires Upserted(crypto, before, after, c, h, plan) && g != h
    ensures (g in after.hotels <==> g in before.hotels) && (g in after.hotels ==> after.hotels[g] == before.hotels[g])
    ensures (g, u) in after.memberships <==> (g, u) in before.memberships
    ensures (g, u) in after.memberships ==> after.memberships[(g, u)] == before.memberships[(g, u)]
    ensures g in after.subscriptions <==> g in before.subscriptions
    ensures g in after.subscriptions ==> after.subscriptions[g] == before.subscriptions[g]
    ensures g in after.onboarding <==> g in before.onboarding
    ensures g in after.onboarding ==> after.onboarding[g] == before.onboarding[g]
    ensures u in before.users && (forall p | p in c.personas :: p.email != before.users[u].email) ==>
      u in after.users && after.users[u] == before.users[u]
    ensures u in after.users && u !in before.users ==> exists p | p in c.personas :: p.email == after.users[u].email
  {
    assert Grantee(after.users, (g, u), h, c.personas).None?;
    if u in before.users { PersonaAtHasAddress(c.personas, before.users[u].email); }
    if u in after.users { PersonaAtHasAddress(c.personas, after.users[u].email); }
  }

  // ----- a rerun -----

  lemma RerunIsAccepted(crypto: Crypto, before: Tables, after: Tables, c: Config, h: int, plan: int)
    requires GoodConfig(c) && Consistent(before) && Consistent(after) && HashesVerify(crypto)
    requires Accepts(before, c, h) && Upserted(crypto, before, after, c, h, plan)
    ensures Accepts(after, c, h)
  {
    assert OwnedHotels(after.hotels, c.owner.email) == {h} by {
      forall g | g in after.hotels && g != h ensures after.hotels[g].ownerEmail != Some(c.owner.email) {
        assert g !in OwnedHotels(before.hotels, c.owner.email);
      }
    }
    forall p | p in c.personas ensures AttachedOnlyTo(after.users, after.memberships, p.email, h) {
      var i :| 0 <= i < |c.personas| && c.personas[i] == p;
      forall u | u in after.users && after.users[u].email == p.email ensures HotelsOf(after.memberships, u) <= {h} {
        EachPersonaHasOneMembership(crypto, before, after, c, h, plan, i, u);
      }
    }
  }

  lemma UsersSettle(crypto: Crypto, a: map<int, User>, b: map<int, User>, c: map<int, User>, personas: seq<Persona>)
    requires HashesVerify(crypto) && UsersUpserted(crypto, a, b, personas) && UsersUpserted(crypto, b, c, personas)
    ensures c == b
  {
    forall u ensures u in c <==> u in b {
      if u in c && u !in b {
        var v := MemberOf(UsersWith(b, c[u].email));
      }
    }
    forall u | u in b ensures c[u] == b[u] {
      PersonaAtHasAddress(personas, b[u].email);
      AddressesStay(crypto, a, b, personas, u);
      var p := PersonaAt(personas, b[u].email);
      if p.Some? { assert crypto.verifies(p.value.password, crypto.hash(p.value.password)); }
    }
  }

  lemma MembershipsSettle(a: map<(int, int), Membership>, b: map<(int, int), Membership>, c: map<(int, int), Membership>,
                          users: map<int, User>, h: int, personas: seq<Persona>)
    requires MembershipsUpserted(a, b, users, h, personas) && MembershipsUpserted(b, c, users, h, personas)
    ensures c == b
  {
  }

  /** A second run on what the first one left, with onboarding edited in between, changes nothing at all. */
  lemma RerunChangesNothing(crypto: Crypto, before: Tables, first: Tables, edited: map<int, Onboarding>, second: Tables,
                            c: Config, h: int, plan: int)
    requires HashesVerify(crypto) && Upserted(crypto, before, first, c, h, plan) && h in edited
    requires Upserted(crypto, first.(onboarding := edited), second, c, h, plan)
    ensures second == first.(onboarding := edited)
  {
    UsersSettle(crypto, before.users, first.users, second.users, c.personas);
    MembershipsSettle(before.memberships, first.memberships, second.memberships, first.users, h, c.personas);
  }

  /** The first run's outcome, with onboarding edited, is accepted again, and for the same hotel only. */
  lemma EditedIsAccepted(crypto: Crypto, before: Tables, first: Tables, edited: Tables, c: Config, h: int, plan: int)
    requires GoodConfig(c) && Consistent(before) && Consistent(first) && HashesVerify(crypto)
    requires Accepts(before, c, h) && Upserted(crypto, before, first, c, h, plan)
    requires edited == first.(onboarding := edited.onboarding)
    ensures Consistent(edited) && Accepts(edited, c, h) && forall g | Accepts(edited, c, g) :: g == h
  {
    RerunIsAccepted(crypto, before, first, c, h, plan);
    TargetIsUnique(edited, c, h);
  }

  lemma SecondOutcome(crypto: Crypto, before: Tables, first: Tables, edited: Tables, second: Tables,
                      c: Config, h: int, plan: int, o: Outcome)
    requires GoodConfig(c) && Consistent(before) && Consistent(first) && HashesVerify(crypto)
    requires Accepts(before, c, h) && Upserted(crypto, before, first, c, h, plan)
    requires edited == first.(onboarding := edited.onboarding) && h in edited.onboarding
    requires Accepts(edited, c, o.hotelId) && Upserted(crypto, edited, second, c, o.hotelId, plan)
    requires |second.users| == |edited.users| + o.usersCreated
    requires |second.memberships| == |edited.memberships| + o.membershipsCreated
    ensures o == Outcome(h, 0, 0) && second == edited
  {
    EditedIsAccepted(crypto, before, first, edited, c, h, plan);
    RerunChangesNothing(crypto, before, first, edited.onboarding, second, c, h, plan);
  }

  /** A run on the edited outcome of an earlier one. */
  method Rerun(db: Store, crypto: Crypto, c: Config, plan: int, ghost before: Tables, ghost first: Tables, ghost h: int)
    returns (second: Result<Outcome, Refusal>)
    requires Consistent(before) && Consistent(first) && GoodConfig(c) && HashesVerify(crypto)
    requires Accepts(before, c, h) && Upserted(crypto, before, first, c, h, plan)
    requires db.View() == first.(onboarding := db.onboarding) && h in db.onboarding
    modifies db
    ensures second == Success(Outcome(h, 0, 0)) && db.View() == old(db.View())
  {
    ghost var edited := db.View();
    EditedIsAccepted(crypto, before, first, edited, c, h, plan);
    second := db.BootstrapDatabase(crypto, c, plan);
    SecondOutcome(crypto, before, first, edited, db.View(), c, h, plan, second.value);
  }

  /** Bootstrap, let people edit the onboarding, and bootstrap again. */
  method BootstrapTwice(db: Store, crypto: Crypto, c: Config, plan: int, edit: Onboarding)
    returns (first: Result<Outcome, Refusal>, second: Result<Outcome, Refusal>)
    requires Consistent(db.View()) && GoodConfig(c) && HashesVerify(crypto)
    modifies db
    ensures first.Failure? ==> second.Failure? && db.View() == old(db.View())
    ensures first.Success? ==> second == Success(Outcome(first.value.hotelId, 0, 0))
    ensures first.Success? ==> first.value.hotelId in db.onboarding && db.onboarding[first.value.hotelId] == edit
  {
    ghost var before := db.View();
    first := db.BootstrapDatabase(crypto, c, plan);
    if first.Failure? {
      second := first;
    } else {
      ghost var between := db.View();
      db.onboarding := db.onboarding[first.value.hotelId := edit];
      second := Rerun(db, crypto, c, plan, before, between, first.value.hotelId);
    }
  }
}

/** The outcome of an accepted bootstrap row by row, in the columns, and what it asks of the database it finds. */
module QaRows {
  import opened Wrappers
  import opened QaUpsert

  // ----- what is asked -----

  /** What the configuration has to be: the owner among personas of distinct addresses. */
  lemma SmallConfigsAreGoodIff(runId: string, hotelName: string, owner: Persona, a: Persona, b: Persona)
    ensures GoodConfig(Config(runId, hotelName, owner, [a, b])) <==> (owner == a || owner == b) && a.email != b.email
    ensures GoodConfig(Config(runId, hotelName, owner, [owner]))
  {
    var c := Config(runId, hotelName, owner, [a, b]);
    assert c.personas[0] == a && c.personas[1] == b;
    assert Config(runId, hotelName, owner, [owner]).personas[0] == owner;
  }

  /** What the database guarantees: one account an address, and memberships of accounts and hotels that are there. */
  lemma ConsistentIff(t: Tables)
    ensures Consistent(t) <==>
      && (forall a, b | a in t.users && b in t.users && a != b :: t.users[a].email != t.users[b].email)
      && (forall m | m in t.memberships :: m.0 in t.hotels && m.1 in t.users)
  {
  }

  predicate OwnedBy(hotels: map<int, Hotel>, h: int, email: string) {
    h in hotels && hotels[h].ownerEmail == Some(email)
  }

  /** The only hotel under the owner's address, or, if there is none, the id after the greatest. */
  ghost predicate IsItsHotel(hotels: map<int, Hotel>, h: int, email: string) {
    if exists g :: OwnedBy(hotels, g, email) then forall g :: OwnedBy(hotels, g, email) <==> g == h
    else if hotels == map[] then h == 1
    else h - 1 in hotels && forall k | k in hotels :: k < h
  }

  lemma TargetIff(t: Tables, c: Config, h: int)
    ensures IsTarget(t, c, h) <==> IsItsHotel(t.hotels, h, c.owner.email)
  {
    var owned := OwnedHotels(t.hotels, c.owner.email);
    assert forall g :: g in owned <==> OwnedBy(t.hotels, g, c.owner.email);
    if owned != {} {
      var g := MemberOf(owned);
      assert OwnedBy(t.hotels, g, c.owner.email);
    }
    if forall g :: OwnedBy(t.hotels, g, c.owner.email) <==> g == h {
      assert OwnedBy(t.hotels, h, c.owner.email);
      assert forall k :: k in owned <==> k in {h};
    }
  }

  /** No account under the address has a membership of another hotel. */
  predicate Unattached(t: Tables, email: string, h: int) {
    forall m | m in t.memberships && m.1 in t.users && t.users[m.1].email == email :: m.0 == h
  }

  lemma UnattachedIff(t: Tables, email: string, h: int)
    ensures AttachedOnlyTo(t.users, t.memberships, email, h) <==> Unattached(t, email, h)
  {
    if AttachedOnlyTo(t.users, t.memberships, email, h) {
      forall m | m in t.memberships && m.1 in t.users && t.users[m.1].email == email ensures m.0 == h {
        assert m.0 in HotelsOf(t.memberships, m.1);
      }
    }
    if Unattached(t, email, h) {
      forall u, g | u in t.users && t.users[u].email == email && g in HotelsOf(t.memberships, u) ensures g == h {
        var m :| m in t.memberships && m.1 == u && m.0 == g;
      }
    }
  }

  /** A run is accepted exactly if its hotel is marked with its own run id, if it is there, and no persona belongs elsewhere. */
  lemma AcceptedIff(t: Tables, c: Config, h: int)
    ensures Accepts(t, c, h) <==>
      && IsItsHotel(t.hotels, h, c.owner.email)
      && (h in t.hotels ==> exists synthetic :: t.hotels[h].marker == Some(Marker(c.runId, true, synthetic)))
      && forall p | p in c.personas :: Unattached(t, p.email, h)
  {
    TargetIff(t, c, h);
    forall p | p in c.personas ensures AttachedOnlyTo(t.users, t.memberships, p.email, h) <==> Unattached(t, p.email, h) {
      UnattachedIff(t, p.email, h);
    }
    if h in t.hotels && t.hotels[h].marker.Some? {
      var m := t.hotels[h].marker.value;
      assert m == Marker(m.runId, m.isolated, m.synthetic);
      assert MarkerMatches(t.hotels[h], c.runId) ==> t.hotels[h].marker == Some(Marker(c.runId, true, m.synthetic));
    }
  }

  // ----- what is written -----

  /** The hotel: the configured name and owner, fixed settings, all channels off, the run's mark; other columns stay. */
  lemma HotelColumns(crypto: Crypto, before: Tables, after: Tables, c: Config, h: int, plan: int)
    requires Upserted(crypto, before, after, c, h, plan)
    ensures h in after.hotels
    ensures
      var row := after.hotels[h];
      && row.name == c.hotelName && row.ownerEmail == Some(c.owner.email)
      && row.marker == Some(Marker(c.runId, true, true))
      && row.settings.subscriptionActive && row.settings.currency == "ARS"
      && row.settings.timezone == "America/Argentina/Buenos_Aires"
      && row.settings.cash && row.settings.bankTransfer && !row.settings.otherPayments
      && !row.settings.channelSync && !row.settings.analyticsAi
      && row.rest == if h in before.hotels then before.hotels[h].rest else 0
  {
  }

  /** The password that an account ends with: the old hash if it verifies, a new one if not. */
  predicate HashIsRight(crypto: Crypto, p: Persona, hash: string, old_hash: Option<string>) {
    match old_hash
    case None => hash == crypto.hash(p.password)
    case Some(o) => if crypto.verifies(p.password, o) then hash == o else hash == crypto.hash(p.password)
  }

  /** A persona's account: active, verified, with its role and password; an old one keeps its other columns. */
  lemma AccountColumns(crypto: Crypto, before: Tables, after: Tables, c: Config, h: int, plan: int, i: nat, u: int)
    requires GoodConfig(c) && Upserted(crypto, before, after, c, h, plan) && i < |c.personas|
    requires u in after.users && after.users[u].email == c.personas[i].email
    ensures
      var p, row, was := c.personas[i], after.users[u], u in before.users;
      && row.active && row.verified && row.role == p.role
      && HashIsRight(crypto, p, row.passwordHash, if was then Some(before.users[u].passwordHash) else None)
      && row.rest == (if was then before.users[u].rest else 0)
      && (was ==> before.users[u].email == p.email)
  {
    PersonaIsFound(c.personas, i);
    AddressesStay(crypto, before.users, after.users, c.personas, u);
  }

  /** There is such an account; it was there if the address was, and is new if not. */
  lemma AccountExists(crypto: Crypto, before: Tables, after: Tables, c: Config, h: int, plan: int, i: nat) returns (u: int)
    requires GoodConfig(c) && Upserted(crypto, before, after, c, h, plan) && i < |c.personas|
    ensures u in after.users && after.users[u].email == c.personas[i].email
    ensures u in before.users <==> exists v | v in before.users :: before.users[v].email == c.personas[i].email
  {
    var email := c.personas[i].email;
    PersonaIsFound(c.personas, i);
    if v :| v in before.users && before.users[v].email == email {
      AddressesStay(crypto, before.users, after.users, c.personas, v);
      u := v;
    } else {
      u := MemberOf(UsersWith(after.users, email));
      AddressesStay(crypto, before.users, after.users, c.personas, u);
    }
  }

  /** Its membership of the hotel: active, with its role; an old one keeps its other columns. */
  lemma MembershipColumns(crypto: Crypto, before: Tables, after: Tables, c: Config, h: int, plan: int, i: nat, u: int)
    requires GoodConfig(c) && Upserted(crypto, before, after, c, h, plan) && i < |c.personas|
    requires u in after.users && after.users[u].email == c.personas[i].email
    ensures (h, u) in after.memberships
    ensures after.memberships[(h, u)] ==
      Membership(c.personas[i].role, "active", if (h, u) in before.memberships then before.memberships[(h, u)].rest else 0)
  {
    PersonaIsFound(c.personas, i);
    assert Grantee(after.users, (h, u), h, c.personas) == Some(c.personas[i]);
  }

  /** No membership goes, and the hotel gets none for anyone who is no persona. */
  lemma OtherMembershipsStay(crypto: Crypto, before: Tables, after: Tables, c: Config, h: int, plan: int, m: (int, int))
    requires Upserted(crypto, before, after, c, h, plan)
    requires m.0 != h || m.1 !in after.users || forall p | p in c.personas :: p.email != after.users[m.1].email
    ensures m in after.memberships <==> m in before.memberships
    ensures m in after.memberships ==> after.memberships[m] == before.memberships[m]
  {
    if m.1 in after.users {
      PersonaAtHasAddress(c.personas, after.users[m.1].email);
    }
    assert Grantee(after.users, m, h, c.personas).None?;
  }

  /** The subscription is active under the plan; the onboarding is written only if there was none. */
  lemma SubscriptionAndOnboardingColumns(crypto: Crypto, before: Tables, after: Tables, c: Config, h: int, plan: int)
    requires Upserted(crypto, before, after, c, h, plan)
    ensures h in after.subscriptions && h in after.onboarding
    ensures after.subscriptions[h].plan == plan && after.subscriptions[h].status == "active"
    ensures after.subscriptions[h].rest == if h in before.subscriptions then before.subscriptions[h].rest else 0
    ensures h in before.onboarding ==> after.onboarding[h] == before.onboarding[h]
    ensures h !in before.onboarding ==>
      var row := after.onboarding[h];
      && row.ownerName == "Owner QA " + c.runId && row.ownerEmail == c.owner.email && !row.finished && row.rest == 0
      && |row.staff| == |c.personas|
      && forall i | 0 <= i < |c.personas| :: row.staff[i] == (c.personas[i].name, c.personas[i].email, c.personas[i].role)
  {
  }
}

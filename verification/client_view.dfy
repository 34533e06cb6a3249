/**
 What each client derives from its replica of the model
 (src/hooks/useMultisynq.ts:422-525 and src/components/PixelCanvas.tsx:670):
 the users view rebuilt by the sync loop when the version moves, the cooldown
 shown to the local address, and the online count.
 */
module ClientView {
  import opened Wrappers
  import opened OrderedMap
  import opened CanvasTypes
  import opened CanvasConstants
  import opened CanvasScan
  import opened CanvasModel

  /** The row the sync loop copies out of an addressed actor. */
  function UserRow(a: Actor): UserData {
    UserData(a.address, a.pixelsPlaced, a.lastPixelTime)
  }

  /** The actor at position `i` of the registry order. */
  function ActorAt(users: OMap<string, Actor>, i: int): Actor
    requires Valid(users) && 0 <= i < |users.order|
  {
    users.items[users.order[i]]
  }

  /** Position `i` holds the last actor, in registry order, whose address is `a`. */
  ghost predicate LastWithAddress(users: OMap<string, Actor>, n: nat, i: int, a: string)
    requires Valid(users) && n <= |users.order|
  {
    && 0 <= i < n
    && ActorAt(users, i).address == a
    && forall j | i < j < n :: ActorAt(users, j).address != a
  }

  /** The position of the last actor among the first `n` whose address is
      `a`, found by searching backwards; -1 when there is none. */
  function LastIndex(users: OMap<string, Actor>, n: nat, a: string): (r: int)
    requires Valid(users) && n <= |users.order|
    ensures -1 <= r < n
    ensures r == -1 <==> forall j | 0 <= j < n :: ActorAt(users, j).address != a
    ensures r >= 0 ==> LastWithAddress(users, n, r, a)
  {
    if n == 0 then -1
    else if ActorAt(users, n - 1).address == a then n - 1
    else LastIndex(users, n - 1, a)
  }

  /** Some registered actor carries address `a`. */
  ghost predicate Registered(users: OMap<string, Actor>, a: string) {
    exists k | k in users.items :: users.items[k].address == a
  }

  /** The first loop of `syncLoop` over the first `n` actors: each actor with
      an address writes its row under that address, so the last one wins. */
  function RegistryRows(users: OMap<string, Actor>, n: nat): (r: OMap<string, UserData>)
    requires Valid(users) && n <= |users.order|
    ensures Valid(r)
    ensures forall a | a in r.items :: a != "" && r.items[a].address == a
  {
    if n == 0 then Empty()
    else
      var prev := RegistryRows(users, n - 1);
      var u := ActorAt(users, n - 1);
      if u.address != "" then Set(prev, u.address, UserRow(u)) else prev
  }

  /** The registry rows hold, for each address some actor among the first `n`
      carries, the row of the last such actor. */
  lemma {:induction false} RegistryRowsSpec(users: OMap<string, Actor>, n: nat)
    requires Valid(users) && n <= |users.order|
    ensures var r := RegistryRows(users, n);
      forall a | a in r.items :: LastIndex(users, n, a) >= 0 && r.items[a] == UserRow(ActorAt(users, LastIndex(users, n, a)))
  {
    if n > 0 {
      RegistryRowsSpec(users, n - 1);
    }
  }

  /** Every address carried by one of the first `n` actors has a row. */
  lemma {:induction false} RegistryRowsCover(users: OMap<string, Actor>, n: nat)
    requires Valid(users) && n <= |users.order|
    ensures var r := RegistryRows(users, n);
      forall i | 0 <= i < n && ActorAt(users, i).address != "" :: ActorAt(users, i).address in r.items
  {
    if n > 0 {
      RegistryRowsCover(users, n - 1);
    }
  }

  /** The second half of `syncLoop` over the counted owners: an owner already
      in the view gets its pixel count; any other owner gets a fresh row with
      the count and `lastPixelTime` 0. */
  function MergeCounts(view: OMap<string, UserData>, owners: seq<string>, counts: map<string, nat>): (r: OMap<string, UserData>)
    requires Valid(view)
    requires forall a | a in owners :: a in counts
    ensures Valid(r)
    ensures forall a | a in owners ::
      && a in r.items
      && r.items[a] == (if a in view.items then view.items[a].(pixelsPlaced := counts[a]) else UserData(a, counts[a], 0))
    ensures forall a | a !in owners :: (a in r.items <==> a in view.items)
    ensures forall a | a !in owners && a in view.items :: r.items[a] == view.items[a]
  {
    if |owners| == 0 then view
    else
      var prev := MergeCounts(view, owners[..|owners| - 1], counts);
      var a := owners[|owners| - 1];
      assert forall b | b in owners[..|owners| - 1] :: b in owners;
      assert forall b | b in owners && b != a :: b in owners[..|owners| - 1];
      if a in prev.items then Set(prev, a, prev.items[a].(pixelsPlaced := counts[a]))
      else Set(prev, a, UserData(a, counts[a], 0))
  }

  /** The users view the sync loop publishes for model state `m`. */
  function DerivedUsers(m: Model): (r: OMap<string, UserData>)
    requires Inv(m)
    ensures Valid(r)
    ensures forall a | a in r.items :: a != "" && r.items[a].address == a
  {
    var rows := RegistryRows(m.users, |m.users.order|);
    var counts := PixelCounts(Values(m.canvas));
    MergeCounts(rows, counts.order, counts.items)
  }

  /** A registered non-empty address has a registry row. */
  lemma RegisteredHasRow(users: OMap<string, Actor>, a: string)
    requires Valid(users) && a != "" && Registered(users, a)
    ensures a in RegistryRows(users, |users.order|).items
  {
    var k :| k in users.items && users.items[k].address == a;
    var j :| 0 <= j < |users.order| && users.order[j] == k;
    RegistryRowsCover(users, |users.order|);
    assert ActorAt(users, j).address == a;
  }

  /** The registry rows hold exactly the registered non-empty addresses. */
  lemma RegistryRowsKeys(users: OMap<string, Actor>)
    requires Valid(users)
    ensures var rows := RegistryRows(users, |users.order|);
      forall a | a != "" :: a in rows.items <==> Registered(users, a)
  {
    var rows := RegistryRows(users, |users.order|);
    RegistryRowsSpec(users, |users.order|);
    forall a | a in rows.items
      ensures Registered(users, a)
    {
      var i := LastIndex(users, |users.order|, a);
      assert users.order[i] in users.items;
    }
    forall a | a != "" && Registered(users, a)
      ensures a in rows.items
    {
      RegisteredHasRow(users, a);
    }
  }

  /** Which addresses the users view holds: exactly those some actor carries
      or that own a pixel, never the empty one. */
  lemma DerivedUsersKeys(m: Model)
    requires Inv(m)
    ensures var r := DerivedUsers(m);
      && "" !in r.items
      && forall a | a != "" :: a in r.items <==> (Registered(m.users, a) || CountOwned(Values(m.canvas), a) > 0)
  {
    RegistryRowsKeys(m.users);
  }

  /** An owner's row counts its pixels: the count is authoritative, whatever
      the registry's counter says. */
  lemma DerivedUsersCount(m: Model)
    requires Inv(m)
    ensures var r := DerivedUsers(m);
      forall a | a in r.items && CountOwned(Values(m.canvas), a) > 0 ::
        r.items[a].pixelsPlaced == |OwnedKeys(m.canvas, a)|
  {
    var r := DerivedUsers(m);
    forall a | a in r.items && CountOwned(Values(m.canvas), a) > 0
      ensures r.items[a].pixelsPlaced == |OwnedKeys(m.canvas, a)|
    {
      CountOwnedIsOwnedKeys(m.canvas, a);
    }
  }

  /** Where the other fields come from: an owner nobody registered gets
      `lastPixelTime` 0; a registered address takes `lastPixelTime` from its
      last actor in registry order, and its counter too when it owns nothing. */
  lemma DerivedUsersRows(m: Model)
    requires Inv(m)
    ensures var r := DerivedUsers(m);
      forall a | a in r.items && !Registered(m.users, a) :: r.items[a].lastPixelTime == 0
    ensures var r := DerivedUsers(m);
      var n := |m.users.order|;
      forall a | a in r.items && Registered(m.users, a) ::
        && LastIndex(m.users, n, a) >= 0
        && r.items[a].lastPixelTime == ActorAt(m.users, LastIndex(m.users, n, a)).lastPixelTime
        && (CountOwned(Values(m.canvas), a) == 0 ==>
              r.items[a].pixelsPlaced == ActorAt(m.users, LastIndex(m.users, n, a)).pixelsPlaced)
  {
    RegistryRowsSpec(m.users, |m.users.order|);
    RegistryRowsKeys(m.users);
  }

  /** The client's sync state: the version it last rebuilt for (-1 before the
      first tick), the published users view, its copy of the canvas, and the
      actor it tracks as its own. */
  datatype SyncState = SyncState(
    lastVersion: int,
    users: OMap<string, UserData>,
    pixels: map<Key, Pixel>,
    myUser: Option<Actor>)

  function InitialSync(): SyncState {
    SyncState(-1, Empty(), map[], None)
  }

  /** One pass of `syncLoop` for the connected `address` ("" when none):
      nothing happens unless the model's version differs from the cached one;
      then the view and the canvas copy are rebuilt wholesale, and the actor
      registered under the address, if any, becomes the tracked one. */
  function SyncTick(s: SyncState, m: Model, address: string): (r: SyncState)
    requires Inv(m)
    ensures s.lastVersion == m.dataVersion ==> r == s
    ensures s.lastVersion != m.dataVersion ==>
      && r.lastVersion == m.dataVersion
      && r.users == DerivedUsers(m)
      && r.pixels == m.canvas.items
      && r.myUser == (if address != "" && address in m.users.items then Some(m.users.items[address]) else s.myUser)
  {
    if s.lastVersion == m.dataVersion then s
    else
      var mine := if address != "" && address in m.users.items then Some(m.users.items[address]) else s.myUser;
      SyncState(m.dataVersion, DerivedUsers(m), m.canvas.items, mine)
  }

  /** A tick right after a tick on the same model changes nothing, and the
      very first tick always rebuilds (no model has version -1). */
  lemma SyncTickSettles(s: SyncState, m: Model, address: string)
    requires Inv(m)
    ensures SyncTick(SyncTick(s, m, address), m, address) == SyncTick(s, m, address)
    ensures SyncTick(InitialSync(), m, address).users == DerivedUsers(m)
  {
  }

  /** `ceil(a / b)` for positive `a` and `b`. */
  function CeilDiv(a: int, b: int): (r: int)
    requires a > 0 && b > 0
    ensures (r - 1) * b < a <= r * b
    ensures r >= 1
  {
    (a + b - 1) / b
  }

  /** The body of the one-second cooldown interval: the latest timestamp
      among the address's pixels (0 when it owns none), then
      `ceil(max(0, COOLDOWN_TIME - (now - latest) / 1000))` in exact
      arithmetic, computed in whole milliseconds. */
  function CooldownRemaining(pixels: seq<Pixel>, address: string, now: int): (r: nat)
    ensures var latest := LatestOwned(pixels, address);
      && (latest == 0 ==> r == 0)
      && (latest > 0 && now - latest >= COOLDOWN_MS ==> r == 0)
      && (latest > 0 && now - latest < COOLDOWN_MS ==>
            (r - 1) * 1000 < COOLDOWN_MS - (now - latest) <= r * 1000)
      && (latest > 0 && now - latest < COOLDOWN_MS && now >= latest ==> 1 <= r <= COOLDOWN_TIME)
  {
    var latest := LatestOwned(pixels, address);
    if latest > 0 && now - latest < COOLDOWN_MS then CeilDiv(COOLDOWN_MS - (now - latest), 1000)
    else 0
  }

  /** The cooldown effect: without a connected address or a row for it in the
      users view no interval runs and the shown value stays `shown`; otherwise
      the interval computes it from the replica's canvas (0 without a model). */
  function CooldownTick(address: string, view: OMap<string, UserData>, m: Option<Model>, now: int, shown: nat): (r: nat)
    requires m.Some? ==> Inv(m.value)
    ensures address == "" || address !in view.items ==> r == shown
    ensures address != "" && address in view.items && m.None? ==> r == 0
    ensures address != "" && address in view.items && m.Some? ==>
      r == CooldownRemaining(Values(m.value.canvas), address, now)
  {
    if address == "" || address !in view.items then shown
    else if m.None? then 0
    else CooldownRemaining(Values(m.value.canvas), address, now)
  }

  /** The cooldown is zero once the window has passed since the latest owned
      pixel, or when the address owns none. */
  lemma CooldownZeroWhenElapsed(c: OMap<Key, Pixel>, address: string, now: int)
    requires Valid(c)
    requires forall k | k in OwnedKeys(c, address) :: now - c.items[k].timestamp >= COOLDOWN_MS
    ensures CooldownRemaining(Values(c), address, now) == 0
  {
    LatestOwnedOfCanvas(c, address);
  }

  /** "Online": half the registry size, rounded down, since every client
      registers twice (under its view id and under its address); 0 without a
      model. */
  function OnlineCount(m: Option<Model>): (r: nat)
    ensures m.None? ==> r == 0
    ensures m.Some? ==> 2 * r <= |m.value.users.items| < 2 * r + 2
  {
    if m.None? then 0 else |m.value.users.items| / 2
  }
}

/**
 How clients appear in the registry of the authoritative model. When a
 client's view joins the session, the session itself announces it on the
 "view-join" topic the model subscribes to (src/hooks/useMultisynq.ts:262),
 and the client publishes the same bare view id once more
 (src/hooks/useMultisynq.ts:380). With a wallet connected it then joins
 again carrying its address and sets that address on its own channel
 (src/hooks/useMultisynq.ts:530-531). When the wallet changes
 (src/hooks/useMultisynq.ts:62-83) and on the reconnect every 60 seconds
 (src/hooks/useMultisynq.ts:85-111) the client leaves, so the session
 announces its prior view's exit on "view-exit"
 (src/hooks/useMultisynq.ts:263), and it connects again under a new view
 id. This decides the online count (src/components/PixelCanvas.tsx:670) and
 which entry the users view takes an address's row from.
 */
module Presence {
  import opened Wrappers
  import opened OrderedMap
  import opened CanvasModel
  import opened ClientView

  /** A view id or address a client actually has: never empty. */
  type Name = s: string | s != "" witness "v"

  /** The four events of a client connecting with view id `v` and wallet
      address `a`: afterwards both keys are registered and the view's own
      entry carries the address. */
  function Connect(m: Model, v: string, a: string, clock: int): (r: Model)
    requires Inv(m) && v != "" && a != ""
    ensures Inv(r)
    ensures r.canvas == m.canvas
    ensures r.dataVersion == m.dataVersion + 4
    ensures r.users.items.Keys == m.users.items.Keys + {v, a}
    ensures v in r.users.items && r.users.items[v].address == a
  {
    var m3 := JoinBoth(m, v, a);
    HandleUserAction(m3, v, SetAddress(a), clock)
  }

  /** `Connect` is the four events applied in turn: the session's view join,
      the client's own, the join carrying the address, and `setAddress` on
      the view's channel. */
  lemma ConnectIsFourSteps(m: Model, v: string, a: string, clock: int)
    requires Inv(m) && v != "" && a != ""
    ensures var m1 := Step(m, ViewJoin(JoinView(v)), clock);
      var m2 := Step(m1, ViewJoin(JoinView(v)), clock);
      var m3 := Step(m2, ViewJoin(JoinWithAddress(v, a)), clock);
      Step(m3, Publish(v, SetAddress(a)), clock) == Connect(m, v, a, clock)
  {
    var m3 := JoinBoth(m, v, a);
    assert v in m3.users.items;
  }

  /** The two bare view-id joins of a connecting view, the session's and the
      client's: together they register the view id once and bump the
      version twice. */
  function JoinViewTwice(m: Model, v: string): (r: Model)
    requires Inv(m) && v != ""
    ensures Inv(r)
    ensures r.canvas == m.canvas
    ensures r.dataVersion == m.dataVersion + 2
    ensures r.users.items.Keys == m.users.items.Keys + {v}
  {
    UserJoined(UserJoined(m, JoinView(v)), JoinView(v))
  }

  /** For a new view id the first join appends a fresh actor without
      address, and the second finds it and leaves the registry alone. */
  lemma JoinViewTwiceFresh(m: Model, v: string)
    requires Inv(m) && v != "" && v !in m.users.items
    ensures var r := JoinViewTwice(m, v);
      && r.users.order == m.users.order + [v]
      && r.users.items == m.users.items[v := NewActor(v, "")]
  {
    assert JoinKey(JoinView(v)) == v && JoinAddress(JoinView(v)) == "";
    var m1 := UserJoined(m, JoinView(v));
    assert v in m1.users.items;
  }

  /** The joins of a connecting client: its view id twice, then its address. */
  function JoinBoth(m: Model, v: string, a: string): (r: Model)
    requires Inv(m) && v != "" && a != ""
    ensures Inv(r)
    ensures r.canvas == m.canvas
    ensures r.dataVersion == m.dataVersion + 3
    ensures r.users.items.Keys == m.users.items.Keys + {v, a}
  {
    UserJoined(JoinViewTwice(m, v), JoinWithAddress(v, a))
  }

  /** `setAddress` published on a registered view's own channel sets that
      actor's address and nothing else in the registry. */
  lemma SetOwnAddress(m: Model, v: string, a: string, clock: int)
    requires Inv(m) && v in m.users.items
    ensures var r := Step(m, Publish(v, SetAddress(a)), clock);
      && r.canvas == m.canvas
      && r.dataVersion == m.dataVersion + 1
      && r.users.order == m.users.order
      && r.users.items == m.users.items[v := m.users.items[v].(address := a)]
  {
  }

  /** The joins of a first-time client append its view entry and then its
      address entry. */
  lemma JoinBothFreshOrder(m: Model, v: string, a: string)
    requires Inv(m) && v != "" && a != "" && v != a
    requires v !in m.users.items && a !in m.users.items
    ensures JoinBoth(m, v, a).users.order == m.users.order + [v, a]
  {
    JoinViewTwiceFresh(m, v);
    AddressJoinAppends(m, v, a);
  }

  /** After the joins of a first-time client its view entry is a fresh actor
      without address. */
  lemma JoinBothFreshEntry(m: Model, v: string, a: string)
    requires Inv(m) && v != "" && a != "" && v != a
    requires v !in m.users.items && a !in m.users.items
    ensures v in JoinBoth(m, v, a).users.items
    ensures JoinBoth(m, v, a).users.items[v] == NewActor(v, "")
  {
    JoinViewTwiceFresh(m, v);
    AddressJoinAppends(m, v, a);
  }

  /** After the view joins, the join carrying a new address appends an
      address entry of its own. */
  lemma AddressJoinAppends(m: Model, v: string, a: string)
    requires Inv(m) && v != "" && a != "" && a !in m.users.items && a != v
    ensures JoinBoth(m, v, a).users.order == JoinViewTwice(m, v).users.order + [a]
    ensures JoinBoth(m, v, a).users.items == JoinViewTwice(m, v).users.items[a := NewActor(a, a)]
  {
    assert JoinKey(JoinWithAddress(v, a)) == a;
  }

  /** With the address entry still registered, only the view joins append. */
  lemma JoinBothAgain(m: Model, v: string, a: string, clock: int)
    requires Inv(m) && v != "" && a != ""
    requires v !in m.users.items && a in m.users.items
    ensures var r := JoinBoth(m, v, a);
      && r.users.order == m.users.order + [v]
      && v in r.users.items && r.users.items[v] == NewActor(v, "")
  {
    assert JoinKey(JoinWithAddress(v, a)) == a;
    var m2 := JoinViewTwice(m, v);
    JoinViewTwiceFresh(m, v);
    assert a in m2.users.items;
  }

  /** A client connecting for the first time appends its view entry and then
      its address entry; the view entry is a fresh actor carrying the address. */
  lemma ConnectFresh(m: Model, v: string, a: string, clock: int)
    requires Inv(m) && v != "" && a != "" && v != a
    requires v !in m.users.items && a !in m.users.items
    ensures var r := Connect(m, v, a, clock);
      && r.users.order == m.users.order + [v, a]
      && v in r.users.items && r.users.items[v] == NewActor(v, a)
  {
    JoinBothFreshOrder(m, v, a);
    JoinBothFreshEntry(m, v, a);
  }

  /** A client connecting under a new view id while its address entry is
      still registered appends only its view entry, a fresh actor carrying
      the address. */
  lemma ConnectAgain(m: Model, v: string, a: string, clock: int)
    requires Inv(m) && v != "" && a != ""
    requires v !in m.users.items && a in m.users.items
    ensures var r := Connect(m, v, a, clock);
      && r.users.order == m.users.order + [v]
      && v in r.users.items && r.users.items[v] == NewActor(v, a)
  {
    JoinBothAgain(m, v, a, clock);
    assert v in JoinBoth(m, v, a).users.items;
  }

  /** The periodic reconnect: view `prior` exits, which removes only its own
      entry, and the client connects again under the new view id `v`. */
  function Reconnect(m: Model, prior: string, v: string, a: string, clock: int): (r: Model)
    requires Inv(m) && v != "" && a != ""
    ensures Inv(r)
    ensures r.canvas == m.canvas
    ensures r.users.items.Keys == m.users.items.Keys - {prior} + {v, a}
  {
    var m1 := Step(m, ViewExit(prior), clock);
    assert m1.users.items.Keys == m.users.items.Keys - {prior};
    Connect(m1, v, a, clock)
  }

  /** No name is shared: no two view ids, no two addresses, and no view id
      and address are equal. */
  ghost predicate WellNamed(cs: seq<(Name, Name)>) {
    && (forall i | 0 <= i < |cs| :: cs[i].0 != cs[i].1)
    && (forall i, j | 0 <= i < j < |cs| ::
          cs[i].0 != cs[j].0 && cs[i].1 != cs[j].1 && cs[i].0 != cs[j].1 && cs[i].1 != cs[j].0)
  }

  /** The view ids and addresses of a list of clients. */
  function Names(cs: seq<(Name, Name)>): (r: set<string>)
    ensures forall i | 0 <= i < |cs| :: cs[i].0 in r && cs[i].1 in r
  {
    if |cs| == 0 then {}
    else
      var init := cs[..|cs| - 1];
      assert forall i | 0 <= i < |init| :: init[i] == cs[i];
      Names(init) + {cs[|cs| - 1].0, cs[|cs| - 1].1}
  }

  /** A name no client carries is not among the names. */
  lemma {:induction false} NotANameOf(cs: seq<(Name, Name)>, x: string)
    requires forall i | 0 <= i < |cs| :: cs[i].0 != x && cs[i].1 != x
    ensures x !in Names(cs)
  {
    if |cs| > 0 {
      var init := cs[..|cs| - 1];
      assert forall i | 0 <= i < |init| :: init[i] == cs[i];
      NotANameOf(init, x);
    }
  }

  /** The clients connect one after the other, from the first. */
  function ConnectAll(m: Model, cs: seq<(Name, Name)>, clock: int): (r: Model)
    requires Inv(m)
    ensures Inv(r)
  {
    if |cs| == 0 then m
    else Connect(ConnectAll(m, cs[..|cs| - 1], clock), cs[|cs| - 1].0, cs[|cs| - 1].1, clock)
  }

  /** After the clients have connected, exactly their names have been added
      to the registry's keys. */
  lemma {:induction false} ConnectAllKeys(m: Model, cs: seq<(Name, Name)>, clock: int)
    requires Inv(m)
    ensures ConnectAll(m, cs, clock).users.items.Keys == m.users.items.Keys + Names(cs)
  {
    if |cs| > 0 {
      var init, last := cs[..|cs| - 1], cs[|cs| - 1];
      ConnectAllKeys(m, init, clock);
      ConnectLastKeys(m, cs, clock);
      NamesLast(cs);
    }
  }

  /** The last client's names join the others'. */
  lemma NamesLast(cs: seq<(Name, Name)>)
    requires |cs| > 0
    ensures Names(cs) == Names(cs[..|cs| - 1]) + {cs[|cs| - 1].0, cs[|cs| - 1].1}
  {
  }

  /** The last client to connect adds its two names to the keys. */
  lemma ConnectLastKeys(m: Model, cs: seq<(Name, Name)>, clock: int)
    requires Inv(m) && |cs| > 0
    ensures ConnectAll(m, cs, clock).users.items.Keys
         == ConnectAll(m, cs[..|cs| - 1], clock).users.items.Keys + {cs[|cs| - 1].0, cs[|cs| - 1].1}
  {
  }

  /** Well-named clients have twice as many names as there are clients. */
  lemma {:induction false} NamesCount(cs: seq<(Name, Name)>)
    requires WellNamed(cs)
    ensures |Names(cs)| == 2 * |cs|
  {
    if |cs| > 0 {
      var init, last := cs[..|cs| - 1], cs[|cs| - 1];
      assert forall i | 0 <= i < |init| :: init[i] == cs[i];
      assert WellNamed(init);
      NamesCount(init);
      NotANameOf(init, last.0);
      NotANameOf(init, last.1);
    }
  }

  /** "Online" counts clients: once `n` well-named clients have connected to
      a fresh model, the count shown is `n`. */
  lemma OnlineCountsClients(cs: seq<(Name, Name)>, clock: int)
    requires WellNamed(cs)
    ensures OnlineCount(Some(ConnectAll(Init(None), cs, clock))) == |cs|
  {
    OnlineCountsClientsFrom(Init(None), cs, clock);
  }

  /** The same from any model with an empty registry. */
  lemma OnlineCountsClientsFrom(m: Model, cs: seq<(Name, Name)>, clock: int)
    requires Inv(m) && m.users.items == map[]
    requires WellNamed(cs)
    ensures OnlineCount(Some(ConnectAll(m, cs, clock))) == |cs|
  {
    ConnectAllKeys(m, cs, clock);
    NamesCount(cs);
    assert m.users.items.Keys == {};
    OnlineFromKeys(ConnectAll(m, cs, clock), Names(cs));
  }

  /** The online count is half the number of registry keys. */
  lemma OnlineFromKeys(r: Model, keys: set<string>)
    requires r.users.items.Keys == keys
    ensures OnlineCount(Some(r)) == |keys| / 2
  {
    MapSize(r.users.items);
  }

  /** A reconnect under a fresh view id swaps the prior view's entry for the
      new one and keeps the address entry, so the online count is unchanged. */
  lemma ReconnectKeepsOnline(m: Model, prior: string, v: string, a: string, clock: int)
    requires Inv(m) && v != "" && a != ""
    requires prior in m.users.items && a in m.users.items && prior != a
    requires v !in m.users.items
    ensures Reconnect(m, prior, v, a, clock).users.items.Keys == m.users.items.Keys - {prior} + {v}
    ensures OnlineCount(Some(Reconnect(m, prior, v, a, clock))) == OnlineCount(Some(m))
  {
    var r := Reconnect(m, prior, v, a, clock);
    assert r.users.items.Keys == m.users.items.Keys - {prior} + {v} by {
      assert a in m.users.items.Keys - {prior};
    }
    SwapKeepsOnline(m, r, prior, v);
  }

  /** Swapping one registry key for a new one keeps the online count. */
  lemma SwapKeepsOnline(m: Model, r: Model, prior: string, v: string)
    requires prior in m.users.items && v !in m.users.items
    requires r.users.items.Keys == m.users.items.Keys - {prior} + {v}
    ensures OnlineCount(Some(r)) == OnlineCount(Some(m))
  {
    SwapKeepsSize(m.users.items.Keys, prior, v);
    MapSize(m.users.items);
    MapSize(r.users.items);
  }

  /** Swapping one member of a set for a new one keeps its size. */
  lemma SwapKeepsSize<T>(s: set<T>, out: T, new_: T)
    requires out in s && new_ !in s
    ensures |s - {out} + {new_}| == |s|
  {
  }

  /** A map has as many bindings as keys. */
  lemma MapSize<K, V>(m: map<K, V>)
    ensures |m| == |m.Keys|
  {
  }

  /** On a first connect the address entry comes last, so the users view
      takes the address's row from the address-keyed entry. */
  lemma ConnectRowFromAddressEntry(m: Model, v: string, a: string, clock: int)
    requires Inv(m) && v != "" && a != "" && v != a
    requires v !in m.users.items && a !in m.users.items
    ensures var r := Connect(m, v, a, clock);
      var n := |r.users.order|;
      && n > 0 && r.users.order[n - 1] == a
      && LastIndex(r.users, n, a) == n - 1
  {
    ConnectFresh(m, v, a, clock);
  }

  /** After a reconnect the new view's entry comes last and carries the
      address, so the users view takes the address's row from that fresh
      entry, whose counters are zero, not from the address-keyed one. */
  lemma ReconnectRowFromViewEntry(m: Model, prior: string, v: string, a: string, clock: int)
    requires Inv(m) && v != "" && a != ""
    requires prior in m.users.items && a in m.users.items && prior != a
    requires v !in m.users.items
    ensures var r := Reconnect(m, prior, v, a, clock);
      var n := |r.users.order|;
      && n > 0 && r.users.order[n - 1] == v
      && LastIndex(r.users, n, a) == n - 1
      && v in r.users.items && r.users.items[v] == NewActor(v, a)
  {
    var m1 := Step(m, ViewExit(prior), clock);
    assert v !in m1.users.items && a in m1.users.items;
    ConnectAgain(m1, v, a, clock);
  }

  /** An address entry outlives its client: two clients connect to an empty
      registry and both views exit, yet both address entries stay, so
      "Online" still shows 1 with no client connected. */
  lemma DepartedAddressesKeepCounting(m: Model, v1: Name, a1: Name, v2: Name, a2: Name, clock: int)
    requires Inv(m) && m.users.items == map[]
    requires v1 != a1 && v2 != a2 && v1 != v2 && a1 != a2 && v1 != a2 && a1 != v2
    ensures var m2 := Connect(Connect(m, v1, a1, clock), v2, a2, clock);
      var r := Step(Step(m2, ViewExit(v1), clock), ViewExit(v2), clock);
      && r.users.items.Keys == {a1, a2}
      && OnlineCount(Some(r)) == 1
  {
    var m2 := Connect(Connect(m, v1, a1, clock), v2, a2, clock);
    var m3 := Step(m2, ViewExit(v1), clock);
    ExitKeys(m2, v1, clock);
    var r := Step(m3, ViewExit(v2), clock);
    ExitKeys(m3, v2, clock);
    assert m.users.items.Keys == {};
    LeftAfterExits(v1, a1, v2, a2);
    OnlineFromKeys(r, {a1, a2});
  }

  /** A view's exit removes exactly its own key. */
  lemma ExitKeys(m: Model, v: string, clock: int)
    requires Inv(m)
    ensures Step(m, ViewExit(v), clock).users.items.Keys == m.users.items.Keys - {v}
  {
  }

  /** Of two clients' four distinct names, the two addresses remain once the
      view ids are gone. */
  lemma LeftAfterExits(v1: string, a1: string, v2: string, a2: string)
    requires v1 != a1 && v2 != a2 && v1 != v2 && a1 != a2 && v1 != a2 && a1 != v2
    ensures ({} + {v1, a1} + {v2, a2}) - {v1} - {v2} == {a1, a2}
    ensures |{a1, a2}| == 2
  {
  }
}

/**
 Runs of the authoritative model (src/hooks/useMultisynq.ts:193-308) with the
 model's version numbers: a client with view id `v` and wallet address `a`
 connects as described in `Presence` (the session's view join, then
 src/hooks/useMultisynq.ts:380 and 530-531), picks a colour and places pixels
 on its own view's channel under the cooldown.
 */
module Scenario {
  import opened Wrappers
  import opened OrderedMap
  import opened CanvasTypes
  import opened CanvasScan
  import opened CanvasModel
  import ModelProperties
  import Presence

  /** A client's view id and wallet address: both set, and different. */
  ghost predicate Client(v: string, a: string) {
    v != "" && a != "" && v != a
  }

  /** The fresh model after the session's and the client's view joins, the
      client's join carrying the address, and `setAddress` on its own channel: both keys are registered,
      view entry first, and the view entry is a fresh actor carrying the
      address. */
  function Joined(v: string, a: string): (m: Model)
    requires Client(v, a)
    ensures Inv(m)
    ensures m.dataVersion == 4
    ensures m.users.order == [v, a]
    ensures v in m.users.items && m.users.items[v] == NewActor(v, a)
    ensures m.canvas.items == map[]
  {
    var m0 := Init(None);
    Presence.ConnectFresh(m0, v, a, 0);
    Presence.Connect(m0, v, a, 0)
  }

  /** `Joined` is the client's connection as the four events applied in
      turn. */
  lemma JoinedIsFourSteps(v: string, a: string)
    requires Client(v, a)
    ensures var m1 := Step(Init(None), ViewJoin(JoinView(v)), 0);
      var m2 := Step(m1, ViewJoin(JoinView(v)), 0);
      var m3 := Step(m2, ViewJoin(JoinWithAddress(v, a)), 0);
      Step(m3, Publish(v, SetAddress(a)), 0) == Joined(v, a)
  {
    var m0 := Init(None);
    Presence.ConnectIsFourSteps(m0, v, a, 0);
  }

  /** The client's view entry once it has picked red. */
  function RedActor(v: string, a: string): Actor {
    NewActor(v, a).(selectedColor := "#FF0000")
  }

  /** The client has connected and picked red on its own channel: four
      versions for the connection, one for the colour. */
  function Red(v: string, a: string): (m: Model)
    requires Client(v, a)
    ensures Inv(m)
    ensures m.dataVersion == 5
    ensures v in m.users.items && m.users.items[v] == RedActor(v, a)
    ensures m.canvas.items == map[]
  {
    var m0 := Joined(v, a);
    assert v in m0.users.items;
    Step(m0, Publish(v, SelectColor("#FF0000")), 0)
  }

  /** The client's first placement, (5, 5) at t = 1000, commits and marks the
      data dirty twice. */
  function FirstPlaced(v: string, a: string): (m: Model)
    requires Client(v, a)
    ensures Inv(m)
    ensures m.dataVersion == 7
    ensures v in m.users.items && m.users.items[v] == RedActor(v, a).(pixelsPlaced := 1, lastPixelTime := 1000)
    ensures m.canvas.items == map[(5, 5) := Pixel(5, 5, "#FF0000", a, 1000)]
  {
    var m1 := Red(v, a);
    assert OwnedKeys(m1.canvas, a) == {};
    UnderivedPlacementCommits(m1, v, 5, 5, 1000, 0);
    Step(m1, Publish(v, PlacePixel(5, 5, 1000, false)), 0)
  }

  /** An actor with an address, whose time is not derived yet and who owns
      no pixel, is not held back: its placement with a nonzero timestamp
      commits and stamps that time. */
  lemma UnderivedPlacementCommits(m: Model, key: string, x: int, y: int, t: int, clock: int)
    requires Inv(m) && key in m.users.items
    requires m.users.items[key].address != "" && m.users.items[key].lastPixelTime == 0
    requires OwnedKeys(m.canvas, m.users.items[key].address) == {}
    requires t != 0
    ensures var u := m.users.items[key];
      var r := Step(m, Publish(key, PlacePixel(x, y, t, false)), clock);
      && r.dataVersion == m.dataVersion + 2
      && key in r.users.items
      && r.users.items[key] == u.(pixelsPlaced := u.pixelsPlaced + 1, lastPixelTime := t)
      && r.canvas.items == m.canvas.items[(x, y) := Pixel(x, y, u.selectedColor, u.address, t)]
  {
    var u := m.users.items[key];
    ModelProperties.PublishedPlacement(m, key, x, y, t, false, clock);
    assert Derive(m.canvas, u) == u;
    assert !CoolingDown(0, t);
  }

  /** The client connects (version 4), picks red (version 5) and places
      (5, 5) at t = 1000: the version goes to 7, since a placement marks the
      data dirty twice. The next placement at t = 6000 falls inside the
      window and changes nothing. At t = 12000 it commits, version 9. */
  lemma CooldownScenario(v: string, a: string)
    requires Client(v, a)
    ensures Joined(v, a).dataVersion == 4
    ensures Red(v, a).dataVersion == 5
    ensures FirstPlaced(v, a).dataVersion == 7
    ensures FirstPlaced(v, a).canvas.items[(5, 5)] == Pixel(5, 5, "#FF0000", a, 1000)
    ensures Step(FirstPlaced(v, a), Publish(v, PlacePixel(6, 6, 6000, false)), 0) == FirstPlaced(v, a)
    ensures var m4 := Step(FirstPlaced(v, a), Publish(v, PlacePixel(6, 6, 12000, false)), 0);
      && m4.dataVersion == 9
      && (6, 6) in m4.canvas.items
      && m4.canvas.items[(6, 6)] == Pixel(6, 6, "#FF0000", a, 12000)
  {
    RetryInsideWindowIsRejected(v, a);
    PlacementAfterWindowCommits(v, a);
  }

  /** 5000 ms after its first placement, the client is still inside the
      window. */
  lemma RetryInsideWindowIsRejected(v: string, a: string)
    requires Client(v, a)
    ensures Step(FirstPlaced(v, a), Publish(v, PlacePixel(6, 6, 6000, false)), 0) == FirstPlaced(v, a)
  {
    var m := FirstPlaced(v, a);
    assert m.users.items[v].lastPixelTime == 1000;
    assert EffectiveTime(6000, 0) == 6000;
    ModelProperties.RejectedPlacementIsNoOp(m, v, 6, 6, 6000, false, 0);
    ModelProperties.PublishedPlacement(m, v, 6, 6, 6000, false, 0);
  }

  /** 11000 ms after its first placement, the client's placement commits. */
  lemma PlacementAfterWindowCommits(v: string, a: string)
    requires Client(v, a)
    ensures var m := Step(FirstPlaced(v, a), Publish(v, PlacePixel(6, 6, 12000, false)), 0);
      && m.dataVersion == 9
      && (6, 6) in m.canvas.items
      && m.canvas.items[(6, 6)] == Pixel(6, 6, "#FF0000", a, 12000)
  {
    ModelProperties.PublishedPlacement(FirstPlaced(v, a), v, 6, 6, 12000, false, 0);
  }

  /** The client's placement at effective time 0, right after connecting:
      it commits, yet leaves `lastPixelTime` at 0, the "not derived yet"
      value. */
  function ZeroPlaced(v: string, a: string): (m: Model)
    requires Client(v, a)
    ensures Inv(m)
    ensures m.dataVersion == 6
    ensures v in m.users.items && m.users.items[v].lastPixelTime == 0
    ensures m.users.items[v].address == a
    ensures m.canvas.items == map[(5, 5) := Pixel(5, 5, NewActor(v, a).selectedColor, a, 0)]
  {
    var m0 := Joined(v, a);
    ModelProperties.PublishedPlacement(m0, v, 5, 5, 0, false, 0);
    assert OwnedKeys(m0.canvas, a) == {};
    Step(m0, Publish(v, PlacePixel(5, 5, 0, false)), 0)
  }

  /** Since a placement at effective time 0 leaves `lastPixelTime` at 0, the
      client's next placement, 5000 ms later, is not held back by the
      cooldown. */
  lemma ZeroTimeLeavesNoCooldown(v: string, a: string)
    requires Client(v, a)
    ensures ZeroPlaced(v, a).dataVersion == 6
    ensures Step(ZeroPlaced(v, a), Publish(v, PlacePixel(6, 6, 5000, false)), 5000).dataVersion == 8
  {
    var m1 := ZeroPlaced(v, a);
    var u1 := m1.users.items[v];
    ModelProperties.PublishedPlacement(m1, v, 6, 6, 5000, false, 5000);
    assert Derive(m1.canvas, u1).lastPixelTime == 0;
    assert !CoolingDown(0, 5000);
  }
}

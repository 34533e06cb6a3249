/**
 The replicated authoritative state (src/hooks/useMultisynq.ts:193-308): the
 `PixelCanvasModel` root with its canvas map, its registry of `User` actors
 and its `dataVersion`, and the actions that reach it. Every transition is a
 pure function from one model state to the next; the clock the source reads
 with `new Date().getTime()` is the parameter `clock`.

 Falsy strings: the source stores `null` addresses and tests addresses, view
 ids and owners only for truthiness, so the empty string stands for a missing
 value throughout. Likewise a missing or zero `timestamp` is 0.
 */
module CanvasModel {
  import opened Wrappers
  import opened OrderedMap
  import opened CanvasTypes
  import opened CanvasConstants
  import opened CanvasScan

  /** A `User` model object. `viewId` is the channel it subscribed to for
      "user-actions"; it is the registry key it was created under. `address`
      is "" while the actor has none. The floating-point `totalTokensSpent`
      is not modelled. */
  datatype Actor = Actor(
    viewId: string,
    address: string,
    selectedColor: string,
    pixelsPlaced: nat,
    lastPixelTime: int)

  /** One persisted `[key, pixel]` pair. */
  type Entry = (Key, Pixel)

  /** The root model. `store` is the snapshot most recently handed to the
      durable store (`persistSession`), or the one the model was started from. */
  datatype Model = Model(
    canvas: OMap<Key, Pixel>,
    users: OMap<string, Actor>,
    dataVersion: nat,
    store: seq<Entry>)

  /** The argument of a "view-join" event: a bare view id (published on
      connect) or an object with a view id and an address (published once the
      wallet is connected). Any other payload leaves the view id undefined. */
  datatype JoinArg =
    | JoinView(viewId: string)
    | JoinWithAddress(viewId: string, address: string)
    | JoinUnrecognised

  /** The payloads of "user-actions". A `timestamp` of 0 stands for a missing
      one, and a missing `bypassCooldown` is false. */
  datatype UserAction =
    | SetAddress(address: string)
    | SelectColor(color: string)
    | PlacePixel(x: int, y: int, timestamp: int, bypassCooldown: bool)
    | Unrecognised

  /** The events that reach the model in the transport's single total order. */
  datatype Event =
    | ViewJoin(arg: JoinArg)
    | ViewExit(viewId: string)
    | Publish(viewId: string, action: UserAction)

  /** The maps are well formed and every actor sits under the key it listens on. */
  ghost predicate Shaped(m: Model) {
    && Valid(m.canvas)
    && Valid(m.users)
    && (forall k | k in m.users.items :: m.users.items[k].viewId == k)
  }

  /** Shaped, and restoring the stored snapshot gives back the canvas. */
  ghost predicate Inv(m: Model) {
    Shaped(m) && FromEntries(m.store) == m.canvas
  }

  /** The persisted form of the canvas: `Array.from(pixelCanvas.entries())`. */
  function Snapshot(m: Model): seq<Entry>
    requires Valid(m.canvas)
  {
    Entries(m.canvas)
  }

  /** `timestamp || now`: a zero timestamp is replaced by the clock. */
  function EffectiveTime(timestamp: int, clock: int): (t: int)
    ensures timestamp != 0 ==> t == timestamp
    ensures timestamp == 0 ==> t == clock
  {
    if timestamp != 0 then timestamp else clock
  }

  /** `User.init`: no address, the first palette colour (white), zero counters. */
  function NewActor(viewId: string, address: string): (r: Actor)
    ensures r.viewId == viewId && r.address == address
    ensures r.selectedColor in COLOR_PALETTE
    ensures r.selectedColor == COLOR_PALETTE[0] == "#FFFFFF"
    ensures r.pixelsPlaced == 0
    ensures r.lastPixelTime == 0
  {
    Actor(viewId, address, COLOR_PALETTE[0], 0, 0)
  }

  /** `PixelCanvasModel.init`: the canvas is rebuilt from the persisted entry
      list, or empty when there is none; no actors; version 0. */
  function Init(persisted: Option<seq<Entry>>): (m: Model)
    ensures Inv(m)
    ensures m.users.items == map[] && m.dataVersion == 0
    ensures persisted.None? ==> m.canvas.items == map[]
    ensures persisted.Some? ==> m.canvas == FromEntries(persisted.value)
  {
    var entries := persisted.GetOr([]);
    Model(FromEntries(entries), Empty(), 0, entries)
  }

  /** `markDataDirty`: bumps the version and persists the canvas. */
  function MarkDataDirty(m: Model): (r: Model)
    requires Shaped(m)
    ensures Inv(r)
    ensures r.canvas == m.canvas && r.users == m.users
    ensures r.dataVersion == m.dataVersion + 1
  {
    FromEntriesOfEntries(m.canvas);
    m.(dataVersion := m.dataVersion + 1, store := Snapshot(m))
  }

  function JoinViewId(arg: JoinArg): string {
    match arg
    case JoinView(v) => v
    case JoinWithAddress(v, _) => v
    case JoinUnrecognised => ""
  }

  function JoinAddress(arg: JoinArg): string {
    match arg
    case JoinWithAddress(_, a) => a
    case _ => ""
  }

  /** The registry key of a join: `address || viewId`. */
  function JoinKey(arg: JoinArg): string {
    if JoinAddress(arg) != "" then JoinAddress(arg) else JoinViewId(arg)
  }

  /** `userJoined`: without a view id nothing happens. Otherwise an actor is
      created under `address || viewId` only if that key is free (an existing
      entry is never reset), and the version is bumped in every case. */
  function UserJoined(m: Model, arg: JoinArg): (r: Model)
    requires Inv(m)
    ensures Inv(r)
    ensures JoinViewId(arg) == "" ==> r == m
    ensures JoinViewId(arg) != "" ==>
      && JoinKey(arg) in r.users.items
      && r.canvas == m.canvas
      && r.dataVersion == m.dataVersion + 1
      && (JoinKey(arg) in m.users.items ==> r.users == m.users)
      && (JoinKey(arg) !in m.users.items ==>
            && r.users.items == m.users.items[JoinKey(arg) := NewActor(JoinKey(arg), JoinAddress(arg))]
            && r.users.order == m.users.order + [JoinKey(arg)])
    ensures r.users.items.Keys == m.users.items.Keys + (if JoinViewId(arg) == "" then {} else {JoinKey(arg)})
  {
    if JoinViewId(arg) == "" then m
    else
      var key := JoinKey(arg);
      if key in m.users.items then MarkDataDirty(m)
      else MarkDataDirty(m.(users := Set(m.users, key, NewActor(key, JoinAddress(arg)))))
  }

  /** `userExited`: removes only the exiting view's own entry; the canvas is
      untouched, so authored pixels outlive their author. */
  function UserExited(m: Model, viewId: string): (r: Model)
    requires Inv(m)
    ensures Inv(r)
    ensures r.canvas == m.canvas
    ensures viewId !in m.users.items ==> r == m
    ensures viewId in m.users.items ==>
      && r.users.items == m.users.items - {viewId}
      && Subsequence(r.users.order, m.users.order)
      && r.dataVersion == m.dataVersion + 1
  {
    if viewId in m.users.items then MarkDataDirty(m.(users := Delete(m.users, viewId)))
    else m
  }

  /** `placePixelOnCanvas`: writes exactly key (x, y), with no bounds check,
      then marks the data dirty. */
  function PlacePixelOnCanvas(m: Model, x: int, y: int, color: string, owner: string, timestamp: int, clock: int): (r: Model)
    requires Shaped(m)
    ensures Inv(r)
    ensures r.canvas.items == m.canvas.items[(x, y) := Pixel(x, y, color, owner, EffectiveTime(timestamp, clock))]
    ensures (x, y) in m.canvas.items ==> r.canvas.order == m.canvas.order
    ensures (x, y) !in m.canvas.items ==> r.canvas.order == m.canvas.order + [(x, y)]
    ensures r.users == m.users
    ensures r.dataVersion == m.dataVersion + 1
  {
    var now := EffectiveTime(timestamp, clock);
    MarkDataDirty(m.(canvas := Set(m.canvas, (x, y), Pixel(x, y, color, owner, now))))
  }

  /** The lazy derivation at the top of `tryPlacePixel`: an actor whose
      `lastPixelTime` is 0 takes the latest timestamp among the pixels its
      address owns, when that is positive; otherwise it keeps 0 and will be
      rescanned on its next placement. */
  function Derive(c: OMap<Key, Pixel>, u: Actor): (r: Actor)
    requires Valid(c)
    ensures r == u.(lastPixelTime := r.lastPixelTime)
    ensures u.lastPixelTime != 0 ==> r == u
    ensures u.lastPixelTime == 0 ==>
      && r.lastPixelTime >= 0
      && (forall k | k in OwnedKeys(c, u.address) :: c.items[k].timestamp <= r.lastPixelTime)
      && (r.lastPixelTime == 0 || exists k | k in OwnedKeys(c, u.address) :: c.items[k].timestamp == r.lastPixelTime)
  {
    LatestOwnedOfCanvas(c, u.address);
    if u.lastPixelTime == 0 then
      var latest := LatestOwned(Values(c), u.address);
      if latest > 0 then u.(lastPixelTime := latest) else u
    else u
  }

  /** The cooldown test as written in `tryPlacePixel`, on exact numbers: a
      previous placement exists and fewer than `COOLDOWN_TIME` seconds have
      passed since it. */
  ghost predicate SecondsTest(last: int, now: int) {
    last != 0 && ((now - last) as real) / 1000.0 < COOLDOWN_TIME as real
  }

  /** The cooldown test of `tryPlacePixel`: `(now - last) / 1000 < COOLDOWN_TIME`
      on exact numbers is `now - last < COOLDOWN_MS`. */
  function CoolingDown(last: int, now: int): (r: bool)
    ensures r <==> SecondsTest(last, now)
  {
    CooldownInMilliseconds(now, last);
    last != 0 && now - last < COOLDOWN_MS
  }

  /** `tryPlacePixel` for the actor under `key`. */
  function TryPlacePixel(m: Model, key: string, x: int, y: int, timestamp: int, bypassCooldown: bool, clock: int): (r: Model)
    requires Inv(m) && key in m.users.items
    ensures Inv(r)
    ensures r.users.order == m.users.order
    ensures m.users.items[key].address == "" ==> r == m
    ensures var u := m.users.items[key];
      var d := Derive(m.canvas, u);
      var now := EffectiveTime(timestamp, clock);
      u.address != "" && !bypassCooldown && CoolingDown(d.lastPixelTime, now) ==>
        && r.canvas == m.canvas
        && r.dataVersion == m.dataVersion
        && r.users.items == m.users.items[key := d]
    ensures var u := m.users.items[key];
      var d := Derive(m.canvas, u);
      var now := EffectiveTime(timestamp, clock);
      u.address != "" && (bypassCooldown || !CoolingDown(d.lastPixelTime, now)) ==>
        && r.canvas.items == m.canvas.items[(x, y) := Pixel(x, y, u.selectedColor, u.address, now)]
        && r.dataVersion == m.dataVersion + 2
        && r.users.items == m.users.items[key := d.(
             pixelsPlaced := u.pixelsPlaced + 1,
             lastPixelTime := if bypassCooldown then d.lastPixelTime else now)]
    ensures r.dataVersion == m.dataVersion + 2 ==>
      && ((x, y) in m.canvas.items ==> r.canvas.order == m.canvas.order)
      && ((x, y) !in m.canvas.items ==> r.canvas.order == m.canvas.order + [(x, y)])
  {
    var u := m.users.items[key];
    if u.address == "" then m
    else
      var d := Derive(m.canvas, u);
      var now := EffectiveTime(timestamp, clock);
      if !bypassCooldown && CoolingDown(d.lastPixelTime, now) then
        m.(users := Set(m.users, key, d))
      else
        var stamped := if bypassCooldown then d else d.(lastPixelTime := now);
        CommitPlacement(m, key, stamped.(pixelsPlaced := d.pixelsPlaced + 1), x, y, now, clock)
  }

  /** The accepting branch of `tryPlacePixel`: the actor's updated record is
      stored, the pixel is written with the actor's colour and address at
      `now`, and the version moves by two (once in `placePixelOnCanvas`, once
      after it). */
  function CommitPlacement(m: Model, key: string, placed: Actor, x: int, y: int, now: int, clock: int): (r: Model)
    requires Inv(m) && key in m.users.items && placed.viewId == key
    requires now != 0 || clock == 0
    ensures Inv(r)
    ensures r.users.order == m.users.order
    ensures r.users.items == m.users.items[key := placed]
    ensures r.canvas.items == m.canvas.items[(x, y) := Pixel(x, y, placed.selectedColor, placed.address, now)]
    ensures (x, y) in m.canvas.items ==> r.canvas.order == m.canvas.order
    ensures (x, y) !in m.canvas.items ==> r.canvas.order == m.canvas.order + [(x, y)]
    ensures r.dataVersion == m.dataVersion + 2
  {
    var m1 := m.(users := Set(m.users, key, placed));
    MarkDataDirty(PlacePixelOnCanvas(m1, x, y, placed.selectedColor, placed.address, now, clock))
  }

  /** `handleUserAction` of the actor under `key`: `setAddress` and
      `selectColor` change that one field and bump the version once; an
      unknown action type does nothing. */
  function HandleUserAction(m: Model, key: string, action: UserAction, clock: int): (r: Model)
    requires Inv(m) && key in m.users.items
    ensures Inv(r)
    ensures r.users.order == m.users.order
    ensures action.SetAddress? ==>
      && r.users.items == m.users.items[key := m.users.items[key].(address := action.address)]
      && r.canvas == m.canvas && r.dataVersion == m.dataVersion + 1
    ensures action.SelectColor? ==>
      && r.users.items == m.users.items[key := m.users.items[key].(selectedColor := action.color)]
      && r.canvas == m.canvas && r.dataVersion == m.dataVersion + 1
    ensures action.Unrecognised? ==> r == m
  {
    var u := m.users.items[key];
    match action
    case SetAddress(a) => MarkDataDirty(m.(users := Set(m.users, key, u.(address := a))))
    case SelectColor(c) => MarkDataDirty(m.(users := Set(m.users, key, u.(selectedColor := c))))
    case PlacePixel(x, y, t, b) => TryPlacePixel(m, key, x, y, t, b, clock)
    case Unrecognised => m
  }

  /** The single serialized application path. An action published on a view
      id reaches the actor subscribed to that channel, which is the actor
      registered under that key; with none, nothing happens. */
  function Step(m: Model, e: Event, clock: int): (r: Model)
    requires Inv(m)
    ensures Inv(r)
    ensures r.dataVersion >= m.dataVersion
  {
    match e
    case ViewJoin(arg) => UserJoined(m, arg)
    case ViewExit(v) => UserExited(m, v)
    case Publish(v, a) => if v in m.users.items then HandleUserAction(m, v, a, clock) else m
  }

  /** Applies the events in order, each with the clock reading at its turn. */
  function Run(m: Model, evs: seq<(Event, int)>): (r: Model)
    requires Inv(m)
    ensures Inv(r)
    ensures r.dataVersion >= m.dataVersion
    decreases |evs|
  {
    if |evs| == 0 then m else Run(Step(m, evs[0].0, evs[0].1), evs[1..])
  }
}

/**
 Properties of the authoritative model over single actions and over runs of
 events (src/hooks/useMultisynq.ts:193-308).
 */
module ModelProperties {
  import opened Wrappers
  import opened OrderedMap
  import opened CanvasTypes
  import opened CanvasConstants
  import opened CanvasModel

  /** A placement published on a registered view id is that actor's
      `tryPlacePixel`. */
  lemma PublishedPlacement(m: Model, viewId: string, x: int, y: int, timestamp: int, bypass: bool, clock: int)
    requires Inv(m) && viewId in m.users.items
    ensures Step(m, Publish(viewId, PlacePixel(x, y, timestamp, bypass)), clock)
         == TryPlacePixel(m, viewId, x, y, timestamp, bypass, clock)
  {
  }

  /** A placement is a no-op when the actor has no address, or when it is
      cooldown-governed, its `lastPixelTime` is set and the window has not
      elapsed: canvas, registry and version all stay as they were. */
  lemma RejectedPlacementIsNoOp(m: Model, key: string, x: int, y: int, timestamp: int, bypassCooldown: bool, clock: int)
    requires Inv(m) && key in m.users.items
    requires var u := m.users.items[key];
      || u.address == ""
      || (!bypassCooldown && u.lastPixelTime != 0
          && EffectiveTime(timestamp, clock) - u.lastPixelTime < COOLDOWN_MS)
    ensures TryPlacePixel(m, key, x, y, timestamp, bypassCooldown, clock) == m
  {
    var u := m.users.items[key];
    if u.address != "" {
      assert Derive(m.canvas, u) == u;
      assert m.users.items[key := u] == m.users.items;
    }
  }

  /** A bypass placement by an addressed actor always commits, whatever the
      elapsed time, and does not advance `lastPixelTime` (only the lazy
      derivation may fill it in when it was 0). */
  lemma BypassAlwaysCommits(m: Model, key: string, x: int, y: int, timestamp: int, clock: int)
    requires Inv(m) && key in m.users.items
    requires m.users.items[key].address != ""
    ensures var r := TryPlacePixel(m, key, x, y, timestamp, true, clock);
      var u := m.users.items[key];
      && r.dataVersion == m.dataVersion + 2
      && r.canvas.items[(x, y)] == Pixel(x, y, u.selectedColor, u.address, EffectiveTime(timestamp, clock))
      && r.users.items[key].pixelsPlaced == u.pixelsPlaced + 1
      && r.users.items[key].lastPixelTime == Derive(m.canvas, u).lastPixelTime
      && (u.lastPixelTime != 0 ==> r.users.items[key].lastPixelTime == u.lastPixelTime)
  {
  }

  /** A placement commits exactly when it moves the version by two; then the
      actor had an address, the window check passed, and the cell holds the
      actor's colour and address with the placement's time. */
  lemma CommittedPlacement(m: Model, key: string, x: int, y: int, timestamp: int, bypass: bool, clock: int)
    requires Inv(m) && key in m.users.items
    requires TryPlacePixel(m, key, x, y, timestamp, bypass, clock).dataVersion == m.dataVersion + 2
    ensures var r := TryPlacePixel(m, key, x, y, timestamp, bypass, clock);
      var u := m.users.items[key];
      var now := EffectiveTime(timestamp, clock);
      && u.address != ""
      && (bypass || !CoolingDown(Derive(m.canvas, u).lastPixelTime, now))
      && (x, y) in r.canvas.items
      && r.canvas.items[(x, y)] == Pixel(x, y, u.selectedColor, u.address, now)
  {
  }

  /** A cooldown-governed placement that commits stamps the actor with its
      own time, and when the actor already had a time the window had elapsed. */
  lemma NonBypassCommitStamps(m: Model, key: string, x: int, y: int, timestamp: int, clock: int)
    requires Inv(m) && key in m.users.items
    requires TryPlacePixel(m, key, x, y, timestamp, false, clock).dataVersion == m.dataVersion + 2
    ensures var r := TryPlacePixel(m, key, x, y, timestamp, false, clock);
      var u := m.users.items[key];
      var now := EffectiveTime(timestamp, clock);
      && u.address != ""
      && r.users.items[key].lastPixelTime == now
      && (u.lastPixelTime != 0 ==> now - u.lastPixelTime >= COOLDOWN_MS)
  {
  }

  /** Joining twice with the same argument leaves the same single entry as
      joining once; only the version moves again. */
  lemma JoinIsIdempotent(m: Model, arg: JoinArg)
    requires Inv(m)
    ensures var once := UserJoined(m, arg);
      var twice := UserJoined(once, arg);
      && twice.users == once.users
      && twice.canvas == m.canvas
      && (JoinViewId(arg) != "" ==> twice.dataVersion == m.dataVersion + 2)
  {
  }

  /** A cold start from the model's own snapshot reproduces its canvas: same
      bindings, same order. So does a cold start from whatever it last stored. */
  lemma SnapshotRoundTrip(m: Model)
    requires Inv(m)
    ensures Init(Some(Snapshot(m))).canvas == m.canvas
    ensures Init(Some(m.store)).canvas == m.canvas
  {
    FromEntriesOfEntries(m.canvas);
  }

  /** The event is a placement action aimed at cell `k`. */
  predicate Targets(e: Event, k: Key) {
    e.Publish? && e.action.PlacePixel? && (e.action.x, e.action.y) == k
  }

  /** The event is a placement at cell `k` that commits when applied to `m`:
      it moves the version by two. */
  ghost predicate CommitsAt(m: Model, e: Event, clock: int, k: Key)
    requires Inv(m)
  {
    Targets(e, k) && Step(m, e, clock).dataVersion == m.dataVersion + 2
  }

  /** Only a committed placement at a cell can change that cell: a rejected
      placement there leaves it as it was, and so does every other event. */
  lemma StepFrame(m: Model, e: Event, clock: int, k: Key)
    requires Inv(m)
    requires !CommitsAt(m, e, clock, k)
    ensures var r := Step(m, e, clock);
      && (k in r.canvas.items <==> k in m.canvas.items)
      && (k in m.canvas.items ==> r.canvas.items[k] == m.canvas.items[k])
  {
    if e.Publish? && e.viewId in m.users.items && e.action.PlacePixel? {
      var a := e.action;
      PublishedPlacement(m, e.viewId, a.x, a.y, a.timestamp, a.bypassCooldown, clock);
      if (a.x, a.y) == k {
        RejectedPlacementKeepsCanvas(m, e.viewId, a.x, a.y, a.timestamp, a.bypassCooldown, clock);
      } else {
        PlacementFrame(m, e.viewId, a.x, a.y, a.timestamp, a.bypassCooldown, clock, k);
      }
    }
  }

  /** A placement that does not commit leaves the whole canvas as it was. */
  lemma RejectedPlacementKeepsCanvas(m: Model, key: string, x: int, y: int, timestamp: int, bypass: bool, clock: int)
    requires Inv(m) && key in m.users.items
    requires TryPlacePixel(m, key, x, y, timestamp, bypass, clock).dataVersion != m.dataVersion + 2
    ensures TryPlacePixel(m, key, x, y, timestamp, bypass, clock).canvas == m.canvas
  {
  }

  /** A placement at another cell leaves cell `k` as it was. */
  lemma PlacementFrame(m: Model, key: string, x: int, y: int, timestamp: int, bypass: bool, clock: int, k: Key)
    requires Inv(m) && key in m.users.items
    requires (x, y) != k
    ensures var r := TryPlacePixel(m, key, x, y, timestamp, bypass, clock);
      && (k in r.canvas.items <==> k in m.canvas.items)
      && (k in m.canvas.items ==> r.canvas.items[k] == m.canvas.items[k])
  {
    var r := TryPlacePixel(m, key, x, y, timestamp, bypass, clock);
    if r.dataVersion == m.dataVersion + 2 {
      var u := m.users.items[key];
      var now := EffectiveTime(timestamp, clock);
      assert r.canvas.items == m.canvas.items[(x, y) := Pixel(x, y, u.selectedColor, u.address, now)];
    } else {
      RejectedPlacementKeepsCanvas(m, key, x, y, timestamp, bypass, clock);
    }
  }

  /** No event of the run, applied in turn from `m`, is a committed placement
      at cell `k`. */
  ghost predicate NoCommitAt(m: Model, evs: seq<(Event, int)>, k: Key)
    requires Inv(m)
    decreases |evs|
  {
    || |evs| == 0
    || (&& !CommitsAt(m, evs[0].0, evs[0].1, k)
        && NoCommitAt(Step(m, evs[0].0, evs[0].1), evs[1..], k))
  }

  /** Over a run in which no placement at cell `k` commits, that cell keeps
      its pixel (or stays empty). Joins, exits, colour changes, placements
      elsewhere and rejected placements at `k` never touch it. */
  lemma {:induction false} RunFrame(m: Model, evs: seq<(Event, int)>, k: Key)
    requires Inv(m)
    requires NoCommitAt(m, evs, k)
    ensures var r := Run(m, evs);
      && (k in r.canvas.items <==> k in m.canvas.items)
      && (k in m.canvas.items ==> r.canvas.items[k] == m.canvas.items[k])
    decreases |evs|
  {
    if |evs| > 0 {
      StepFrame(m, evs[0].0, evs[0].1, k);
      RunFrame(Step(m, evs[0].0, evs[0].1), evs[1..], k);
    }
  }

  /** A run none of whose events aims at cell `k` commits nothing there. */
  lemma {:induction false} UntargetedRunCommitsNothing(m: Model, evs: seq<(Event, int)>, k: Key)
    requires Inv(m)
    requires forall i | 0 <= i < |evs| :: !Targets(evs[i].0, k)
    ensures NoCommitAt(m, evs, k)
    decreases |evs|
  {
    if |evs| > 0 {
      assert !Targets(evs[0].0, k);
      UntargetedRunCommitsNothing(Step(m, evs[0].0, evs[0].1), evs[1..], k);
    }
  }

  /** Last write wins: after a committed placement at (x, y), followed by any
      run of events in which no later placement at (x, y) commits, the cell
      holds exactly the pixel that placement wrote. */
  lemma LastWriteWins(m: Model, viewId: string, x: int, y: int, timestamp: int, bypass: bool, clock: int, post: seq<(Event, int)>)
    requires Inv(m) && viewId in m.users.items
    requires var e := Publish(viewId, PlacePixel(x, y, timestamp, bypass));
      Step(m, e, clock).dataVersion == m.dataVersion + 2
    requires NoCommitAt(Step(m, Publish(viewId, PlacePixel(x, y, timestamp, bypass)), clock), post, (x, y))
    ensures var u := m.users.items[viewId];
      var r := Run(Step(m, Publish(viewId, PlacePixel(x, y, timestamp, bypass)), clock), post);
      && (x, y) in r.canvas.items
      && r.canvas.items[(x, y)] == Pixel(x, y, u.selectedColor, u.address, EffectiveTime(timestamp, clock))
  {
    PublishedCommitWrites(m, viewId, x, y, timestamp, bypass, clock);
    RunFrame(Step(m, Publish(viewId, PlacePixel(x, y, timestamp, bypass)), clock), post, (x, y));
  }

  /** A published placement that commits writes its cell. */
  lemma PublishedCommitWrites(m: Model, viewId: string, x: int, y: int, timestamp: int, bypass: bool, clock: int)
    requires Inv(m) && viewId in m.users.items
    requires Step(m, Publish(viewId, PlacePixel(x, y, timestamp, bypass)), clock).dataVersion == m.dataVersion + 2
    ensures var u := m.users.items[viewId];
      var r := Step(m, Publish(viewId, PlacePixel(x, y, timestamp, bypass)), clock);
      && (x, y) in r.canvas.items
      && r.canvas.items[(x, y)] == Pixel(x, y, u.selectedColor, u.address, EffectiveTime(timestamp, clock))
  {
    PublishedPlacement(m, viewId, x, y, timestamp, bypass, clock);
    CommittedPlacement(m, viewId, x, y, timestamp, bypass, clock);
  }

  /** A placement by the actor under `key` that commits when applied to `m`. */
  ghost predicate Commits(m: Model, key: string, x: int, y: int, timestamp: int, bypass: bool, clock: int)
    requires Inv(m)
  {
    key in m.users.items && TryPlacePixel(m, key, x, y, timestamp, bypass, clock).dataVersion == m.dataVersion + 2
  }

  /** One step that is not the actor's own exit keeps the actor registered
      and keeps its `lastPixelTime` at or above a positive floor. */
  lemma StepKeepsFloor(m: Model, e: Event, clock: int, key: string, floor: int)
    requires Inv(m) && key in m.users.items
    requires 0 < floor <= m.users.items[key].lastPixelTime
    requires e != ViewExit(key)
    ensures var r := Step(m, e, clock);
      key in r.users.items && floor <= r.users.items[key].lastPixelTime
  {
    match e
    case ViewJoin(arg) =>
    case ViewExit(v) =>
    case Publish(v, a) =>
      if v in m.users.items {
        if a.PlacePixel? {
          PlacementKeepsFloor(m, v, a.x, a.y, a.timestamp, a.bypassCooldown, clock, key, floor);
        }
      }
  }

  /** Any placement, by the actor under `key` or another, keeps the actor
      registered and its positive `lastPixelTime` floor: a non-zero time is
      never re-derived, and a commit only stamps a time past the window. */
  lemma PlacementKeepsFloor(m: Model, v: string, x: int, y: int, timestamp: int, bypass: bool, clock: int, key: string, floor: int)
    requires Inv(m) && v in m.users.items && key in m.users.items
    requires 0 < floor <= m.users.items[key].lastPixelTime
    ensures var r := TryPlacePixel(m, v, x, y, timestamp, bypass, clock);
      key in r.users.items && floor <= r.users.items[key].lastPixelTime
  {
    assert Derive(m.canvas, m.users.items[key]) == m.users.items[key];
  }

  /** Over the actor's lifetime (no exit of its key), a positive floor on its
      `lastPixelTime` is never undercut. */
  lemma {:induction false} RunKeepsFloor(m: Model, evs: seq<(Event, int)>, key: string, floor: int)
    requires Inv(m) && key in m.users.items
    requires 0 < floor <= m.users.items[key].lastPixelTime
    requires forall i | 0 <= i < |evs| :: evs[i].0 != ViewExit(key)
    ensures var r := Run(m, evs);
      key in r.users.items && floor <= r.users.items[key].lastPixelTime
    decreases |evs|
  {
    if |evs| > 0 {
      StepKeepsFloor(m, evs[0].0, evs[0].1, key, floor);
      RunKeepsFloor(Step(m, evs[0].0, evs[0].1), evs[1..], key, floor);
    }
  }

  /** A committing cooldown-governed placement comes at least the window after
      any positive lower bound of the actor's `lastPixelTime`. */
  lemma CommitClearsFloor(m: Model, key: string, x: int, y: int, timestamp: int, clock: int, floor: int)
    requires Inv(m)
    requires Commits(m, key, x, y, timestamp, false, clock)
    requires 0 < floor <= m.users.items[key].lastPixelTime
    ensures EffectiveTime(timestamp, clock) - floor >= COOLDOWN_MS
  {
    NonBypassCommitStamps(m, key, x, y, timestamp, clock);
  }

  /** From a state where the actor's `lastPixelTime` is a positive `t1`, any
      later committing cooldown-governed placement within its lifetime comes at
      least the window after `t1`. */
  lemma CommitAfterRunClearsFloor(
    m: Model, evs: seq<(Event, int)>, key: string, t1: int,
    x: int, y: int, timestamp: int, clock: int)
    requires Inv(m) && key in m.users.items
    requires 0 < t1 <= m.users.items[key].lastPixelTime
    requires forall i | 0 <= i < |evs| :: evs[i].0 != ViewExit(key)
    requires Commits(Run(m, evs), key, x, y, timestamp, false, clock)
    ensures EffectiveTime(timestamp, clock) - t1 >= COOLDOWN_MS
  {
    RunKeepsFloor(m, evs, key, t1);
    CommitClearsFloor(Run(m, evs), key, x, y, timestamp, clock, t1);
  }

  /** Two cooldown-governed placements that both commit for the same actor
      within its lifetime are at least the cooldown window apart, provided the
      first one's time is positive (0 is the "not yet derived" value). */
  lemma NonBypassCommitsAreSpaced(
    m: Model, key: string, x1: int, y1: int, ts1: int, c1: int,
    evs: seq<(Event, int)>,
    x2: int, y2: int, ts2: int, c2: int)
    requires Inv(m)
    requires Commits(m, key, x1, y1, ts1, false, c1)
    requires EffectiveTime(ts1, c1) > 0
    requires forall i | 0 <= i < |evs| :: evs[i].0 != ViewExit(key)
    requires Commits(Run(TryPlacePixel(m, key, x1, y1, ts1, false, c1), evs), key, x2, y2, ts2, false, c2)
    ensures EffectiveTime(ts2, c2) - EffectiveTime(ts1, c1) >= COOLDOWN_MS
  {
    NonBypassCommitStamps(m, key, x1, y1, ts1, c1);
    CommitAfterRunClearsFloor(TryPlacePixel(m, key, x1, y1, ts1, false, c1), evs, key, EffectiveTime(ts1, c1), x2, y2, ts2, c2);
  }
}

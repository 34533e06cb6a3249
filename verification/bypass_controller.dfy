/**
 The canvas component's placement controller
 (src/components/PixelCanvas.tsx:118-193): a click either publishes a
 cooldown-governed placement or, in premium mode, starts a token approval
 and remembers the clicked cell; once the approval is confirmed the
 remembered cell is published as a cooldown-bypassing placement stamped one
 day in the past. State is the pending cell and the in-progress flag; the
 output of each transition is the action it publishes, if any.
 */
module BypassController {
  import opened Wrappers
  import opened CanvasTypes
  import opened CanvasConstants
  import opened CanvasModel
  import opened TokenGate
  import ModelProperties

  /** `24 * 60 * 60 * 1000`: one day in milliseconds. */
  const DAY_MS := 24 * 60 * 60 * 1000

  datatype Controller = Controller(pending: Option<(int, int)>, placing: bool)

  /** The approval flags the component reads from the on-chain hook. */
  datatype ApprovalStatus = ApprovalStatus(approvalPending: bool, approveConfirming: bool, approveConfirmed: bool)

  /** The connected wallet; "" when there is no address. */
  datatype Wallet = Wallet(address: string, connected: bool)

  function Idle(): Controller {
    Controller(None, false)
  }

  /** The synchronous part of `handlePremiumPixelPlacement`: ignored without
      an address, without a connection, or while another request is in
      progress; otherwise the cell becomes the one pending cell and the
      request is marked in progress while the approval is awaited. */
  function PremiumStart(c: Controller, w: Wallet, x: int, y: int): (r: Controller)
    ensures w.address == "" || !w.connected || c.placing ==> r == c
    ensures w.address != "" && w.connected && !c.placing ==> r == Controller(Some((x, y)), true)
  {
    if w.address == "" || !w.connected || c.placing then c
    else Controller(Some((x, y)), true)
  }

  /** The part after the awaited approval settles: a thrown error drops the
      pending cell, and in every case the request is no longer in progress. */
  function PremiumSettle(c: Controller, threw: bool): (r: Controller)
    ensures !r.placing
    ensures threw ==> r.pending == None
    ensures !threw ==> r.pending == c.pending
  {
    Controller(if threw then None else c.pending, false)
  }

  /** `handleCanvasClick` on cell (x, y) at time `now`: nothing while
      dragging; in premium mode the premium request starts and nothing is
      published yet; otherwise a cooldown-governed placement with the current
      time is published. */
  function Click(c: Controller, w: Wallet, dragging: bool, premiumMode: bool, x: int, y: int, now: int): (r: (Controller, Option<UserAction>))
    ensures dragging ==> r == (c, None)
    ensures !dragging && premiumMode ==> r == (PremiumStart(c, w, x, y), None)
    ensures !dragging && !premiumMode ==> r == (c, Some(PlacePixel(x, y, now, false)))
  {
    if dragging then (c, None)
    else if premiumMode then (PremiumStart(c, w, x, y), None)
    else (c, Some(PlacePixel(x, y, now, false)))
  }

  /** The two approval effects, run at time `now`. With a confirmed approval
      and a pending cell, exactly one bypass placement of that cell is
      published, stamped a day before `now`, and the cell is dropped. With no
      approval pending, confirming or confirmed, the pending cell is dropped
      and nothing is published. Otherwise nothing changes. */
  function ApprovalEffects(c: Controller, st: ApprovalStatus, now: int): (r: (Controller, Option<UserAction>))
    ensures r.0.placing == c.placing
    ensures r.1.Some? <==> st.approveConfirmed && c.pending.Some?
    ensures r.1.Some? ==>
      r.1.value == PlacePixel(c.pending.value.0, c.pending.value.1, now - DAY_MS, true)
    ensures r.0.pending == None <==>
      c.pending.None? || st.approveConfirmed || (!st.approvalPending && !st.approveConfirming)
    ensures r.0.pending.Some? ==> r.0.pending == c.pending
  {
    if st.approveConfirmed && c.pending.Some? then
      (c.(pending := None), Some(PlacePixel(c.pending.value.0, c.pending.value.1, now - DAY_MS, true)))
    else if !st.approvalPending && !st.approveConfirming && !st.approveConfirmed && c.pending.Some? then
      (c.(pending := None), None)
    else (c, None)
  }

  /** The approval flags as the on-chain hook derives them: the confirmed flag
      is the receipt check. */
  function StatusOf(approvalPending: bool, approveConfirming: bool, receipt: Option<Receipt>): ApprovalStatus {
    ApprovalStatus(approvalPending, approveConfirming, ApproveConfirmed(receipt))
  }

  /** The effects settle: running them again on their own result with the
      same flags changes nothing and publishes nothing. */
  lemma ApprovalEffectsSettle(c: Controller, st: ApprovalStatus, now: int, later: int)
    ensures var (c1, _) := ApprovalEffects(c, st, now);
      ApprovalEffects(c1, st, later) == (c1, None)
  {
  }

  /** Nothing is published on the strength of a receipt that did not succeed. */
  lemma NoBypassWithoutSuccessfulReceipt(c: Controller, p: bool, cf: bool, receipt: Option<Receipt>, now: int)
    requires receipt.None? || receipt.value.status != "success"
    ensures ApprovalEffects(c, StatusOf(p, cf, receipt), now).1 == None
  {
  }

  /** Applies the approval effects for a sequence of flag readings, each with
      its clock reading, collecting what is published. */
  function EffectsRun(c: Controller, sts: seq<(ApprovalStatus, int)>): (r: (Controller, seq<UserAction>))
    decreases |sts|
  {
    if |sts| == 0 then (c, [])
    else
      var (c1, out) := ApprovalEffects(c, sts[0].0, sts[0].1);
      var (c2, outs) := EffectsRun(c1, sts[1..]);
      (c2, (if out.Some? then [out.value] else []) + outs)
  }

  /** However the flags evolve, one premium request publishes at most one
      placement, and none when no cell is pending; whatever is published is a
      bypass placement of the pending cell. */
  lemma {:induction false} AtMostOnePlacementPerRequest(c: Controller, sts: seq<(ApprovalStatus, int)>)
    ensures var (_, outs) := EffectsRun(c, sts);
      && |outs| <= (if c.pending.Some? then 1 else 0)
      && forall i | 0 <= i < |outs| ::
           c.pending.Some? && outs[i].PlacePixel? && outs[i].bypassCooldown
           && (outs[i].x, outs[i].y) == c.pending.value
    decreases |sts|
  {
    if |sts| > 0 {
      var (c1, out) := ApprovalEffects(c, sts[0].0, sts[0].1);
      AtMostOnePlacementPerRequest(c1, sts[1..]);
      if out.Some? {
        assert c1.pending == None;
      }
    }
  }

  /** The full premium path: a click in premium mode with a connected wallet
      and no request in progress, an approval that returns without error, and
      a confirmed receipt publish exactly one bypass placement of the clicked
      cell and leave the controller idle. */
  lemma PremiumRequestPublishesOnce(c: Controller, w: Wallet, x: int, y: int, t: int, st: ApprovalStatus, now: int)
    requires w.address != "" && w.connected && !c.placing
    requires st.approveConfirmed
    ensures var (c1, out1) := Click(c, w, false, true, x, y, t);
      var (c2, out2) := ApprovalEffects(PremiumSettle(c1, false), st, now);
      && out1 == None
      && out2 == Some(PlacePixel(x, y, now - DAY_MS, true))
      && c2 == Idle()
  {
  }

  /** The published bypass placement, delivered on the view of an actor that
      has an address, always commits: the version moves by two and the cell
      holds the actor's colour with the day-old stamp (or the clock, should
      that stamp be 0). */
  lemma PublishedBypassCommits(c: Controller, st: ApprovalStatus, now: int, m: Model, viewId: string, clock: int)
    requires Inv(m) && viewId in m.users.items && m.users.items[viewId].address != ""
    requires ApprovalEffects(c, st, now).1.Some?
    ensures var a := ApprovalEffects(c, st, now).1.value;
      var r := Step(m, Publish(viewId, a), clock);
      var u := m.users.items[viewId];
      && r.dataVersion == m.dataVersion + 2
      && r.canvas.items[(a.x, a.y)] == Pixel(a.x, a.y, u.selectedColor, u.address, EffectiveTime(now - DAY_MS, clock))
  {
    var a := ApprovalEffects(c, st, now).1.value;
    ModelProperties.BypassAlwaysCommits(m, viewId, a.x, a.y, a.timestamp, clock);
  }

  /** The hovered cell: set exactly when the cell lies on the grid. */
  function HoverCell(x: int, y: int): (r: Option<(int, int)>)
    ensures r.Some? <==> 0 <= x < CANVAS_WIDTH && 0 <= y < CANVAS_HEIGHT
    ensures r.Some? ==> r.value == (x, y)
  {
    if x >= 0 && x < CANVAS_WIDTH && y >= 0 && y < CANVAS_HEIGHT then Some((x, y)) else None
  }

  /** Every pixel of the canvas lies on the 100 by 100 grid. */
  ghost predicate OnGrid(m: Model) {
    forall k | k in m.canvas.items :: 0 <= k.0 < CANVAS_WIDTH && 0 <= k.1 < CANVAS_HEIGHT
  }

  /** Writing a cell the hover check accepts keeps the canvas on the grid. */
  lemma HoveredPlacementStaysOnGrid(m: Model, x: int, y: int, color: string, owner: string, timestamp: int, clock: int)
    requires Shaped(m) && OnGrid(m) && HoverCell(x, y).Some?
    ensures OnGrid(PlacePixelOnCanvas(m, x, y, color, owner, timestamp, clock))
  {
  }

  /** Writing a cell the hover check rejects puts a pixel off the grid: the
      placement path has no bounds check of its own. */
  lemma UnhoveredPlacementLeavesGrid(m: Model, x: int, y: int, color: string, owner: string, timestamp: int, clock: int)
    requires Shaped(m) && HoverCell(x, y).None?
    ensures !OnGrid(PlacePixelOnCanvas(m, x, y, color, owner, timestamp, clock))
  {
    assert (x, y) in PlacePixelOnCanvas(m, x, y, color, owner, timestamp, clock).canvas.items;
  }
}

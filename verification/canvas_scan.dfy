/**
 Scans over the canvas values that both the authoritative model and the
 client perform (src/hooks/useMultisynq.ts): the latest timestamp among an
 address's pixels, and the per-owner pixel counts. Each is a left fold over
 the values in iteration order, like the source's loops.
 */
module CanvasScan {
  import opened CanvasTypes
  import opened OrderedMap

  /** The loop `latest := 0; for each pixel: if owner matches and
      timestamp > latest then latest := timestamp`. */
  function LatestOwned(ps: seq<Pixel>, owner: string): (r: int)
    ensures r >= 0
    ensures forall i | 0 <= i < |ps| && ps[i].owner == owner :: ps[i].timestamp <= r
    ensures r == 0 || exists i | 0 <= i < |ps| :: ps[i].owner == owner && ps[i].timestamp == r
  {
    if |ps| == 0 then 0
    else
      var prev := LatestOwned(ps[..|ps| - 1], owner);
      var p := ps[|ps| - 1];
      assert forall i | 0 <= i < |ps| - 1 :: ps[i] == ps[..|ps| - 1][i];
      if p.owner == owner && p.timestamp > prev then p.timestamp else prev
  }

  /** The number of pixels in `ps` whose owner is `owner`. */
  function CountOwned(ps: seq<Pixel>, owner: string): (r: nat)
    ensures r <= |ps|
    ensures r == 0 <==> forall i | 0 <= i < |ps| :: ps[i].owner != owner
  {
    if |ps| == 0 then 0
    else
      var prev := CountOwned(ps[..|ps| - 1], owner);
      assert forall i | 0 <= i < |ps| - 1 :: ps[i] == ps[..|ps| - 1][i];
      if ps[|ps| - 1].owner == owner then prev + 1 else prev
  }

  /** The client's `userPixelCounts` object: for each pixel with a truthy
      owner, `counts[owner] = (counts[owner] || 0) + 1`. Owners appear in the
      order of their first pixel. */
  function PixelCounts(ps: seq<Pixel>): (r: OMap<string, nat>)
    ensures Valid(r)
    ensures forall a | a in r.items :: a != "" && r.items[a] == CountOwned(ps, a) && r.items[a] > 0
    ensures forall a | a != "" && CountOwned(ps, a) > 0 :: a in r.items
  {
    if |ps| == 0 then Empty()
    else
      var init := ps[..|ps| - 1];
      var prev := PixelCounts(init);
      var o := ps[|ps| - 1].owner;
      assert forall a | a != o :: CountOwned(ps, a) == CountOwned(init, a);
      if o != "" then
        Set(prev, o, (if o in prev.items then prev.items[o] else 0) + 1)
      else prev
  }

  /** The set of canvas keys whose pixel is owned by `owner`. */
  ghost function OwnedKeys(c: OMap<Key, Pixel>, owner: string): set<Key> {
    set k | k in c.items && c.items[k].owner == owner
  }

  /** The keys listed in `ks` whose pixel is owned by `owner`. */
  ghost function OwnedAmong(c: OMap<Key, Pixel>, owner: string, ks: seq<Key>): set<Key> {
    set k | k in ks && k in c.items && c.items[k].owner == owner
  }

  /** Listing one more, new key adds it to the owned keys exactly when it is owned. */
  lemma OwnedAmongSnoc(c: OMap<Key, Pixel>, owner: string, ks: seq<Key>, k: Key)
    requires k !in ks && k in c.items
    ensures |OwnedAmong(c, owner, ks + [k])|
         == |OwnedAmong(c, owner, ks)| + (if c.items[k].owner == owner then 1 else 0)
  {
    var before := OwnedAmong(c, owner, ks);
    var after := OwnedAmong(c, owner, ks + [k]);
    assert k !in before;
    if c.items[k].owner == owner {
      assert after == before + {k};
    } else {
      assert after == before;
    }
  }

  /** Counting owned pixels along the first `n` keys of the canvas order
      counts the owned keys among those `n`. */
  lemma {:induction false} CountOwnedPrefix(c: OMap<Key, Pixel>, owner: string, n: nat)
    requires Valid(c)
    requires n <= |c.order|
    ensures CountOwned(Values(c)[..n], owner) == |OwnedAmong(c, owner, c.order[..n])|
  {
    if n == 0 {
      assert c.order[..0] == [];
    } else {
      CountOwnedPrefix(c, owner, n - 1);
      var vs := Values(c);
      assert vs[..n][..n - 1] == vs[..n - 1];
      var k := c.order[n - 1];
      assert vs[..n][n - 1] == c.items[k];
      assert k !in c.order[..n - 1] by {
        assert forall j | 0 <= j < n - 1 :: c.order[..n - 1][j] == c.order[j] != k;
      }
      assert c.order[..n] == c.order[..n - 1] + [k];
      OwnedAmongSnoc(c, owner, c.order[..n - 1], k);
    }
  }

  /** The derived count is authoritative: scanning the canvas values counts
      exactly the coordinates whose stored owner is `owner`. */
  lemma CountOwnedIsOwnedKeys(c: OMap<Key, Pixel>, owner: string)
    requires Valid(c)
    ensures CountOwned(Values(c), owner) == |OwnedKeys(c, owner)|
  {
    CountOwnedPrefix(c, owner, |c.order|);
    assert Values(c)[..|c.order|] == Values(c);
    assert c.order[..|c.order|] == c.order;
    assert OwnedAmong(c, owner, c.order) == OwnedKeys(c, owner);
  }

  /** The latest owned timestamp is that of an owned canvas key, or 0; and no
      owned key carries a later one. */
  lemma LatestOwnedOfCanvas(c: OMap<Key, Pixel>, owner: string)
    requires Valid(c)
    ensures forall k | k in OwnedKeys(c, owner) :: c.items[k].timestamp <= LatestOwned(Values(c), owner)
    ensures var r := LatestOwned(Values(c), owner);
      r == 0 || exists k | k in OwnedKeys(c, owner) :: c.items[k].timestamp == r
  {
    var vs := Values(c);
    forall k | k in OwnedKeys(c, owner)
      ensures c.items[k].timestamp <= LatestOwned(vs, owner)
    {
      var j :| 0 <= j < |c.order| && c.order[j] == k;
      assert vs[j] == c.items[k];
    }
    var r := LatestOwned(vs, owner);
    if r != 0 {
      var i :| 0 <= i < |vs| && vs[i].owner == owner && vs[i].timestamp == r;
      assert c.order[i] in OwnedKeys(c, owner);
    }
  }
}

/** fix_bounds.py: overlay data files whose bounds collapsed to a line or
    a point get the bounds of the asset's raw data file back. */
module FixBounds {
  import opened Records
  import opened ReducePrecision

  /** What `fix_asset_bounds` reads from a `*_raw.json` file. */
  datatype RawBounds = RawBounds(assetId: string, country: string, bounds: Bounds)

  /** An overlay data file: its `bounds` and every other key, kept as read. */
  datatype OverlayDoc = OverlayDoc(bounds: Bounds, others: seq<Field>)

  /** The overlay data file of an asset. */
  function OverlayDataPath(country: string, assetId: string): string {
    "overlays/" + Tag(country, assetId) + "_data.json"
  }

  /** East equals west or north equals south. */
  predicate Degenerate(b: Bounds) {
    b.east == b.west || b.north == b.south
  }

  /** The overlay files, each parsed or holding the error that reading it
      raised, and the number of files rewritten so far. */
  datatype FixState = FixState(overlays: map<string, Result<OverlayDoc>>, fixedCount: nat)

  /** One raw file: an unreadable raw file or a missing or unreadable
      overlay file is skipped; a degenerate overlay gets the raw bounds
      and is counted; any other overlay is left alone. */
  function FixOne(st: FixState, raw: Result<RawBounds>): (r: FixState)
    ensures r.overlays.Keys == st.overlays.Keys
    ensures r.fixedCount == st.fixedCount || r.fixedCount == st.fixedCount + 1
    ensures r.fixedCount == st.fixedCount + 1 <==>
      raw.Ok? && OverlayDataPath(raw.value.country, raw.value.assetId) in st.overlays
      && st.overlays[OverlayDataPath(raw.value.country, raw.value.assetId)].Ok?
      && Degenerate(st.overlays[OverlayDataPath(raw.value.country, raw.value.assetId)].value.bounds)
    ensures r.fixedCount == st.fixedCount ==> r.overlays == st.overlays
    ensures r.fixedCount == st.fixedCount + 1 ==>
      var path := OverlayDataPath(raw.value.country, raw.value.assetId);
      r.overlays == st.overlays[path := Ok(st.overlays[path].value.(bounds := raw.value.bounds))]
  {
    match raw
    case Err(_) => st
    case Ok(rb) =>
      var path := OverlayDataPath(rb.country, rb.assetId);
      if path !in st.overlays then st
      else match st.overlays[path]
        case Err(_) => st
        case Ok(doc) =>
          if Degenerate(doc.bounds) then
            FixState(st.overlays[path := Ok(doc.(bounds := rb.bounds))], st.fixedCount + 1)
          else st
  }

  /** The loop over the raw files, in glob order. */
  function FixAll(overlays: map<string, Result<OverlayDoc>>, raws: seq<Result<RawBounds>>): (r: FixState)
    ensures r.overlays.Keys == overlays.Keys && r.fixedCount <= |raws|
  {
    if |raws| == 0 then FixState(overlays, 0)
    else FixOne(FixAll(overlays, raws[..|raws| - 1]), raws[|raws| - 1])
  }

  /** `fix_asset_bounds`: the overlay files rewrite in place and
      `fixed_count` counts the rewrites. */
  method FixAssetBounds(overlays: map<string, Result<OverlayDoc>>, raws: seq<Result<RawBounds>>)
    returns (updated: map<string, Result<OverlayDoc>>, fixedCount: nat)
    ensures FixState(updated, fixedCount) == FixAll(overlays, raws)
  {
    updated, fixedCount := overlays, 0;
    for k := 0 to |raws|
      invariant FixState(updated, fixedCount) == FixAll(overlays, raws[..k])
    {
      assert raws[..k + 1][..k] == raws[..k];
      if raws[k].Err? {
        continue;
      }
      var raw := raws[k].value;
      var path := OverlayDataPath(raw.country, raw.assetId);
      if path !in updated {
        continue;
      }
      if updated[path].Err? {
        continue;
      }
      var doc := updated[path].value;
      if doc.bounds.east == doc.bounds.west || doc.bounds.north == doc.bounds.south {
        updated := updated[path := Ok(doc.(bounds := raw.bounds))];
        fixedCount := fixedCount + 1;
      }
    }
    assert raws[..|raws|] == raws;
  }

  /** Every file keeps its readability and all keys but `bounds`; a file
      whose bounds change had degenerate bounds and got those of a raw
      file naming its asset. */
  lemma {:induction false} FixOnlyRepairsBounds(overlays: map<string, Result<OverlayDoc>>, raws: seq<Result<RawBounds>>)
    ensures var st := FixAll(overlays, raws);
      forall p :: p in overlays ==>
           st.overlays[p].Ok? == overlays[p].Ok?
           && (overlays[p].Ok? ==>
                 st.overlays[p].value.others == overlays[p].value.others
                 && (st.overlays[p].value.bounds != overlays[p].value.bounds ==>
                       Degenerate(overlays[p].value.bounds)
                       && exists k :: 0 <= k < |raws| && raws[k].Ok?
                            && OverlayDataPath(raws[k].value.country, raws[k].value.assetId) == p
                            && st.overlays[p].value.bounds == raws[k].value.bounds))
  {
    if |raws| > 0 {
      var init := raws[..|raws| - 1];
      FixOnlyRepairsBounds(overlays, init);
      var prev := FixAll(overlays, init);
      var raw := raws[|raws| - 1];
      assert FixAll(overlays, raws) == FixOne(prev, raw);
      forall k | 0 <= k < |init| ensures raws[k] == init[k] { }
      var st := FixOne(prev, raw);
      forall p | p in overlays && overlays[p].Ok? && st.overlays[p].value.bounds != overlays[p].value.bounds
        ensures Degenerate(overlays[p].value.bounds)
        ensures exists k :: 0 <= k < |raws| && raws[k].Ok?
                  && OverlayDataPath(raws[k].value.country, raws[k].value.assetId) == p
                  && st.overlays[p].value.bounds == raws[k].value.bounds
      {
        if st.fixedCount == prev.fixedCount + 1 && p == OverlayDataPath(raw.value.country, raw.value.assetId) {
          var k := |raws| - 1;
          assert raws[k].Ok? && st.overlays[p].value.bounds == raws[k].value.bounds;
          if prev.overlays[p].value.bounds != overlays[p].value.bounds {
            assert Degenerate(overlays[p].value.bounds);
          } else {
            assert Degenerate(prev.overlays[p].value.bounds);
          }
        } else {
          assert st.overlays[p] == prev.overlays[p];
        }
      }
    }
  }

  /** An overlay whose bounds are not degenerate is never rewritten. */
  lemma {:induction false} SoundOverlaysUntouched(overlays: map<string, Result<OverlayDoc>>, raws: seq<Result<RawBounds>>, p: string)
    requires p in overlays && overlays[p].Ok? && !Degenerate(overlays[p].value.bounds)
    ensures p in FixAll(overlays, raws).overlays && FixAll(overlays, raws).overlays[p] == overlays[p]
  {
    if |raws| > 0 {
      SoundOverlaysUntouched(overlays, raws[..|raws| - 1], p);
    }
  }

  /** An overlay file named by a readable raw file with sound bounds has
      sound bounds after the pass. */
  lemma {:induction false} NamedOverlaysRepaired(overlays: map<string, Result<OverlayDoc>>, raws: seq<Result<RawBounds>>, k: nat)
    requires k < |raws| && raws[k].Ok? && !Degenerate(raws[k].value.bounds)
    requires OverlayDataPath(raws[k].value.country, raws[k].value.assetId) in overlays
    requires overlays[OverlayDataPath(raws[k].value.country, raws[k].value.assetId)].Ok?
    ensures var p := OverlayDataPath(raws[k].value.country, raws[k].value.assetId);
      FixAll(overlays, raws).overlays[p].Ok? && !Degenerate(FixAll(overlays, raws).overlays[p].value.bounds)
  {
    var p := OverlayDataPath(raws[k].value.country, raws[k].value.assetId);
    FixOnlyRepairsBounds(overlays, raws);
    if k == |raws| - 1 {
      var prev := FixAll(overlays, raws[..k]);
      FixOnlyRepairsBounds(overlays, raws[..k]);
      assert FixAll(overlays, raws) == FixOne(prev, raws[k]);
    } else {
      var init := raws[..|raws| - 1];
      assert init[k] == raws[k];
      NamedOverlaysRepaired(overlays, init, k);
      FixOnlyRepairsBounds(overlays, init);
      var prev := FixAll(overlays, init);
      assert FixAll(overlays, raws) == FixOne(prev, raws[|raws| - 1]);
    }
  }
}

/**
 * The skybox state of src/skybox.rs: the table of cubemap images, the `Cubemap` resource,
 * the swap timer of `cycle_cubemap_asset` with its cyclic search for the next supported
 * entry, and the `is_loaded` transition of `asset_loaded`.
 *
 * Assets are named by handles; what the asset server reports for a handle and which
 * compressed formats the render device supports are parameters.
 */
module Skybox {
  import opened Arith

  /** The flags of bevy's `CompressedImageFormats`. */
  datatype FormatFlag = AstcLdr | Bc | Etc2

  /** `CompressedImageFormats::contains`: every flag of `required` is set in `supported` (so `NONE` is always contained). */
  predicate Contains(supported: set<FormatFlag>, required: set<FormatFlag>) {
    required <= supported
  }

  /** One row of `CUBEMAPS`: an image path and the compressed formats it needs. */
  datatype CubemapEntry = CubemapEntry(path: string, formats: set<FormatFlag>)

  /** `CUBEMAPS`: one uncompressed image. */
  const Cubemaps: seq<CubemapEntry> := [CubemapEntry("textures/skybox/cubemap2.png", {})]

  /** `CUBEMAP_SWAP_DELAY`, in seconds. */
  const SwapDelay: real := 3.0

  /** `Handle<Image>`: the asset server hands out one handle per path. */
  datatype Handle = Handle(path: string)

  /** bevy's `LoadState`. */
  datatype LoadState = NotLoaded | Loading | Loaded | Failed

  // ---------------------------------------------------------------------------
  // The cyclic search

  /** The render device can show entry `i`. */
  predicate IsSupported(entries: seq<CubemapEntry>, supported: set<FormatFlag>, i: nat)
    requires i < |entries|
  {
    Contains(supported, entries[i].formats)
  }

  /** The entry `d` steps after `current`, wrapping round the table: `(current + d) % |entries|` for `d <= |entries|`. */
  function Step(entries: seq<CubemapEntry>, current: nat, d: nat): (i: nat)
    requires current < |entries| && d <= |entries|
    ensures i < |entries|
  {
    if current + d < |entries| then current + d else current + d - |entries|
  }

  /**
   * The number of steps the search takes from `current`, counting on from `d`: the first offset
   * in `d..|entries|` whose entry is supported, or `|entries|` when none is.
   */
  function FirstSupported(entries: seq<CubemapEntry>, supported: set<FormatFlag>, current: nat, d: nat): (e: nat)
    requires current < |entries| && 1 <= d <= |entries|
    ensures d <= e <= |entries|
    ensures e < |entries| ==> IsSupported(entries, supported, Step(entries, current, e))
    ensures forall d' :: d <= d' < e ==> !IsSupported(entries, supported, Step(entries, current, d'))
    decreases |entries| - d
  {
    if d == |entries| || IsSupported(entries, supported, Step(entries, current, d)) then d
    else FirstSupported(entries, supported, current, d + 1)
  }

  /** The index `new_index` the search of `cycle_cubemap_asset` ends on. */
  function NextIndex(entries: seq<CubemapEntry>, supported: set<FormatFlag>, current: nat): (n: nat)
    requires current < |entries|
    ensures n < |entries|
  {
    Step(entries, current, FirstSupported(entries, supported, current, 1))
  }

  /** The offsets `1..|entries|-1` reach every entry except `current`, and offset `|entries|` is `current` again. */
  lemma StepReachesOthers(entries: seq<CubemapEntry>, current: nat, i: nat)
    requires current < |entries| && i < |entries|
    ensures Step(entries, current, |entries|) == current
    ensures var d := if current < i then i - current else i + |entries| - current;
            1 <= d <= |entries| && Step(entries, current, d) == i && (d == |entries| <==> i == current)
  {
  }

  /** An offset below `|entries|` never lands on `current`. */
  lemma StepLeavesCurrent(entries: seq<CubemapEntry>, current: nat, d: nat)
    requires current < |entries| && 1 <= d < |entries|
    ensures Step(entries, current, d) != current
  {
  }

  /** The search keeps the index exactly when no entry other than the current one is supported. */
  lemma NextIndexUnchanged(entries: seq<CubemapEntry>, supported: set<FormatFlag>, current: nat)
    requires current < |entries|
    ensures NextIndex(entries, supported, current) == current <==>
            forall i :: 0 <= i < |entries| && i != current ==> !IsSupported(entries, supported, i)
  {
    var e := FirstSupported(entries, supported, current, 1);
    if NextIndex(entries, supported, current) == current {
      if e < |entries| {
        StepLeavesCurrent(entries, current, e);
      }
      forall i | 0 <= i < |entries| && i != current
        ensures !IsSupported(entries, supported, i)
      {
        StepReachesOthers(entries, current, i);
      }
    } else {
      StepReachesOthers(entries, current, current);
      assert e < |entries|;
    }
  }

  /**
   * Otherwise the search lands on the first supported entry after the current one in cyclic
   * order: supported itself, with every entry it passed on the way unsupported.
   */
  lemma NextIndexIsFirstSupported(entries: seq<CubemapEntry>, supported: set<FormatFlag>, current: nat)
    requires current < |entries|
    requires NextIndex(entries, supported, current) != current
    ensures var n := NextIndex(entries, supported, current);
            var dist := if current < n then n - current else n + |entries| - current;
            IsSupported(entries, supported, n) &&
            forall d :: 1 <= d < dist ==> !IsSupported(entries, supported, Step(entries, current, d))
  {
    var n := NextIndex(entries, supported, current);
    var e := FirstSupported(entries, supported, current, 1);
    StepReachesOthers(entries, current, current);
    assert e < |entries|;
    StepReachesOthers(entries, current, n);
    var dist := if current < n then n - current else n + |entries| - current;
    if dist != e {
      // Both offsets lie in 1..|entries|-1 and reach n; the smaller one would leave n behind.
      var lo, hi := if dist < e then dist else e, if dist < e then e else dist;
      StepDistinct(entries, current, lo, hi);
    }
  }

  /** Distinct offsets below `|entries|` reach distinct entries. */
  lemma StepDistinct(entries: seq<CubemapEntry>, current: nat, lo: nat, hi: nat)
    requires current < |entries| && 1 <= lo < hi < |entries|
    ensures Step(entries, current, lo) != Step(entries, current, hi)
  {
  }

  /** With the shipped table the search always ends where it started. */
  lemma ShippedTableNeverSwaps(supported: set<FormatFlag>, current: nat)
    requires current < |Cubemaps|
    ensures NextIndex(Cubemaps, supported, current) == current
  {
    NextIndexUnchanged(Cubemaps, supported, current);
  }

  // ---------------------------------------------------------------------------
  // State

  /** The `Local<f32>` of `cycle_cubemap_asset`: when the next swap is due, `0.0` before the first call. */
  class SwapTimer {
    var nextSwap: real

    constructor ()
      ensures nextSwap == 0.0
    {
      nextSwap := 0.0;
    }
  }

  /** The `Cubemap` resource. */
  class Cubemap {
    var isLoaded: bool
    var index: nat
    var imageHandle: Handle

    /** The state `build_skybox` inserts: the first entry requested, nothing loaded yet. */
    constructor Build(entries: seq<CubemapEntry>)
      requires |entries| > 0
      ensures !isLoaded && index == 0 && imageHandle == Handle(entries[0].path)
    {
      isLoaded := false;
      index := 0;
      imageHandle := Handle(entries[0].path);
    }

    /**
     * `cycle_cubemap_asset` at time `now` with the device formats `supported`: arm the timer on
     * the first call, wait until it is due, then re-arm it and move to the next supported entry,
     * if there is one other than the current.
     */
    method Cycle(now: real, timer: SwapTimer, entries: seq<CubemapEntry>, supported: set<FormatFlag>)
      requires index < |entries|
      modifies this, timer
      ensures index < |entries|
      ensures old(timer.nextSwap) == 0.0 ==>
                timer.nextSwap == now + SwapDelay && unchanged(this)
      ensures old(timer.nextSwap) != 0.0 && now < old(timer.nextSwap) ==>
                timer.nextSwap == old(timer.nextSwap) && unchanged(this)
      ensures old(timer.nextSwap) != 0.0 && now >= old(timer.nextSwap) ==>
                timer.nextSwap == old(timer.nextSwap) + SwapDelay &&
                var n := NextIndex(entries, supported, old(index));
                if n == old(index) then unchanged(this)
                else index == n && imageHandle == Handle(entries[n].path) && !isLoaded
    {
      if timer.nextSwap == 0.0 {
        timer.nextSwap := now + SwapDelay;
        return;
      } else if now < timer.nextSwap {
        return;
      }
      timer.nextSwap := timer.nextSwap + SwapDelay;

      var newIndex := index;
      ghost var steps := 0;
      for s := 0 to |entries|
        modifies {}
        invariant steps == s && newIndex == Step(entries, index, s)
        invariant forall d :: 1 <= d <= s ==> !IsSupported(entries, supported, Step(entries, index, d))
      {
        WrapSucc(newIndex, |entries|);
        newIndex := (newIndex + 1) % |entries|;
        steps := s + 1;
        if Contains(supported, entries[newIndex].formats) {
          break;
        }
      }
      assert newIndex == NextIndex(entries, supported, index) by {
        StepReachesOthers(entries, index, index);
        SearchEndsAt(entries, supported, index, steps);
      }

      if newIndex == index {
        return;
      }

      index := newIndex;
      imageHandle := Handle(entries[index].path);
      isLoaded := false;
    }

    /**
     * `asset_loaded` with the asset server's `loadState` and the skybox components `skyboxes`:
     * once the current image has loaded, point every skybox at it and set `is_loaded`.
     */
    method AssetLoaded(loadState: Handle -> LoadState, skyboxes: array<Handle>)
      modifies this, skyboxes
      ensures index == old(index) && imageHandle == old(imageHandle)
      ensures isLoaded == (old(isLoaded) || loadState(imageHandle) == Loaded)
      ensures !old(isLoaded) && loadState(imageHandle) == Loaded ==>
                forall i :: 0 <= i < skyboxes.Length ==> skyboxes[i] == imageHandle
      ensures old(isLoaded) || loadState(imageHandle) != Loaded ==> skyboxes[..] == old(skyboxes[..])
    {
      if !isLoaded && loadState(imageHandle) == Loaded {
        for i := 0 to skyboxes.Length
          modifies skyboxes
          invariant forall j :: 0 <= j < i ==> skyboxes[j] == imageHandle
        {
          skyboxes[i] := imageHandle;
        }
        isLoaded := true;
      }
    }
  }

  /**
   * The loop stops after `steps` iterations, on an entry that is supported or after the whole
   * table; every offset before it was unsupported. That is where `NextIndex` ends.
   */
  lemma SearchEndsAt(entries: seq<CubemapEntry>, supported: set<FormatFlag>, current: nat, steps: nat)
    requires current < |entries| && 1 <= steps <= |entries|
    requires steps == |entries| || IsSupported(entries, supported, Step(entries, current, steps))
    requires Step(entries, current, |entries|) == current
    requires forall d :: 1 <= d < steps ==> !IsSupported(entries, supported, Step(entries, current, d))
    ensures Step(entries, current, steps) == NextIndex(entries, supported, current)
  {
  }
}

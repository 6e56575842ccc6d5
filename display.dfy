/**
 * Display lookups and the caller-buffer helpers of the display module
 * (hwc/display.c): per-frame contents assignment, the configuration and
 * attribute queries, the display mode and the HDMI test.
 */
module Displays {
  import opened CTypes
  import opened HwcTypes
  import opened Layers

  const EINVAL: int := 22

  // hwcomposer.h display attribute codes
  const HWC_DISPLAY_NO_ATTRIBUTE: u32 := 0
  const HWC_DISPLAY_VSYNC_PERIOD: u32 := 1
  const HWC_DISPLAY_WIDTH: u32 := 2
  const HWC_DISPLAY_HEIGHT: u32 := 3
  const HWC_DISPLAY_DPI_X: u32 := 4
  const HWC_DISPLAY_DPI_Y: u32 := 5

  /** A display index names an attached display. */
  predicate Present(dev: Device, disp: int)
    reads dev
  {
    0 <= disp <= MAX_DISPLAY_ID && disp < |dev.displays| && dev.displays[disp] != null
  }

  /** is_hdmi_display: false for a bad index or an absent display, else whether the display's type is HDMI. */
  function IsHdmiDisplay(dev: Device, disp: int): (r: bool)
    reads dev, dev.displays
    ensures r ==> Present(dev, disp)
    ensures Present(dev, disp) ==> (r <==> dev.displays[disp].dispType == DispTypeHdmi)
  {
    if disp < 0 || disp > MAX_DISPLAY_ID || disp >= |dev.displays| || dev.displays[disp] == null then false
    else dev.displays[disp].dispType == DispTypeHdmi
  }

  /**
   * get_display_mode: INVALID for a bad index or an absent display, and
   * LEGACY otherwise; the early return for external displays makes the
   * layer-stack comparison that would give PRESENTATION unreachable.
   */
  function GetDisplayMode(dev: Device, disp: int): (m: DispMode)
    reads dev
    ensures m == DispModeInvalid <==> !Present(dev, disp)
    ensures m != DispModePresentation
  {
    if disp < 0 || disp > MAX_DISPLAY_ID || disp >= |dev.displays| || dev.displays[disp] == null then DispModeInvalid
    else if disp == HWC_DISPLAY_PRIMARY then DispModeLegacy
    else DispModeLegacy
  }

  /**
   * get_display_configs. configs and numConfigs are the caller's pointers
   * (null / None for NULL); the request size *numConfigs is the capacity of
   * configs. Only the primary display answers; after the checks the
   * first min(num_configs, *numConfigs) slots get the config indices and
   * the count is written back.
   */
  method GetDisplayConfigs(dev: Device, disp: int, configs: array?<u32>, numConfigs: Option<nat>)
    returns (rc: int, numOut: Option<nat>)
    requires configs != null && numConfigs.Some? ==> numConfigs.value <= configs.Length
    requires Present(dev, disp) ==> |dev.displays[disp].configs| < U32_LIMIT
    modifies configs
    ensures rc == 0 || rc == -EINVAL
    ensures disp != HWC_DISPLAY_PRIMARY || numConfigs.None? ==> rc == -EINVAL
    ensures disp == HWC_DISPLAY_PRIMARY && numConfigs == Some(0) ==> rc == 0
    ensures disp == HWC_DISPLAY_PRIMARY && numConfigs.Some? && numConfigs.value > 0 ==>
              (rc == -EINVAL <==> configs == null || !Present(dev, disp))
    ensures rc != 0 || numConfigs == Some(0) ==> numOut == numConfigs && (configs != null ==> configs[..] == old(configs[..]))
    ensures rc == 0 && numConfigs != Some(0) ==>
              && configs != null && Present(dev, disp)
              && var n := Min(|dev.displays[disp].configs|, numConfigs.value);
              && numOut == Some(n)
              && (forall c :: 0 <= c < n ==> configs[c] == c)
              && configs[n..] == old(configs[n..])
  {
    numOut := numConfigs;
    if disp != HWC_DISPLAY_PRIMARY {
      return -EINVAL, numOut;
    }
    if numConfigs.None? {
      return -EINVAL, numOut;
    }
    if numConfigs.value == 0 {
      return 0, numOut;
    }
    if configs == null || disp < 0 || disp > MAX_DISPLAY_ID || disp >= |dev.displays| || dev.displays[disp] == null {
      return -EINVAL, numOut;
    }
    var display := dev.displays[disp];
    var num := |display.configs|;
    if num > numConfigs.value {
      num := numConfigs.value;
    }
    var c := 0;
    while c < num
      invariant 0 <= c <= num
      invariant forall j :: 0 <= j < c ==> configs[j] == j
      invariant configs[c..] == old(configs[c..])
    {
      configs[c] := c;
      c := c + 1;
    }
    numOut := Some(num);
    rc := 0;
  }

  /** The value get_display_attributes writes for an attribute code, or None for a code it skips. */
  function AttributeValue(config: DisplayConfig, attribute: u32): (v: Option<int>)
    requires attribute == HWC_DISPLAY_VSYNC_PERIOD ==> config.fps != 0
    ensures v.None? <==> attribute !in {HWC_DISPLAY_VSYNC_PERIOD, HWC_DISPLAY_WIDTH, HWC_DISPLAY_HEIGHT,
                                         HWC_DISPLAY_DPI_X, HWC_DISPLAY_DPI_Y}
    ensures attribute == HWC_DISPLAY_WIDTH ==> v == Some(config.xres)
    ensures attribute == HWC_DISPLAY_HEIGHT ==> v == Some(config.yres)
    ensures attribute == HWC_DISPLAY_DPI_X ==> v == Some(1000 * config.xdpi)
    ensures attribute == HWC_DISPLAY_DPI_Y ==> v == Some(1000 * config.ydpi)
    ensures attribute == HWC_DISPLAY_VSYNC_PERIOD && config.fps > 0 ==> v == Some(1000000000 / config.fps)
  {
    if attribute == HWC_DISPLAY_VSYNC_PERIOD then Some(CDiv(1000000000, config.fps))
    else if attribute == HWC_DISPLAY_WIDTH then Some(config.xres)
    else if attribute == HWC_DISPLAY_HEIGHT then Some(config.yres)
    else if attribute == HWC_DISPLAY_DPI_X then Some(1000 * config.xdpi)
    else if attribute == HWC_DISPLAY_DPI_Y then Some(1000 * config.ydpi)
    else None
  }

  /**
   * What a caller of get_display_attributes guarantees: the attribute list
   * is terminated by NO_ATTRIBUTE at index term, the value array has a slot
   * for each attribute before it, and VSYNC is asked only of a config with a
   * non-zero frame rate.
   */
  predicate AttributeQuery(attributes: seq<u32>, valuesLength: nat, term: nat, config: DisplayConfig)
  {
    && term < |attributes| && attributes[term] == HWC_DISPLAY_NO_ATTRIBUTE
    && (forall j :: 0 <= j < term ==> attributes[j] != HWC_DISPLAY_NO_ATTRIBUTE)
    && term <= valuesLength
    && (config.fps == 0 ==> forall j :: 0 <= j < term ==> attributes[j] != HWC_DISPLAY_VSYNC_PERIOD)
  }

  /**
   * get_display_attributes: nothing happens for NULL arrays, -EINVAL for a
   * bad or absent display or an out-of-range config; otherwise the walk up
   * to NO_ATTRIBUTE writes each known attribute's value into the slot of the
   * same position and leaves the others untouched.
   */
  method GetDisplayAttributes(dev: Device, disp: int, cfg: u32, attributes: array?<u32>, values: array?<int>,
                              ghost term: nat)
    returns (rc: int)
    requires attributes != null && values != null && Present(dev, disp) && cfg < |dev.displays[disp].configs| ==>
               AttributeQuery(attributes[..], values.Length, term, dev.displays[disp].configs[cfg])
    modifies values
    ensures attributes == null || values == null ==> rc == 0
    ensures attributes != null && values != null ==>
              (rc == -EINVAL <==> !Present(dev, disp) || cfg >= |dev.displays[disp].configs|)
    ensures rc == 0 || rc == -EINVAL
    ensures rc != 0 || attributes == null || values == null ==> values == null || values[..] == old(values[..])
    ensures rc == 0 && attributes != null && values != null ==>
              var config := dev.displays[disp].configs[cfg];
              && (forall j :: 0 <= j < term ==>
                    values[j] == match AttributeValue(config, attributes[j])
                                 case Some(v) => v
                                 case None => old(values[j]))
              && values[term..] == old(values[term..])
  {
    if attributes == null || values == null {
      return 0;
    }
    if disp < 0 || disp > MAX_DISPLAY_ID || disp >= |dev.displays| || dev.displays[disp] == null {
      return -EINVAL;
    }
    var display := dev.displays[disp];
    if cfg >= |display.configs| {
      return -EINVAL;
    }
    var config := display.configs[cfg];
    var k := 0;
    while attributes[k] != HWC_DISPLAY_NO_ATTRIBUTE
      invariant 0 <= k <= term
      invariant AttributeQuery(attributes[..], values.Length, term, config)
      invariant forall j :: 0 <= j < k ==>
                  values[j] == match AttributeValue(config, attributes[j])
                               case Some(v) => v
                               case None => old(values[j])
      invariant values[k..] == old(values[k..])
      decreases term - k
    {
      var v := AttributeValue(config, attributes[k]);
      if v.Some? {
        values[k] := v.value;
      }
      k := k + 1;
    }
    assert k == term;
    rc := 0;
  }

  /**
   * set_display_contents: the display count is clamped to MAX_DISPLAYS;
   * each attached display below the clamp takes its list and gathers its
   * statistics; each attached display at or past it gets NULL contents and
   * keeps its statistics. A list given to one or more of the gathered
   * displays is rewritten once (rewriting is idempotent), every other list
   * is untouched, and no other field changes.
   */
  method SetDisplayContents(dev: Device, numDisplays: nat, lists: seq<Contents?>) returns (rc: int)
    requires dev.Valid()
    requires Min(numDisplays, MAX_DISPLAYS) <= |lists|
    modifies dev.displays`contents, dev.displays`layerStats, lists`hwLayers
    ensures rc == 0
    ensures forall j :: 0 <= j < MAX_DISPLAYS && dev.displays[j] != null ==>
              if j < Min(numDisplays, MAX_DISPLAYS) then
                dev.displays[j].contents == lists[j] &&
                dev.displays[j].layerStats == StatsOf(DeviceLayerCtx(dev), old(Snapshot(lists[j])))
              else
                dev.displays[j].contents == null && dev.displays[j].layerStats == old(dev.displays[j].layerStats)
    ensures forall k :: 0 <= k < |lists| && lists[k] != null ==>
              lists[k].hwLayers == if Gathered(dev.displays, lists, Min(numDisplays, MAX_DISPLAYS), lists[k])
                                   then NormalizedAll(old(lists[k].hwLayers)) else old(lists[k].hwLayers)
  {
    var ctx := DeviceLayerCtx(dev);
    var n := numDisplays;
    if n > MAX_DISPLAYS {
      n := MAX_DISPLAYS;
    }
    GatherDisplays(ctx, dev, n, lists);
    ClearContents(dev, n);
    rc := 0;
  }

  /** Whether list l is the list of an attached display below index i. */
  ghost predicate Gathered(ds: seq<Display?>, lists: seq<Contents?>, i: nat, l: Contents)
  {
    exists j :: 0 <= j < i && j < |ds| && j < |lists| && ds[j] != null && lists[j] == l
  }

  /** The first loop of set_display_contents, over the displays below the clamp n. */
  method GatherDisplays(ctx: LayerCtx, dev: Device, n: nat, lists: seq<Contents?>)
    requires dev.Valid()
    requires n <= MAX_DISPLAYS && n <= |lists|
    modifies dev.displays`contents, dev.displays`layerStats, lists`hwLayers
    ensures forall j :: 0 <= j < MAX_DISPLAYS && dev.displays[j] != null ==>
              if j < n then
                dev.displays[j].contents == lists[j] && dev.displays[j].layerStats == StatsOf(ctx, old(Snapshot(lists[j])))
              else
                dev.displays[j].contents == old(dev.displays[j].contents) &&
                dev.displays[j].layerStats == old(dev.displays[j].layerStats)
    ensures forall k :: 0 <= k < |lists| && lists[k] != null ==>
              lists[k].hwLayers == if Gathered(dev.displays, lists, n, lists[k])
                                   then NormalizedAll(old(lists[k].hwLayers)) else old(lists[k].hwLayers)
  {
    ghost var ds := dev.displays;
    ghost var orig := Snapshots(lists);
    var i := 0;
    while i < n
      invariant 0 <= i <= n
      invariant forall j :: 0 <= j < MAX_DISPLAYS && ds[j] != null ==>
                  if j < i then ds[j].contents == lists[j] && ds[j].layerStats == StatsOf(ctx, orig[j])
                  else ds[j].contents == old(ds[j].contents) && ds[j].layerStats == old(ds[j].layerStats)
      invariant ListsAt(ds, lists, orig, Snapshots(lists), i)
    {
      GatherSlot(ctx, dev, lists, i, orig);
      i := i + 1;
    }
  }

  /** One pass of the first loop: display i, when attached, takes and gathers its list. */
  method GatherSlot(ctx: LayerCtx, dev: Device, lists: seq<Contents?>, i: nat, ghost orig: seq<seq<Layer>>)
    requires dev.Valid() && i < MAX_DISPLAYS && i < |lists|
    requires ListsAt(dev.displays, lists, orig, Snapshots(lists), i)
    modifies dev.displays`contents, dev.displays`layerStats, lists`hwLayers
    ensures forall j :: 0 <= j < MAX_DISPLAYS && j != i && dev.displays[j] != null ==>
              dev.displays[j].contents == old(dev.displays[j].contents) &&
              dev.displays[j].layerStats == old(dev.displays[j].layerStats)
    ensures dev.displays[i] != null ==>
              dev.displays[i].contents == lists[i] && dev.displays[i].layerStats == StatsOf(ctx, orig[i])
    ensures ListsAt(dev.displays, lists, orig, Snapshots(lists), i + 1)
  {
    var d := dev.displays[i];
    if d != null {
      ghost var before := Snapshots(lists);
      ShowList(ctx, d, lists[i], before[i]);
      StatsOfNormalized(ctx, orig[i]);
      ShownListsAt(dev.displays, lists, orig, before, Snapshots(lists), i);
    } else {
      NoListShownAt(dev.displays, lists, orig, Snapshots(lists), i);
    }
  }

  /** The layers of a list ([] for NULL). */
  ghost function Snapshot(l: Contents?): seq<Layer>
    reads l
  {
    if l == null then [] else l.hwLayers
  }

  /** The layers of every list of the caller's array. */
  ghost function Snapshots(lists: seq<Contents?>): (r: seq<seq<Layer>>)
    reads lists
    ensures |r| == |lists| && forall k :: 0 <= k < |lists| ==> r[k] == Snapshot(lists[k])
  {
    seq(|lists|, k requires 0 <= k < |lists| reads lists => Snapshot(lists[k]))
  }

  /**
   * The lists after gathering the displays below i, as layer values: given
   * the original layers orig, a list gathered at least once holds them
   * normalized, any other holds them as they were. Two slots naming one
   * list had the same original layers.
   */
  ghost predicate ListsAt(ds: seq<Display?>, lists: seq<Contents?>, orig: seq<seq<Layer>>, cur: seq<seq<Layer>>, i: nat)
  {
    && |orig| == |lists| == |cur|
    && (forall k :: 0 <= k < |lists| && lists[k] == null ==> orig[k] == [])
    && (forall k, k' :: 0 <= k < |lists| && 0 <= k' < |lists| && lists[k] == lists[k'] ==> orig[k] == orig[k'])
    && (forall k :: 0 <= k < |lists| && lists[k] != null ==>
          cur[k] == if Gathered(ds, lists, i, lists[k]) then NormalizedAll(orig[k]) else orig[k])
  }

  /**
   * Gathering the attached display i rewrites its list (and every slot
   * naming the same list) to the normalized original layers, so the lists
   * are as ListsAt describes for i + 1.
   */
  lemma ShownListsAt(ds: seq<Display?>, lists: seq<Contents?>, orig: seq<seq<Layer>>, before: seq<seq<Layer>>,
                     after: seq<seq<Layer>>, i: nat)
    requires i < |ds| && i < |lists| && ds[i] != null
    requires ListsAt(ds, lists, orig, before, i) && |after| == |lists|
    requires lists[i] == null ==> after == before
    requires lists[i] != null ==> forall k :: 0 <= k < |lists| ==>
               after[k] == if lists[k] == lists[i] then NormalizedAll(before[i]) else before[k]
    ensures ListsAt(ds, lists, orig, after, i + 1)
  {
    forall k | 0 <= k < |lists| && lists[k] != null
      ensures after[k] == if Gathered(ds, lists, i + 1, lists[k]) then NormalizedAll(orig[k]) else orig[k]
    {
      if lists[k] == lists[i] {
        assert Gathered(ds, lists, i + 1, lists[k]) by { assert ds[i] != null && lists[i] == lists[k]; }
        NormalizedAllIdempotent(orig[i]);
      } else {
        GatheredStep(ds, lists, i, lists[k]);
      }
    }
  }

  /** Past a detached display (or a NULL list) the set of gathered lists is unchanged. */
  lemma NoListShownAt(ds: seq<Display?>, lists: seq<Contents?>, orig: seq<seq<Layer>>, cur: seq<seq<Layer>>, i: nat)
    requires i < |ds| && i < |lists| && ds[i] == null
    requires ListsAt(ds, lists, orig, cur, i)
    ensures ListsAt(ds, lists, orig, cur, i + 1)
  {
    forall k | 0 <= k < |lists| && lists[k] != null
      ensures Gathered(ds, lists, i + 1, lists[k]) == Gathered(ds, lists, i, lists[k])
    {
      GatheredStep(ds, lists, i, lists[k]);
    }
  }

  /** A list is gathered below i + 1 exactly when it is gathered below i or is the list of attached display i. */
  lemma GatheredStep(ds: seq<Display?>, lists: seq<Contents?>, i: nat, l: Contents)
    requires i < |ds| && i < |lists|
    ensures Gathered(ds, lists, i + 1, l) <==> Gathered(ds, lists, i, l) || (ds[i] != null && lists[i] == l)
  {
    if Gathered(ds, lists, i + 1, l) && !(ds[i] != null && lists[i] == l) {
      var j :| 0 <= j < i + 1 && j < |ds| && j < |lists| && ds[j] != null && lists[j] == l;
      assert j < i;
    }
  }

  /** One display of set_display_contents below the clamp: take the list and gather its statistics. */
  method ShowList(ctx: LayerCtx, display: Display, list: Contents?, ghost orig: seq<Layer>)
    requires orig == if list == null then [] else list.hwLayers
    modifies display`contents, display`layerStats, {list}`hwLayers
    ensures display.contents == list
    ensures display.layerStats == StatsOf(ctx, orig)
    ensures list != null ==> list.hwLayers == NormalizedAll(orig)
  {
    display.contents := list;
    var stats := GatherLayerStatistics(ctx, list);
    display.layerStats := stats;
  }

  /** The second loop of set_display_contents: every attached display from index `from` on gets NULL contents. */
  method ClearContents(dev: Device, from: nat)
    requires dev.Valid()
    modifies dev.displays`contents
    ensures forall j :: 0 <= j < MAX_DISPLAYS && dev.displays[j] != null ==>
              dev.displays[j].contents == if j < from then old(dev.displays[j].contents) else null
  {
    var i := from;
    while i < MAX_DISPLAYS
      invariant forall j :: 0 <= j < MAX_DISPLAYS && dev.displays[j] != null ==>
                  dev.displays[j].contents == if j < from || j >= i then old(dev.displays[j].contents) else null
    {
      if dev.displays[i] != null {
        dev.displays[i].contents := null;
      }
      i := i + 1;
    }
  }
}

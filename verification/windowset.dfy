/** WindowSet: the windows that show one image (main and zoom image windows,
    histogram, spectral plot, and one band-stats plot per region on request),
    the per-channel stretch of the image, and the handlers that keep them in
    step. Calls on the windows and the image come back as a trace of WsEffect
    values, in the order the code makes them. */
module WindowSets {
  import opened Base
  import PyDict
  import Regions

  datatype ImageKind = GreyImage | RgbImage

  /** Low and high cutoff of one channel; None is the image's default. */
  datatype Stretch = Stretch(low: Option<int>, high: Option<int>)

  datatype Win = MainWin | ZoomWin | HistogramWin | PlotWin | StatsWin(id: nat)

  /** Which window a WindowCloseEvent names, relative to this window set. */
  datatype CloseSource = FromMain | FromZoom | FromElsewhere

  datatype WsEffect =
    | Disconnect(w: Win)             // closed.disconnect(self.__handle_image_closed)
    | Close(w: Win)                  // w.close()
    | EmitClosed                     // self.closed.emit(...)
    | Adjust                         // self.__image.adjust()
    | Refresh(w: Win)                // w.refresh_image()
    | PushRaw(c: Channel)            // histogram window update_limits(raw, c)
    | PushAdjusted(c: Channel)       // histogram window set_adjusted_data(adjusted, c)
    | OpenStats(id: nat, title: string)
    | Retitle(id: nat, title: string)
    | RemoveRegions(w: Win)          // w.remove_all_regions()

  datatype WindowSet = WindowSet(
    file: string,                    // name of the file the image comes from
    kind: ImageKind,
    imagesOpen: bool,                // main and zoom window references are set
    mainLinked: bool,                // main window's closed signal reaches this set
    zoomLinked: bool,                // zoom window's closed signal reaches this set
    histogramOpen: bool,
    plotOpen: bool,
    stats: PyDict.Dict<RegionId, nat>,  // __band_stats_windows: region -> window id
    nextStats: nat,                  // id of the next band-stats window
    stretch: map<Channel, Stretch>)  // cutoffs set away from the default

  datatype WsReply = WsReply(next: WindowSet, effects: seq<WsEffect>, raised: Option<PyError>)

  /** A new window set: every window open and connected, no band-stats windows,
      default stretch. */
  function Create(file: string, kind: ImageKind): (ws: WindowSet)
    ensures Fresh(ws) && ws.imagesOpen && ws.histogramOpen && ws.plotOpen && ws.stats == []
    ensures ws.mainLinked && ws.zoomLinked
    ensures ws.file == file && ws.kind == kind && ws.nextStats == 0
    ensures forall c :: StretchOf(ws.stretch, c) == Stretch(None, None)
  {
    WindowSet(file, kind, true, true, true, true, true, [], 0, map[])
  }

  /** The band-stats bookkeeping is sound: keys distinct, every tracked window
      id issued already and none tracked twice. */
  ghost predicate Fresh(ws: WindowSet) {
    && PyDict.Valid(ws.stats)
    && PyDict.DistinctValues(ws.stats)
    && forall id: nat :: PyDict.HasValue(ws.stats, id) ==> id < ws.nextStats
  }

  /** "Region: {name}", the band-stats plot title. */
  function Title(name: Option<string>): string {
    "Region: " + Regions.Shown(name)
  }

  /** The channels whose histograms an image has. */
  function Channels(kind: ImageKind): seq<Channel> {
    match kind
    case RgbImage => [Red, Green, Blue]
    case GreyImage => [Grey]
  }

  /** The current stretch of a channel. */
  function StretchOf(s: map<Channel, Stretch>, c: Channel): Stretch {
    if c in s then s[c] else Stretch(None, None)
  }

  /** Closing every band-stats window with `popitem()`: most recent first. */
  function CloseAll(d: PyDict.Dict<RegionId, nat>): (es: seq<WsEffect>)
    ensures |es| == |d|
    ensures forall i :: 0 <= i < |d| ==> es[i] == Close(StatsWin(d[|d| - 1 - i].1))
  {
    if |d| == 0 then [] else [Close(StatsWin(d[|d| - 1].1))] + CloseAll(d[..|d| - 1])
  }

  /** The image-window part of `__handle_image_closed`: the window that did
      not report is disconnected, then closed, and both references dropped. */
  function ImageWindowsClosed(ws: WindowSet, src: CloseSource): (p: (WindowSet, seq<WsEffect>))
    ensures |p.1| <= 2 && forall e :: e in p.1 ==>
      e in [Disconnect(MainWin), Disconnect(ZoomWin), Close(MainWin), Close(ZoomWin)]
    ensures p.0.histogramOpen == ws.histogramOpen && p.0.plotOpen == ws.plotOpen
  {
    if src == FromMain && ws.imagesOpen then
      (ws.(zoomLinked := false, imagesOpen := false), [Disconnect(ZoomWin), Close(ZoomWin)])
    else if src == FromZoom && ws.imagesOpen then
      (ws.(mainLinked := false, imagesOpen := false), [Disconnect(MainWin), Close(MainWin)])
    else (ws, [])
  }

  /** Closing the histogram and spectral-plot windows that are still open. */
  function ToolsClosed(ws: WindowSet): (es: seq<WsEffect>)
    ensures ws.histogramOpen <==> Close(HistogramWin) in es
    ensures ws.plotOpen <==> Close(PlotWin) in es
    ensures forall e :: e in es ==> e == Close(HistogramWin) || e == Close(PlotWin)
  {
    (if ws.histogramOpen then [Close(HistogramWin)] else [])
      + (if ws.plotOpen then [Close(PlotWin)] else [])
  }

  /** `__handle_image_closed`: the image windows, then the histogram and
      spectral-plot windows, then every band-stats window are closed, and
      `closed` is emitted. */
  function HandleImageClosed(ws: WindowSet, src: CloseSource): (rep: WsReply)
    ensures rep.raised.None?
  {
    var (ws1, head) := ImageWindowsClosed(ws, src);
    WsReply(ws1.(histogramOpen := false, plotOpen := false, stats := []),
            head + ToolsClosed(ws) + CloseAll(ws.stats) + [EmitClosed], None)
  }

  /** `__handle_region_window_close`: the shared list window closed. Every
      band-stats window is closed and forgotten, then both image windows drop
      their region overlays (raising AttributeError once they are gone). */
  function HandleRegionWindowClose(ws: WindowSet): (rep: WsReply)
    ensures rep.next == ws.(stats := [])
    ensures |rep.effects| >= |ws.stats| && rep.effects[..|ws.stats|] == CloseAll(ws.stats)
    ensures rep.raised.Some? <==> !ws.imagesOpen
    ensures ws.imagesOpen ==> rep.effects[|ws.stats|..] == [RemoveRegions(MainWin), RemoveRegions(ZoomWin)]
  {
    if ws.imagesOpen then
      WsReply(ws.(stats := []), CloseAll(ws.stats) + [RemoveRegions(MainWin), RemoveRegions(ZoomWin)], None)
    else WsReply(ws.(stats := []), CloseAll(ws.stats), Some(AttributeError))
  }

  /** `set_high_cutoff`: the channel's upper cutoff. */
  function SetHigh(s: map<Channel, Stretch>, c: Channel, v: int): map<Channel, Stretch> {
    s[c := StretchOf(s, c).(high := Some(v))]
  }

  /** `set_low_cutoff`: the channel's lower cutoff. */
  function SetLow(s: map<Channel, Stretch>, c: Channel, v: int): map<Channel, Stretch> {
    s[c := StretchOf(s, c).(low := Some(v))]
  }

  /** The image is re-adjusted, then both image windows are refreshed and the
      histogram window gets `tail`; a window that is gone raises
      AttributeError at the first call on it. */
  function Redraw(ws: WindowSet, tail: seq<WsEffect>): (rep: (seq<WsEffect>, Option<PyError>))
    ensures rep.1.None? <==> ws.imagesOpen && ws.histogramOpen
    ensures rep.1.None? ==> rep.0 == [Adjust, Refresh(MainWin), Refresh(ZoomWin)] + tail
    ensures |rep.0| >= 1 && rep.0[0] == Adjust
  {
    if !ws.imagesOpen then ([Adjust], Some(AttributeError))
    else if !ws.histogramOpen then ([Adjust, Refresh(MainWin), Refresh(ZoomWin)], Some(AttributeError))
    else ([Adjust, Refresh(MainWin), Refresh(ZoomWin)] + tail, None)
  }

  /** `__handle_hist_limits_reset`: back to the default stretch, both image
      windows refreshed, raw and adjusted histograms pushed for each channel. */
  function HandleLimitsReset(ws: WindowSet): (rep: WsReply)
    ensures rep.next == ws.(stretch := map[])
    ensures forall c :: StretchOf(rep.next.stretch, c) == Stretch(None, None)
    ensures rep.raised.None? <==> ws.imagesOpen && ws.histogramOpen
    ensures rep.raised.None? ==> |rep.effects| >= 3 && rep.effects[3..] == PushAll(Channels(ws.kind))
  {
    var (es, err) := Redraw(ws, PushAll(Channels(ws.kind)));
    WsReply(ws.(stretch := map[]), es, err)
  }

  /** For each channel in turn: the raw histogram, then the adjusted one. */
  function PushAll(cs: seq<Channel>): (es: seq<WsEffect>)
    ensures |es| == 2 * |cs|
    ensures forall i :: 0 <= i < |cs| ==> es[2 * i] == PushRaw(cs[i]) && es[2 * i + 1] == PushAdjusted(cs[i])
  {
    if |cs| == 0 then [] else [PushRaw(cs[0]), PushAdjusted(cs[0])] + PushAll(cs[1..])
  }

  /** `__handle_hist_limit_change`: the upper cutoff, then the lower one, of the
      event's channel only; nothing happens (but a warning) without either. */
  function HandleLimitChange(ws: WindowSet, band: Channel, upper: Option<int>, lower: Option<int>)
    : (rep: WsReply)
    ensures upper.None? && lower.None? ==> rep == WsReply(ws, [], None)
    ensures rep.next == ws.(stretch := rep.next.stretch)
    ensures forall c :: c != band ==> StretchOf(rep.next.stretch, c) == StretchOf(ws.stretch, c)
    ensures StretchOf(rep.next.stretch, band).high == if upper.Some? then upper else StretchOf(ws.stretch, band).high
    ensures StretchOf(rep.next.stretch, band).low == if lower.Some? then lower else StretchOf(ws.stretch, band).low
    ensures (upper.Some? || lower.Some?) && rep.raised.None? ==>
      rep.effects == [Adjust, Refresh(MainWin), Refresh(ZoomWin), PushAdjusted(band)]
  {
    if upper.None? && lower.None? then WsReply(ws, [], None)
    else
      var s1 := if upper.Some? then SetHigh(ws.stretch, band, upper.value) else ws.stretch;
      var s2 := if lower.Some? then SetLow(s1, band, lower.value) else s1;
      var (es, err) := Redraw(ws, [PushAdjusted(band)]);
      WsReply(ws.(stretch := s2), es, err)
  }

  /** `handle_region_stats`: a new band-stats window, tracked under the region
      (replacing, without closing, one already tracked for it); placing it next
      to the histogram window raises AttributeError once that is gone. */
  function HandleRegionStats(ws: WindowSet, r: RegionId, name: Option<string>): (rep: WsReply)
    ensures rep.effects == [OpenStats(ws.nextStats, Title(name))]
    ensures rep.next.nextStats == ws.nextStats + 1
    ensures rep.raised.Some? <==> !ws.histogramOpen
    ensures PyDict.Valid(ws.stats) ==>
      && PyDict.Valid(rep.next.stats)
      && PyDict.HasKey(rep.next.stats, r) && PyDict.Get(rep.next.stats, r) == ws.nextStats
      && (forall k :: k != r ==> (PyDict.HasKey(rep.next.stats, k) <==> PyDict.HasKey(ws.stats, k)))
      && (forall k :: k != r && PyDict.HasKey(ws.stats, k) ==>
            PyDict.Get(rep.next.stats, k) == PyDict.Get(ws.stats, k))
  {
    var id := ws.nextStats;
    var ws' := ws.(stats := PyDict.Put(ws.stats, r, id), nextStats := id + 1);
    var rep :=
      if ws.histogramOpen then WsReply(ws', [OpenStats(id, Title(name))], None)
      else WsReply(ws', [OpenStats(id, Title(name))], Some(AttributeError));
    if PyDict.Valid(ws.stats) then PyDict.PutSpec(ws.stats, r, id); rep else rep
  }

  /** `__handle_band_stats_closed`: forgets the first region tracking the window. */
  function HandleBandStatsClosed(d: PyDict.Dict<RegionId, nat>, id: nat): (r: PyDict.Dict<RegionId, nat>)
    ensures !PyDict.HasValue(d, id) ==> r == d
    ensures PyDict.Valid(d) && PyDict.HasValue(d, id) ==>
      var i := PyDict.ValueIndex(d, id);
      r == d[..i] + d[i + 1..]
  {
    match PyDict.FindKey(d, id)
    case None => d
    case Some(k) =>
      if PyDict.Valid(d) then
        assert PyDict.IndexOf(d, k) == PyDict.ValueIndex(d, id);
        PyDict.Delete(d, k)
      else PyDict.Delete(d, k)
  }

  /** `handle_region_closed`: closes the region's band-stats window, whose
      `closed` signal untracks it, and deletes the entry if it is still there. */
  function HandleRegionClosed(ws: WindowSet, r: RegionId): (rep: WsReply)
    ensures !PyDict.HasKey(ws.stats, r) ==> rep == WsReply(ws, [], None)
    ensures PyDict.HasKey(ws.stats, r) ==> rep.effects == [Close(StatsWin(PyDict.Get(ws.stats, r)))]
    ensures rep.raised.None?
  {
    if !PyDict.HasKey(ws.stats, r) then WsReply(ws, [], None)
    else
      var id := PyDict.Get(ws.stats, r);
      var d1 := HandleBandStatsClosed(ws.stats, id);
      var d2 := if PyDict.HasKey(d1, r) then PyDict.Delete(d1, r) else d1;
      WsReply(ws.(stats := d2), [Close(StatsWin(id))], None)
  }

  /** `handle_region_name_changed`: retitles the region's band-stats window. */
  function HandleRegionNameChanged(ws: WindowSet, r: RegionId, name: Option<string>): (rep: WsReply)
    ensures rep.next == ws && rep.raised.None?
    ensures PyDict.HasKey(ws.stats, r) ==> rep.effects == [Retitle(PyDict.Get(ws.stats, r), Title(name))]
    ensures !PyDict.HasKey(ws.stats, r) ==> rep.effects == []
  {
    if PyDict.HasKey(ws.stats, r) then WsReply(ws, [Retitle(PyDict.Get(ws.stats, r), Title(name))], None)
    else WsReply(ws, [], None)
  }

  // ---------------------------------------------------------------------
  // Inputs of a window set

  datatype WsInput =
    | ImageClosedInput(src: CloseSource)
    | ListWindowClosedInput
    | LimitsResetInput
    | LimitChangeInput(band: Channel, upper: Option<int>, lower: Option<int>)
    | RegionStatsInput(region: RegionId, name: Option<string>)
    | BandStatsClosedInput(id: nat)
    | RegionClosedInput(region: RegionId)
    | RegionNameInput(region: RegionId, name: Option<string>)

  /** One signal delivered to a window set. */
  function Handle(ws: WindowSet, input: WsInput): (rep: WsReply)
    ensures rep.next.file == ws.file && rep.next.kind == ws.kind
  {
    match input
    case ImageClosedInput(src) => HandleImageClosed(ws, src)
    case ListWindowClosedInput => HandleRegionWindowClose(ws)
    case LimitsResetInput => HandleLimitsReset(ws)
    case LimitChangeInput(band, upper, lower) => HandleLimitChange(ws, band, upper, lower)
    case RegionStatsInput(r, name) => HandleRegionStats(ws, r, name)
    case BandStatsClosedInput(id) => WsReply(ws.(stats := HandleBandStatsClosed(ws.stats, id)), [], None)
    case RegionClosedInput(r) => HandleRegionClosed(ws, r)
    case RegionNameInput(r, name) => HandleRegionNameChanged(ws, r, name)
  }

  // ---------------------------------------------------------------------
  // Properties

  /** The list window closing empties a set's band-stats bookkeeping and
      changes nothing else in it. */
  lemma ListClosedClears(ws: WindowSet)
    ensures Handle(ws, ListWindowClosedInput).next == ws.(stats := [])
  {
  }

  /** Closing an image window emits `closed` exactly once, as the last thing
      the handler does, whichever window the event names. */
  lemma ImageClosedEmitsOnceLast(ws: WindowSet, src: CloseSource)
    ensures var es := HandleImageClosed(ws, src).effects;
      && |es| >= 1 && es[|es| - 1] == EmitClosed
      && forall i :: 0 <= i < |es| - 1 ==> es[i] != EmitClosed
  {
    var head := ImageWindowsClosed(ws, src).1;
    var before := head + ToolsClosed(ws) + CloseAll(ws.stats);
    assert HandleImageClosed(ws, src).effects == before + [EmitClosed];
    assert EmitClosed !in CloseAll(ws.stats);
  }

  /** Before `closed` goes out, every tool window the set knew of is closed:
      the histogram and spectral plot if open, and every tracked band-stats
      window; none of them is left tracked. */
  lemma ImageClosedClosesTools(ws: WindowSet, src: CloseSource)
    ensures var rep := HandleImageClosed(ws, src);
      && (forall id :: PyDict.HasValue(ws.stats, id) ==> Close(StatsWin(id)) in rep.effects)
      && (ws.histogramOpen <==> Close(HistogramWin) in rep.effects)
      && (ws.plotOpen <==> Close(PlotWin) in rep.effects)
      && rep.next.stats == [] && !rep.next.histogramOpen && !rep.next.plotOpen
  {
    var head := ImageWindowsClosed(ws, src).1;
    var tools := ToolsClosed(ws);
    var tail := CloseAll(ws.stats);
    var es := HandleImageClosed(ws, src).effects;
    assert es == head + tools + tail + [EmitClosed];
    forall e | e in es
      ensures e in tools || e in head || e in tail || e == EmitClosed
    {
    }
    assert Close(HistogramWin) !in tail && Close(PlotWin) !in tail by {
      forall i | 0 <= i < |tail|
        ensures tail[i].w.StatsWin?
      {
      }
    }
    forall id | PyDict.HasValue(ws.stats, id)
      ensures Close(StatsWin(id)) in es
    {
      var j :| 0 <= j < |ws.stats| && ws.stats[j].1 == id;
      assert tail[|ws.stats| - 1 - j] == Close(StatsWin(id));
    }
  }

  /** The image window that did not report is disconnected before it is
      closed, so its own close event never reaches the set; an event naming a
      window that is not the set's leaves the image windows alone. */
  lemma ImageClosedImageWindows(ws: WindowSet, src: CloseSource)
    ensures var rep := HandleImageClosed(ws, src);
      && (src == FromElsewhere || !ws.imagesOpen ==>
            rep.next.imagesOpen == ws.imagesOpen
            && rep.next.mainLinked == ws.mainLinked && rep.next.zoomLinked == ws.zoomLinked)
      && (src == FromMain && ws.imagesOpen ==>
            !rep.next.imagesOpen && !rep.next.zoomLinked && rep.next.mainLinked == ws.mainLinked
            && rep.effects[..2] == [Disconnect(ZoomWin), Close(ZoomWin)])
      && (src == FromZoom && ws.imagesOpen ==>
            !rep.next.imagesOpen && !rep.next.mainLinked && rep.next.zoomLinked == ws.zoomLinked
            && rep.effects[..2] == [Disconnect(MainWin), Close(MainWin)])
  {
  }

  /** Every handler keeps the band-stats bookkeeping sound: each region maps
      to at most one window and no window is tracked under two regions. */
  lemma HandleKeepsFresh(ws: WindowSet, input: WsInput)
    requires Fresh(ws)
    ensures Fresh(Handle(ws, input).next)
  {
    match input {
      case RegionStatsInput(r, name) => RegionStatsKeepsFresh(ws, r, name);
      case BandStatsClosedInput(id) => BandStatsClosedKeepsFresh(ws, id);
      case RegionClosedInput(r) => RegionClosedKeepsFresh(ws, r);
      case _ =>
    }
  }

  /** A new band-stats window is tracked under an id no other window holds. */
  lemma RegionStatsKeepsFresh(ws: WindowSet, r: RegionId, name: Option<string>)
    requires Fresh(ws)
    ensures Fresh(HandleRegionStats(ws, r, name).next)
  {
    NextIdUnused(ws);
    PyDict.PutSpec(ws.stats, r, ws.nextStats);
    PyDict.PutNewValue(ws.stats, r, ws.nextStats);
  }

  /** Untracking a closed band-stats window keeps the bookkeeping sound. */
  lemma BandStatsClosedKeepsFresh(ws: WindowSet, id: nat)
    requires Fresh(ws)
    ensures Fresh(ws.(stats := HandleBandStatsClosed(ws.stats, id)))
  {
    match PyDict.FindKey(ws.stats, id) {
      case None =>
      case Some(k) =>
        PyDict.DeleteSpec(ws.stats, k);
        PyDict.DeleteKeepsDistinctValues(ws.stats, k);
    }
  }

  /** Closing a region's band-stats window keeps the bookkeeping sound. */
  lemma RegionClosedKeepsFresh(ws: WindowSet, r: RegionId)
    requires Fresh(ws)
    ensures Fresh(HandleRegionClosed(ws, r).next)
  {
    RegionClosedDeletes(ws, r);
    PyDict.DeleteSpec(ws.stats, r);
    PyDict.DeleteKeepsDistinctValues(ws.stats, r);
  }

  /** On sound bookkeeping, the close-then-untrack dance of
      `handle_region_closed` amounts to `del stats[region]`: the second delete
      never fires. */
  lemma RegionClosedDeletes(ws: WindowSet, r: RegionId)
    requires Fresh(ws)
    ensures HandleRegionClosed(ws, r).next.stats == PyDict.Delete(ws.stats, r)
    ensures !PyDict.HasKey(HandleRegionClosed(ws, r).next.stats, r)
  {
    PyDict.DeleteSpec(ws.stats, r);
    if PyDict.HasKey(ws.stats, r) {
      PyDict.FindKeyUnique(ws.stats, r);
    }
  }

  /** Asking for stats of a region twice replaces the tracked window without
      closing it: the first window is no longer tracked, so neither closing
      the region nor closing the list window will ever close it. */
  lemma RepeatedStatsOrphans(ws: WindowSet, r: RegionId, name: Option<string>)
    requires Fresh(ws) && PyDict.HasKey(ws.stats, r)
    ensures var old_id := PyDict.Get(ws.stats, r);
      var rep := HandleRegionStats(ws, r, name);
      && !PyDict.HasValue(rep.next.stats, old_id)
      && Close(StatsWin(old_id)) !in rep.effects
      && PyDict.HasKey(rep.next.stats, r) && PyDict.Get(rep.next.stats, r) == ws.nextStats
  {
    NextIdUnused(ws);
    PyDict.PutSpec(ws.stats, r, ws.nextStats);
    PyDict.PutNewValue(ws.stats, r, ws.nextStats);
  }

  /** The id the next band-stats window will get is not tracked yet. */
  lemma NextIdUnused(ws: WindowSet)
    requires Fresh(ws)
    ensures !PyDict.HasValue(ws.stats, ws.nextStats)
  {
  }

  /** A reset wipes out whatever limit changes came before it. */
  lemma ResetAfterLimitChange(ws: WindowSet, band: Channel, upper: Option<int>, lower: Option<int>)
    ensures HandleLimitsReset(HandleLimitChange(ws, band, upper, lower).next).next
         == HandleLimitsReset(ws).next
  {
  }

  /** The stretch a limit change leaves does not depend on the windows: the
      cutoffs are set on the image before any window is touched. */
  lemma LimitChangeAppliesEvenWhenClosed(ws: WindowSet, band: Channel, upper: Option<int>, lower: Option<int>)
    ensures HandleLimitChange(ws, band, upper, lower).next.stretch
         == HandleLimitChange(ws.(imagesOpen := true, histogramOpen := true), band, upper, lower).next.stretch
  {
  }
}

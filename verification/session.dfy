/** The pieces wired together as the application wires them: the region
    registry, the file registry, and every window set created so far. Calls
    the registry makes on a region's window set are delivered to that set;
    `window_closed` reaches every window set still open, in the order they were
    created (the order their slots were connected); a window set's `closed`
    takes it off its file's list. */
module Session {
  import opened Base
  import RoiManager
  import WindowSets
  import Files

  datatype Session = Session(
    manager: RoiManager.Manager,
    wm: Files.WindowManager,
    sets: map<WsId, WindowSets.WindowSet>,   // every window set created, open or not
    live: seq<WsId>,                         // the open ones, in creation order
    nextSet: WsId)

  datatype Input =
    | OpenInput(sel: Files.Selection, geometry: WsId -> Files.Rect)
    | ImageClosedInput(id: WsId, src: WindowSets.CloseSource)
    | SetInput(id: WsId, signal: WindowSets.WsInput)
    | RegionInput(action: RoiManager.Input)

  /** What one input did: the new state, the calls made on windows (tagged
      with their window set), the dialogs shown, and the first exception. */
  datatype Outcome = Outcome(
    next: Session,
    calls: seq<(WsId, WindowSets.WsEffect)>,
    prompts: seq<RoiManager.Prompt>,
    raised: Option<PyError>)

  function Start(downloads: string): Session {
    Session(RoiManager.Init(downloads), Files.Empty, map[], [], 0)
  }

  function Tag(id: WsId, es: seq<WindowSets.WsEffect>): (r: seq<(WsId, WindowSets.WsEffect)>)
    ensures |r| == |es| && forall i :: 0 <= i < |es| ==> r[i] == (id, es[i])
  {
    if |es| == 0 then [] else [(id, es[0])] + Tag(id, es[1..])
  }

  function FirstFault(a: Option<PyError>, b: Option<PyError>): Option<PyError> {
    if a.Some? then a else b
  }

  /** What delivering calls to window sets did: the sets afterwards, the calls
      they made on their windows, and the first exception. */
  datatype Delivery = Delivery(sets: map<WsId, WindowSets.WindowSet>,
                               calls: seq<(WsId, WindowSets.WsEffect)>,
                               fault: Option<PyError>)

  /** Two deliveries one after the other. */
  function Then(d1: Delivery, d2: Delivery): Delivery {
    Delivery(d2.sets, d1.calls + d2.calls, FirstFault(d1.fault, d2.fault))
  }

  /** One signal or call delivered to one window set; a handle no window set
      has is a no-op. */
  function Send(sets: map<WsId, WindowSets.WindowSet>, id: WsId, input: WindowSets.WsInput)
    : (d: Delivery)
    ensures d.sets.Keys == sets.Keys
    ensures forall o :: o in sets && o != id ==> d.sets[o] == sets[o]
    ensures id in sets ==> d.sets[id] == WindowSets.Handle(sets[id], input).next
    ensures forall o :: o in sets ==> d.sets[o].file == sets[o].file
  {
    if id in sets then
      var rep := WindowSets.Handle(sets[id], input);
      Delivery(sets[id := rep.next], Tag(id, rep.effects), rep.raised)
    else Delivery(sets, [], None)
  }

  /** `window_closed.emit()`: each listed window set runs its handler in turn. */
  function Broadcast(sets: map<WsId, WindowSets.WindowSet>, ids: seq<WsId>): (d: Delivery)
    ensures d.sets.Keys == sets.Keys
    ensures forall id :: id in sets && id in ids ==> d.sets[id] == sets[id].(stats := [])
    ensures forall id :: id in sets && id !in ids ==> d.sets[id] == sets[id]
    ensures forall o :: o in sets ==> d.sets[o].file == sets[o].file
  {
    if |ids| == 0 then Delivery(sets, [], None)
    else
      var d1 := Send(sets, ids[0], WindowSets.ListWindowClosedInput);
      assert forall id :: id in sets ==> d1.sets[id] == if id == ids[0] then sets[id].(stats := []) else sets[id] by {
        if ids[0] in sets { WindowSets.ListClosedClears(sets[ids[0]]); }
      }
      var d2 := Broadcast(d1.sets, ids[1..]);
      assert forall id :: id in ids <==> id == ids[0] || id in ids[1..];
      Then(d1, d2)
  }

  /** One call of the registry, carried out on the window set it names. */
  function Deliver(sets: map<WsId, WindowSets.WindowSet>, live: seq<WsId>, e: RoiManager.Effect)
    : (d: Delivery)
    ensures d.sets.Keys == sets.Keys
    ensures forall o :: o in sets ==> d.sets[o].file == sets[o].file
    ensures e.RenameIn? || e.StatsIn? || e.CloseIn? ==>
      forall o :: o in sets && o != e.owner ==> d.sets[o] == sets[o]
    ensures e.Export? ==> d.sets == sets
    ensures e.ListClosed? ==> d == Broadcast(sets, live)
  {
    match e
    case RenameIn(o, region, name) => Send(sets, o, WindowSets.RegionNameInput(region, name))
    case StatsIn(o, region, name) => Send(sets, o, WindowSets.RegionStatsInput(region, name))
    case CloseIn(o, region) => Send(sets, o, WindowSets.RegionClosedInput(region))
    case Export(_, _, _, _) => Delivery(sets, [], None)
    case ListClosed => Broadcast(sets, live)
  }

  /** The registry's calls, in the order it made them. */
  function DeliverAll(sets: map<WsId, WindowSets.WindowSet>, live: seq<WsId>, es: seq<RoiManager.Effect>)
    : (d: Delivery)
    ensures d.sets.Keys == sets.Keys
    ensures forall o :: o in sets ==> d.sets[o].file == sets[o].file
  {
    if |es| == 0 then Delivery(sets, [], None)
    else
      var d1 := Deliver(sets, live, es[0]);
      Then(d1, DeliverAll(d1.sets, live, es[1..]))
  }

  /** A band-list selection: the file's FileManager opens a window set, which
      becomes the newest open one. */
  function Open(s: Session, sel: Files.Selection, geometry: WsId -> Files.Rect): Outcome {
    var routed := Files.Route(s.wm, sel, s.nextSet, geometry);
    if routed.None? then Outcome(s, [], [], None)
    else
      var ws := WindowSets.Create(routed.value.1.file, routed.value.1.kind);
      Outcome(Session(s.manager, routed.value.0, s.sets[s.nextSet := ws], s.live + [s.nextSet], s.nextSet + 1),
              [], [], None)
  }

  /** An image window of an open set closed: the set tears itself down and
      its `closed` takes it off its file's list. Closed sets have no windows
      left to report. */
  function ImageClosed(s: Session, id: WsId, src: WindowSets.CloseSource): (o: Outcome)
    ensures id !in s.live || id !in s.sets ==> o == Outcome(s, [], [], None)
    ensures id in s.live && id in s.sets ==>
      var rep := WindowSets.HandleImageClosed(s.sets[id], src);
      && o.next.sets == s.sets[id := rep.next]
      && o.calls == Tag(id, rep.effects)
      && o.next.manager == s.manager && o.next.nextSet == s.nextSet && o.next.wm.bandList == s.wm.bandList
    ensures id in s.live && id in s.sets && s.sets[id].file in s.wm.files
            && id in s.wm.files[s.sets[id].file].sets ==>
      var file := s.sets[id].file;
      && o.raised.None?
      && o.next.wm.files.Keys == s.wm.files.Keys
      && multiset(o.next.wm.files[file].sets) == multiset(s.wm.files[file].sets) - multiset{id}
      && (forall f :: f in s.wm.files && f != file ==> o.next.wm.files[f] == s.wm.files[f])
      && multiset(o.next.live) == multiset(s.live) - multiset{id}
    ensures id in s.live && id in s.sets && s.sets[id].file in s.wm.files
            && id !in s.wm.files[s.sets[id].file].sets ==>
      o.raised == Some(ValueError) && o.next.wm == s.wm && o.next.live == s.live
  {
    if id !in s.live || id !in s.sets then Outcome(s, [], [], None)
    else
      var rep := WindowSets.HandleImageClosed(s.sets[id], src);
      var sets' := s.sets[id := rep.next];
      var file := s.sets[id].file;
      // The program reaches the set's FileManager by reference, not by name;
      // this branch only closes the map lookup and is unreachable under Registered.
      if file !in s.wm.files then Outcome(s.(sets := sets'), Tag(id, rep.effects), [], Some(KeyError))
      else
        var fm := Files.WindowSetClosed(s.wm.files[file], id);
        var live := Files.RemoveFirst(s.live, id);
        if fm.Ok? && live.Ok? then
          Outcome(s.(sets := sets', wm := s.wm.(files := s.wm.files[file := fm.value]), live := live.value),
                  Tag(id, rep.effects), [], None)
        else Outcome(s.(sets := sets'), Tag(id, rep.effects), [], Some(ValueError))
  }

  /** A signal from one of a set's own windows (histogram, band-stats plot). */
  function Signal(s: Session, id: WsId, input: WindowSets.WsInput): Outcome {
    var d := Send(s.sets, id, input);
    Outcome(s.(sets := d.sets), d.calls, [], d.fault)
  }

  /** A region drawn, or the user acting on the list window: the registry
      handles it and its calls reach the window sets. */
  function Region(s: Session, action: RoiManager.Input): Outcome {
    var rep := RoiManager.Step(s.manager, action);
    var d := DeliverAll(s.sets, s.live, rep.effects);
    Outcome(s.(manager := rep.next, sets := d.sets), d.calls, rep.prompts, FirstFault(d.fault, rep.raised))
  }

  /** One input to the application. */
  function Step(s: Session, input: Input): Outcome {
    match input
    case OpenInput(sel, geometry) => Open(s, sel, geometry)
    case ImageClosedInput(id, src) => ImageClosed(s, id, src)
    case SetInput(id, signal) => Signal(s, id, signal)
    case RegionInput(action) => Region(s, action)
  }

  // ---------------------------------------------------------------------
  // Invariants

  /** Every window set's band-stats bookkeeping is sound. */
  ghost predicate AllFresh(sets: map<WsId, WindowSets.WindowSet>) {
    forall id :: id in sets ==> WindowSets.Fresh(sets[id])
  }

  predicate NoDup(s: seq<WsId>) {
    forall i, j :: 0 <= i < j < |s| ==> s[i] != s[j]
  }

  /** The open window sets are exactly those on their file's list, each once,
      and every handle handed out is below the next one. */
  ghost predicate Registered(s: Session) {
    && NoDup(s.live)
    && (forall id :: id in s.sets ==> id < s.nextSet)
    && (forall id :: id in s.live ==>
          id in s.sets && s.sets[id].file in s.wm.files && id in s.wm.files[s.sets[id].file].sets)
    && (forall f :: f in s.wm.files ==> NoDup(s.wm.files[f].sets))
    && (forall f, id :: f in s.wm.files && id in s.wm.files[f].sets ==>
          id in s.live && s.sets[id].file == f)
  }

  // ---------------------------------------------------------------------
  // Properties

  lemma {:induction false} BroadcastKeepsFresh(sets: map<WsId, WindowSets.WindowSet>, ids: seq<WsId>)
    requires AllFresh(sets)
    ensures AllFresh(Broadcast(sets, ids).sets)
  {
    if |ids| > 0 {
      var s1 := Send(sets, ids[0], WindowSets.ListWindowClosedInput).sets;
      if ids[0] in sets {
        WindowSets.HandleKeepsFresh(sets[ids[0]], WindowSets.ListWindowClosedInput);
      }
      BroadcastKeepsFresh(s1, ids[1..]);
    }
  }

  lemma DeliverKeepsFresh(sets: map<WsId, WindowSets.WindowSet>, live: seq<WsId>, e: RoiManager.Effect)
    requires AllFresh(sets)
    ensures AllFresh(Deliver(sets, live, e).sets)
  {
    match e {
      case RenameIn(o, region, name) =>
        if o in sets { WindowSets.HandleKeepsFresh(sets[o], WindowSets.RegionNameInput(region, name)); }
      case StatsIn(o, region, name) =>
        if o in sets { WindowSets.HandleKeepsFresh(sets[o], WindowSets.RegionStatsInput(region, name)); }
      case CloseIn(o, region) =>
        if o in sets { WindowSets.HandleKeepsFresh(sets[o], WindowSets.RegionClosedInput(region)); }
      case Export(_, _, _, _) =>
      case ListClosed => BroadcastKeepsFresh(sets, live);
    }
  }

  lemma {:induction false} DeliverAllKeepsFresh(sets: map<WsId, WindowSets.WindowSet>, live: seq<WsId>,
                                              es: seq<RoiManager.Effect>)
    requires AllFresh(sets)
    ensures AllFresh(DeliverAll(sets, live, es).sets)
  {
    if |es| > 0 {
      DeliverKeepsFresh(sets, live, es[0]);
      DeliverAllKeepsFresh(Deliver(sets, live, es[0]).sets, live, es[1..]);
    }
  }

  /** Whatever happens, no window set ever tracks one band-stats window under
      two regions or one region twice. */
  lemma StepKeepsFresh(s: Session, input: Input)
    requires AllFresh(s.sets)
    ensures AllFresh(Step(s, input).next.sets)
  {
    match input {
      case OpenInput(sel, geometry) =>
      case ImageClosedInput(id, src) =>
        if id in s.live && id in s.sets {
          WindowSets.HandleKeepsFresh(s.sets[id], WindowSets.ImageClosedInput(src));
        }
      case SetInput(id, wsInput) =>
        if id in s.sets { WindowSets.HandleKeepsFresh(s.sets[id], wsInput); }
      case RegionInput(regionInput) =>
        DeliverAllKeepsFresh(s.sets, s.live, RoiManager.Step(s.manager, regionInput).effects);
    }
  }

  /** Closing the shared list window empties the registry and its table, and
      then the band-stats map of every open window set, leaving every other
      part of every window set as it was. */
  lemma BulkClose(s: Session)
    ensures var o := Step(s, RegionInput(RoiManager.CloseListInput));
      && o.next.manager.entries == map[]
      && o.next.manager.list.regions == [] && o.next.manager.list.rows == 0
      && o.next.sets.Keys == s.sets.Keys
      && (forall id :: id in s.live && id in s.sets ==> o.next.sets[id] == s.sets[id].(stats := []))
      && (forall id :: id in s.sets && id !in s.live ==> o.next.sets[id] == s.sets[id])
  {
    ListClosedDelivered(s);
    assert Step(s, RegionInput(RoiManager.CloseListInput)) == Region(s, RoiManager.CloseListInput);
  }

  /** The registry's part of closing the list window, then the broadcast. */
  lemma ListClosedDelivered(s: Session)
    ensures Region(s, RoiManager.CloseListInput).next
         == s.(manager := RoiManager.HandleListClosed(s.manager).next, sets := Broadcast(s.sets, s.live).sets)
  {
    var rep := RoiManager.Step(s.manager, RoiManager.CloseListInput);
    assert rep == RoiManager.HandleListClosed(s.manager);
    assert rep.effects == [RoiManager.ListClosed];
    DeliverOne(s.sets, s.live, RoiManager.ListClosed);
  }

  /** A single call delivered through the list is delivered as itself. */
  lemma DeliverOne(sets: map<WsId, WindowSets.WindowSet>, live: seq<WsId>, e: RoiManager.Effect)
    ensures DeliverAll(sets, live, [e]).sets == Deliver(sets, live, e).sets
  {
    assert [e][1..] == [];
  }

  /** On a list without duplicates, `remove` takes exactly the value out. */
  lemma RemoveFirstNoDup(s: seq<WsId>, id: WsId)
    requires NoDup(s) && id in s
    ensures Files.RemoveFirst(s, id).Ok?
    ensures var r := Files.RemoveFirst(s, id).value;
      NoDup(r) && forall x :: x in r <==> x in s && x != id
  {
    var k := Files.FirstIndex(s, id);
    var r := Files.RemoveFirst(s, id).value;
    assert forall j :: 0 <= j < |r| ==> r[j] == s[if j < k then j else j + 1];
    forall x | x in s && x != id
      ensures x in r
    {
      var i :| 0 <= i < |s| && s[i] == x;
      assert r[if i < k then i else i - 1] == x;
    }
  }

  /** Appending a new handle keeps a list free of repeats. */
  lemma AppendNoDup(s: seq<WsId>, id: WsId)
    requires NoDup(s) && id !in s
    ensures NoDup(s + [id])
  {
  }

  /** Opening a window set lists the new set under its file and nowhere else. */
  lemma OpenKeepsRegistered(s: Session, sel: Files.Selection, geometry: WsId -> Files.Rect)
    requires Registered(s)
    ensures Registered(Step(s, OpenInput(sel, geometry)).next)
    ensures sel.file in s.wm.files ==>
      var n := Step(s, OpenInput(sel, geometry)).next;
      s.nextSet in n.live && s.nextSet in n.wm.files[sel.file].sets
  {
    var routed := Files.Route(s.wm, sel, s.nextSet, geometry);
    if routed.Some? {
      var ws := WindowSets.Create(routed.value.1.file, routed.value.1.kind);
      assert Step(s, OpenInput(sel, geometry)).next
        == Session(s.manager, routed.value.0, s.sets[s.nextSet := ws], s.live + [s.nextSet], s.nextSet + 1);
      AddSetKeepsRegistered(s, sel.file, ws, routed.value.0);
    }
  }

  /** Listing a fresh set under one open file, and as open, keeps the
      registration invariant. */
  lemma AddSetKeepsRegistered(s: Session, file: string, ws: WindowSets.WindowSet, wm': Files.WindowManager)
    requires Registered(s) && file in s.wm.files && ws.file == file
    requires wm'.files.Keys == s.wm.files.Keys
    requires wm'.files[file].sets == s.wm.files[file].sets + [s.nextSet]
    requires forall f :: f in s.wm.files && f != file ==> wm'.files[f] == s.wm.files[f]
    ensures Registered(Session(s.manager, wm', s.sets[s.nextSet := ws], s.live + [s.nextSet], s.nextSet + 1))
  {
    var s' := Session(s.manager, wm', s.sets[s.nextSet := ws], s.live + [s.nextSet], s.nextSet + 1);
    assert s.nextSet !in s.live;
    assert forall f :: f in s.wm.files ==> s.nextSet !in s.wm.files[f].sets;
    AppendNoDup(s.live, s.nextSet);
    AppendNoDup(s.wm.files[file].sets, s.nextSet);
    forall id | id in s'.live
      ensures id in s'.sets && s'.sets[id].file in wm'.files && id in wm'.files[s'.sets[id].file].sets
    {
      if id != s.nextSet {
        assert id in s.live && s'.sets[id] == s.sets[id];
      }
    }
    forall f, id | f in s'.wm.files && id in s'.wm.files[f].sets
      ensures id in s'.live && s'.sets[id].file == f
    {
      if f != file || id != s.nextSet {
        assert id in s.wm.files[f].sets;
      }
    }
  }

  /** A window set's `closed` takes it off its file's list and off the open
      sets, and nothing else. */
  lemma ImageClosedKeepsRegistered(s: Session, id: WsId, src: WindowSets.CloseSource)
    requires Registered(s)
    ensures Registered(Step(s, ImageClosedInput(id, src)).next)
    ensures forall x :: x in Step(s, ImageClosedInput(id, src)).next.live <==> x in s.live && x != id
  {
    if id in s.live && id in s.sets {
      var file := s.sets[id].file;
      var fm := s.wm.files[file];
      RemoveFirstNoDup(fm.sets, id);
      RemoveFirstNoDup(s.live, id);
      var list' := Files.RemoveFirst(fm.sets, id).value;
      var live' := Files.RemoveFirst(s.live, id).value;
      var ws := WindowSets.HandleImageClosed(s.sets[id], src).next;
      assert Files.WindowSetClosed(fm, id) == Ok(fm.(sets := list'));
      assert Step(s, ImageClosedInput(id, src)).next
        == s.(sets := s.sets[id := ws], wm := s.wm.(files := s.wm.files[file := fm.(sets := list')]), live := live');
      DropSetKeepsRegistered(s, id, ws, list', live');
    }
  }

  /** Taking an open set off the live list and off its file's list, whatever
      becomes of the set itself, keeps the registration invariant. */
  lemma DropSetKeepsRegistered(s: Session, id: WsId, ws: WindowSets.WindowSet, list': seq<WsId>, live': seq<WsId>)
    requires Registered(s) && id in s.live
    requires var fm := s.wm.files[s.sets[id].file];
      NoDup(list') && forall x :: x in list' <==> x in fm.sets && x != id
    requires NoDup(live') && forall x :: x in live' <==> x in s.live && x != id
    ensures var file := s.sets[id].file;
      Registered(s.(sets := s.sets[id := ws],
                    wm := s.wm.(files := s.wm.files[file := s.wm.files[file].(sets := list')]),
                    live := live'))
  {
    var file := s.sets[id].file;
    var sets' := s.sets[id := ws];
    var files' := s.wm.files[file := s.wm.files[file].(sets := list')];
    forall x | x in live'
      ensures x in sets' && sets'[x].file in files' && x in files'[sets'[x].file].sets
    {
      assert x in s.live && x != id;
      assert sets'[x] == s.sets[x];
    }
    forall f, x | f in files' && x in files'[f].sets
      ensures x in live' && sets'[x].file == f
    {
      if f == file {
        assert x in s.wm.files[file].sets && x != id;
      } else {
        assert x in s.wm.files[f].sets;
        assert x != id;
      }
    }
  }

  /** Every input keeps the open window sets and the files' lists in step. */
  lemma StepKeepsRegistered(s: Session, input: Input)
    requires Registered(s)
    ensures Registered(Step(s, input).next)
  {
    match input {
      case OpenInput(sel, geometry) => OpenKeepsRegistered(s, sel, geometry);
      case ImageClosedInput(id, src) => ImageClosedKeepsRegistered(s, id, src);
      case SetInput(id, signal) => SignalKeepsRegistered(s, id, signal);
      case RegionInput(action) => RegionKeepsRegistered(s, action);
    }
  }

  /** A set's own signal changes only that set, and not its file. */
  lemma SignalKeepsRegistered(s: Session, id: WsId, signal: WindowSets.WsInput)
    requires Registered(s)
    ensures Registered(Step(s, SetInput(id, signal)).next)
  {
    SameFilesKeepRegistered(s, Signal(s, id, signal).next);
  }

  /** A registry action changes the registry and the sets' insides only. */
  lemma RegionKeepsRegistered(s: Session, action: RoiManager.Input)
    requires Registered(s)
    ensures Registered(Step(s, RegionInput(action)).next)
  {
    SameFilesKeepRegistered(s, Region(s, action).next);
  }

  /** Window sets that change only inside, each staying with its file, keep
      the registration invariant. */
  lemma SameFilesKeepRegistered(s: Session, s': Session)
    requires Registered(s)
    requires s'.wm == s.wm && s'.live == s.live && s'.nextSet == s.nextSet
    requires s'.sets.Keys == s.sets.Keys
    requires forall o :: o in s.sets ==> s'.sets[o].file == s.sets[o].file
    ensures Registered(s')
  {
  }
}

/** RegionOfInterestManager: the one process-wide registry of regions. The
    singleton is a single explicit Manager value; each signal handler is a
    function from the state (plus the answers the user gives to its modal
    dialogs) to a Reply holding the next state, the dialogs shown, the calls
    made on other objects, and the exception raised, if any. */
module RoiManager {
  import opened Base
  import Text
  import Regions
  import RoiList

  type Color = nat

  /** RegionDisplayItem: the overlay of a region in an image window. */
  datatype DisplayItem = DisplayItem(color: Color, on: bool, open: bool)

  /** The registry's private `__RegionSet`: owning window set, display item, saved flag. */
  datatype RegionSet = RegionSet(owner: WsId, item: DisplayItem, saved: bool)

  datatype Manager = Manager(
    entries: map<RegionId, RegionSet>,  // __region_display_items
    list: RoiList.Control,              // the table of the shared list window
    store: Regions.Store,               // names and map info of the region objects
    counter: nat,                       // next number for "Region N"
    saveDir: string,                    // __save_dir_default
    includeBands: bool,                 // __include_bands_default (Checked / Unchecked)
    listVisible: bool)                  // whether the shared list window is shown

  /** Modal dialogs, with what they are seeded with. */
  datatype Prompt =
    | SavePrompt(includeSeed: bool)
    | SaveFileDialog(defaultPath: string)
    | ClosePrompt

  /** Calls the registry makes on other objects. */
  datatype Effect =
    | RenameIn(owner: WsId, region: RegionId, name: Option<string>)  // handle_region_name_changed
    | StatsIn(owner: WsId, region: RegionId, name: Option<string>)   // handle_region_stats
    | CloseIn(owner: WsId, region: RegionId)                         // handle_region_closed
    | Export(region: RegionId, owner: WsId, path: string, includeBands: bool)  // save_region
    | ListClosed                                                     // window_closed.emit()

  datatype Reply = Reply(next: Manager, prompts: seq<Prompt>, effects: seq<Effect>, raised: Option<PyError>)

  /** The user's answer to the save dialog; the flag is the final state of its
      "Include bands?" check box. */
  datatype SaveAnswer = CancelSave | ConfirmSave(includeBands: bool)

  /** The user's answer to the close confirmation. */
  datatype CloseAnswer = CancelClose | ConfirmClose

  /** A handler that returns without doing anything. */
  function Ignore(m: Manager): Reply {
    Reply(m, [], [], None)
  }

  /** The singleton's construction: no regions, counter 1, saving defaults to
      the download directory, "Include bands?" unchecked, list window hidden. */
  function Init(downloads: string): (m: Manager)
    ensures m.entries == map[] && m.list == RoiList.Empty && m.counter == 1
    ensures m.saveDir == downloads && !m.includeBands && !m.listVisible
  {
    Manager(map[], RoiList.Empty, Regions.NoRegions, 1, downloads, false, false)
  }

  /** `add_region`: names an unnamed region "Region N" from the counter and
      advances the counter, attaches the file's map info when there is some,
      appends a row, records an unsaved entry, and shows the list window. */
  function AddRegion(m: Manager, r: RegionId, item: DisplayItem, owner: WsId,
                     mapInfo: Option<Regions.MapInfo>): (m': Manager)
    ensures r !in m.store.names ==>
      m'.counter == m.counter + 1 && Regions.DisplayName(m'.store, r) == Some(Regions.AutoName(m.counter))
    ensures r in m.store.names ==>
      m'.counter == m.counter && Regions.DisplayName(m'.store, r) == Regions.DisplayName(m.store, r)
    ensures forall q :: q != r ==> Regions.DisplayName(m'.store, q) == Regions.DisplayName(m.store, q)
    ensures mapInfo.Some? ==> r in m'.store.mapInfo && m'.store.mapInfo[r] == mapInfo.value
    ensures mapInfo.None? ==> m'.store.mapInfo == m.store.mapInfo
    ensures m'.list == RoiList.AddItem(m.list, r)
    ensures m'.entries == m.entries[r := RegionSet(owner, item, false)]
    ensures m'.listVisible
    ensures m'.saveDir == m.saveDir && m'.includeBands == m.includeBands
  {
    var (st1, counter') :=
      if r !in m.store.names then (Regions.Rename(m.store, r, Regions.AutoName(m.counter)), m.counter + 1)
      else (m.store, m.counter);
    var st2 := if mapInfo.Some? then Regions.AttachMapInfo(st1, r, mapInfo.value) else st1;
    m.(store := st2, counter := counter',
       list := RoiList.AddItem(m.list, r),
       entries := m.entries[r := RegionSet(owner, item, false)],
       listVisible := true)
  }

  /** `__handle_region_toggled`: flips the on flag of a known region's display item. */
  function HandleToggled(m: Manager, r: RegionId): (rep: Reply)
    ensures rep.prompts == [] && rep.effects == [] && rep.raised.None?
    ensures r !in m.entries ==> rep.next == m
    ensures r in m.entries ==>
      var e := m.entries[r];
      rep.next == m.(entries := m.entries[r := e.(item := e.item.(on := !e.item.on))])
  {
    if r in m.entries then
      var e := m.entries[r];
      Ignore(m.(entries := m.entries[r := e.(item := e.item.(on := !e.item.on))]))
    else Ignore(m)
  }

  /** `__handle_region_name_changed`: tells the owning window set the new name. */
  function HandleNameChanged(m: Manager, r: RegionId): (rep: Reply)
    ensures rep.next == m && rep.prompts == [] && rep.raised.None?
    ensures r !in m.entries ==> rep.effects == []
    ensures r in m.entries ==>
      rep.effects == [RenameIn(m.entries[r].owner, r, Regions.DisplayName(m.store, r))]
  {
    if r in m.entries then
      Reply(m, [], [RenameIn(m.entries[r].owner, r, Regions.DisplayName(m.store, r))], None)
    else Ignore(m)
  }

  /** `__handle_stats_clicked`: asks the owning window set for a band-stats plot. */
  function HandleStats(m: Manager, r: RegionId): (rep: Reply)
    ensures rep.next == m && rep.prompts == [] && rep.raised.None?
    ensures r !in m.entries ==> rep.effects == []
    ensures r in m.entries ==>
      rep.effects == [StatsIn(m.entries[r].owner, r, Regions.DisplayName(m.store, r))]
  {
    if r in m.entries then
      Reply(m, [], [StatsIn(m.entries[r].owner, r, Regions.DisplayName(m.store, r))], None)
    else Ignore(m)
  }

  /** `__handle_region_saved`. The save dialog is always shown, seeded with the
      remembered check-box state. On Save for a known region the check-box state
      becomes the new default, the file dialog is shown in the save directory
      under the region's name (a region without a name makes `os.path.join`
      raise TypeError), and a non-empty file name, with ".csv" appended when
      missing, is exported, marks the region saved and, when it has a
      directory part, becomes the new save directory. */
  function HandleSaved(m: Manager, r: RegionId, answer: SaveAnswer, fileName: string): (rep: Reply)
    ensures |rep.prompts| >= 1 && rep.prompts[0] == SavePrompt(m.includeBands)
  {
    var prompts := [SavePrompt(m.includeBands)];
    match answer
    case CancelSave => Reply(m, prompts, [], None)
    case ConfirmSave(withBands) =>
      if r !in m.entries then Reply(m, prompts, [], None)
      else
        var m1 := m.(includeBands := withBands);
        match Regions.DisplayName(m.store, r)
        case None => Reply(m1, prompts, [], Some(TypeError))
        case Some(name) =>
          var prompts' := prompts + [SaveFileDialog(Text.JoinPath(m.saveDir, name))];
          if fileName == "" then Reply(m1, prompts', [], None)
          else
            var path := Text.WithCsv(fileName);
            var dir := Text.SplitHead(path);
            var e := m1.entries[r];
            var m2 := m1.(saveDir := if dir != "" then dir else m1.saveDir,
                          entries := m1.entries[r := e.(saved := true)]);
            Reply(m2, prompts', [Export(r, e.owner, path, withBands)], None)
  }

  /** `__handle_region_closed`: an unsaved region asks for confirmation first and
      only Yes goes on to close it; a saved region closes without asking. */
  function HandleClosed(m: Manager, r: RegionId, row: int, answer: CloseAnswer): (rep: Reply)
    ensures rep.prompts == if r in m.entries && !m.entries[r].saved then [ClosePrompt] else []
    ensures rep.effects != [] <==> r in m.entries && (m.entries[r].saved || answer == ConfirmClose)
    ensures rep.effects != [] ==> rep.effects == [CloseIn(m.entries[r].owner, r)]
    ensures rep.effects == [] ==> rep.next == m && rep.raised.None?
  {
    if r !in m.entries then Ignore(m)
    else if !m.entries[r].saved then
      if answer == ConfirmClose then DoClose(m, r, row).(prompts := [ClosePrompt])
      else Reply(m, [ClosePrompt], [], None)
    else DoClose(m, r, row)
  }

  /** `__do_close`: tells the owning window set, closes the display item and
      removes the row the event names. The registry entry itself is kept. */
  function DoClose(m: Manager, r: RegionId, row: int): (rep: Reply)
    requires r in m.entries
    ensures rep.prompts == []
    ensures rep.effects == [CloseIn(m.entries[r].owner, r)]
    ensures rep.next.entries.Keys == m.entries.Keys
    ensures !rep.next.entries[r].item.open
  {
    var e := m.entries[r];
    var m1 := m.(entries := m.entries[r := e.(item := e.item.(open := false))]);
    match RoiList.Remove(m.list, row)
    case Ok(l) => Reply(m1.(list := l), [], [CloseIn(e.owner, r)], None)
    case Err(err) => Reply(m1, [], [CloseIn(e.owner, r)], Some(err))
  }

  /** `__handle_window_closed`: the shared list window was closed; every row and
      every registry entry goes, the window is hidden, and `window_closed` is
      emitted. */
  function HandleListClosed(m: Manager): (rep: Reply)
    ensures rep.next.entries == map[] && rep.next.list.regions == [] && rep.next.list.rows == 0
    ensures rep.effects == [ListClosed] && rep.prompts == [] && rep.raised.None?
    ensures !rep.next.listVisible
    ensures rep.next.counter == m.counter && rep.next.store == m.store
  {
    Reply(m.(list := RoiList.RemoveAll(m.list), entries := map[], listVisible := false),
          [], [ListClosed], None)
  }

  // ---------------------------------------------------------------------
  // The registry driven through its list window

  /** What can happen to the registry: a region drawn in some image window, or
      the user acting on the list window (with the answers the dialogs get). */
  datatype Input =
    | AddInput(region: RegionId, item: DisplayItem, owner: WsId, mapInfo: Option<Regions.MapInfo>)
    | ClickInput(row: int, column: int)
    | MenuInput(action: RoiList.MenuAction, save: SaveAnswer, fileName: string, close: CloseAnswer)
    | EditInput(row: int, column: int, text: string)
    | CloseListInput

  /** The signal connections of the constructor: each list event goes to its handler. */
  function Dispatch(m: Manager, e: RoiList.ListEvent, save: SaveAnswer, fileName: string,
                    close: CloseAnswer): Reply
  {
    match e
    case ToggleEvent(r) => HandleToggled(m, r)
    case StatsEvent(r) => HandleStats(m, r)
    case SaveEvent(r) => HandleSaved(m, r, save, fileName)
    case CloseEvent(r, row) => HandleClosed(m, r, row, close)
    case NameEvent(r) => HandleNameChanged(m, r)
  }

  /** One input, carried through the list control and the registry. */
  function Step(m: Manager, input: Input): Reply {
    match input
    case AddInput(r, item, owner, info) => Ignore(AddRegion(m, r, item, owner, info))
    case ClickInput(row, column) => Ignore(m.(list := RoiList.CellClicked(m.list, row, column)))
    case MenuInput(action, save, fileName, close) =>
      (match RoiList.Menu(m.list, action)
       case Err(err) => Reply(m, [], [], Some(err))
       case Ok((c, e)) => Dispatch(m.(list := c), e, save, fileName, close))
    case EditInput(row, column, text) =>
      (match RoiList.CellChanged(m.list, m.store, row, column, text)
       case Err(err) => Reply(m, [], [], Some(err))
       case Ok((st, None)) => Ignore(m.(store := st))
       case Ok((st, Some(e))) => HandleNameChanged(m.(store := st), e.region))
    case CloseListInput => HandleListClosed(m)
  }

  // ---------------------------------------------------------------------
  // Properties

  /** The save protocol. Cancel changes nothing; Save on a known region takes
      the check box as the new default even when the file dialog is then
      cancelled; an empty file name leaves the saved flag and the directory
      alone; a non-empty one is exported as a ".csv" path, marks the region
      saved and moves the save directory to its directory part, if any. */
  lemma SaveProtocol(m: Manager, r: RegionId, answer: SaveAnswer, fileName: string)
    ensures var rep := HandleSaved(m, r, answer, fileName);
      && (answer.CancelSave? || r !in m.entries ==>
            rep == Reply(m, [SavePrompt(m.includeBands)], [], None))
      && (answer.ConfirmSave? && r in m.entries ==>
            rep.next.includeBands == answer.includeBands
            && rep.next.counter == m.counter && rep.next.list == m.list
            && rep.next.entries.Keys == m.entries.Keys
            && (forall q :: q in m.entries && q != r ==> rep.next.entries[q] == m.entries[q]))
      && (answer.ConfirmSave? && r in m.entries && r in m.store.names && fileName == "" ==>
            rep.next.entries == m.entries && rep.next.saveDir == m.saveDir
            && rep.effects == [] && rep.raised.None?)
      && (answer.ConfirmSave? && r in m.entries && r in m.store.names && fileName != "" ==>
            var path := Text.WithCsv(fileName);
            && rep.next.entries[r] == m.entries[r].(saved := true)
            && rep.effects == [Export(r, m.entries[r].owner, path, answer.includeBands)]
            && Text.EndsWith(path, ".csv")
            && (Text.ContainsSep(path) ==> rep.next.saveDir == Text.SplitHead(path) != "")
            && (!Text.ContainsSep(path) ==> rep.next.saveDir == m.saveDir))
  {
    if answer.ConfirmSave? && r in m.entries && r in m.store.names && fileName != "" {
      Text.SplitHeadShape(Text.WithCsv(fileName));
    }
  }

  /** Close gating. Only an unsaved known region prompts; Cancel then changes
      nothing; otherwise the owner is told, the display item is closed and the
      event's row is removed from the list, while the registry keeps its entry. */
  lemma CloseGating(m: Manager, r: RegionId, row: int, answer: CloseAnswer)
    ensures var rep := HandleClosed(m, r, row, answer);
      && (r !in m.entries ==> rep == Ignore(m))
      && (ClosePrompt in rep.prompts <==> r in m.entries && !m.entries[r].saved)
      && (r in m.entries && !m.entries[r].saved && answer == CancelClose ==>
            rep == Reply(m, [ClosePrompt], [], None))
      && (r in m.entries && (m.entries[r].saved || answer == ConfirmClose) ==>
            && rep.effects == [CloseIn(m.entries[r].owner, r)]
            && r in rep.next.entries && !rep.next.entries[r].item.open
            && rep.next.entries.Keys == m.entries.Keys
            && (0 <= row < |m.list.regions| ==>
                  rep.raised.None? && RoiList.Remove(m.list, row) == Ok(rep.next.list)))
  {
  }

  /** A toggle flips exactly the toggled region's on flag; a toggle, rename,
      stats or close request for an unknown region changes nothing. */
  lemma UnknownRegionsIgnored(m: Manager, r: RegionId, row: int, answer: CloseAnswer)
    requires r !in m.entries
    ensures HandleToggled(m, r) == Ignore(m)
    ensures HandleNameChanged(m, r) == Ignore(m)
    ensures HandleStats(m, r) == Ignore(m)
    ensures HandleClosed(m, r, row, answer) == Ignore(m)
  {
  }

  /** Toggling touches nothing but the region's on flag. */
  lemma ToggleFlipsOnlyThatItem(m: Manager, r: RegionId)
    requires r in m.entries
    ensures var m' := HandleToggled(m, r).next;
      && m'.entries.Keys == m.entries.Keys
      && m'.entries[r].item.on == !m.entries[r].item.on
      && m'.entries[r].item.color == m.entries[r].item.color
      && m'.entries[r].item.open == m.entries[r].item.open
      && m'.entries[r].saved == m.entries[r].saved && m'.entries[r].owner == m.entries[r].owner
      && (forall q :: q in m.entries && q != r ==> m'.entries[q] == m.entries[q])
      && m'.list == m.list && m'.store == m.store && m'.counter == m.counter
  {
  }

  /** Every region shown in the list window has a registry entry, and the
      list's row counter matches its regions. */
  predicate ListRegistered(m: Manager) {
    RoiList.Consistent(m.list) && forall x :: x in m.list.regions ==> x in m.entries
  }

  /** Every input keeps ListRegistered: adding records the entry with the row,
      a close removes a row but never an entry, closing the window clears both. */
  lemma StepKeepsListRegistered(m: Manager, input: Input)
    requires ListRegistered(m)
    ensures ListRegistered(Step(m, input).next)
  {
    match input
    case AddInput(r, item, owner, info) =>
      var m' := Step(m, input).next;
      assert m'.list.regions == m.list.regions + [r];
    case ClickInput(_, _) =>
    case MenuInput(action, save, fileName, close) =>
      match RoiList.Menu(m.list, action) {
        case Err(_) =>
        case Ok((c, e)) => DispatchKeepsListRegistered(m.(list := c), e, save, fileName, close);
      }
    case EditInput(_, _, _) =>
    case CloseListInput =>
  }

  /** A menu choice on the list keeps ListRegistered: only Close touches the
      list, and it removes a row, never adds one. */
  lemma DispatchKeepsListRegistered(m: Manager, e: RoiList.ListEvent, save: SaveAnswer, fileName: string,
                                    close: CloseAnswer)
    requires ListRegistered(m)
    ensures ListRegistered(Dispatch(m, e, save, fileName, close).next)
  {
    if e.CloseEvent? && e.region in m.entries && RoiList.Remove(m.list, e.row).Ok? {
      RoiList.RemoveKeepsOnlyListed(m.list, e.row);
    }
  }

  /** No input moves the naming counter back, and only registering an unnamed
      region moves it, by exactly one. */
  lemma StepCounter(m: Manager, input: Input)
    ensures Step(m, input).next.counter ==
      if input.AddInput? && input.region !in m.store.names then m.counter + 1 else m.counter
  {
    match input
    case MenuInput(action, save, fileName, close) =>
      match RoiList.Menu(m.list, action) {
        case Err(_) =>
        case Ok((c, e)) =>
      }
    case EditInput(row, column, text) =>
    case _ =>
  }

  /** Auto-naming: two unnamed regions registered one after the other are
      called "Region N" and "Region N+1", which differ. */
  lemma AutoNamingSequence(m: Manager, r1: RegionId, r2: RegionId, item: DisplayItem, owner: WsId,
                           info: Option<Regions.MapInfo>)
    requires r1 != r2 && r1 !in m.store.names && r2 !in m.store.names
    ensures var m1 := AddRegion(m, r1, item, owner, info);
      var m2 := AddRegion(m1, r2, item, owner, info);
      && Regions.DisplayName(m2.store, r1) == Some(Regions.AutoName(m.counter))
      && Regions.DisplayName(m2.store, r2) == Some(Regions.AutoName(m.counter + 1))
      && Regions.DisplayName(m2.store, r1) != Regions.DisplayName(m2.store, r2)
      && m2.counter == m.counter + 2
  {
    Regions.AutoNamesDistinct(m.counter, m.counter + 1);
  }

  // ---------------------------------------------------------------------
  // Row/registry alignment, and what `__do_close` does to it

  predicate NoDuplicates(s: seq<RegionId>) {
    forall i, j :: 0 <= i < j < |s| ==> s[i] != s[j]
  }

  /** The registry and the list window hold the same regions, one row each. */
  predicate Aligned(m: Manager) {
    && ListRegistered(m)
    && NoDuplicates(m.list.regions)
    && forall x :: x in m.entries ==> x in m.list.regions
  }

  function Elems(s: seq<RegionId>): set<RegionId> {
    set x | x in s
  }

  lemma {:induction false} DistinctCount(s: seq<RegionId>)
    requires NoDuplicates(s)
    ensures |Elems(s)| == |s|
  {
    if |s| > 0 {
      var s' := s[..|s| - 1];
      var last := s[|s| - 1];
      assert s == s' + [last];
      DistinctCount(s');
      var before := Elems(s');
      assert last !in before by {
        forall j | 0 <= j < |s'|
          ensures s'[j] != last
        {
          assert s'[j] == s[j];
        }
      }
      assert Elems(s) == before + {last};
      assert |before + {last}| == |before| + 1;
    }
  }

  /** When aligned, the number of registry entries is the number of rows. */
  lemma AlignedCounts(m: Manager)
    requires Aligned(m)
    ensures |m.entries| == m.list.rows
  {
    assert m.entries.Keys == Elems(m.list.regions);
    DistinctCount(m.list.regions);
  }

  /** `__do_close` as written: closing any row of an aligned registry leaves the
      region in the registry while its row is gone, so the registry ends up one
      entry longer than the list. */
  lemma CloseLeavesStaleEntry(m: Manager, row: nat)
    requires Aligned(m) && row < |m.list.regions|
    ensures var r := m.list.regions[row];
      var m' := DoClose(m, r, row).next;
      && r in m'.entries && r !in m'.list.regions
      && |m'.entries| == m'.list.rows + 1
  {
    var r := m.list.regions[row];
    var m' := DoClose(m, r, row).next;
    RoiList.RemoveRow(m.list, row);
    AlignedCounts(m);
    assert r !in m'.list.regions by {
      forall j | 0 <= j < |m'.list.regions|
        ensures m'.list.regions[j] != r
      {
        if j < row {
          assert m'.list.regions[j] == m.list.regions[j];
        } else {
          assert m'.list.regions[j] == m.list.regions[j + 1];
        }
      }
    }
  }

  /** `__do_close` with the entry deleted once the row is gone. */
  function DoCloseAndForget(m: Manager, r: RegionId, row: int): (rep: Reply)
    requires r in m.entries
    ensures rep.raised.None? ==> r !in rep.next.entries
    ensures rep.effects == [CloseIn(m.entries[r].owner, r)]
  {
    var rep := DoClose(m, r, row);
    if rep.raised.None? then rep.(next := rep.next.(entries := rep.next.entries - {r})) else rep
  }

  /** With the entry deleted, closing any row keeps the registry and the list
      aligned, and both shrink by one. */
  lemma ForgetfulCloseKeepsAlignment(m: Manager, row: nat)
    requires Aligned(m) && row < |m.list.regions|
    ensures var m' := DoCloseAndForget(m, m.list.regions[row], row).next;
      && Aligned(m')
      && |m'.entries| == |m.entries| - 1 == m'.list.rows
  {
    var r := m.list.regions[row];
    var l := m.list.regions;
    var m' := DoCloseAndForget(m, r, row).next;
    assert m'.list.regions == l[..row] + l[row + 1..];
    assert m'.entries.Keys == m.entries.Keys - {r};
    DropRowKeepsOthers(l, row);
    AlignedCounts(m);
    AlignedCounts(m');
  }

  /** Dropping one row of a duplicate-free list keeps every other region, loses
      that row's region and stays duplicate-free. */
  lemma DropRowKeepsOthers(l: seq<RegionId>, row: nat)
    requires NoDuplicates(l) && row < |l|
    ensures var l' := l[..row] + l[row + 1..];
      && NoDuplicates(l')
      && l[row] !in l'
      && forall x :: x in l && x != l[row] ==> x in l'
  {
    var l' := l[..row] + l[row + 1..];
    assert forall j :: 0 <= j < |l'| ==> l'[j] == l[if j < row then j else j + 1];
    forall x | x in l && x != l[row]
      ensures x in l'
    {
      var k :| 0 <= k < |l| && l[k] == x;
      assert l'[if k < row then k else k - 1] == x;
    }
  }

  /** The stale entry on a concrete run: register region 0, select its row,
      choose Close and confirm. The list is empty again; the registry is not. */
  lemma StaleEntryExample(item: DisplayItem)
    ensures var m0 := Init("");
      var m1 := Step(m0, AddInput(0, item, 0, None)).next;
      var m2 := Step(m1, ClickInput(0, 0)).next;
      var m3 := Step(m2, MenuInput(RoiList.CloseAction, CancelSave, "", ConfirmClose)).next;
      && m3.list.regions == [] && m3.list.rows == 0
      && 0 in m3.entries && |m3.entries| == 1
  {
    var m0 := Init("");
    var m1 := Step(m0, AddInput(0, item, 0, None)).next;
    assert m1.list.regions == [0];
    var m2 := Step(m1, ClickInput(0, 0)).next;
    assert m2.list.selected == Some(0);
    var m3 := Step(m2, MenuInput(RoiList.CloseAction, CancelSave, "", ConfirmClose)).next;
    assert m3.entries.Keys == {0};
  }
}

# OpenSpectra window and region bookkeeping, in Dafny

This project models the state machines inside OpenSpectra's two UI modules,
`openspectra/ui/windowmanager.py` and `openspectra/ui/toolsdisplay.py`. The
model is built from immutable values and pure transition functions. A modal
dialog's answer, a file name the user types and the geometry of a window the
user may have moved are all parameters. A call the code makes on a window it
does not own (close, refresh, retitle, export) is an effect value in a trace,
kept in the order the code makes it. An exception a handler raises is returned
next to the state the handler had already changed.

Modules, one per file:

- `Base` (base.dfy): `Option`, `Result`, the Python exceptions that can be
  raised, object handles, histogram channels, and Python list indexing.
- `Text` (text.dfy): `str`/`int` of naturals, `str.endswith`, and the POSIX
  `os.path.join` and `os.path.split` head.
- `PyDict` (pydict.dfy): an insertion-ordered `dict`, with `popitem` taking
  the newest entry.
- `Regions` (regions.dfy): the display name and map info of region objects.
- `RoiList` (roilist.dfy): `RegionOfInterestControl`, the table of the shared
  region list window. Its menu and cell handlers return the event they emit.
- `RoiManager` (roimanager.dfy): `RegionOfInterestManager`, the region
  registry singleton, driven through its list window.
- `WindowSets` (windowset.dfy): `WindowSet`. This covers teardown, band-stats
  window tracking, and histogram limit change and reset.
- `Files` (files.dfy): `WindowManager.add_file`, band and RGB selection
  routing, and `FileManager`'s cascade placement and window-set removal.
- `RangeSelect` (rangeselector.dfy): `RangeSelector`, two coupled combo boxes.
- `SubCube` (subcube.dfy): `SubCubeControl`'s band pattern, default band text
  and file selection.
- `Session` (session.dfy): the pieces wired together as the application
  connects them. The registry's calls reach the owning window set.
  `window_closed` reaches every open window set. A window set's `closed` takes
  it off its file's list.

## Model

| member | source | states |
|---|---|---|
| `Base.PyIndex` | openspectra/ui/toolsdisplay.py:166-170 | Python list indexing: an index in `-n..n-1` selects an element, counting from the end when negative; any other index raises IndexError |
| `Text.ParseDecimalInverts` | openspectra/ui/toolsdisplay.py:320-336 | `int(str(n)) == n`, so a combo item written with `str(item)` reads back as the same integer |
| `Text.WithCsv` | openspectra/ui/windowmanager.py:554-556 | the saved name always ends in ".csv"; it is the typed name unchanged exactly when that already ends in ".csv", and otherwise the typed name plus four characters |
| `Text.WithCsvIdempotent` | openspectra/ui/windowmanager.py:554-556 | appending the suffix a second time changes nothing |
| `Text.JoinPath` | openspectra/ui/windowmanager.py:548 | `os.path.join`: the result ends with the second part. An absolute second part replaces the first. Otherwise the parts are concatenated, with one separator between them only when the first part is non-empty and does not already end in one |
| `Text.LastSep` | openspectra/ui/windowmanager.py:559 | finds the last separator of a path, and None exactly when there is none |
| `Text.SplitHeadShape` | openspectra/ui/windowmanager.py:559-561 | the directory part of a path is a prefix of it, and is empty exactly when the path has no separator, in which case the remembered directory stays |
| `Text.SplitJoined` | openspectra/ui/windowmanager.py:548-561 | the directory part of `os.path.join(dir, name)` is `dir` again, for a non-empty `dir` without a trailing separator and a name without separators. So accepting the suggested save name leaves the remembered directory where it was |
| `Regions.DisplayName` | openspectra/ui/windowmanager.py:513 | a region has a name exactly when one was set on it |
| `Regions.Rename` | openspectra/ui/toolsdisplay.py:198 | `set_display_name` changes that region's name only, and no map info |
| `Regions.AttachMapInfo` | openspectra/ui/windowmanager.py:518-520 | `set_map_info` sets that region's map info; every other region keeps its map info, and no name changes |
| `Regions.AutoNamesDistinct` | openspectra/ui/windowmanager.py:512-515 | "Region N" names are equal exactly when their counters are equal |
| `RoiList.AddItem` | openspectra/ui/toolsdisplay.py:122-158 | the region becomes the new last row, earlier rows are kept, the row counter goes up by one and the selection is kept |
| `RoiList.RemoveAll` | openspectra/ui/toolsdisplay.py:160-163 | no rows and a row counter of 0 |
| `RoiList.Remove` | openspectra/ui/toolsdisplay.py:165-172 | succeeds exactly when the event's row is a valid Python index of the region list, and raises IndexError otherwise. On success the region at that index, counted from the end when negative, is gone, the others keep their order, the row counter drops by one and the selection is cleared |
| `RoiList.RemoveRow` | openspectra/ui/toolsdisplay.py:165-172 | removing row `0 <= row < len` deletes exactly that region, keeps the others in order, decrements the counter and clears the selection |
| `RoiList.RemoveKeepsOnlyListed` | openspectra/ui/toolsdisplay.py:165-172 | what remains after a removal is a sub-multiset of what was listed |
| `RoiList.CellClicked` | openspectra/ui/toolsdisplay.py:182-189 | a click selects its row exactly when it is in column 0 on a row holding a region; any other click changes nothing |
| `RoiList.Menu` | openspectra/ui/toolsdisplay.py:202-227 | without a selection the handler raises TypeError, and with a selected row past the last region (possible after remove-all, which keeps the selection) it raises IndexError. Otherwise it emits the action's event for the selected row's region. Toggle, stats and save clear the selection; close carries the selected row and keeps it |
| `RoiList.CellChanged` | openspectra/ui/toolsdisplay.py:192-200 | an edit in column 1 renames exactly that row's region to the cell text and emits a name event for it; other columns do nothing |
| `RoiList.OperationsKeepRowCount` | openspectra/ui/toolsdisplay.py:122-189 | add, remove-all, remove, click and menu all keep the row counter equal to the number of regions |
| `RoiManager.Init` | openspectra/ui/windowmanager.py:486-510 | the singleton starts with no regions, counter 1, the downloads directory, "Include bands?" unchecked and the list window hidden |
| `RoiManager.AddRegion` | openspectra/ui/windowmanager.py:512-525 | an unnamed region is named "Region N" from the counter, which then advances by one; a named region keeps its name and the counter. Map info is attached only when the file has some. One row is appended and an unsaved entry is recorded. The list window is shown |
| `RoiManager.HandleToggled` | openspectra/ui/windowmanager.py:591-599 | a known region's on flag is flipped; an unknown region changes nothing |
| `RoiManager.HandleClosed` | openspectra/ui/windowmanager.py:621-637 | only an unsaved known region prompts. The owner is told exactly when the region is known and either saved or confirmed with Yes. Otherwise nothing changes and nothing is raised |
| `RoiManager.HandleNameChanged` | openspectra/ui/windowmanager.py:601-608 | a known region's owner is told the region's current name; an unknown region causes no call |
| `RoiManager.HandleStats` | openspectra/ui/windowmanager.py:644-651 | a known region's owner is asked for a band-stats plot; an unknown region causes no call |
| `RoiManager.HandleSaved` | openspectra/ui/windowmanager.py:527-589 | the save prompt is always the first dialog, seeded with the remembered check-box state |
| `RoiManager.SaveProtocol` | openspectra/ui/windowmanager.py:527-575 | Cancel changes nothing. Save on a known region makes the check box the new default, even when the file dialog is then cancelled. An empty file name leaves the saved flag and the save directory unchanged. A non-empty name is exported with ".csv" appended when missing; it marks the region saved and moves the save directory to the name's directory part when it has one |
| `RoiManager.DoClose` | openspectra/ui/windowmanager.py:639-642 | the owner is told and the display item is closed; the registry keeps every entry |
| `RoiManager.CloseGating` | openspectra/ui/windowmanager.py:621-642 | only an unsaved known region prompts, and Cancel then changes nothing. Yes, or a saved region, tells the owner, closes the item and removes exactly the event's row. The entry stays |
| `RoiManager.UnknownRegionsIgnored` | openspectra/ui/windowmanager.py:591-651 | toggle, rename, stats and close for a region not in the registry change no state and make no call |
| `RoiManager.ToggleFlipsOnlyThatItem` | openspectra/ui/windowmanager.py:592-596 | toggling changes that region's on flag and nothing else: not its colour, open state, saved flag or owner, and no other entry, row, name or counter |
| `RoiManager.HandleListClosed` | openspectra/ui/windowmanager.py:653-657 | every row and every registry entry go, the window is hidden, and `window_closed` is emitted once; names and the counter stay |
| `RoiManager.StepKeepsListRegistered` | openspectra/ui/windowmanager.py:496-525 | whatever the user does, every region shown in the list has a registry entry and the row counter matches the rows |
| `RoiManager.DispatchKeepsListRegistered` | openspectra/ui/windowmanager.py:591-651 | no choice from the list window's menu lists a region that has no registry entry, or breaks the row counter |
| `RoiManager.StepCounter` | openspectra/ui/windowmanager.py:504-515 | the naming counter never goes back; only registering an unnamed region moves it, by exactly one |
| `RoiManager.AutoNamingSequence` | openspectra/ui/windowmanager.py:512-515 | two unnamed regions registered in turn are "Region N" and "Region N+1", which differ |
| `RoiManager.AlignedCounts` | openspectra/ui/windowmanager.py:503 | while registry and list hold the same regions once each, there are as many entries as rows |
| `RoiManager.CloseLeavesStaleEntry` | openspectra/ui/windowmanager.py:639-642 | closing any row of an aligned registry leaves its region in the registry but off the list, so the registry ends one entry longer than the list |
| `RoiManager.StaleEntryExample` | openspectra/ui/windowmanager.py:621-642 | register a region, select it, choose Close and confirm: the list is empty and the registry still holds the region |
| `RoiManager.DoCloseAndForget` | openspectra/ui/windowmanager.py:639-642 | a close that also deletes the registry entry, which is what `__do_close` evidently means to do: the owner is told, and the entry is deleted once its row is gone |
| `RoiManager.ForgetfulCloseKeepsAlignment` | openspectra/ui/windowmanager.py:621-642 | with the entry deleted, closing any row keeps registry and list aligned, and both shrink by one |
| `PyDict.PutSpec` | openspectra/ui/windowmanager.py:413 | after `d[k] = v`, k maps to v, every other key keeps its value, and keys stay distinct |
| `PyDict.DeleteSpec` | openspectra/ui/windowmanager.py:381 | after `del d[k]`, k is gone, the other keys remain, and keys stay distinct |
| `PyDict.DeleteKeepsOthers` | openspectra/ui/windowmanager.py:381 | deleting one key keeps every other key's value |
| `PyDict.FindKey` | openspectra/ui/windowmanager.py:375-380 | the search finds a key exactly when some key holds the window, and then it is the key of the first such entry in insertion order |
| `PyDict.ValueIndex` | openspectra/ui/windowmanager.py:375-378 | the position the search loop stops at holds the window, and no earlier entry does |
| `PyDict.FindKeyUnique` | openspectra/ui/windowmanager.py:374-381 | when no window is tracked twice, the search for a key's window finds that key |
| `PyDict.PutNewValue` | openspectra/ui/windowmanager.py:409-413 | tracking a new window keeps windows distinct, and the tracked windows become the old ones minus any replaced one, plus the new one |
| `PyDict.DeleteKeepsDistinctValues` | openspectra/ui/windowmanager.py:381 | deleting keeps windows distinct |
| `WindowSets.Create` | openspectra/ui/windowmanager.py:168-234 | a new window set is for the given file and image kind. Every window is open, both image windows are linked, the stretch is the default on every channel, no band-stats window is tracked, ids start at 0, and the bookkeeping is sound |
| `WindowSets.CloseAll` | openspectra/ui/windowmanager.py:305-307 | the `popitem` loop closes every band-stats window once, most recently tracked first |
| `WindowSets.ImageWindowsClosed` | openspectra/ui/windowmanager.py:278-294 | only image windows are disconnected or closed, at most two calls, and the tool windows are not touched |
| `WindowSets.ToolsClosed` | openspectra/ui/windowmanager.py:296-303 | the histogram and the spectral plot are each closed exactly when still open, and nothing else is |
| `WindowSets.HandleImageClosed` | openspectra/ui/windowmanager.py:277-309 | teardown never raises |
| `WindowSets.ImageClosedEmitsOnceLast` | openspectra/ui/windowmanager.py:277-309 | whichever window reports, `closed` is emitted exactly once, as the last call |
| `WindowSets.ImageClosedClosesTools` | openspectra/ui/windowmanager.py:295-309 | before `closed`, every tracked band-stats window is closed, and so are the histogram and plot exactly when they were open. None stays tracked, even on the unmatched-target branch |
| `WindowSets.ImageClosedImageWindows` | openspectra/ui/windowmanager.py:278-294 | the image window that did not report is disconnected before it is closed; an event for another window leaves the image windows alone |
| `WindowSets.HandleRegionWindowClose` | openspectra/ui/windowmanager.py:311-318 | every band-stats window is closed newest first and forgotten, then both image windows drop their overlays; once the image windows are gone this raises AttributeError |
| `WindowSets.ListClosedClears` | openspectra/ui/windowmanager.py:311-318 | the list window closing empties a set's band-stats tracking and changes nothing else in it |
| `WindowSets.Redraw` | openspectra/ui/windowmanager.py:353-364 | the image is re-adjusted first; the windows are refreshed and the histogram updated only when all are open, and a missing window raises AttributeError |
| `WindowSets.HandleLimitsReset` | openspectra/ui/windowmanager.py:320-337 | the stretch returns to the default on every channel; with all windows open, histograms are pushed for the image's channels |
| `WindowSets.PushAll` | openspectra/ui/windowmanager.py:327-337 | for each channel in order, the raw then the adjusted histogram is pushed: [RED, GREEN, BLUE] for RGB, [GREY] otherwise |
| `WindowSets.HandleLimitChange` | openspectra/ui/windowmanager.py:339-366 | with neither limit nothing happens. Otherwise only the event's channel gets the given upper and lower cutoffs, and only its adjusted histogram is pushed |
| `WindowSets.ResetAfterLimitChange` | openspectra/ui/windowmanager.py:320-366 | a reset erases whatever a limit change did |
| `WindowSets.LimitChangeAppliesEvenWhenClosed` | openspectra/ui/windowmanager.py:339-359 | the cutoffs are set before any window is touched, so they hold even when a window is gone |
| `WindowSets.HandleRegionStats` | openspectra/ui/windowmanager.py:402-426 | a new band-stats window with title "Region: name" gets the next id. It is tracked under the region, replacing any earlier window, and every other region keeps its window. The handler raises AttributeError once the histogram window is gone |
| `WindowSets.HandleBandStatsClosed` | openspectra/ui/windowmanager.py:374-381 | a closed band-stats window that is not tracked changes nothing. Otherwise the first entry in insertion order holding it is deleted, and every other entry stays in order |
| `WindowSets.RepeatedStatsOrphans` | openspectra/ui/windowmanager.py:409-413 | asking twice for one region's stats replaces the tracked window without closing it, so the first window is never closed by the set |
| `WindowSets.NextIdUnused` | openspectra/ui/windowmanager.py:409-413 | the next band-stats window's id is not tracked yet |
| `WindowSets.HandleRegionClosed` | openspectra/ui/windowmanager.py:428-437 | a region with a band-stats window has that window closed; any other region changes nothing |
| `WindowSets.RegionClosedDeletes` | openspectra/ui/windowmanager.py:428-437 | on sound bookkeeping, closing the window and then untracking it amounts to `del stats[region]` |
| `WindowSets.HandleRegionNameChanged` | openspectra/ui/windowmanager.py:439-446 | a region with a band-stats window has it retitled "Region: name"; nothing changes in the set |
| `WindowSets.Handle` | openspectra/ui/windowmanager.py:206-234 | no signal changes a set's file or image kind |
| `WindowSets.HandleKeepsFresh` | openspectra/ui/windowmanager.py:373-437 | every handler keeps band-stats tracking sound: keys distinct, no window under two regions, all ids already issued |
| `WindowSets.RegionStatsKeepsFresh` | openspectra/ui/windowmanager.py:409-413 | tracking a new band-stats window keeps the bookkeeping sound |
| `WindowSets.BandStatsClosedKeepsFresh` | openspectra/ui/windowmanager.py:374-381 | untracking a closed band-stats window keeps the bookkeeping sound |
| `WindowSets.RegionClosedKeepsFresh` | openspectra/ui/windowmanager.py:428-437 | closing a region's band-stats window keeps the bookkeeping sound |
| `Files.AddFile` | openspectra/ui/windowmanager.py:49-58 | a name already open leaves everything unchanged; a new name gets an empty FileManager and one band-list row |
| `Files.AddFileIdempotent` | openspectra/ui/windowmanager.py:49-58 | adding a file twice is the same as adding it once |
| `Files.AddFileKeepsListed` | openspectra/ui/windowmanager.py:49-58 | the band list shows each open file once and only open files |
| `Files.CreateWindowSet` | openspectra/ui/windowmanager.py:138-152 | the set is appended; it is placed 25 from the top, and 300 from the left for the first set or 25 right of the last set's main window |
| `Files.CascadesRight` | openspectra/ui/windowmanager.py:143-151 | while windows keep a positive width, each new set starts right of the previous one |
| `Files.RemoveFirst` | openspectra/ui/windowmanager.py:157 | `list.remove` raises ValueError exactly when the value is absent. Otherwise it drops the first occurrence and keeps every other element in order |
| `Files.FirstIndex` | openspectra/ui/windowmanager.py:157 | the position `list.remove` deletes holds the value, and no earlier element does |
| `Files.WindowSetClosed` | openspectra/ui/windowmanager.py:154-159 | the closed set leaves its file's list at its first occurrence, and the other sets keep their order. ValueError when it is not on the list |
| `Files.CreateThenClose` | openspectra/ui/windowmanager.py:138-159 | opening a window set and then closing it restores the file manager |
| `Files.RemoveLast` | openspectra/ui/windowmanager.py:157 | removing a value found only at the end removes the end |
| `Files.Route` | openspectra/ui/windowmanager.py:72-95 | a selection for an open file adds one set to that file only, greyscale for one band and RGB for three; a selection for another file does nothing |
| `RangeSelect.PickFrom` | openspectra/ui/toolsdisplay.py:304-314 | picking a From item never changes any item list |
| `RangeSelect.PickTo` | openspectra/ui/toolsdisplay.py:304-314 | picking a To item never changes any item list |
| `RangeSelect.PickFromOrders` | openspectra/ui/toolsdisplay.py:304-314 | after the From handler runs on a new choice, From is where the user put it and sits at or before To |
| `RangeSelect.PickToOrders` | openspectra/ui/toolsdisplay.py:304-314 | after the To handler runs on a new choice, To is where the user put it and From sits at or before it |
| `RangeSelect.Value` | openspectra/ui/toolsdisplay.py:320-324 | reading gives the current item, or raises ValueError exactly when nothing is current |
| `RangeSelect.SetRange` | openspectra/ui/toolsdisplay.py:326-343 | `end <= start` raises ValueError. Otherwise `start..end-1` goes in front of From's old items and `start+1..end` in front of To's. From is on item 0, and To is on item `end - 2`, or on no item when that is not an index of its list |
| `RangeSelect.SetRangeOnBlank` | openspectra/ui/toolsdisplay.py:326-340 | on an empty selector the items are exactly `start..end-1` and `start+1..end`; To is on its last item exactly when `start == 1`, and then the values read are 1 and `end` |
| `RangeSelect.StaggeredSpan` | openspectra/ui/toolsdisplay.py:334-337 | the two item lists of one `set_range` are increasing, and To's item k is From's item k plus one |
| `RangeSelect.PicksKeepStaggered` | openspectra/ui/toolsdisplay.py:304-314 | the handlers never change the item lists, so their staggering is kept |
| `RangeSelect.OrderedValues` | openspectra/ui/toolsdisplay.py:320-336 | on the items of one `set_range`, From at or before To reads a From value strictly below the To value |
| `RangeSelect.SetRangeTwiceMisorders` | openspectra/ui/toolsdisplay.py:326-340 | a second `set_range` without `clear` keeps the old items, and two picks then read From 4 and To 2 |
| `RangeSelect.SetRangeCleared` | openspectra/ui/toolsdisplay.py:316-343 | `set_range` after `clear` yields exactly one staggered range |
| `RangeSelect.SetRangeClearedOrders` | openspectra/ui/toolsdisplay.py:316-343 | after `clear` and `set_range`, any ordered pick reads From below To |
| `SubCube.InNumberRun` | openspectra/ui/toolsdisplay.py:406 | once a number has started, the rest of the text matches exactly when it is digits and separators with a digit after each separator |
| `SubCube.BandSpecShape` | openspectra/ui/toolsdisplay.py:406 | the band field's pattern matches exactly the texts that start with a digit and are digits and separators with a digit after each separator |
| `SubCube.DefaultBandsAccepted` | openspectra/ui/toolsdisplay.py:440 | the default band text "1-N" matches the pattern |
| `SubCube.TooltipExampleAccepted` | openspectra/ui/toolsdisplay.py:408-409 | the tooltip's example "1-10,12,14,19-21" matches the pattern |
| `SubCube.MalformedRejected` | openspectra/ui/toolsdisplay.py:406 | empty text, dangling or leading separators, doubled separators and spaces do not match |
| `SubCube.FileSelect` | openspectra/ui/toolsdisplay.py:426-441 | the placeholder empties the form. An unknown name raises KeyError. A file with fewer than two lines raises ValueError and changes nothing. A file with at least two lines but fewer than two samples gets its line range set, then raises ValueError with the sample range untouched. Otherwise both ranges are set, every band is offered as "1-N", and the file's interleave label is shown |
| `SubCube.SecondFileKeepsOldItems` | openspectra/ui/toolsdisplay.py:437-438 | choosing a second file keeps the first file's line items behind the new ones |
| `SubCube.SecondFileMisordersLines` | openspectra/ui/toolsdisplay.py:437-438 | choose a 3-line file, then a 5-line one, then pick lines: the line range reads From 4 and To 2 |
| `SubCube.FileSelectCleared` | openspectra/ui/toolsdisplay.py:427-441 | with the selectors cleared before they are filled, a chosen file's ranges are exactly its own |
| `SubCube.ClearedSelectOrdersLines` | openspectra/ui/toolsdisplay.py:427-441 | with clearing, any ordered pick of lines reads From below To |
| `Session.Send` | openspectra/ui/windowmanager.py:605 | a call to one window set changes that set only and keeps every set's file |
| `Session.Broadcast` | openspectra/ui/windowmanager.py:225-231 | `window_closed` empties the band-stats map of every open set, leaves every other part and every closed set alone, and keeps each set's file |
| `Session.Deliver` | openspectra/ui/windowmanager.py:601-657 | a rename, stats or close call changes only the set it names, and an export changes no set. `window_closed` is the broadcast to every open set. Every set keeps its file |
| `Session.ImageClosed` | openspectra/ui/windowmanager.py:154-159 | a set that is not open changes nothing. An open set runs its teardown. When it is on its file's list it leaves that list and the open sets once each, other files stay as they were, and nothing is raised. When it is not on the list, ValueError is raised and the files and open sets stay |
| `Session.DeliverAll` | openspectra/ui/windowmanager.py:601-657 | delivering a sequence of registry calls keeps the handles and every set's file |
| `Session.ListClosedDelivered` | openspectra/ui/windowmanager.py:653-657 | closing the list window is the registry's clear followed by the broadcast to the open sets |
| `Session.BulkClose` | openspectra/ui/windowmanager.py:311-318 | after the list window closes, registry and rows are empty, every open set has no band-stats windows, and nothing else in any set has changed |
| `Session.BroadcastKeepsFresh` | openspectra/ui/windowmanager.py:311-315 | the broadcast keeps every set's band-stats tracking sound |
| `Session.DeliverKeepsFresh` | openspectra/ui/windowmanager.py:601-651 | one delivered registry call keeps band-stats tracking sound |
| `Session.DeliverAllKeepsFresh` | openspectra/ui/windowmanager.py:601-657 | all delivered registry calls keep band-stats tracking sound |
| `Session.StepKeepsFresh` | openspectra/ui/windowmanager.py:402-437 | no input ever tracks a band-stats window under two regions or a region twice |
| `Session.RemoveFirstNoDup` | openspectra/ui/windowmanager.py:157 | on a list without duplicates, `remove` takes exactly that value out and leaves no duplicates |
| `Session.OpenKeepsRegistered` | openspectra/ui/windowmanager.py:138-152 | opening a set on an open file puts it among the open sets and on that file's list, and keeps every open set listed once under its own file |
| `Session.AddSetKeepsRegistered` | openspectra/ui/windowmanager.py:138-152 | appending a fresh set to one open file's list and to the open sets keeps every open set listed once under its own file |
| `Session.ImageClosedKeepsRegistered` | openspectra/ui/windowmanager.py:154-159 | after a close the open sets are exactly the old ones minus the closed set, and every open set stays listed once under its own file |
| `Session.DropSetKeepsRegistered` | openspectra/ui/windowmanager.py:154-159 | taking a set off the open sets and off its file's list keeps every open set listed once under its own file |
| `Session.StepKeepsRegistered` | openspectra/ui/windowmanager.py:138-159 | every input keeps the open sets and the files' lists in step: each open set is on its own file's list once, and only open sets are listed |

## Left out

- Widget construction, layout, fonts, colours and window geometry (`setGeometry`, `move`, `show`) are left out. Only the placement rule of `__create_window_set` is kept, with the previous window's rectangle as a parameter.
- Qt signal and slot machinery is not modelled. An emission is an event value or a direct call of the handler. When a slot raises, the model assumes the exception is reported and delivery carries on. That is what an installed `sys.excepthook` gives. PyQt5's default is to abort the application, and the model does not follow that default.
- `Session.ImageClosed`: the program reaches a closing set's FileManager by direct reference. The model looks the file up by name, and its KeyError branch for a missing name has no counterpart in the program. `Session.Registered` rules that branch out.
- `QMessageBox`, `QFileDialog` and `QStandardPaths` are not modelled; their answers are parameters.
- Image adjustment, histogram data and spectral and statistics plots (numerical code in other files) are left out. Only which channel or window is touched is kept; cutoffs are a per-channel map.
- `save_region` (CSV writing, in another file) is the effect `Export` with the path and the include-bands flag.
- `__handle_pixel_click`, `__handle_mouse_move`, `__init_histogram`, `init_position` and `__handle_area_selected` only plot or place windows, or forward to `add_region`, so they are left out.
- `SubCubeControl.__handle_save` is left out because it only reads the form and logs. `SubCubeWindow` is left out because it is layout.
- The singleton guard of `RegionOfInterestManager.__init__` is left out: the model has one explicit registry value.
- Logging is left out.
- `RoiManager.HandleSaved`: its own contract states only the first dialog. The full protocol is stated by `RoiManager.SaveProtocol` for a region that has a name. A region without a name makes `os.path.join` raise TypeError; that case is modelled but not listed in the lemma.
- `WindowSets.HandleRegionStats`: the window it creates is created even when placing it raises, and `show()` is then never called. The model records the creation only.
- `Session.Broadcast`: `window_closed` is taken to reach only window sets that are still open. A closed set whose slot were still connected would raise AttributeError on its missing image windows.
- `Session.Deliver`: a call the registry makes on a window set happens inside the registry's handler. The model delivers it after the handler, which gives the same final state because the window-set handlers do not call back into the registry.
- `os.path.split` is reduced to its head, and `os.path.join` to two components with '/' as separator.
- The band pattern is a predicate on the final text. The validator's handling of intermediate text while typing is not modelled.
- Only the three interleaves in `__format_map` are modelled. Any other interleave would raise KeyError in the code.
- Combo-box items are kept as the integers they spell (see `Text.ParseDecimalInverts`).

## Stale registry entries

`__do_close` (openspectra/ui/windowmanager.py:639-642) removes the region's
row from the list but keeps its registry entry. The model follows the code
(`RoiManager.DoClose`). `RoiManager.CloseLeavesStaleEntry` and
`RoiManager.StaleEntryExample` show the entry it leaves behind.
`RoiManager.DoCloseAndForget` also deletes the entry, and
`RoiManager.ForgetfulCloseKeepsAlignment` proves that this keeps registry and
list aligned.

## Findings

| source | as written | input that shows it | evidently intended | confidence | as-written member | corrected member |
|---|---|---|---|---|---|---|
| openspectra/ui/toolsdisplay.py:437-438 | `__handle_file_select` calls `set_range` on the line and sample selectors without `clear`, and `set_range` inserts the new items in front of the old ones | choose a file with 3 lines, then one with 5 lines, then pick From item 3 and To item 4: From reads 4 and To reads 2 | clear the selectors before filling them, so each file's ranges are its own and an ordered pick reads From below To | medium, not executed | `SubCube.SecondFileMisordersLines` | `SubCube.FileSelectCleared` |

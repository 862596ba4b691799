/** RangeSelector: a pair of combo boxes, "From" and "To", over the same
    number of integer items, whose change handlers push the other box so that
    From never sits past To. A combo box is its item list and its current
    index, -1 when nothing is current. Items are kept as the integers they
    spell: `int(str(n)) == n` for the values involved (see
    Text.ParseDecimalInverts). */
module RangeSelect {
  import opened Base

  datatype Combo = Combo(items: seq<int>, index: int)

  datatype Selector = Selector(from: Combo, to: Combo)

  const NoItems := Combo([], -1)

  /** A freshly built selector: both boxes empty. */
  const Blank := Selector(NoItems, NoItems)

  /** `QComboBox.setCurrentIndex`: an index outside the items makes nothing
      current. */
  function SetIndex(c: Combo, i: int): (c': Combo)
    ensures c'.items == c.items
    ensures 0 <= i < |c.items| ==> c'.index == i
    ensures !(0 <= i < |c.items|) ==> c'.index == -1
  {
    c.(index := if 0 <= i < |c.items| then i else -1)
  }

  /** The current index names an item, or nothing is current. */
  predicate IndexOk(c: Combo) {
    -1 <= c.index < |c.items|
  }

  /** `__handle_to_changed`, reached from the From handler: From is pulled
      back to the new To index when it sits past it; that change re-enters the
      From handler, which finds To not below From and does nothing. */
  function ToChanged(from: Combo, to: Combo): Selector {
    if from.index > to.index then Selector(SetIndex(from, to.index), to) else Selector(from, to)
  }

  /** `__handle_from_changed`, reached from the To handler: symmetric. */
  function FromChanged(from: Combo, to: Combo): Selector {
    if to.index < from.index then Selector(from, SetIndex(to, from.index)) else Selector(from, to)
  }

  /** The user picks From item i. When the current index changes, the From
      handler runs: To is pushed up to i when below it, and that change runs
      the To handler in turn. */
  function PickFrom(s: Selector, i: int): (s': Selector)
    ensures s'.from.items == s.from.items && s'.to.items == s.to.items
  {
    var f := SetIndex(s.from, i);
    if f.index == s.from.index then s
    else if s.to.index < f.index then
      var t := SetIndex(s.to, f.index);
      if t.index == s.to.index then Selector(f, t) else ToChanged(f, t)
    else Selector(f, s.to)
  }

  /** The user picks To item i: symmetric to PickFrom. */
  function PickTo(s: Selector, i: int): (s': Selector)
    ensures s'.from.items == s.from.items && s'.to.items == s.to.items
  {
    var t := SetIndex(s.to, i);
    if t.index == s.to.index then s
    else if s.from.index > t.index then
      var f := SetIndex(s.from, t.index);
      if f.index == s.from.index then Selector(f, t) else FromChanged(f, t)
    else Selector(s.from, t)
  }

  /** `clear`: both boxes lose their items. */
  function Clear(s: Selector): (s': Selector)
    ensures s' == Blank
  {
    Blank
  }

  /** `int(combo.currentText())`: with nothing current the text is empty and
      `int` raises ValueError. */
  function Value(c: Combo): (r: Result<int>)
    ensures r.Ok? <==> 0 <= c.index < |c.items|
    ensures r.Ok? ==> r.value == c.items[c.index]
    ensures r.Err? ==> r.error == ValueError
  {
    if 0 <= c.index < |c.items| then Ok(c.items[c.index]) else Err(ValueError)
  }

  /** `from_value`. */
  function FromValue(s: Selector): Result<int> {
    Value(s.from)
  }

  /** `to_value`. */
  function ToValue(s: Selector): Result<int> {
    Value(s.to)
  }

  /** The integers lo, lo + 1, ..., hi - 1. */
  function Span(lo: int, hi: int): (r: seq<int>)
    decreases hi - lo
    ensures |r| == if lo < hi then hi - lo else 0
    ensures forall k :: 0 <= k < |r| ==> r[k] == lo + k
  {
    if lo >= hi then [] else [lo] + Span(lo + 1, hi)
  }

  /** `set_range(start, end)`: rejects `end <= start` with ValueError; with
      the handlers disconnected, inserts `str(item)` into From and
      `str(item + 1)` into To at positions 0, 1, ... (ahead of any items
      already there), then makes item 0 of From and item `end - 2` of To
      current. */
  function SetRange(s: Selector, start: int, end: int): (r: Result<Selector>)
    ensures r.Err? <==> end <= start
    ensures r.Err? ==> r.error == ValueError
    ensures r.Ok? ==>
      && |r.value.from.items| == |s.from.items| + (end - start)
      && |r.value.to.items| == |s.to.items| + (end - start)
      && (forall k :: 0 <= k < end - start ==>
            r.value.from.items[k] == start + k && r.value.to.items[k] == start + k + 1)
      && r.value.from.items[end - start..] == s.from.items
      && r.value.to.items[end - start..] == s.to.items
      && r.value.from.index == 0
      && r.value.to.index == (if 0 <= end - 2 < |r.value.to.items| then end - 2 else -1)
  {
    if end <= start then Err(ValueError)
    else
      var from := Combo(Span(start, end) + s.from.items, s.from.index);
      var to := Combo(Span(start + 1, end + 1) + s.to.items, s.to.index);
      Ok(Selector(SetIndex(from, 0), SetIndex(to, end - 2)))
  }

  /** `set_range` on an emptied selector: the corrected use, with the old
      items removed first. */
  function SetRangeCleared(s: Selector, start: int, end: int): (r: Result<Selector>)
    ensures r.Err? <==> end <= start
    ensures r.Ok? ==> Staggered(r.value) && r.value.from.items == Span(start, end)
  {
    var r := SetRange(Clear(s), start, end);
    if r.Ok? then
      assert r.value.from.items == Span(start, end);
      StaggeredSpan(r.value, start, end);
      r
    else r
  }

  /** The items a single `set_range` produces: To's item k is one more than
      From's item k, and From's items increase. */
  predicate Staggered(s: Selector) {
    && |s.from.items| == |s.to.items|
    && (forall k :: 0 <= k < |s.from.items| ==> s.to.items[k] == s.from.items[k] + 1)
    && (forall j, k :: 0 <= j < k < |s.from.items| ==> s.from.items[j] < s.from.items[k])
  }

  /** Both current indices are valid and From does not sit past To. */
  predicate Ordered(s: Selector) {
    IndexOk(s.from) && IndexOk(s.to) && s.from.index <= s.to.index
  }

  // ---------------------------------------------------------------------
  // Properties

  lemma StaggeredSpan(s: Selector, start: int, end: int)
    requires start < end
    requires s.from.items == Span(start, end) && s.to.items == Span(start + 1, end + 1)
    ensures Staggered(s)
  {
  }

  /** On an empty selector, `set_range` yields the items `start..end-1` and
      `start+1..end`; To's current item is its last exactly when `start == 1`,
      as at the two call sites. */
  lemma SetRangeOnBlank(start: int, end: int)
    requires start < end
    ensures var s := SetRange(Blank, start, end).value;
      && s.from.items == Span(start, end)
      && s.to.items == Span(start + 1, end + 1)
      && Staggered(s)
      && (s.to.index == |s.to.items| - 1 <==> start == 1)
      && (start == 1 ==> Ordered(s) && FromValue(s) == Ok(1) && ToValue(s) == Ok(end))
  {
    var s := SetRange(Blank, start, end).value;
    assert s.from.items == Span(start, end);
    assert s.to.items == Span(start + 1, end + 1);
  }

  /** After the From handler runs on a choice that changed From, From sits at
      or before To. */
  lemma PickFromOrders(s: Selector, i: int)
    requires |s.from.items| == |s.to.items| && IndexOk(s.from) && IndexOk(s.to)
    requires 0 <= i < |s.from.items| && i != s.from.index
    ensures PickFrom(s, i).from.index == i
    ensures Ordered(PickFrom(s, i))
  {
  }

  /** After the To handler runs on a choice that changed To, From sits at or
      before To, and To is where the user put it. */
  lemma PickToOrders(s: Selector, i: int)
    requires |s.from.items| == |s.to.items| && IndexOk(s.from) && IndexOk(s.to)
    requires 0 <= i < |s.to.items| && i != s.to.index
    ensures PickTo(s, i).to.index == i
    ensures Ordered(PickTo(s, i))
  {
  }

  /** With the items of a single `set_range`, an ordered selector reads a
      From value strictly below its To value. */
  lemma OrderedValues(s: Selector)
    requires Staggered(s) && Ordered(s) && s.from.index >= 0
    ensures FromValue(s).Ok? && ToValue(s).Ok?
    ensures FromValue(s).value < ToValue(s).value
  {
    var f := s.from.index;
    var t := s.to.index;
    assert f == t || s.from.items[f] < s.from.items[t];
  }

  /** Picking keeps the items, so whatever `set_range` produced stays
      staggered and, once ordered, keeps reading From < To. */
  lemma PicksKeepStaggered(s: Selector, i: int)
    requires Staggered(s)
    ensures Staggered(PickFrom(s, i)) && Staggered(PickTo(s, i))
  {
  }

  // ---------------------------------------------------------------------
  // set_range without a preceding clear

  /** A second `set_range` without `clear` leaves the first range's items
      behind the new ones, and the handlers then let From read more than To. */
  lemma SetRangeTwiceMisorders()
    ensures var s1 := SetRange(Blank, 1, 3).value;
      var s2 := SetRange(s1, 1, 5).value;
      var s3 := PickTo(PickFrom(s2, 3), 4);
      && s2.from.items == [1, 2, 3, 4, 1, 2]
      && s2.to.items == [2, 3, 4, 5, 2, 3]
      && Ordered(s3)
      && FromValue(s3) == Ok(4) && ToValue(s3) == Ok(2)
      && !Staggered(s2)
  {
    var s1 := SetRange(Blank, 1, 3).value;
    assert s1.from.items == [1, 2] && s1.to.items == [2, 3];
    var s2 := SetRange(s1, 1, 5).value;
    assert s2.from.items[..4] == [1, 2, 3, 4];
    assert s2.to.items[..4] == [2, 3, 4, 5];
    assert s2.from.items == s2.from.items[..4] + s2.from.items[4..];
    assert s2.to.items == s2.to.items[..4] + s2.to.items[4..];
    assert s2.from.items[0] == s2.from.items[4];
  }

  /** With the old items cleared first, every ordered pick reads From < To. */
  lemma SetRangeClearedOrders(s: Selector, start: int, end: int, i: int, j: int)
    requires start < end
    ensures var s' := SetRangeCleared(s, start, end).value;
      var p := PickTo(PickFrom(s', i), j);
      Ordered(p) && p.from.index >= 0 ==> FromValue(p).value < ToValue(p).value
  {
    var s' := SetRangeCleared(s, start, end).value;
    PicksKeepStaggered(s', i);
    PicksKeepStaggered(PickFrom(s', i), j);
    var p := PickTo(PickFrom(s', i), j);
    if Ordered(p) && p.from.index >= 0 {
      OrderedValues(p);
    }
  }
}

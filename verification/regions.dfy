/** The mutable attributes of RegionOfInterest objects that the core reads and
    writes: the display name (unset until first registration or an explicit
    rename) and the optional map/georeference info. Objects are identified by
    handle; an absent key is Python's `None`. */
module Regions {
  import opened Base
  import Text

  /** Georeference metadata of a file header, carried around opaquely. */
  datatype MapInfo = MapInfo(tag: nat)

  datatype Store = Store(names: map<RegionId, string>, mapInfo: map<RegionId, MapInfo>)

  const NoRegions := Store(map[], map[])

  /** `region.display_name()`. */
  function DisplayName(st: Store, r: RegionId): (n: Option<string>)
    ensures n.Some? <==> r in st.names
  {
    if r in st.names then Some(st.names[r]) else None
  }

  /** `region.set_display_name(name)`: only r's name changes. */
  function Rename(st: Store, r: RegionId, name: string): (st': Store)
    ensures DisplayName(st', r) == Some(name)
    ensures forall q :: q != r ==> DisplayName(st', q) == DisplayName(st, q)
    ensures st'.mapInfo == st.mapInfo
  {
    st.(names := st.names[r := name])
  }

  /** `region.set_map_info(info)`. */
  function AttachMapInfo(st: Store, r: RegionId, info: MapInfo): (st': Store)
    ensures st'.names == st.names
    ensures r in st'.mapInfo && st'.mapInfo[r] == info
    ensures forall q :: q != r ==> (q in st'.mapInfo <==> q in st.mapInfo)
    ensures forall q :: q != r && q in st.mapInfo ==> st'.mapInfo[q] == st.mapInfo[q]
  {
    st.(mapInfo := st.mapInfo[r := info])
  }

  /** `"Region {0}".format(n)`: the name given to an unnamed region. */
  function AutoName(n: nat): string {
    "Region " + Text.Decimal(n)
  }

  /** `str(name)` for a name that may be None, as `format` prints it. */
  function Shown(name: Option<string>): string {
    match name
    case None => "None"
    case Some(s) => s
  }

  /** Two counter values give the same automatic name only if they are equal,
      so a counter that never goes back never hands out a name twice. */
  lemma AutoNamesDistinct(a: nat, b: nat)
    ensures AutoName(a) == AutoName(b) <==> a == b
  {
    if AutoName(a) == AutoName(b) {
      assert Text.Decimal(a) == AutoName(a)[7..];
      Text.DecimalInjective(a, b);
    }
  }
}

/**
 The slab allocator: zones of equal chunks on top of the page allocator.

 A zone is known by the number of its first page; an address is a number of bytes.
 */
module Slab {
  import opened Lists
  import opened RingList
  import opened ZoneIndex
  import Pages = PageList

  const PAGE: int := 4096           // RT_MM_PAGE_SIZE
  const ZONE_HEADER: int := 36      // sizeof(slab_zone)
  const RELEASE_THRESHOLD: int := 2 // ZONE_RELEASE_THRESH

  /** struct slab_zone; `free` is the list of freed chunks from z_freechunk on. */
  datatype Zone = Zone(index: int, size: int, off: int, nmax: int, nfree: int, uindex: int, free: seq<int>)

  datatype Kind = FreePage | Small | Large

  /** struct memusage. */
  datatype Usage = Usage(kind: Kind, size: int)

  /** zone_array, zone_free, memusage and the zones themselves. */
  datatype State = State(zones: map<int, Zone>, lists: seq<seq<int>>, zoneFree: seq<int>, usage: map<int, Usage>)

  // ----- the chunks of a zone -----

  function Chunk(z: int, zone: Zone, k: int): (a: int) {
    z * PAGE + zone.off + k * zone.size
  }

  /** The chunks that have been given out at least once. */
  ghost function Touched(z: int, zone: Zone, u: int): (s: set<int>)
    decreases u + 1
  {
    if u < 0 then {} else Touched(z, zone, u - 1) + {Chunk(z, zone, u)}
  }

  lemma {:induction false} TouchedBounds(z: int, zone: Zone, u: int, a: int)
    requires zone.size > 0 && a in Touched(z, zone, u)
    ensures Chunk(z, zone, 0) <= a <= Chunk(z, zone, u)
    decreases u + 1
  {
    if a != Chunk(z, zone, u) {
      TouchedBounds(z, zone, u - 1, a);
      NextChunk(z, zone, u - 1);
    } else {
      ChunkOrder(z, zone, u);
    }
  }

  lemma NextChunk(z: int, zone: Zone, k: int)
    ensures Chunk(z, zone, k + 1) == Chunk(z, zone, k) + zone.size
  {
  }

  lemma {:induction false} ChunkOrder(z: int, zone: Zone, u: int)
    requires zone.size > 0 && u >= 0
    ensures Chunk(z, zone, 0) <= Chunk(z, zone, u)
    decreases u
  {
    if u > 0 {
      ChunkOrder(z, zone, u - 1);
      NextChunk(z, zone, u - 1);
    }
  }

  lemma {:induction false} TouchedCount(z: int, zone: Zone, u: int)
    requires zone.size > 0 && u >= -1
    ensures |Touched(z, zone, u)| == u + 1 && Chunk(z, zone, u + 1) !in Touched(z, zone, u)
    decreases u + 1
  {
    if u >= 0 { TouchedCount(z, zone, u - 1); }
    NextChunk(z, zone, u);
    if Chunk(z, zone, u + 1) in Touched(z, zone, u) { TouchedBounds(z, zone, u, Chunk(z, zone, u + 1)); }
  }

  /** The same chunks, whatever else the header says. */
  lemma {:induction false} TouchedSame(z: int, zone: Zone, zone': Zone, u: int)
    requires zone'.off == zone.off && zone'.size == zone.size
    ensures Touched(z, zone', u) == Touched(z, zone, u)
    decreases u + 1
  {
    if u >= 0 { TouchedSame(z, zone, zone', u - 1); }
  }

  // ----- one zone -----

  /** What the header promises by itself. */
  ghost predicate Header(zone: Zone, zoneSize: int) {
    && 0 <= zone.index < NZONES && zone.size == ChunkSize(zone.index) > 0
    && ZONE_HEADER <= zone.off == ZoneOffset(zone.size) && zone.off + zone.nmax * zone.size <= zoneSize
    && 0 <= zone.uindex < zone.nmax
    && zone.nfree == zone.nmax - 1 - zone.uindex + |zone.free|
    && Distinct(zone.free)
  }

  /** Every touched chunk is live or in the zone's free list, and not both. */
  ghost predicate Shared(z: int, zone: Zone, live: map<int, int>) {
    && (forall a :: a in zone.free ==> a in Touched(z, zone, zone.uindex) && a !in live)
    && (forall a :: a in Touched(z, zone, zone.uindex) ==> a in zone.free || (a in live && live[a] == z))
  }

  /** The chunks of a zone lie in its pages, behind its header. */
  lemma TouchedInside(z: int, zone: Zone, zoneSize: int, a: int)
    requires Header(zone, zoneSize) && a in Touched(z, zone, zone.uindex)
    ensures z * PAGE + ZONE_HEADER <= a && a + zone.size <= z * PAGE + zoneSize
  {
    TouchedBounds(z, zone, zone.uindex, a);
    ChunkFits(zone.uindex, zone.nmax, zone.size);
  }

  /** A zone whose chunks are all free has no live ones. */
  lemma AllFree(z: int, zone: Zone, zoneSize: int, live: map<int, int>, a: int)
    requires Header(zone, zoneSize) && Shared(z, zone, live) && zone.nfree == zone.nmax
    requires a in Touched(z, zone, zone.uindex)
    ensures a !in live
  {
    var t, f := Touched(z, zone, zone.uindex), Elements(zone.free);
    TouchedCount(z, zone, zone.uindex);
    ElementsCount(zone.free);
    forall x | x in f
      ensures x in t
    {
      assert x in zone.free;
    }
    Same(f, t);
  }

  lemma Same(f: set<int>, t: set<int>)
    requires f <= t && |f| == |t|
    ensures f == t
  {
    assert |t - f| == |t| - |f|;
    assert forall x :: x !in t - f;
  }

  // ----- all zones -----

  /** `live` maps each chunk in use to its zone; `owned` maps first pages to numbers of pages taken. */
  datatype View = View(live: map<int, int>, owned: map<int, int>)

  ghost predicate ZonesGood(s: State, live: map<int, int>, zonePages: int) {
    && (forall z :: z in s.zones ==> Header(s.zones[z], zonePages * PAGE) && Shared(z, s.zones[z], live))
    && (forall a :: a in live ==> live[a] in s.zones &&
                                  a in Touched(live[a], s.zones[live[a]], s.zones[live[a]].uindex))
  }

  /** A zone is on the list of its class exactly while it has free chunks. */
  ghost predicate ListsGood(zones: map<int, Zone>, lists: seq<seq<int>>) {
    && |lists| == NZONES
    && (forall k :: 0 <= k < NZONES ==> Distinct(lists[k]))
    && (forall k, z :: 0 <= k < NZONES ==>
          (z in lists[k] <==> z in zones && zones[z].index == k && zones[z].nfree > 0))
  }

  ghost predicate IsZone(s: State, z: int) {
    z in s.zones || z in s.zoneFree
  }

  /** The pages of a zone point back to its first page. */
  ghost predicate PagesPointBack(usage: map<int, Usage>, z: int, zonePages: int) {
    forall p :: z <= p < z + zonePages ==> p in usage && usage[p] == Usage(Small, p - z)
  }

  ghost predicate UsageGood(s: State, owned: map<int, int>, zonePages: int) {
    && Distinct(s.zoneFree) && (forall z :: z in s.zoneFree ==> z !in s.zones)
    && (forall z :: IsZone(s, z) ==> z in owned && owned[z] == zonePages && PagesPointBack(s.usage, z, zonePages))
    && (forall p :: p in owned && !IsZone(s, p) ==> p in s.usage && s.usage[p] == Usage(Large, owned[p]))
  }

  /** What is taken does not overlap and is not free. */
  ghost predicate Apart(owned: map<int, int>, runs: seq<Pages.Run>) {
    && (forall p :: p in owned ==> owned[p] > 0 && Pages.NoneFree(runs, p, owned[p]))
    && (forall p, q :: p in owned && q in owned && p != q ==> p + owned[p] <= q || q + owned[q] <= p)
  }

  ghost predicate Sound(s: State, v: View, runs: seq<Pages.Run>, zonePages: int) {
    && zonePages >= 8
    && ZonesGood(s, v.live, zonePages)
    && ListsGood(s.zones, s.lists)
    && UsageGood(s, v.owned, zonePages)
    && Apart(v.owned, runs)
  }

  /** A chunk belongs to one zone only. */
  lemma OneZone(s: State, v: View, runs: seq<Pages.Run>, zonePages: int, z: int, y: int, a: int)
    requires UsageGood(s, v.owned, zonePages) && Apart(v.owned, runs) && IsZone(s, z) && IsZone(s, y)
    requires z * PAGE <= a < (z + zonePages) * PAGE && y * PAGE <= a < (y + zonePages) * PAGE
    ensures z == y
  {
  }

  /** The page of a chunk leads back to its zone. */
  lemma PageOf(z: int, zonePages: int, a: int)
    requires z * PAGE <= a < (z + zonePages) * PAGE
    ensures z <= a / PAGE < z + zonePages
  {
  }

  /** A chunk of zone `z` changes hands: other zones do not notice. */
  lemma OtherZones(s: State, v: View, runs: seq<Pages.Run>, zonePages: int, z: int, a: int, live': map<int, int>,
                   y: int)
    requires ZonesGood(s, v.live, zonePages) && UsageGood(s, v.owned, zonePages) && Apart(v.owned, runs)
    requires IsZone(s, z) && z * PAGE <= a < (z + zonePages) * PAGE && y in s.zones && y != z
    requires forall x :: x != a ==> (x in live' <==> x in v.live)
    requires forall x :: x != a && x in live' ==> live'[x] == v.live[x]
    ensures Shared(y, s.zones[y], live') && a !in Touched(y, s.zones[y], s.zones[y].uindex)
  {
    var zone := s.zones[y];
    if a in Touched(y, zone, zone.uindex) {
      TouchedInside(y, zone, zonePages * PAGE, a);
      OneZone(s, v, runs, zonePages, z, y, a);
    }
    assert forall x :: x in Touched(y, zone, zone.uindex) ==> x != a;
  }

  /** A chunk that is in no zone's touched part is not live. */
  lemma NotLive(s: State, v: View, runs: seq<Pages.Run>, zonePages: int, z: int, a: int)
    requires ZonesGood(s, v.live, zonePages) && UsageGood(s, v.owned, zonePages) && Apart(v.owned, runs)
    requires IsZone(s, z) && z * PAGE <= a < (z + zonePages) * PAGE
    requires z in s.zones ==> a !in Touched(z, s.zones[z], s.zones[z].uindex)
    ensures a !in v.live
  {
    if a in v.live {
      var y := v.live[a];
      TouchedInside(y, s.zones[y], zonePages * PAGE, a);
      OneZone(s, v, runs, zonePages, z, y, a);
    }
  }

  // ----- a chunk is given out -----

  /** The zone after a chunk has been given out, from memory not used before as long as there is some. */
  function Popped(zone: Zone): (r: Zone)
    requires zone.uindex + 1 == zone.nmax ==> zone.free != []
  {
    if zone.uindex + 1 != zone.nmax then zone.(nfree := zone.nfree - 1, uindex := zone.uindex + 1)
    else zone.(nfree := zone.nfree - 1, free := zone.free[1..])
  }

  function PoppedChunk(z: int, zone: Zone): (a: int)
    requires zone.uindex + 1 == zone.nmax ==> zone.free != []
  {
    if zone.uindex + 1 != zone.nmax then Chunk(z, zone, zone.uindex + 1) else zone.free[0]
  }

  lemma PopFresh(z: int, zone: Zone, zoneSize: int, live: map<int, int>)
    requires Header(zone, zoneSize) && Shared(z, zone, live) && zone.nfree > 0 && zone.uindex + 1 != zone.nmax
    requires Chunk(z, zone, zone.uindex + 1) !in live
    ensures var zone', a := Popped(zone), PoppedChunk(z, zone);
            && Touched(z, zone', zone'.uindex) == Touched(z, zone, zone.uindex) + {a}
            && Header(zone', zoneSize) && Shared(z, zone', live[a := z])
  {
    hide Chunk;
    var a, zone' := PoppedChunk(z, zone), Popped(zone);
    TouchedSame(z, zone, zone', zone.uindex + 1);
    TouchedMore(z, zone, zone.uindex);
    hide Touched;
  }

  lemma TouchedMore(z: int, zone: Zone, u: int)
    requires u >= -1 && zone.size > 0
    ensures Touched(z, zone, u + 1) == Touched(z, zone, u) + {Chunk(z, zone, u + 1)}
    ensures Chunk(z, zone, u + 1) !in Touched(z, zone, u)
  {
    TouchedCount(z, zone, u);
  }

  lemma PopFreed(z: int, zone: Zone, zoneSize: int, live: map<int, int>)
    requires Header(zone, zoneSize) && Shared(z, zone, live) && zone.nfree > 0 && zone.uindex + 1 == zone.nmax
    ensures zone.free != []
    ensures var zone', a := Popped(zone), PoppedChunk(z, zone);
            && a in Touched(z, zone, zone.uindex) && a !in live
            && Touched(z, zone', zone'.uindex) == Touched(z, zone, zone.uindex)
            && Header(zone', zoneSize) && Shared(z, zone', live[a := z])
  {
    hide Chunk;
    var zone' := Popped(zone);
    TouchedSame(z, zone, zone', zone.uindex);
    hide Touched;
    assert zone.free[0] in zone.free;
    assert forall x :: x in zone.free[1..] <==> x in zone.free && x != zone.free[0];
  }

  lemma PopChunk(z: int, zone: Zone, zoneSize: int, live: map<int, int>)
    requires Header(zone, zoneSize) && Shared(z, zone, live) && zone.nfree > 0
    requires Chunk(z, zone, zone.uindex + 1) !in live || zone.uindex + 1 == zone.nmax
    ensures zone.uindex + 1 == zone.nmax ==> zone.free != []
    ensures var a := PoppedChunk(z, zone);
            && a !in live && a in Touched(z, Popped(zone), Popped(zone).uindex)
            && Header(Popped(zone), zoneSize) && Shared(z, Popped(zone), live[a := z])
            && forall x :: x in Touched(z, zone, zone.uindex) ==> x in Touched(z, Popped(zone), Popped(zone).uindex)
  {
    hide Chunk, Touched, Header, Shared;
    if zone.uindex + 1 != zone.nmax { PopFresh(z, zone, zoneSize, live); } else { PopFreed(z, zone, zoneSize, live); }
  }

  /** The list of the class after a zone's count of free chunks has changed. */
  lemma ListsUpdate(zones: map<int, Zone>, lists: seq<seq<int>>, z: int, zone: Zone, list: seq<int>)
    requires ListsGood(zones, lists) && 0 <= zone.index < NZONES && (z in zones ==> zones[z].index == zone.index)
    requires Distinct(list) && forall y :: y in list <==> if y == z then zone.nfree > 0 else y in lists[zone.index]
    ensures ListsGood(zones[z := zone], lists[zone.index := list])
  {
  }

  /** rt_malloc from a zone of the list. */
  ghost function Given(s: State, z: int, index: int): (r: State)
    requires 0 <= index < |s.lists| && s.lists[index] != [] && z in s.zones
    requires s.zones[z].uindex + 1 == s.zones[z].nmax ==> s.zones[z].free != []
  {
    var zone := Popped(s.zones[z]);
    s.(zones := s.zones[z := zone],
       lists := s.lists[index := if zone.nfree == 0 then s.lists[index][1..] else s.lists[index]])
  }

  /** One zone changes together with one of its chunks. */
  lemma ZonesUpdate(s: State, v: View, runs: seq<Pages.Run>, zonePages: int, z: int, zone: Zone, a: int,
                    live: map<int, int>)
    requires ZonesGood(s, v.live, zonePages) && UsageGood(s, v.owned, zonePages) && Apart(v.owned, runs)
    requires IsZone(s, z) && z * PAGE <= a < (z + zonePages) * PAGE
    requires Header(zone, zonePages * PAGE) && Shared(z, zone, live)
    requires forall x :: x != a ==> (x in live <==> x in v.live)
    requires forall x :: x != a && x in live ==> live[x] == v.live[x]
    requires a in live ==> live[a] == z && a in Touched(z, zone, zone.uindex)
    requires z in s.zones ==>
               forall x :: x in Touched(z, s.zones[z], s.zones[z].uindex) ==> x in Touched(z, zone, zone.uindex)
    ensures ZonesGood(s.(zones := s.zones[z := zone]), live, zonePages)
  {
    hide Touched, Header, Shared, UsageGood, Apart;
    var zones := s.zones[z := zone];
    forall y | y in zones
      ensures Header(zones[y], zonePages * PAGE) && Shared(y, zones[y], live)
    {
      if y != z { OtherZones(s, v, runs, zonePages, z, a, live, y); }
    }
    forall x | x in live
      ensures live[x] in zones && x in Touched(live[x], zones[live[x]], zones[live[x]].uindex)
    {
      if x != a { assert x in v.live; }
    }
  }

  /** Lists and headers are not looked at for who owns a page. */
  lemma UsageSame(s: State, s': State, owned: map<int, int>, zonePages: int)
    requires UsageGood(s, owned, zonePages) && s'.usage == s.usage && s'.zoneFree == s.zoneFree
    requires forall z :: z in s'.zones <==> z in s.zones
    ensures UsageGood(s', owned, zonePages)
  {
    assert forall z :: IsZone(s', z) <==> IsZone(s, z);
  }

  lemma FirstOfList(s: State, v: View, runs: seq<Pages.Run>, zonePages: int, index: int)
    requires Sound(s, v, runs, zonePages) && 0 <= index < NZONES && s.lists[index] != []
    ensures var z := s.lists[index][0];
            && z in s.zones && s.zones[z].index == index && s.zones[z].nfree > 0 && s.zones[z].size == ChunkSize(index)
            && IsZone(s, z) && Header(s.zones[z], zonePages * PAGE) && Shared(z, s.zones[z], v.live)
            && forall y :: y in s.lists[index][1..] <==> y in s.lists[index] && y != z
  {
    assert s.lists[index][0] in s.lists[index];
  }

  lemma GiveStep(s: State, v: View, runs: seq<Pages.Run>, zonePages: int, z: int, index: int)
    requires Sound(s, v, runs, zonePages) && 0 <= index < NZONES && s.lists[index] != [] && z == s.lists[index][0]
    ensures z in s.zones && s.zones[z].nfree > 0 && s.zones[z].size == ChunkSize(index)
    ensures s.zones[z].uindex < s.zones[z].nmax
    ensures s.zones[z].uindex + 1 == s.zones[z].nmax ==> s.zones[z].free != []
    ensures var a := PoppedChunk(z, s.zones[z]);
            && a !in v.live
            && Sound(Given(s, z, index), v.(live := v.live[a := z]), runs, zonePages)
  {
    hide Chunk, Touched, Header, Shared, ZonesGood, UsageGood, Apart;
    FirstOfList(s, v, runs, zonePages, index);
    FreshChunk(s, v, runs, zonePages, z);
    var zone := s.zones[z];
    PopChunk(z, zone, zonePages * PAGE, v.live);
    var a, zone' := PoppedChunk(z, zone), Popped(zone);
    ChunkInZone(z, zone', zonePages, a);
    ZonesUpdate(s, v, runs, zonePages, z, zone', a, v.live[a := z]);
    GiveLists(s.zones, s.lists, z, zone', index);
    UsageSame(s, Given(s, z, index), v.owned, zonePages);
    ZonesOnly(s.(zones := s.zones[z := zone']), Given(s, z, index), v.live[a := z], zonePages);
  }

  lemma ZonesOnly(s: State, s': State, live: map<int, int>, zonePages: int)
    requires ZonesGood(s, live, zonePages) && s'.zones == s.zones
    ensures ZonesGood(s', live, zonePages)
  {
  }

  lemma ChunkInZone(z: int, zone: Zone, zonePages: int, a: int)
    requires Header(zone, zonePages * PAGE) && a in Touched(z, zone, zone.uindex)
    ensures z * PAGE <= a < (z + zonePages) * PAGE
  {
    TouchedInside(z, zone, zonePages * PAGE, a);
  }

  lemma GiveLists(zones: map<int, Zone>, lists: seq<seq<int>>, z: int, zone: Zone, index: int)
    requires ListsGood(zones, lists) && 0 <= index < NZONES && lists[index] != [] && z == lists[index][0] && z in zones
    requires zone.index == zones[z].index == index && zone.nfree >= 0
    requires forall y :: y in lists[index][1..] <==> y in lists[index] && y != z
    ensures ListsGood(zones[z := zone], lists[index := if zone.nfree == 0 then lists[index][1..] else lists[index]])
  {
    assert z in lists[index];
    ListsUpdate(zones, lists, z, zone, if zone.nfree == 0 then lists[index][1..] else lists[index]);
  }

  lemma FreshChunk(s: State, v: View, runs: seq<Pages.Run>, zonePages: int, z: int)
    requires Sound(s, v, runs, zonePages) && z in s.zones
    ensures s.zones[z].uindex + 1 != s.zones[z].nmax ==> Chunk(z, s.zones[z], s.zones[z].uindex + 1) !in v.live
  {
    var zone := s.zones[z];
    if zone.uindex + 1 != zone.nmax {
      var a := Chunk(z, zone, zone.uindex + 1);
      TouchedMore(z, zone, zone.uindex);
      ChunkOrder(z, zone, zone.uindex + 1);
      ChunkFits(zone.uindex + 1, zone.nmax, zone.size);
      NotLive(s, v, runs, zonePages, z, a);
    }
  }

  // ----- zones come and go -----

  /** The memusage entries of `n` pages from `z` on, as a new zone sets them. */
  ghost function PointedBack(usage: map<int, Usage>, z: int, n: nat): (r: map<int, Usage>) {
    if n == 0 then usage else PointedBack(usage, z, n - 1)[z + n - 1 := Usage(Small, n - 1)]
  }

  lemma {:induction false} PointedBackIs(usage: map<int, Usage>, z: int, n: nat)
    ensures PagesPointBack(PointedBack(usage, z, n), z, n)
    ensures forall p :: p < z || p >= z + n ==>
              && (p in PointedBack(usage, z, n) <==> p in usage)
              && (p in usage ==> PointedBack(usage, z, n)[p] == usage[p])
    decreases n
  {
    if n > 0 { PointedBackIs(usage, z, n - 1); }
  }

  /** Free pages overlap nothing that is taken. */
  lemma TakenApart(owned: map<int, int>, runs: seq<Pages.Run>, runs': seq<Pages.Run>, z: int, n: int)
    requires Apart(owned, runs) && n > 0 && Pages.AllFree(runs, z, n)
    requires forall x :: Pages.Free(runs', x) <==> Pages.Free(runs, x) && !(z <= x < z + n)
    ensures z !in owned && Apart(owned[z := n], runs')
    ensures forall p :: p in owned ==> p + owned[p] <= z || z + n <= p
  {
    forall p | p in owned
      ensures p + owned[p] <= z || z + n <= p
    {
      OverlapIsBoth(runs, p, owned[p], z, n);
    }
  }

  lemma OverlapIsBoth(runs: seq<Pages.Run>, p: int, m: int, z: int, n: int)
    requires m > 0 && n > 0 && Pages.NoneFree(runs, p, m) && Pages.AllFree(runs, z, n)
    ensures p + m <= z || z + n <= p
  {
    var x := if p < z then z else p;
    assert z <= x < z + n ==> Pages.Free(runs, x);
  }

  /** Entries outside the taken pages do not matter to other zones. */
  lemma UsageElsewhere(s: State, usage: map<int, Usage>, owned: map<int, int>, zonePages: int, z: int, n: int)
    requires UsageGood(s, owned, zonePages) && zonePages > 0
    requires forall p :: p in owned ==> p + owned[p] <= z || z + n <= p
    requires forall p :: p in owned ==> owned[p] > 0
    requires forall p :: p < z || p >= z + n ==>
                           (p in usage <==> p in s.usage) && (p in usage ==> usage[p] == s.usage[p])
    ensures UsageGood(s.(usage := usage), owned, zonePages)
  {
    var s' := s.(usage := usage);
    forall y | IsZone(s', y)
      ensures PagesPointBack(usage, y, zonePages)
    {
      assert IsZone(s, y);
      assert PagesPointBack(s.usage, y, zonePages);
    }
    forall p | p in owned && !IsZone(s', p)
      ensures p in usage && usage[p] == Usage(Large, owned[p])
    {
      assert !IsZone(s, p);
    }
  }

  /** A zone's worth of pages is set aside. */
  lemma AcquireStep(s: State, v: View, runs: seq<Pages.Run>, runs': seq<Pages.Run>, zonePages: int, z: int)
    requires Sound(s, v, runs, zonePages) && Pages.AllFree(runs, z, zonePages)
    requires forall x :: Pages.Free(runs', x) <==> Pages.Free(runs, x) && !(z <= x < z + zonePages)
    ensures z !in v.owned
    ensures Sound(s.(zoneFree := [z] + s.zoneFree, usage := PointedBack(s.usage, z, zonePages)),
                  v.(owned := v.owned[z := zonePages]), runs', zonePages)
  {
    hide ZonesGood, ListsGood, PointedBack;
    var usage := PointedBack(s.usage, z, zonePages);
    PointedBackIs(s.usage, z, zonePages);
    TakenApart(v.owned, runs, runs', z, zonePages);
    UsageElsewhere(s, usage, v.owned, zonePages, z, zonePages);
    var s' := s.(zoneFree := [z] + s.zoneFree, usage := usage);
    assert !IsZone(s, z);
    assert forall y :: IsZone(s', y) <==> IsZone(s, y) || y == z;
    assert forall y :: IsZone(s, y) <==> IsZone(s.(usage := usage), y);
    hide Apart;
    UsageMore(s.(usage := usage), s', v.owned, zonePages, z);
    ZonesOnly(s, s', v.live, zonePages);
  }

  lemma UsageMore(s: State, s': State, owned: map<int, int>, zonePages: int, z: int)
    requires UsageGood(s, owned, zonePages) && !IsZone(s, z) && PagesPointBack(s.usage, z, zonePages)
    requires s' == s.(zoneFree := [z] + s.zoneFree) && forall y :: IsZone(s', y) <==> IsZone(s, y) || y == z
    ensures UsageGood(s', owned[z := zonePages], zonePages)
  {
    hide PagesPointBack;
  }

  /** The first free zone is put to use, and its first chunk given out. */
  ghost function Reused(s: State, zone: Zone): (r: State)
    requires s.zoneFree != [] && 0 <= zone.index < |s.lists|
  {
    var z := s.zoneFree[0];
    s.(zoneFree := s.zoneFree[1..], zones := s.zones[z := zone],
       lists := s.lists[zone.index := [z] + s.lists[zone.index]])
  }

  lemma ReuseStep(s: State, v: View, runs: seq<Pages.Run>, zonePages: int, zone: Zone)
    requires Sound(s, v, runs, zonePages) && s.zoneFree != []
    requires Header(zone, zonePages * PAGE) && zone.uindex == 0 && zone.free == [] && zone.nfree > 0
    ensures var z := s.zoneFree[0]; var a := Chunk(z, zone, 0);
            a !in v.live && z !in s.zones && Sound(Reused(s, zone), v.(live := v.live[a := z]), runs, zonePages)
  {
    var z, index := s.zoneFree[0], zone.index;
    var a := Chunk(z, zone, 0);
    assert z in s.zoneFree && IsZone(s, z);
    TouchedMore(z, zone, -1);
    ChunkFits(0, zone.nmax, zone.size);
    ChunkInZone(z, zone, zonePages, a);
    hide Chunk, Touched, Header;
    NotLive(s, v, runs, zonePages, z, a);
    ZonesUpdate(s, v, runs, zonePages, z, zone, a, v.live[a := z]);
    hide ZonesGood, Shared, Apart;
    assert z !in s.lists[index];
    ListsUpdate(s.zones, s.lists, z, zone, [z] + s.lists[index]);
    ReuseUsage(s, v.owned, zonePages, zone);
    ZonesOnly(s.(zones := s.zones[z := zone]), Reused(s, zone), v.live[a := z], zonePages);
  }

  lemma ReuseUsage(s: State, owned: map<int, int>, zonePages: int, zone: Zone)
    requires UsageGood(s, owned, zonePages) && s.zoneFree != [] && 0 <= zone.index < |s.lists|
    ensures UsageGood(Reused(s, zone), owned, zonePages)
  {
    hide PagesPointBack;
    var z, s' := s.zoneFree[0], Reused(s, zone);
    assert z in s.zoneFree;
    assert forall y :: y in s.zoneFree[1..] <==> y in s.zoneFree && y != z;
    assert forall y :: IsZone(s', y) <==> IsZone(s, y);
  }

  // ----- a chunk comes back -----

  function Pushed(zone: Zone, a: int): (r: Zone) {
    zone.(free := [a] + zone.free, nfree := zone.nfree + 1)
  }

  ghost function Returned(s: State, z: int, a: int): (r: State)
    requires z in s.zones && 0 <= s.zones[z].index < |s.lists|
  {
    var zone := s.zones[z];
    s.(zones := s.zones[z := Pushed(zone, a)],
       lists := if zone.nfree == 0 then s.lists[zone.index := [z] + s.lists[zone.index]] else s.lists)
  }

  lemma PushChunk(z: int, zone: Zone, zoneSize: int, live: map<int, int>, a: int)
    requires Header(zone, zoneSize) && Shared(z, zone, live) && a in Touched(z, zone, zone.uindex) && a in live
    ensures Header(Pushed(zone, a), zoneSize) && Shared(z, Pushed(zone, a), live - {a})
    ensures Touched(z, Pushed(zone, a), zone.uindex) == Touched(z, zone, zone.uindex)
  {
    TouchedSame(z, zone, Pushed(zone, a), zone.uindex);
    hide Touched, Chunk;
    assert a !in zone.free;
  }

  /** A live chunk has an owner with room to take it back. */
  lemma LiveChunk(s: State, v: View, runs: seq<Pages.Run>, zonePages: int, a: int)
    requires Sound(s, v, runs, zonePages) && a in v.live
    ensures var z := v.live[a];
            && z in s.zones && IsZone(s, z) && a in Touched(z, s.zones[z], s.zones[z].uindex)
            && z * PAGE + ZONE_HEADER <= a && a + s.zones[z].size <= (z + zonePages) * PAGE
            && Header(s.zones[z], zonePages * PAGE) && Shared(z, s.zones[z], v.live)
            && s.zones[z].nfree < s.zones[z].nmax
  {
    var z := v.live[a];
    var zone := s.zones[z];
    TouchedInside(z, zone, zonePages * PAGE, a);
    FreeBelow(z, zone, v.live, a);
  }

  lemma FreeBelow(z: int, zone: Zone, live: map<int, int>, a: int)
    requires Shared(z, zone, live) && a in Touched(z, zone, zone.uindex) && a in live && Distinct(zone.free)
    requires zone.size > 0 && zone.uindex >= 0
    ensures |zone.free| < zone.uindex + 1
  {
    var t, f := Touched(z, zone, zone.uindex), Elements(zone.free);
    TouchedCount(z, zone, zone.uindex);
    ElementsCount(zone.free);
    assert f <= t - {a};
    SmallerSet(f, t - {a});
  }

  lemma {:induction false} SmallerSet(f: set<int>, t: set<int>)
    requires f <= t
    ensures |f| <= |t|
  {
    assert |t - f| == |t| - |f|;
  }

  lemma ReturnStep(s: State, v: View, runs: seq<Pages.Run>, zonePages: int, a: int)
    requires Sound(s, v, runs, zonePages) && a in v.live
    ensures v.live[a] in s.zones && 0 <= s.zones[v.live[a]].index < NZONES
    ensures Sound(Returned(s, v.live[a], a), v.(live := v.live - {a}), runs, zonePages)
  {
    hide Chunk, Touched, ZonesGood, UsageGood, Apart;
    var z := v.live[a];
    LiveChunk(s, v, runs, zonePages, a);
    var zone := s.zones[z];
    PushChunk(z, zone, zonePages * PAGE, v.live, a);
    ZonesUpdate(s, v, runs, zonePages, z, Pushed(zone, a), a, v.live - {a});
    hide Shared;
    UsageSame(s, Returned(s, z, a), v.owned, zonePages);
    ZonesOnly(s.(zones := s.zones[z := Pushed(zone, a)]), Returned(s, z, a), v.live - {a}, zonePages);
    ReturnLists(s.zones, s.lists, z, a);
  }

  lemma ReturnLists(zones: map<int, Zone>, lists: seq<seq<int>>, z: int, a: int)
    requires ListsGood(zones, lists) && z in zones && 0 <= zones[z].index < NZONES && zones[z].nfree >= 0
    ensures var k := zones[z].index;
            ListsGood(zones[z := Pushed(zones[z], a)],
                      if zones[z].nfree == 0 then lists[k := [z] + lists[k]] else lists)
  {
    var zone := zones[z];
    var k := zone.index;
    assert z in lists[k] <==> zone.nfree > 0;
    ListsUpdate(zones, lists, z, Pushed(zone, a), if zone.nfree == 0 then [z] + lists[k] else lists[k]);
    assert lists[k := lists[k]] == lists;
  }

  /** A zone without live chunks goes to the list of free zones. */
  ghost function Retired(s: State, z: int, k: int): (r: State)
    requires z in s.zones && 0 <= s.zones[z].index < |s.lists| && 0 <= k < |s.lists[s.zones[z].index]|
  {
    var index := s.zones[z].index;
    s.(zones := s.zones - {z}, lists := s.lists[index := Removed(s.lists[index], k)], zoneFree := [z] + s.zoneFree)
  }

  lemma RetireStep(s: State, v: View, runs: seq<Pages.Run>, zonePages: int, z: int, k: int)
    requires Sound(s, v, runs, zonePages) && z in s.zones && s.zones[z].nfree == s.zones[z].nmax
    requires 0 <= k < |s.lists[s.zones[z].index]| && s.lists[s.zones[z].index][k] == z
    ensures Sound(Retired(s, z, k), v, runs, zonePages)
  {
    hide ZonesGood, ListsGood, UsageGood, Apart;
    ZoneCounts(s, v, runs, zonePages, z);
    RetireZones(s, v.live, zonePages, z, k);
    RetireLists(s, z, k);
    RetireUsage(s, v.owned, zonePages, z, k);
  }

  lemma RetireZones(s: State, live: map<int, int>, zonePages: int, z: int, k: int)
    requires ZonesGood(s, live, zonePages) && z in s.zones && s.zones[z].nfree == s.zones[z].nmax
    requires |s.lists| == NZONES && 0 <= s.zones[z].index < NZONES && 0 <= k < |s.lists[s.zones[z].index]|
    ensures ZonesGood(Retired(s, z, k), live, zonePages)
  {
    hide Touched, Chunk, Header, Shared;
    var zone := s.zones[z];
    assert Header(zone, zonePages * PAGE) && Shared(z, zone, live);
    forall a | a in live
      ensures live[a] != z
    {
      if live[a] == z { AllFree(z, zone, zonePages * PAGE, live, a); }
    }
  }

  lemma RetireLists(s: State, z: int, k: int)
    requires ListsGood(s.zones, s.lists) && z in s.zones && 0 <= s.zones[z].index < NZONES
    requires 0 <= k < |s.lists[s.zones[z].index]| && s.lists[s.zones[z].index][k] == z
    ensures ListsGood(Retired(s, z, k).zones, Retired(s, z, k).lists)
  {
    var list := s.lists[s.zones[z].index];
    assert list == list[..k] + [z] + list[k + 1..];
    assert forall y :: y in Removed(list, k) <==> y in list && y != z;
  }

  lemma RetireUsage(s: State, owned: map<int, int>, zonePages: int, z: int, k: int)
    requires UsageGood(s, owned, zonePages) && z in s.zones && 0 <= s.zones[z].index < |s.lists|
    requires 0 <= k < |s.lists[s.zones[z].index]|
    ensures UsageGood(Retired(s, z, k), owned, zonePages)
  {
    hide PagesPointBack;
    assert forall y :: IsZone(Retired(s, z, k), y) <==> IsZone(s, y);
  }

  // ----- pages go back -----

  /** The memusage entries of `n` pages from `z` on, as a zone leaves them. */
  ghost function Wiped(usage: map<int, Usage>, z: int, n: nat): (r: map<int, Usage>) {
    if n == 0 then usage else Wiped(usage, z, n - 1)[z + n - 1 := Usage(FreePage, 0)]
  }

  lemma {:induction false} WipedIs(usage: map<int, Usage>, z: int, n: nat)
    ensures forall p :: p < z || p >= z + n ==>
              (p in Wiped(usage, z, n) <==> p in usage) && (p in usage ==> Wiped(usage, z, n)[p] == usage[p])
    decreases n
  {
    if n > 0 { WipedIs(usage, z, n - 1); }
  }

  lemma GoneApart(owned: map<int, int>, runs: seq<Pages.Run>, runs': seq<Pages.Run>, z: int)
    requires Apart(owned, runs) && z in owned && Pages.Regained(runs, runs', z, owned[z])
    ensures Apart(owned - {z}, runs')
    ensures forall p :: p in owned - {z} ==> p + owned[p] <= z || z + owned[z] <= p
  {
  }

  /** Taken pages that are no zone, or the first free zone, are given back. */
  lemma GoneUsage(s: State, s': State, owned: map<int, int>, zonePages: int, z: int)
    requires UsageGood(s, owned, zonePages) && z in owned && zonePages > 0
    requires s'.zones == s.zones && s'.usage == s.usage
    requires if IsZone(s, z) then s.zoneFree != [] && z == s.zoneFree[0] && s'.zoneFree == s.zoneFree[1..]
             else s'.zoneFree == s.zoneFree
    ensures UsageGood(s', owned - {z}, zonePages)
  {
    hide PagesPointBack;
    if s.zoneFree != [] && z == s.zoneFree[0] {
      assert z in s.zoneFree;
      assert forall y :: y in s.zoneFree[1..] <==> y in s.zoneFree && y != z;
    }
    assert forall y :: IsZone(s', y) ==> IsZone(s, y) && y != z;
    assert forall y :: IsZone(s, y) && y != z ==> IsZone(s', y);
  }

  lemma ReleaseStep(s: State, v: View, runs: seq<Pages.Run>, runs': seq<Pages.Run>, zonePages: int)
    requires Sound(s, v, runs, zonePages) && s.zoneFree != []
    requires Pages.Regained(runs, runs', s.zoneFree[0], zonePages)
    ensures var z := s.zoneFree[0];
            Sound(s.(zoneFree := s.zoneFree[1..], usage := Wiped(s.usage, z, zonePages)),
                  v.(owned := v.owned - {z}), runs', zonePages)
  {
    hide ZonesGood, ListsGood, Wiped;
    var z := s.zoneFree[0];
    assert z in s.zoneFree && IsZone(s, z);
    GoneApart(v.owned, runs, runs', z);
    var s1 := s.(zoneFree := s.zoneFree[1..]);
    GoneUsage(s, s1, v.owned, zonePages, z);
    WipedIs(s.usage, z, zonePages);
    UsageElsewhere(s1, Wiped(s.usage, z, zonePages), v.owned - {z}, zonePages, z, zonePages);
    hide Apart, UsageGood;
    ZonesOnly(s, s1.(usage := Wiped(s.usage, z, zonePages)), v.live, zonePages);
  }

  /** A request for whole pages. */
  lemma LargeStep(s: State, v: View, runs: seq<Pages.Run>, runs': seq<Pages.Run>, zonePages: int, p: int, n: int)
    requires Sound(s, v, runs, zonePages) && n > 0 && Pages.AllFree(runs, p, n)
    requires forall x :: Pages.Free(runs', x) <==> Pages.Free(runs, x) && !(p <= x < p + n)
    ensures p !in v.owned
    ensures Sound(s.(usage := s.usage[p := Usage(Large, n)]), v.(owned := v.owned[p := n]), runs', zonePages)
  {
    hide ZonesGood, ListsGood;
    var s' := s.(usage := s.usage[p := Usage(Large, n)]);
    TakenApart(v.owned, runs, runs', p, n);
    UsageElsewhere(s, s'.usage, v.owned, zonePages, p, n);
    assert forall y :: IsZone(s', y) <==> IsZone(s, y);
    hide Apart, PagesPointBack;
    ZonesOnly(s, s', v.live, zonePages);
  }

  lemma LargeGone(s: State, v: View, runs: seq<Pages.Run>, runs': seq<Pages.Run>, zonePages: int, p: int)
    requires Sound(s, v, runs, zonePages) && p in v.owned && !IsZone(s, p)
    requires Pages.Regained(runs, runs', p, v.owned[p])
    ensures p in s.usage && s.usage[p] == Usage(Large, v.owned[p])
    ensures Sound(s.(usage := s.usage[p := Usage(Large, 0)]), v.(owned := v.owned - {p}), runs', zonePages)
  {
    hide ZonesGood, ListsGood;
    GoneApart(v.owned, runs, runs', p);
    GoneUsage(s, s, v.owned, zonePages, p);
    var s' := s.(usage := s.usage[p := Usage(Large, 0)]);
    UsageElsewhere(s, s'.usage, v.owned - {p}, zonePages, p, v.owned[p]);
    hide Apart, UsageGood;
    ZonesOnly(s, s', v.live, zonePages);
  }

  // ----- a new zone -----

  predicate IsPowerOfTwo(n: int) {
    n == 1 || (n > 1 && n % 2 == 0 && IsPowerOfTwo(n / 2))
  }

  /** Where the chunks of a zone begin: at a multiple of their size if that is a power of two. */
  function ZoneOffset(size: int): (off: int)
    requires size > 0
  {
    if IsPowerOfTwo(size) then RoundUp(ZONE_HEADER, size) else RoundUp(ZONE_HEADER, 8)
  }

  function NewZone(index: int, size: int, zoneSize: int): (zone: Zone)
    requires size > 0
  {
    var off := ZoneOffset(size);
    var nmax := (zoneSize - off) / size;
    Zone(index, size, off, nmax, nmax - 1, 0, [])
  }

  lemma NewZoneGood(index: int, size: int, zoneSize: int)
    requires 0 <= index < NZONES && size == ChunkSize(index) && zoneSize >= 32768 && 4 * size <= zoneSize
    ensures size > 0 && Header(NewZone(index, size, zoneSize), zoneSize) && NewZone(index, size, zoneSize).nfree > 0
  {
    hide IsPowerOfTwo, RoundUp;
    Rounding(ZONE_HEADER, size);
    Rounding(ZONE_HEADER, 8);
    DivideRest(zoneSize - ZoneOffset(size), size);
    AtLeastTwo(zoneSize - ZoneOffset(size), size);
  }

  /** The first chunk begins behind the header, at the alignment of its size, and there are as many as fit. */
  lemma NewZoneIs(index: int, size: int, zoneSize: int)
    requires size > 0
    ensures var zone, unit := NewZone(index, size, zoneSize), if IsPowerOfTwo(size) then size else 8;
            && zone == Zone(index, size, zone.off, zone.nmax, zone.nmax - 1, 0, [])
            && zone.off % unit == 0 && ZONE_HEADER <= zone.off < ZONE_HEADER + unit
            && zone.nmax * size <= zoneSize - zone.off < zone.nmax * size + size
  {
    hide IsPowerOfTwo;
    var unit := if IsPowerOfTwo(size) then size else 8;
    Rounding(ZONE_HEADER, unit);
    MultipleOf(Units(ZONE_HEADER, unit), unit);
    DivideRest(zoneSize - ZoneOffset(size), size);
  }

  lemma AtLeastTwo(n: int, size: int)
    requires size > 0 && n >= 2 * size
    ensures n / size >= 2
  {
    DivideRest(n, size);
    if n / size <= 1 { ChunkFits(n / size, 2, size); }
  }

  /** Chunks whose size is a power of two begin at a multiple of it exactly if their zone does. */
  lemma ChunksAligned(z: int, zone: Zone, k: int)
    requires zone.size > 0 && IsPowerOfTwo(zone.size) && zone.off == ZoneOffset(zone.size)
    ensures Chunk(z, zone, k) % zone.size == 0 <==> z * PAGE % zone.size == 0
  {
    var m := Units(ZONE_HEADER, zone.size) + k;
    assert zone.off + k * zone.size == m * zone.size by {
      assert Units(ZONE_HEADER, zone.size) * zone.size + k * zone.size == m * zone.size;
    }
    MultipleDropped(z * PAGE, m, zone.size);
  }

  /** Up to the size of a page they always do. */
  lemma SmallChunksAligned(z: int, zone: Zone, k: int)
    requires 0 < zone.size <= PAGE && IsPowerOfTwo(zone.size) && zone.off == ZoneOffset(zone.size)
    ensures Chunk(z, zone, k) % zone.size == 0
  {
    PageMultiple(zone.size, z);
    ChunksAligned(z, zone, k);
  }

  /** Every chunk that has been given out is one of the zone's chunks. */
  lemma {:induction false} TouchedIndex(z: int, zone: Zone, u: int, a: int) returns (k: int)
    requires a in Touched(z, zone, u)
    ensures a == Chunk(z, zone, k)
    decreases u + 1
  {
    if a == Chunk(z, zone, u) { k := u; } else { k := TouchedIndex(z, zone, u - 1, a); }
  }

  /** So it is for every chunk in use. */
  lemma LiveAligned(s: State, v: View, runs: seq<Pages.Run>, zonePages: int, a: int)
    requires Sound(s, v, runs, zonePages) && a in v.live && v.live[a] in s.zones
             && IsPowerOfTwo(s.zones[v.live[a]].size)
    ensures var z := v.live[a]; var size := s.zones[z].size;
            && size > 0 && (a % size == 0 <==> z * PAGE % size == 0)
            && (size <= PAGE ==> a % size == 0)
  {
    hide ZonesGood, ListsGood, UsageGood, Apart, IsPowerOfTwo, ZoneOffset, Chunk;
    LiveChunk(s, v, runs, zonePages, a);
    var z := v.live[a];
    var zone := s.zones[z];
    var k := TouchedIndex(z, zone, zone.uindex, a);
    ChunksAligned(z, zone, k);
    if zone.size <= PAGE { SmallChunksAligned(z, zone, k); }
  }

  lemma {:induction false} PowerCases(n: int)
    requires IsPowerOfTwo(n) && n < 16384
    ensures n in {1, 2, 4, 8, 16, 32, 64, 128, 256, 512, 1024, 2048, 4096, 8192}
  {
    if n > 1 { PowerCases(n / 2); }
  }

  /** From eight bytes on, a power of two is the chunk size of its own class. */
  lemma PowerClass(n: int)
    requires IsPowerOfTwo(n) && n < 16384
    ensures ClassOf(n).size == if n < 8 then 8 else n
  {
    PowerCases(n);
  }

  /** The lowest `n` consecutive free pages begin at `z`. */
  ghost predicate Lowest(runs: seq<Pages.Run>, z: int, n: int) {
    Pages.AllFree(runs, z, n) && forall a :: Pages.AllFree(runs, a, n) ==> z <= a
  }

  /** The page at which the zone, or the pages, begin from which a request will be served. */
  ghost predicate ServedFrom(s: State, runs: seq<Pages.Run>, zonePages: int, zoneLimit: int, size: nat, z: int)
    requires |s.lists| == NZONES && 0 < size
  {
    if size >= zoneLimit || !(0 <= ClassOf(size).index < NZONES) then Lowest(runs, z, Units(size, PAGE))
    else if s.lists[ClassOf(size).index] != [] then z == s.lists[ClassOf(size).index][0]
    else if s.zoneFree != [] then z == s.zoneFree[0]
    else Lowest(runs, z, zonePages)
  }

  lemma RequestAligned(s: State, v: View, runs: seq<Pages.Run>, zonePages: int, size: int, a: int)
    requires Sound(s, v, runs, zonePages) && a in v.live && v.live[a] in s.zones
    requires 0 < size < 16384 && s.zones[v.live[a]].size == ClassOf(size).size && IsPowerOfTwo(size)
    ensures a % size == 0 <==> v.live[a] * PAGE % size == 0
    ensures size <= PAGE ==> a % size == 0
  {
    hide Sound, ClassOf, IsPowerOfTwo;
    PowerClass(size);
    EightIsPower();
    LiveAligned(s, v, runs, zonePages, a);
    if size < 8 { BelowEight(size, a, v.live[a] * PAGE); }
    if size <= PAGE { PageMultiple(size, v.live[a]); }
  }

  lemma EightIsPower()
    ensures IsPowerOfTwo(8)
  {
    assert IsPowerOfTwo(2);
  }

  lemma BelowEight(size: int, a: int, b: int)
    requires IsPowerOfTwo(size) && size < 8 && a % 8 == 0 && b % 8 == 0
    ensures size > 0 && a % size == 0 && b % size == 0
  {
    SmallPower(size);
    hide IsPowerOfTwo;
    if size > 1 {
      EvenOrMore(a);
      EvenOrMore(b);
    }
  }

  lemma EvenOrMore(a: int)
    requires a % 8 == 0
    ensures a % 2 == 0 && a % 4 == 0
  {
    var k := a / 8;
    assert a == 2 * (4 * k) && a == 4 * (2 * k);
  }

  lemma SmallPower(size: int)
    requires IsPowerOfTwo(size) && size < 8
    ensures size == 1 || size == 2 || size == 4
  {
  }

  lemma PageMultiple(size: int, z: int)
    requires IsPowerOfTwo(size) && 0 < size <= PAGE
    ensures z * PAGE % size == 0
  {
    hide IsPowerOfTwo;
    PageIsPower();
    PowersDivide(size, PAGE);
    var q := PAGE / size;
    assert z * PAGE == (z * q) * size;
    MultipleOf(z * q, size);
  }

  lemma PageIsPower()
    ensures IsPowerOfTwo(PAGE)
  {
    assert IsPowerOfTwo(8) && IsPowerOfTwo(64) && IsPowerOfTwo(512) && IsPowerOfTwo(4096);
  }

  lemma {:induction false} PowersDivide(m: int, n: int)
    requires IsPowerOfTwo(m) && IsPowerOfTwo(n) && m <= n
    ensures m > 0 && n == n / m * m
    decreases n
  {
    if m > 1 {
      PowersDivide(m / 2, n / 2);
      var q := n / 2 / (m / 2);
      assert n == q * m;
      MultipleOf(q, m);
    }
  }

  lemma MultipleDropped(n: int, m: int, size: int)
    requires size > 0
    ensures (n + m * size) % size == 0 <==> n % size == 0
  {
    if n % size == 0 {
      MultipleOf(n / size + m, size);
      assert n + m * size == (n / size + m) * size;
    }
    if (n + m * size) % size == 0 {
      var q := (n + m * size) / size;
      MultipleOf(q - m, size);
      assert n == (q - m) * size;
    }
  }

  lemma MultipleOf(k: int, size: int)
    requires size > 0
    ensures k * size % size == 0
  {
    QuotientOf(k, size);
    RestOf(k * size, size);
  }

  lemma RestOf(n: int, size: int)
    requires size > 0
    ensures n % size == n - n / size * size
  {
  }

  // ----- what callers have -----

  /** The chunks in use and their sizes. */
  ghost function ChunksInUse(s: State, v: View): (m: map<int, int>) {
    map a | a in v.live :: SizeAt(s, v, a)
  }

  ghost function SizeAt(s: State, v: View, a: int): (n: int)
    requires a in v.live
  {
    if v.live[a] in s.zones then s.zones[v.live[a]].size else 0
  }

  /** The zone of a chunk in use. */
  ghost predicate ZoneKnown(s: State, v: View, a: int) {
    a in v.live && v.live[a] in s.zones
  }

  ghost predicate ZonesKnown(s: State, v: View) {
    forall a :: a in v.live ==> ZoneKnown(s, v, a)
  }

  /** The pages in use outside zones, by first page. */
  ghost function PagesInUse(s: State, v: View): (m: map<int, int>) {
    map p | p in v.owned && !IsZone(s, p) :: v.owned[p]
  }

  lemma PagesKept(s: State, v: View, s': State, v': View)
    requires forall p :: p in v'.owned && !IsZone(s', p) <==> p in v.owned && !IsZone(s, p)
    requires forall p :: p in v.owned && !IsZone(s, p) ==> v'.owned[p] == v.owned[p]
    ensures PagesInUse(s', v') == PagesInUse(s, v)
  {
    hide IsZone;
  }

  /** A zone made of a free zone or of pages that were not taken leaves other pages alone. */
  lemma NewZonePages(s: State, v: View, s': State, v': View, zonePages: int, z: int)
    requires z in s'.zones && s'.zones.Keys == s.zones.Keys + {z}
    requires || (s.zoneFree != [] && z == s.zoneFree[0] && s'.zoneFree == s.zoneFree[1..] && v'.owned == v.owned)
             || (z !in v.owned && s'.zoneFree == s.zoneFree && v'.owned == v.owned[z := zonePages])
    ensures PagesInUse(s', v') == PagesInUse(s, v)
  {
    if s.zoneFree != [] && z == s.zoneFree[0] { assert s.zoneFree == [z] + s.zoneFree[1..]; }
    forall p
      ensures IsZone(s', p) <==> IsZone(s, p) || p == z
    {
      assert p in s'.zones <==> p in s'.zones.Keys;
    }
    PagesKept(s, v, s', v');
  }

  lemma SizeKept(s: State, v: View, s': State, v': View, a: int)
    requires ZoneKnown(s, v, a) && a in v'.live && v'.live[a] == v.live[a]
    requires forall y :: y in s'.zones && y in s.zones ==> s'.zones[y].size == s.zones[y].size
    requires v.live[a] in s'.zones
    ensures SizeAt(s', v', a) == SizeAt(s, v, a)
  {
  }

  lemma ChunksMore(s: State, v: View, s': State, v': View, a: int, z: int)
    requires ZonesKnown(s, v)
    requires forall y :: y in s.zones ==> y in s'.zones && s'.zones[y].size == s.zones[y].size
    requires v'.live == v.live[a := z] && z in s'.zones
    ensures ChunksInUse(s', v') == ChunksInUse(s, v)[a := s'.zones[z].size]
  {
    assert SizeAt(s', v', a) == s'.zones[z].size;
    forall x | x in v.live && x != a
      ensures SizeAt(s', v', x) == SizeAt(s, v, x)
    {
      assert ZoneKnown(s, v, x);
      SizeKept(s, v, s', v', x);
    }
    hide SizeAt, ZonesKnown;
  }

  lemma ChunksFewer(s: State, v: View, s': State, v': View, gone: set<int>)
    requires ZonesKnown(s, v) && ZonesKnown(s', v') && v'.live == v.live - gone
    requires forall y :: y in s'.zones && y in s.zones ==> s'.zones[y].size == s.zones[y].size
    ensures ChunksInUse(s', v') == ChunksInUse(s, v) - gone
  {
    forall x | x in v'.live
      ensures SizeAt(s', v', x) == SizeAt(s, v, x)
    {
      assert ZoneKnown(s, v, x) && ZoneKnown(s', v', x);
      SizeKept(s, v, s', v', x);
    }
    hide SizeAt, ZonesKnown;
  }

  lemma RetiredInUse(s: State, s': State, v: View, runs: seq<Pages.Run>, zonePages: int, z: int)
    requires ZonesKnown(s, v) && Sound(s', v, runs, zonePages)
    requires z in s.zones && s'.zones == s.zones - {z} && s'.zoneFree == [z] + s.zoneFree
    ensures ChunksInUse(s', v) == ChunksInUse(s, v) && PagesInUse(s', v) == PagesInUse(s, v)
  {
    hide Sound, ZonesKnown;
    LiveInZones(s', v, runs, zonePages);
    ChunksFewer(s, v, s', v, {});
    assert ChunksInUse(s, v) - {} == ChunksInUse(s, v);
    assert forall p :: IsZone(s', p) <==> IsZone(s, p);
    PagesKept(s, v, s', v);
  }

  lemma ReleasedInUse(s: State, v: View, s': State, z: int)
    requires s.zoneFree != [] && z == s.zoneFree[0] && s'.zoneFree == s.zoneFree[1..] && s'.zones == s.zones
    ensures var v' := v.(owned := v.owned - {z});
            z !in s.zones && z !in s.zoneFree[1..] ==>
              ChunksInUse(s', v') == ChunksInUse(s, v) && PagesInUse(s', v') == PagesInUse(s, v)
  {
    assert s.zoneFree == [z] + s.zoneFree[1..];
    var v' := v.(owned := v.owned - {z});
    assert forall p :: IsZone(s, p) <==> IsZone(s', p) || p == z;
    if z !in s.zones && z !in s.zoneFree[1..] { PagesKept(s, v, s', v'); }
  }

  lemma LiveInZones(s: State, v: View, runs: seq<Pages.Run>, zonePages: int)
    requires Sound(s, v, runs, zonePages)
    ensures ZonesKnown(s, v)
  {
  }

  /** Chunks and pages in use do not overlap. */
  lemma ChunksApartFromPages(s: State, v: View, runs: seq<Pages.Run>, zonePages: int, a: int, p: int)
    requires Sound(s, v, runs, zonePages) && a in ChunksInUse(s, v) && p in PagesInUse(s, v)
    ensures a + ChunksInUse(s, v)[a] <= p * PAGE || (p + PagesInUse(s, v)[p]) * PAGE <= a
  {
    hide Touched, Header, Shared, ZonesGood, ListsGood;
    LiveChunk(s, v, runs, zonePages, a);
    var z := v.live[a];
    assert z in v.owned && v.owned[z] == zonePages && z != p;
    assert z + zonePages <= p || p + v.owned[p] <= z;
  }

  // ----- what a client holds -----

  datatype Op = MallocOp(size: nat) | FreeOp(p: int)

  /** The zones, what is in use, and the free pages. */
  datatype Picture = Picture(s: State, v: View, runs: seq<Pages.Run>)

  /** A chunk from the first zone of its class: the next one never used, or else the one freed last. */
  ghost predicate FromZone(p: Picture, index: int, size: int, a: int, z: int, p': Picture)
    requires 0 <= index < |p.s.lists| && p.s.lists[index] != []
  {
    && z == p.s.lists[index][0] && z in p.s.zones
    && var zone := p.s.zones[z];
    && (if zone.uindex + 1 < zone.nmax then
          && a == z * PAGE + zone.off + (zone.uindex + 1) * size
          && p'.s.zones == p.s.zones[z := zone.(nfree := zone.nfree - 1, uindex := zone.uindex + 1)]
        else
          && zone.free != [] && a == zone.free[0]
          && p'.s.zones == p.s.zones[z := zone.(nfree := zone.nfree - 1, free := zone.free[1..])])
    && p'.s.lists == (if zone.nfree == 1 then p.s.lists[index := p.s.lists[index][1..]] else p.s.lists)
    && p'.s.zoneFree == p.s.zoneFree && p'.runs == p.runs
  }

  /** The first chunk of a zone that was free, or is made of the lowest pages there are. */
  ghost predicate FromNewZone(p: Picture, index: int, size: int, a: int, z: int, p': Picture, zonePages: int)
    requires 0 <= index < |p.s.lists|
  {
    && z in p'.s.zones
    && var zone, unit := p'.s.zones[z], if IsPowerOfTwo(size) then size else 8;
    && unit > 0 && zone.off % unit == 0 && ZONE_HEADER <= zone.off < ZONE_HEADER + unit
    && zone.nmax * size <= zonePages * PAGE - zone.off < zone.nmax * size + size
    && p'.s.zones == p.s.zones[z := Zone(index, size, zone.off, zone.nmax, zone.nmax - 1, 0, [])]
    && a == z * PAGE + zone.off && p'.s.lists == p.s.lists[index := [z] + p.s.lists[index]]
    && if p.s.zoneFree != [] then z == p.s.zoneFree[0] && p'.s.zoneFree == p.s.zoneFree[1..] && p'.runs == p.runs
       else Lowest(p.runs, z, zonePages) && p'.s.zoneFree == [] && Pages.Taken(p.runs, p'.runs, z, zonePages)
  }

  /** A chunk comes back; its zone, if free as a whole and not alone in its class, is kept for reuse or given up. */
  ghost predicate WentBack(p: Picture, a: int, p': Picture, zonePages: int)
    requires a in p.v.live
  {
    var z := p.v.live[a];
    && z in p.s.zones && 0 <= p.s.zones[z].index < |p.s.lists|
    && var zone, lists := p.s.zones[z], p.s.lists;
    var others := exists y :: y in lists[zone.index] && y != z;
    if zone.nfree + 1 == zone.nmax && others then
      && p'.s.zones == p.s.zones - {z} && p'.s.lists == lists[zone.index := Without(lists[zone.index], z)]
      && if |p.s.zoneFree| < RELEASE_THRESHOLD then p'.s.zoneFree == [z] + p.s.zoneFree && p'.runs == p.runs
         else p'.s.zoneFree == p.s.zoneFree && Pages.Regained(p.runs, p'.runs, z, zonePages)
    else
      && p'.s.zones == p.s.zones[z := zone.(free := [a] + zone.free, nfree := zone.nfree + 1)]
      && p'.s.lists == (if zone.nfree == 0 then lists[zone.index := [z] + lists[zone.index]] else lists)
      && p'.s.zoneFree == p.s.zoneFree && p'.runs == p.runs
  }

  /** A request that is turned down: for nothing, or with neither a chunk, a zone nor pages to serve it from. */
  ghost predicate NoRoom(p: Picture, zonePages: int, zoneLimit: int, size: nat) {
    size > 0 && |p.s.lists| == NZONES ==> forall z :: !ServedFrom(p.s, p.runs, zonePages, zoneLimit, size, z)
  }

  /** A request is served with a new pointer, and what was in use stays so. */
  ghost predicate Served(p: Picture, size: nat, a: int, z: int, held: map<int, nat>, p': Picture, held': map<int, nat>,
                         zonePages: int, zoneLimit: int) {
    && size > 0 && |p.s.lists| == NZONES && ServedFrom(p.s, p.runs, zonePages, zoneLimit, size, z)
    && a !in held && held' == held[a := size]
    && if size < zoneLimit then
         && ChunksInUse(p'.s, p'.v) == ChunksInUse(p.s, p.v)[a := ClassOf(size).size]
         && PagesInUse(p'.s, p'.v) == PagesInUse(p.s, p.v)
         && 0 <= ClassOf(size).index < NZONES
         && (if p.s.lists[ClassOf(size).index] != []
             then FromZone(p, ClassOf(size).index, ClassOf(size).size, a, z, p')
             else FromNewZone(p, ClassOf(size).index, ClassOf(size).size, a, z, p', zonePages))
       else
         && a == z * PAGE && ChunksInUse(p'.s, p'.v) == ChunksInUse(p.s, p.v)
         && p'.s.zones == p.s.zones && p'.s.lists == p.s.lists && p'.s.zoneFree == p.s.zoneFree
         && Pages.Taken(p.runs, p'.runs, z, Units(size, PAGE))
         && PagesInUse(p'.s, p'.v) == PagesInUse(p.s, p.v)[z := Units(size, PAGE)]
  }

  /** What each operation does to what is in use and to what the client holds. */
  ghost predicate Did(op: Op, p: Picture, held: map<int, nat>, p': Picture, held': map<int, nat>, zonePages: int,
                      zoneLimit: int) {
    match op
    case MallocOp(size) =>
      if NoRoom(p, zonePages, zoneLimit, size) then p' == p && held' == held
      else exists a, z :: Served(p, size, a, z, held, p', held', zonePages, zoneLimit)
    case FreeOp(a) =>
      && held' == held - {a}
      && if a !in held then p' == p
         else if a in p.v.live then
           && ChunksInUse(p'.s, p'.v) == ChunksInUse(p.s, p.v) - {a} && PagesInUse(p'.s, p'.v) == PagesInUse(p.s, p.v)
           && WentBack(p, a, p', zonePages)
         else
           && ChunksInUse(p'.s, p'.v) == ChunksInUse(p.s, p.v)
           && PagesInUse(p'.s, p'.v) == PagesInUse(p.s, p.v) - {a / PAGE}
           && p'.s.zones == p.s.zones && p'.s.lists == p.s.lists && p'.s.zoneFree == p.s.zoneFree
           && a / PAGE in p.v.owned && Pages.Regained(p.runs, p'.runs, a / PAGE, p.v.owned[a / PAGE])
  }

  lemma RefusedNoRoom(p: Picture, zonePages: int, zoneLimit: int, size: nat)
    requires Sizes(zonePages, zoneLimit) && |p.s.lists| == NZONES
    requires size > 0 ==> forall a :: !Pages.AllFree(p.runs, a, PagesNeeded(size, zonePages, zoneLimit))
    requires 0 < size < zoneLimit ==> p.s.zoneFree == [] && p.s.lists[ClassOf(size).index] == []
    ensures NoRoom(p, zonePages, zoneLimit, size)
  {
    if 0 < size < zoneLimit { ClassIsBest(size); }
    hide ClassOf, Pages.AllFree;
    if size > 0 {
      forall z
        ensures !ServedFrom(p.s, p.runs, zonePages, zoneLimit, size, z)
      {
        assert !Pages.AllFree(p.runs, z, PagesNeeded(size, zonePages, zoneLimit));
      }
    }
  }

  lemma ServedHasRoom(p: Picture, zonePages: int, zoneLimit: int, size: nat, z: int)
    requires size > 0 && |p.s.lists| == NZONES && ServedFrom(p.s, p.runs, zonePages, zoneLimit, size, z)
    ensures !NoRoom(p, zonePages, zoneLimit, size)
  {
  }

  /** A client's pointer: to a chunk or to pages that have room for what it asked for. */
  ghost predicate Room(p: int, size: nat, chunks: map<int, int>, pages: map<int, int>) {
    && size > 0
    && (|| (p in chunks && chunks[p] >= size)
        || (p % PAGE == 0 && p / PAGE in pages && pages[p / PAGE] * PAGE >= size))
  }

  /** The chunks and pages in use are exactly those that the client holds. */
  ghost predicate Holds(held: map<int, nat>, chunks: map<int, int>, pages: map<int, int>) {
    && (forall p :: p in held ==> Room(p, held[p], chunks, pages))
    && (forall a :: a in chunks ==> a in held)
    && (forall p :: p in pages ==> p * PAGE in held)
  }

  /** No address is both a chunk and the first of pages in use. */
  ghost predicate NotBoth(chunks: map<int, int>, pages: map<int, int>) {
    forall p :: p in pages ==> p * PAGE !in chunks
  }

  lemma NeverBoth(s: State, v: View, runs: seq<Pages.Run>, zonePages: int)
    requires Sound(s, v, runs, zonePages)
    ensures NotBoth(ChunksInUse(s, v), PagesInUse(s, v))
  {
    var chunks, pages := ChunksInUse(s, v), PagesInUse(s, v);
    forall p | p in pages
      ensures p * PAGE in chunks ==> false
    {
      if p * PAGE in chunks {
        PositiveSizes(s, v, runs, zonePages, p * PAGE, p);
        ChunksApartFromPages(s, v, runs, zonePages, p * PAGE, p);
      }
    }
  }

  lemma PositiveSizes(s: State, v: View, runs: seq<Pages.Run>, zonePages: int, a: int, p: int)
    requires Sound(s, v, runs, zonePages)
    ensures a in ChunksInUse(s, v) ==> ChunksInUse(s, v)[a] > 0
    ensures p in PagesInUse(s, v) ==> PagesInUse(s, v)[p] > 0
  {
    if a in ChunksInUse(s, v) { LiveChunk(s, v, runs, zonePages, a); }
  }

  lemma InUseKeys(s: State, v: View)
    ensures forall a :: a in ChunksInUse(s, v) <==> a in v.live
    ensures forall p :: p in PagesInUse(s, v) <==> p in v.owned && !IsZone(s, p)
  {
  }

  lemma HeldIs(held: map<int, nat>, chunks: map<int, int>, pages: map<int, int>, p: int)
    requires Holds(held, chunks, pages)
    ensures p in held ==> p in chunks || (p % PAGE == 0 && p / PAGE in pages)
    ensures p % PAGE == 0 ==> p / PAGE * PAGE == p
  {
    assert p in held ==> Room(p, held[p], chunks, pages);
  }

  lemma PageStart(q: int)
    ensures q * PAGE % PAGE == 0 && q * PAGE / PAGE == q
  {
  }

  lemma HoldsNothing(s: State, v: View)
    requires v.live == map[] && v.owned == map[]
    ensures Holds(map[], ChunksInUse(s, v), PagesInUse(s, v))
  {
  }

  lemma HoldsChunk(held: map<int, nat>, chunks: map<int, int>, pages: map<int, int>, a: int, n: int, size: nat)
    requires Holds(held, chunks, pages) && a !in chunks && 0 < size <= n && NotBoth(chunks[a := n], pages)
    ensures a !in held && Holds(held[a := size], chunks[a := n], pages)
  {
    HeldIs(held, chunks, pages, a);
    var held' := held[a := size];
    forall p | p in held'
      ensures Room(p, held'[p], chunks[a := n], pages)
    {
      assert p != a ==> Room(p, held[p], chunks, pages);
    }
  }

  lemma HoldsPages(held: map<int, nat>, chunks: map<int, int>, pages: map<int, int>, q: int, n: int, size: nat)
    requires Holds(held, chunks, pages) && q !in pages && 0 < size <= n * PAGE && NotBoth(chunks, pages[q := n])
    ensures q * PAGE !in held && Holds(held[q * PAGE := size], chunks, pages[q := n])
  {
    PageStart(q);
    HeldIs(held, chunks, pages, q * PAGE);
    assert q in pages[q := n];
    var held' := held[q * PAGE := size];
    forall p | p in held'
      ensures Room(p, held'[p], chunks, pages[q := n])
    {
      assert p != q * PAGE ==> Room(p, held[p], chunks, pages);
    }
  }

  lemma DropsChunk(held: map<int, nat>, chunks: map<int, int>, pages: map<int, int>, a: int)
    requires Holds(held, chunks, pages) && a in held && a in chunks && NotBoth(chunks, pages)
    ensures Holds(held - {a}, chunks - {a}, pages)
  {
    var held' := held - {a};
    forall p | p in held'
      ensures Room(p, held'[p], chunks - {a}, pages)
    {
      assert Room(p, held[p], chunks, pages);
    }
  }

  lemma DropsPages(held: map<int, nat>, chunks: map<int, int>, pages: map<int, int>, q: int)
    requires Holds(held, chunks, pages) && q in pages && NotBoth(chunks, pages)
    ensures Holds(held - {q * PAGE}, chunks, pages - {q})
  {
    hide Room;
    var held' := held - {q * PAGE};
    forall p | p in held'
      ensures Room(p, held'[p], chunks, pages - {q})
    {
      RoomElsewhere(p, held[p], chunks, pages, q);
    }
    forall p | p in pages - {q}
      ensures p * PAGE in held'
    {
      OtherStart(p, q);
    }
    assert q * PAGE !in chunks;
  }

  lemma RoomElsewhere(p: int, size: nat, chunks: map<int, int>, pages: map<int, int>, q: int)
    requires Room(p, size, chunks, pages) && p != q * PAGE
    ensures Room(p, size, chunks, pages - {q})
  {
    if p % PAGE == 0 { WholePages(p, q); }
  }

  lemma WholePages(p: int, q: int)
    requires p % PAGE == 0 && p != q * PAGE
    ensures p / PAGE != q
  {
    assert p == p / PAGE * PAGE;
  }

  lemma OtherStart(p: int, q: int)
    requires p != q
    ensures p * PAGE != q * PAGE
  {
  }

  /** What a client holds does not overlap. */
  lemma HeldApart(held: map<int, nat>, s: State, v: View, runs: seq<Pages.Run>, zonePages: int, a: int, b: int)
    requires Sound(s, v, runs, zonePages) && Holds(held, ChunksInUse(s, v), PagesInUse(s, v))
    requires a in held && b in held && a < b
    ensures a + held[a] <= b
  {
    var chunks, pages := ChunksInUse(s, v), PagesInUse(s, v);
    assert Room(a, held[a], chunks, pages) && Room(b, held[b], chunks, pages);
    var p, q := a / PAGE, b / PAGE;
    PositiveSizes(s, v, runs, zonePages, b, q);
    if a in chunks && chunks[a] >= held[a] {
      if b in chunks {
        LiveApart(s, v, runs, zonePages, a, b);
      } else {
        ChunksApartFromPages(s, v, runs, zonePages, a, q);
      }
    } else {
      if b in chunks {
        ChunksApartFromPages(s, v, runs, zonePages, b, p);
      } else {
        assert p < q && p + v.owned[p] <= q;
      }
    }
  }

  // ----- the allocator -----

  class Slab {
    const pages: Pages.PageList
    const zonePages: int
    const zoneLimit: int
    var s: State
    ghost var v: View

    ghost predicate Valid()
      reads this, pages
    {
      && pages.Valid() && Sound(s, v, pages.runs, zonePages)
      && Sizes(zonePages, zoneLimit)
    }

    /** rt_system_heap_init on `npages` pages from page `start` on; the first of them hold memusage. */
    constructor (start: int, npages: int)
      requires npages > 0
      ensures Valid() && fresh(pages) && v.live == map[] && v.owned == map[] && s.zoneFree == []
      ensures forall k :: 0 <= k < NZONES ==> s.lists[k] == []
      ensures zonePages == if npages > 32768 then 32 else if npages > 16384 then 16 else 8
      ensures zoneLimit == if npages > 16384 then 16384 else 8192
      ensures forall x :: Pages.Free(pages.runs, x) <==> start + Units(npages * 4, PAGE) <= x < start + npages
    {
      var heapSize, zoneSize := npages * PAGE, 32768;
      while zoneSize < 131072 && zoneSize * 2 < heapSize / 1024
        invariant zoneSize == 32768 || (zoneSize == 65536 && npages > 16384) || (zoneSize == 131072 && npages > 32768)
        decreases 131072 - zoneSize
      {
        zoneSize := zoneSize * 2;
      }
      zonePages := zoneSize / PAGE;
      zoneLimit := if zoneSize / 4 > 16384 then 16384 else zoneSize / 4;
      s := State(map[], seq(NZONES, _ => []), [], map[]);
      v := View(map[], map[]);
      pages := new Pages.PageList(start, npages);
      new;
      ghost var all := pages.runs;
      var n := RoundUp(npages * 4, PAGE) / PAGE;
      assert n == Units(npages * 4, PAGE) && 0 < n <= npages;
      var memusage := pages.Alloc(n);
      LowestFree(all, start, npages, n, memusage);
    }

    /** rt_malloc for a request that is served in whole pages. */
    method MallocPages(size: nat) returns (p: Option<int>)
      requires Valid() && size >= zoneLimit
      modifies this, pages
      ensures Valid()
      ensures p.None? ==> s == old(s) && v == old(v) && pages.runs == old(pages.runs)
      ensures p.None? ==> forall a :: !Pages.AllFree(old(pages.runs), a, Units(size, PAGE))
      ensures p.Some? ==>
                var n, first := Units(size, PAGE), p.value / PAGE;
                && p.value == first * PAGE && size <= n * PAGE && first !in old(v.owned) && !IsZone(s, first)
                && v == old(v).(owned := old(v.owned)[first := n])
                && ChunksInUse(s, v) == ChunksInUse(old(s), old(v))
                && PagesInUse(s, v) == PagesInUse(old(s), old(v))[first := n]
                && Lowest(old(pages.runs), first, n)
                && (forall x :: Pages.Free(pages.runs, x) <==>
                                  Pages.Free(old(pages.runs), x) && !(first <= x < first + n))
                && s == old(s).(usage := old(s.usage)[first := Usage(Large, n)])
    {
      hide ZonesGood, ListsGood, UsageGood, Apart;
      Rounding(size, PAGE);
      var n := RoundUp(size, PAGE) / PAGE;
      assert n == Units(size, PAGE);
      var start := pages.Alloc(n);
      if start.None? { return None; }
      LargeStep(s, v, old(pages.runs), pages.runs, zonePages, start.value, n);
      NoZoneYet(s, v, old(pages.runs), zonePages, start.value);
      s := s.(usage := s.usage[start.value := Usage(Large, n)]);
      v := v.(owned := v.owned[start.value := n]);
      assert forall p :: IsZone(s, p) <==> IsZone(old(s), p);
      return Some(start.value * PAGE);
    }

    /** rt_malloc from the first zone of its class that has a free chunk. */
    method MallocFromZone(index: int, size: int) returns (a: int, ghost z: int)
      requires Valid() && 0 <= index < NZONES && s.lists[index] != [] && size == ChunkSize(index)
      modifies this
      ensures Valid() && z == old(s.lists)[index][0] && a !in old(v.live) && v == old(v).(live := old(v.live)[a := z])
      ensures z in old(s.zones) && old(s.zones)[z].size == size
      ensures var zone, lists := old(s.zones)[z], old(s.lists);
              if zone.uindex + 1 < zone.nmax then
                && a == z * PAGE + zone.off + (zone.uindex + 1) * size
                && s.zones == old(s.zones)[z := zone.(nfree := zone.nfree - 1, uindex := zone.uindex + 1)]
              else
                && zone.free != [] && a == zone.free[0]
                && s.zones == old(s.zones)[z := zone.(nfree := zone.nfree - 1, free := zone.free[1..])]
      ensures s.lists == if old(s.zones)[z].nfree == 1 then old(s.lists)[index := old(s.lists)[index][1..]]
                         else old(s.lists)
      ensures s.zoneFree == old(s.zoneFree) && s.usage == old(s.usage)
      ensures ChunksInUse(s, v) == ChunksInUse(old(s), old(v))[a := size]
      ensures PagesInUse(s, v) == PagesInUse(old(s), old(v))
    {
      hide ZonesGood, ListsGood, UsageGood, Apart, ZonesKnown, SizeAt, PagesInUse, ChunksInUse;
      LiveInZones(s, v, pages.runs, zonePages);
      ListsLength(s, v, pages.runs, zonePages);
      var first := s.lists[index][0];
      z := first;
      GiveStep(s, v, pages.runs, zonePages, first, index);
      var zone, lists := s.zones[first], s.lists;
      zone := zone.(nfree := zone.nfree - 1);
      if zone.nfree == 0 { lists := lists[index := lists[index][1..]]; }
      if zone.uindex + 1 != zone.nmax {
        zone := zone.(uindex := zone.uindex + 1);
        a := first * PAGE + zone.off + zone.uindex * size;
      } else {
        a := zone.free[0];
        zone := zone.(free := zone.free[1..]);
      }
      assert lists == s.lists[index := if zone.nfree == 0 then s.lists[index][1..] else s.lists[index]];
      s := s.(zones := s.zones[first := zone], lists := lists);
      v := v.(live := v.live[a := first]);
      ChunksMore(old(s), old(v), s, v, a, z);
      assert forall p :: IsZone(s, p) <==> IsZone(old(s), p);
      PagesKept(old(s), old(v), s, v);
    }

    /** rt_malloc from a zone that was free or is newly made of pages. */
    method MallocNewZone(index: int, size: int) returns (p: Option<int>, ghost z: int)
      requires Valid() && 0 <= index < NZONES && size == ChunkSize(index) && 4 * size <= zonePages * PAGE
      modifies this, pages
      ensures Valid()
      ensures p.None? ==> s == old(s) && v == old(v) && pages.runs == old(pages.runs)
      ensures p.None? ==> old(s.zoneFree) == [] && forall a :: !Pages.AllFree(old(pages.runs), a, zonePages)
      ensures p.Some? ==>
                && p.value !in old(v.live) && v.live == old(v.live)[p.value := z]
                && z in s.zones && s.zones[z].size == size && z !in old(s.zones)
                && (if old(s.zoneFree) != []
                    then z == old(s.zoneFree)[0] && s.zoneFree == old(s.zoneFree)[1..] && pages.runs == old(pages.runs)
                    else && Lowest(old(pages.runs), z, zonePages) && s.zoneFree == []
                         && forall x :: Pages.Free(pages.runs, x) <==>
                                          Pages.Free(old(pages.runs), x) && !(z <= x < z + zonePages))
                && s.zones == old(s.zones)[z := s.zones[z]]
                && s.lists == old(s.lists)[index := [z] + old(s.lists)[index]]
      ensures p.Some? ==>
                var zone, unit := s.zones[z], if IsPowerOfTwo(size) then size else 8;
                && zone == Zone(index, size, zone.off, zone.nmax, zone.nmax - 1, 0, [])
                && zone.off % unit == 0 && ZONE_HEADER <= zone.off < ZONE_HEADER + unit
                && zone.nmax * size <= zonePages * PAGE - zone.off < zone.nmax * size + size
                && p.value == z * PAGE + zone.off
      ensures p.Some? ==>
                && ChunksInUse(s, v) == ChunksInUse(old(s), old(v))[p.value := size]
                && PagesInUse(s, v) == PagesInUse(old(s), old(v))
    {
      hide ZonesGood, ListsGood, UsageGood, Apart, Header, ZonesKnown, SizeAt, PagesInUse, ChunksInUse;
      LiveInZones(s, v, pages.runs, zonePages);
      ListsLength(s, v, pages.runs, zonePages);
      NewZoneGood(index, size, zonePages * PAGE);
      NewZoneIs(index, size, zonePages * PAGE);
      z := 0;
      var first;
      ghost var ready, w := s, v;
      var rest, usage := s.zoneFree, s.usage;
      if s.zoneFree != [] {
        first, rest := s.zoneFree[0], s.zoneFree[1..];
      } else {
        var start := pages.Alloc(zonePages);
        if start.None? { return None, 0; }
        first := start.value;
        AcquireStep(s, v, old(pages.runs), pages.runs, zonePages, first);
        for off := 0 to zonePages
          invariant usage == PointedBack(s.usage, first, off)
          invariant s == old(s) && v == old(v)
        {
          usage := usage[first + off := Usage(Small, off)];
        }
        ready := s.(zoneFree := [first] + s.zoneFree, usage := usage);
        w := v.(owned := v.owned[first := zonePages]);
        assert ([first] + s.zoneFree)[1..] == s.zoneFree;
      }
      var zone := NewZone(index, size, zonePages * PAGE);
      ReuseStep(ready, w, pages.runs, zonePages, zone);
      z := first;
      s := State(s.zones[first := zone], s.lists[index := [first] + s.lists[index]], rest, usage);
      v := w.(live := w.live[Chunk(first, zone, 0) := first]);
      ChunksMore(old(s), old(v), s, v, Chunk(first, zone, 0), first);
      NewZonePages(old(s), old(v), s, v, zonePages, first);
      return Some(first * PAGE + zone.off + zone.uindex * size), first;
    }

    /**
     rt_malloc.

     A small request gets a chunk of its class that nobody else has, a large one whole pages that nobody
     else has.  A request fails only if it is for nothing, or if it needs more consecutive free pages than
     there are.
     */
    method Malloc(size: nat) returns (p: Option<int>, ghost z: int)
      requires Valid()
      modifies this, pages
      ensures Valid()
      ensures p.None? ==> s == old(s) && v == old(v) && pages.runs == old(pages.runs)
      ensures p.None? && size > 0 ==>
                forall a :: !Pages.AllFree(old(pages.runs), a, PagesNeeded(size, zonePages, zoneLimit))
      ensures p.None? && 0 < size < zoneLimit ==> old(s.zoneFree) == [] && old(s.lists)[ClassOf(size).index] == []
      ensures p.Some? ==> size > 0 && |old(s.lists)| == NZONES
      ensures p.Some? ==> ServedFrom(old(s), old(pages.runs), zonePages, zoneLimit, size, z)
      ensures p.Some? && IsPowerOfTwo(size) ==> (p.value % size == 0 <==> z * PAGE % size == 0)
      ensures p.Some? && IsPowerOfTwo(size) && size <= PAGE ==> p.value % size == 0
      ensures p.Some? && size < zoneLimit ==>
                && p.value !in old(v.live) && v.live == old(v.live)[p.value := z]
                && z in s.zones && s.zones[z].size == ClassOf(size).size >= size
                && ChunksInUse(s, v) == ChunksInUse(old(s), old(v))[p.value := ClassOf(size).size]
                && PagesInUse(s, v) == PagesInUse(old(s), old(v))
      ensures p.Some? && size < zoneLimit ==>
                var index, chunk := ClassOf(size).index, ClassOf(size).size;
                && 0 <= index < NZONES
                && if old(s.lists)[index] != [] then FromZone(old(PictureOf()), index, chunk, p.value, z, PictureOf())
                   else FromNewZone(old(PictureOf()), index, chunk, p.value, z, PictureOf(), zonePages)
      ensures p.Some? && size >= zoneLimit ==>
                var n, first := Units(size, PAGE), p.value / PAGE;
                && p.value == first * PAGE && size <= n * PAGE && first !in old(v.owned) && !IsZone(s, first)
                && z == first && Pages.Taken(old(pages.runs), pages.runs, first, n)
                && s.zones == old(s.zones) && s.lists == old(s.lists) && s.zoneFree == old(s.zoneFree)
                && v == old(v).(owned := old(v.owned)[first := n])
                && ChunksInUse(s, v) == ChunksInUse(old(s), old(v))
                && PagesInUse(s, v) == PagesInUse(old(s), old(v))[first := n]
    {
      hide ZonesGood, UsageGood, Apart, ChunkSize, ClassOf, ChunksInUse, PagesInUse, IsPowerOfTwo, Lowest;
      ListsLength(s, v, pages.runs, zonePages);
      z := 0;
      if size == 0 { return None, 0; }
      if size >= zoneLimit {
        p := MallocPages(size);
        if p.Some? { z := p.value / PAGE; }
        return;
      }
      ClassIsBest(size);
      ClassFits(size, zonePages, zoneLimit);
      var Class(index, rounded) := ClassOf(size);
      if s.lists[index] != [] {
        var a;
        a, z := MallocFromZone(index, rounded);
        p := Some(a);
      } else {
        p, z := MallocNewZone(index, rounded);
      }
      if p.Some? && IsPowerOfTwo(size) { RequestAligned(s, v, pages.runs, zonePages, size, p.value); }
    }

    /** The page in memusage of an address, followed to the zone it is in. */
    method ZoneOf(ptr: int) returns (z: int)
      requires Valid() && ptr in v.live
      ensures z == v.live[ptr]
    {
      hide Touched, Header, Shared;
      LiveChunk(s, v, pages.runs, zonePages, ptr);
      ZoneIsSmall(s, v, pages.runs, zonePages, ptr);
      var page := ptr / PAGE;
      z := page - s.usage[page].size;
    }

    /** rt_free of whole pages. */
    method FreePages(page: int)
      requires Valid() && page in v.owned && !IsZone(s, page)
      modifies this, pages
      ensures Valid() && v == old(v).(owned := old(v.owned) - {page})
      ensures Pages.Regained(old(pages.runs), pages.runs, page, old(v.owned)[page])
      ensures s.zones == old(s.zones) && s.lists == old(s.lists) && s.zoneFree == old(s.zoneFree)
      ensures ChunksInUse(s, v) == ChunksInUse(old(s), old(v))
      ensures PagesInUse(s, v) == PagesInUse(old(s), old(v)) - {page}
    {
      hide ZonesGood, ListsGood;
      var size := s.usage[page].size;
      pages.Release(page, size);
      LargeGone(s, v, old(pages.runs), pages.runs, zonePages, page);
      hide UsageGood, Apart;
      s := s.(usage := s.usage[page := Usage(Large, 0)]);
      v := v.(owned := v.owned - {page});
      assert forall p :: IsZone(s, p) <==> IsZone(old(s), p);
    }

    /** The chunk goes to the front of its zone's free list, and the zone to its list if it was exhausted. */
    method PutBack(ptr: int) returns (z: int)
      requires Valid() && ptr in v.live
      modifies this
      ensures Valid() && z == old(v.live)[ptr] && v == old(v).(live := old(v.live) - {ptr})
      ensures z in old(s.zones) && 0 <= old(s.zones)[z].index < |old(s.lists)| == NZONES
      ensures var zone := old(s.zones)[z];
              && s.zones == old(s.zones)[z := zone.(free := [ptr] + zone.free, nfree := zone.nfree + 1)]
              && s.lists == (if zone.nfree == 0 then old(s.lists)[zone.index := [z] + old(s.lists)[zone.index]]
                             else old(s.lists))
      ensures s.zoneFree == old(s.zoneFree) && s.zones[z].nfree > 0
      ensures ChunksInUse(s, v) == ChunksInUse(old(s), old(v)) - {ptr}
      ensures PagesInUse(s, v) == PagesInUse(old(s), old(v))
    {
      hide ZonesGood, ListsGood, UsageGood, Apart, ZonesKnown, SizeAt, PagesInUse, ChunksInUse;
      LiveInZones(s, v, pages.runs, zonePages);
      z := ZoneOf(ptr);
      ListsLength(s, v, pages.runs, zonePages);
      ReturnStep(s, v, pages.runs, zonePages, ptr);
      ZoneCounts(s, v, pages.runs, zonePages, z);
      var zone, lists := s.zones[z], s.lists;
      if zone.nfree == 0 { lists := lists[zone.index := [z] + lists[zone.index]]; }
      zone := zone.(free := [ptr] + zone.free, nfree := zone.nfree + 1);
      s := s.(zones := s.zones[z := zone], lists := lists);
      v := v.(live := v.live - {ptr});
      LiveInZones(s, v, pages.runs, zonePages);
      ChunksFewer(old(s), old(v), s, v, {ptr});
      assert forall p :: IsZone(s, p) <==> IsZone(old(s), p);
      PagesKept(old(s), old(v), s, v);
    }

    /** A zone that is free as a whole leaves its list; with more than two such zones, one goes back to the pages. */
    method Retire(z: int)
      requires Valid() && z in s.zones && s.zones[z].nfree == s.zones[z].nmax
      modifies this, pages
      ensures Valid() && v.live == old(v.live) && s.zones == old(s.zones) - {z}
      ensures 0 <= old(s.zones)[z].index < |old(s.lists)|
      ensures var index := old(s.zones)[z].index;
              s.lists == old(s.lists)[index := Without(old(s.lists)[index], z)]
      ensures if |old(s.zoneFree)| < RELEASE_THRESHOLD
              then s.zoneFree == [z] + old(s.zoneFree) && pages.runs == old(pages.runs)
              else s.zoneFree == old(s.zoneFree) && Pages.Regained(old(pages.runs), pages.runs, z, zonePages)
      ensures ChunksInUse(s, v) == ChunksInUse(old(s), old(v)) && PagesInUse(s, v) == PagesInUse(old(s), old(v))
    {
      hide ZonesGood, UsageGood, Apart, ZonesKnown, SizeAt, PagesInUse, ChunksInUse;
      LiveInZones(s, v, pages.runs, zonePages);
      ZoneCounts(s, v, pages.runs, zonePages, z);
      var index := s.zones[z].index;
      var list, k := s.lists[index], 0;
      assert z in list;
      while list[k] != z
        invariant 0 <= k < |list| && z !in list[..k]
        invariant s == old(s) && v == old(v) && pages.runs == old(pages.runs)
        decreases |list| - k
      {
        InRest(list, k, z);
        k := k + 1;
      }
      RetireStep(s, v, pages.runs, zonePages, z, k);
      RemovedIsWithout(list, k);
      hide ListsGood;
      s := s.(zones := s.zones - {z}, lists := s.lists[index := Removed(list, k)], zoneFree := [z] + s.zoneFree);
      RetiredInUse(old(s), s, v, pages.runs, zonePages, z);
      if |s.zoneFree| > RELEASE_THRESHOLD {
        FirstFreeZone(s, v, pages.runs, zonePages);
        pages.Release(z, zonePages);
        ReleaseStep(s, v, old(pages.runs), pages.runs, zonePages);
        var usage := s.usage;
        for i := 0 to zonePages
          invariant usage == Wiped(s.usage, z, i)
        {
          usage := usage[z + i := Usage(FreePage, 0)];
        }
        ReleasedInUse(s, v, s.(zoneFree := s.zoneFree[1..], usage := usage), z);
        s := s.(zoneFree := s.zoneFree[1..], usage := usage);
        v := v.(owned := v.owned - {z});
      }
    }

    /** The chunk goes back; its zone, if free as a whole and not the last of its class, is recycled or released. */
    method FreeChunk(ptr: int)
      requires Valid() && ptr in v.live
      modifies this, pages
      ensures Valid() && v.live == old(v.live) - {ptr}
      ensures ChunksInUse(s, v) == ChunksInUse(old(s), old(v)) - {ptr}
      ensures PagesInUse(s, v) == PagesInUse(old(s), old(v))
      ensures var z := old(v.live)[ptr];
              && z in old(s.zones) && 0 <= old(s.zones)[z].index < |old(s.lists)|
              && var zone, lists := old(s.zones)[z], old(s.lists);
              var others := exists y :: y in lists[zone.index] && y != z;
              if zone.nfree + 1 == zone.nmax && others then
                && s.zones == old(s.zones) - {z}
                && s.lists == lists[zone.index := Without(lists[zone.index], z)]
                && if |old(s.zoneFree)| < RELEASE_THRESHOLD
                   then s.zoneFree == [z] + old(s.zoneFree) && pages.runs == old(pages.runs)
                   else s.zoneFree == old(s.zoneFree) && Pages.Regained(old(pages.runs), pages.runs, z, zonePages)
              else
                && s.zones == old(s.zones)[z := zone.(free := [ptr] + zone.free, nfree := zone.nfree + 1)]
                && s.lists == (if zone.nfree == 0 then lists[zone.index := [z] + lists[zone.index]] else lists)
                && s.zoneFree == old(s.zoneFree) && pages.runs == old(pages.runs)
    {
      hide Sound, ChunksInUse, PagesInUse, Pages.Regained;
      LiveZone(s, v, pages.runs, zonePages, ptr);
      ZoneListed(s, v, pages.runs, zonePages, v.live[ptr]);
      var z := PutBack(ptr);
      if s.zones[z].nfree == s.zones[z].nmax && s.lists[s.zones[z].index] != [z] {
        Retire(z);
      }
    }

    /** rt_free of what rt_malloc gave out. */
    method Free(ptr: Option<int>)
      requires Valid()
      requires ptr.Some? ==> ptr.value in v.live ||
                             (ptr.value % PAGE == 0 && ptr.value / PAGE in v.owned && !IsZone(s, ptr.value / PAGE))
      modifies this, pages
      ensures Valid()
      ensures ptr.None? ==> s == old(s) && v == old(v) && pages.runs == old(pages.runs)
      ensures ptr.Some? && ptr.value in old(v.live) ==>
                && v.live == old(v.live) - {ptr.value}
                && ChunksInUse(s, v) == ChunksInUse(old(s), old(v)) - {ptr.value}
                && PagesInUse(s, v) == PagesInUse(old(s), old(v))
      ensures ptr.Some? && ptr.value in old(v.live) ==>
                var z := old(v.live)[ptr.value];
                && z in old(s.zones) && 0 <= old(s.zones)[z].index < |old(s.lists)|
                && var zone, lists := old(s.zones)[z], old(s.lists);
                var others := exists y :: y in lists[zone.index] && y != z;
                if zone.nfree + 1 == zone.nmax && others then
                  && s.zones == old(s.zones) - {z}
                  && s.lists == lists[zone.index := Without(lists[zone.index], z)]
                  && if |old(s.zoneFree)| < RELEASE_THRESHOLD
                     then s.zoneFree == [z] + old(s.zoneFree) && pages.runs == old(pages.runs)
                     else s.zoneFree == old(s.zoneFree) && Pages.Regained(old(pages.runs), pages.runs, z, zonePages)
                else
                  && s.zones == old(s.zones)[z := zone.(free := [ptr.value] + zone.free, nfree := zone.nfree + 1)]
                  && s.lists == (if zone.nfree == 0 then lists[zone.index := [z] + lists[zone.index]] else lists)
                  && s.zoneFree == old(s.zoneFree) && pages.runs == old(pages.runs)
      ensures ptr.Some? && ptr.value !in old(v.live) ==>
                && s.zones == old(s.zones) && s.lists == old(s.lists) && s.zoneFree == old(s.zoneFree)
                && v == old(v).(owned := old(v.owned) - {ptr.value / PAGE})
                && Pages.Regained(old(pages.runs), pages.runs, ptr.value / PAGE, old(v.owned)[ptr.value / PAGE])
                && ChunksInUse(s, v) == ChunksInUse(old(s), old(v))
                && PagesInUse(s, v) == PagesInUse(old(s), old(v)) - {ptr.value / PAGE}
    {
      hide ChunksInUse, PagesInUse, Pages.Regained;
      if ptr.None? { return; }
      var page := ptr.value / PAGE;
      if ptr.value in v.live { ZoneIsSmall(s, v, pages.runs, zonePages, ptr.value); }
      hide ZonesGood, ListsGood, Apart;
      if s.usage[page].kind == Large {
        FreePages(page);
        return;
      }
      FreeChunk(ptr.value);
    }

    ghost function PictureOf(): (p: Picture)
      reads this, pages
    {
      Picture(s, v, pages.runs)
    }

    /**
     Any run of requests and releases of what was given out.

     Each operation does what it says.  Every pointer the client holds has room for what it asked for, no two
     overlap, and nothing else is in use.
     */
    method Run(ops: seq<Op>)
      returns (held: map<int, nat>, ghost history: seq<map<int, nat>>, ghost pictures: seq<Picture>)
      requires Valid() && v.live == map[] && v.owned == map[]
      modifies this, pages
      ensures Valid() && Holds(held, ChunksInUse(s, v), PagesInUse(s, v))
      ensures |history| == |pictures| == |ops| + 1 && history[0] == map[] && history[|ops|] == held
      ensures pictures[0] == old(PictureOf()) && pictures[|ops|] == PictureOf()
      ensures forall i :: 0 <= i < |ops| ==>
                Did(ops[i], pictures[i], history[i], pictures[i + 1], history[i + 1], zonePages, zoneLimit)
      ensures forall a, b :: a in held && b in held && a < b ==> a + held[a] <= b
    {
      hide Sound, Holds, Room, NotBoth, Did;
      held := map[];
      history, pictures := [held], [PictureOf()];
      HoldsNothing(s, v);
      for i := 0 to |ops|
        invariant Valid() && Holds(held, ChunksInUse(s, v), PagesInUse(s, v))
        invariant |history| == |pictures| == i + 1 && history[0] == map[] && history[i] == held
        invariant pictures[0] == old(PictureOf()) && pictures[i] == PictureOf()
        invariant forall k :: 0 <= k < i ==>
                    Did(ops[k], pictures[k], history[k], pictures[k + 1], history[k + 1], zonePages, zoneLimit)
      {
        held := Act(ops[i], held);
        history, pictures := history + [held], pictures + [PictureOf()];
      }
      forall a, b | a in held && b in held && a < b
        ensures a + held[a] <= b
      {
        HeldApart(held, s, v, pages.runs, zonePages, a, b);
      }
    }

    /** One request, or the release of a pointer that the client holds; it releases no others. */
    method Act(op: Op, held: map<int, nat>) returns (held': map<int, nat>)
      requires Valid() && Holds(held, ChunksInUse(s, v), PagesInUse(s, v))
      modifies this, pages
      ensures Valid() && Holds(held', ChunksInUse(s, v), PagesInUse(s, v))
      ensures Did(op, old(PictureOf()), held, PictureOf(), held', zonePages, zoneLimit)
    {
      hide Sound, Holds, Room, NotBoth, ClassOf, ChunksInUse, PagesInUse, ServedFrom, NoRoom, Lowest;
      held' := held;
      ghost var p0 := PictureOf();
      NeverBoth(s, v, pages.runs, zonePages);
      match op
      case MallocOp(size) =>
        ghost var z, chunks, taken := 0, ChunksInUse(s, v), PagesInUse(s, v);
        InUseKeys(s, v);
        ListsLength(s, v, pages.runs, zonePages);
        var p;
        p, z := Malloc(size);
        if p.None? {
          RefusedNoRoom(p0, zonePages, zoneLimit, size);
          return;
        }
        ServedHasRoom(p0, zonePages, zoneLimit, size, z);
        NeverBoth(s, v, pages.runs, zonePages);
        if size < zoneLimit {
          HoldsChunk(held, chunks, taken, p.value, ClassOf(size).size, size);
        } else {
          HoldsPages(held, chunks, taken, p.value / PAGE, Units(size, PAGE), size);
        }
        held' := held[p.value := size];
        assert Served(p0, size, p.value, z, held, PictureOf(), held', zonePages, zoneLimit);
      case FreeOp(p) =>
        if p !in held {
          assert held - {p} == held;
          return;
        }
        InUseKeys(s, v);
        HeldIs(held, ChunksInUse(s, v), PagesInUse(s, v), p);
        if p in v.live {
          DropsChunk(held, ChunksInUse(s, v), PagesInUse(s, v), p);
        } else {
          DropsPages(held, ChunksInUse(s, v), PagesInUse(s, v), p / PAGE);
        }
        Free(Some(p));
        held' := held - {p};
    }

  }

  /** Requests for two and for four pages' worth of bytes that are served at an odd page, and so not aligned. */
  method MisalignedRequests() returns (p: Option<int>, q: Option<int>)
    ensures IsPowerOfTwo(8192) && p.Some? && p.value % 8192 != 0
    ensures IsPowerOfTwo(16384) && q.Some? && q.value % 16384 != 0
  {
    PageIsPower();
    assert 8192 / 2 == PAGE && IsPowerOfTwo(8192);
    assert 16384 / 2 == 8192 && IsPowerOfTwo(16384);
    p := FirstRequest(8192, 16);
    q := FirstRequest(16384, 4);
  }

  /** The first request to a heap of 16385 pages, of which memusage takes seventeen. */
  method FirstRequest(size: nat, n: int) returns (p: Option<int>)
    requires IsPowerOfTwo(size) && ((size == 8192 && n == 16) || (size == 16384 && n == 4))
    ensures p.Some? && (p.value % size == 0 <==> 17 * PAGE % size == 0)
  {
    hide Sound, IsPowerOfTwo;
    var slab := new Slab(0, 16385);
    assert Units(16385 * 4, PAGE) == 17 && slab.zonePages == 16 && slab.zoneLimit == 16384;
    ghost var z, runs := 0, slab.pages.runs;
    assert Pages.AllFree(runs, 17, n);
    assert ClassOf(8192).index == 63 && Units(16384, PAGE) == 4;
    assert PagesNeeded(size, 16, 16384) == n;
    p, z := slab.Malloc(size);
    assert Lowest(runs, z, n);
    assert Pages.Free(runs, z);
  }

  /** Of free pages from `start` on, the lowest are those from `start` on. */
  lemma LowestFree(runs: seq<Pages.Run>, start: int, npages: int, n: int, got: Option<int>)
    requires forall x :: Pages.Free(runs, x) <==> start <= x < start + npages
    requires 0 < n <= npages
    ensures Pages.AllFree(runs, start, n)
    ensures got.Some? && Pages.AllFree(runs, got.value, n) ==> start <= got.value
  {
    if got.Some? && Pages.AllFree(runs, got.value, n) { assert Pages.Free(runs, got.value); }
  }

  lemma ZoneCounts(s: State, v: View, runs: seq<Pages.Run>, zonePages: int, z: int)
    requires Sound(s, v, runs, zonePages) && z in s.zones
    ensures 0 <= s.zones[z].index < NZONES && s.zones[z].nfree >= 0 && s.zones[z].nmax > 0 && |s.lists| == NZONES
  {
    assert Header(s.zones[z], zonePages * PAGE);
  }

  /** A zone is on the list of its class or has no free chunk; alone on it, there is no other. */
  lemma ZoneListed(s: State, v: View, runs: seq<Pages.Run>, zonePages: int, z: int)
    requires Sound(s, v, runs, zonePages) && z in s.zones
    ensures 0 <= s.zones[z].index < |s.lists| == NZONES && s.zones[z].nfree >= 0
    ensures var list := s.lists[s.zones[z].index];
            var list' := if s.zones[z].nfree == 0 then [z] + list else list;
            && (list' == [z] <==> !exists y :: y in list && y != z)
            && Without(list', z) == Without(list, z)
  {
    ZoneCounts(s, v, runs, zonePages, z);
    hide ZonesGood, UsageGood, Apart;
    var list := s.lists[s.zones[z].index];
    assert z in list <==> s.zones[z].nfree > 0;
    OnlyOne(list, z);
    if s.zones[z].nfree == 0 { assert ([z] + list)[1..] == list; }
  }

  lemma LiveZone(s: State, v: View, runs: seq<Pages.Run>, zonePages: int, a: int)
    requires Sound(s, v, runs, zonePages) && a in v.live
    ensures v.live[a] in s.zones
  {
  }

  lemma OnlyOne(list: seq<int>, z: int)
    requires Distinct(list)
    ensures z in list ==> (list == [z] <==> !exists y :: y in list && y != z)
    ensures z !in list ==> (list == [] <==> !exists y :: y in list && y != z)
  {
    if z !in list && list != [] {
      assert list[0] in list && list[0] != z;
    } else if |list| > 1 {
      assert list[0] in list && list[1] in list && list[0] != list[1];
    }
  }

  lemma InRest(list: seq<int>, k: int, z: int)
    requires 0 <= k < |list| && z in list && z !in list[..k] && list[k] != z
    ensures k + 1 < |list| && z !in list[..k + 1]
  {
    assert list == list[..k] + [list[k]] + list[k + 1..];
    assert list[..k + 1] == list[..k] + [list[k]];
  }

  lemma FirstFreeZone(s: State, v: View, runs: seq<Pages.Run>, zonePages: int)
    requires Sound(s, v, runs, zonePages) && s.zoneFree != []
    ensures Pages.NoneFree(runs, s.zoneFree[0], zonePages)
    ensures s.zoneFree[0] !in s.zones && s.zoneFree[0] !in s.zoneFree[1..]
  {
    assert IsZone(s, s.zoneFree[0]);
  }

  /** No two chunks in use overlap. */
  lemma LiveApart(s: State, v: View, runs: seq<Pages.Run>, zonePages: int, a: int, b: int)
    requires Sound(s, v, runs, zonePages) && a in v.live && b in v.live && a < b
    ensures v.live[a] in s.zones && a + s.zones[v.live[a]].size <= b
  {
    LiveChunk(s, v, runs, zonePages, a);
    LiveChunk(s, v, runs, zonePages, b);
    var z, y := v.live[a], v.live[b];
    if z == y {
      TouchedApart(z, s.zones[z], s.zones[z].uindex, a, b);
    } else {
      assert z + zonePages <= y || y + zonePages <= z;
    }
  }

  lemma {:induction false} TouchedApart(z: int, zone: Zone, u: int, a: int, b: int)
    requires zone.size > 0 && a in Touched(z, zone, u) && b in Touched(z, zone, u) && a < b
    ensures a + zone.size <= b
    decreases u + 1
  {
    NextChunk(z, zone, u - 1);
    if b == Chunk(z, zone, u) {
      TouchedBounds(z, zone, u - 1, a);
    } else if a == Chunk(z, zone, u) {
      TouchedBounds(z, zone, u - 1, b);
    } else {
      TouchedApart(z, zone, u - 1, a, b);
    }
  }

  /** The zone sizes rt_system_heap_init chooses from, in pages, and the limits that go with them. */
  ghost predicate Sizes(zonePages: int, zoneLimit: int) {
    || (zonePages == 8 && zoneLimit == 8192)
    || (zonePages == 16 && zoneLimit == 16384)
    || (zonePages == 32 && zoneLimit == 16384)
  }

  /** The consecutive pages that a request takes from the page allocator, if it takes any. */
  ghost function PagesNeeded(size: nat, zonePages: int, zoneLimit: int): (n: int) {
    if size >= zoneLimit then Units(size, PAGE) else zonePages
  }

  lemma ListsLength(s: State, v: View, runs: seq<Pages.Run>, zonePages: int)
    requires Sound(s, v, runs, zonePages)
    ensures |s.lists| == NZONES
  {
  }

  lemma ClassFits(n: int, zonePages: int, zoneLimit: int)
    requires Sizes(zonePages, zoneLimit) && 0 < n < zoneLimit
    ensures 4 * ClassOf(n).size <= zonePages * PAGE
  {
    hide Units;
    if n < 8192 { ClassBelow(n); } else { Rounding(n, 1024); }
  }

  lemma ClassBelow(n: int)
    requires 0 < n < 8192
    ensures ClassOf(n).size <= 8192
  {
    hide ClassOf, ChunkSize;
    ClassIsLeast(n, 63);
    ClassIsBest(n);
    ClassSixtyThree();
    if ClassOf(n).index < 63 { ChunksGrow(ClassOf(n).index, 63); }
  }

  lemma ClassSixtyThree()
    ensures ChunkSize(63) == 8192
  {
  }

  lemma NoZoneYet(s: State, v: View, runs: seq<Pages.Run>, zonePages: int, p: int)
    requires Sound(s, v, runs, zonePages) && p !in v.owned
    ensures !IsZone(s, p)
  {
  }

  lemma ZoneIsSmall(s: State, v: View, runs: seq<Pages.Run>, zonePages: int, a: int)
    requires Sound(s, v, runs, zonePages) && a in v.live
    ensures a / PAGE in s.usage && s.usage[a / PAGE] == Usage(Small, a / PAGE - v.live[a])
  {
    hide Touched, Header, Shared;
    LiveChunk(s, v, runs, zonePages, a);
    PageOf(v.live[a], zonePages, a);
    assert PagesPointBack(s.usage, v.live[a], zonePages);
  }
}

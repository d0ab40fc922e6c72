/** The size classes of the slab allocator. */
module ZoneIndex {

  const NZONES: int := 72

  function Units(n: int, unit: int): (k: int)
    requires unit > 0
  {
    (n + unit - 1) / unit
  }

  function RoundUp(n: int, unit: int): (r: int)
    requires unit > 0
  {
    Units(n, unit) * unit
  }

  lemma Rounding(n: int, unit: int)
    requires unit > 0
    ensures n <= RoundUp(n, unit) < n + unit
  {
    DivideRest(n + unit - 1, unit);
  }

  lemma DivideRest(n: int, unit: int)
    requires unit > 0
    ensures n - unit < n / unit * unit <= n
  {
  }

  lemma ChunkFits(u: int, n: int, size: int)
    requires u < n && size > 0
    ensures u * size + size <= n * size
  {
    assert (n - u - 1) * size >= 0;
    assert n * size == u * size + size + (n - u - 1) * size;
  }

  lemma QuotientOf(k: int, size: int)
    requires size > 0
    ensures k * size / size == k
  {
    var q := k * size / size;
    DivideRest(k * size, size);
    if q < k { ChunkFits(q, k, size); } else if q > k { ChunkFits(k, q, size); }
  }

  lemma RoundedBy(n: int, unit: int)
    requires unit > 0
    ensures n <= RoundUp(n, unit) < n + unit && RoundUp(n, unit) / unit == Units(n, unit)
  {
    hide Units;
    Rounding(n, unit);
    QuotientOf(Units(n, unit), unit);
  }

  datatype Class = Class(index: int, size: int)

  /** zoneindex: the index of the zone list for a request and the chunk size it is rounded up to. */
  function ClassOf(n: int): (c: Class) {
    if n < 128 then Class(RoundUp(n, 8) / 8 - 1, RoundUp(n, 8))
    else if n < 256 then Class(RoundUp(n, 16) / 16 + 7, RoundUp(n, 16))
    else if n < 512 then Class(RoundUp(n, 32) / 32 + 15, RoundUp(n, 32))
    else if n < 1024 then Class(RoundUp(n, 64) / 64 + 23, RoundUp(n, 64))
    else if n < 2048 then Class(RoundUp(n, 128) / 128 + 31, RoundUp(n, 128))
    else if n < 4096 then Class(RoundUp(n, 256) / 256 + 39, RoundUp(n, 256))
    else if n < 8192 then Class(RoundUp(n, 512) / 512 + 47, RoundUp(n, 512))
    else if n < 16384 then Class(RoundUp(n, 1024) / 1024 + 55, RoundUp(n, 1024))
    else Class(0, n)
  }

  /** The chunk size of each class: sixteen steps of 8, then eight steps in each doubling. */
  function ChunkSize(index: int): (size: int) {
    if index < 16 then (index + 1) * 8
    else if index < 24 then (index - 7) * 16
    else if index < 32 then (index - 15) * 32
    else if index < 40 then (index - 23) * 64
    else if index < 48 then (index - 31) * 128
    else if index < 56 then (index - 39) * 256
    else if index < 64 then (index - 47) * 512
    else (index - 55) * 1024
  }

  /** Every request below 16 KB has a class, whose chunk is the smallest of all classes that holds it. */
  lemma ClassIsBest(n: int)
    requires 0 < n < 16384
    ensures var c := ClassOf(n);
            && 0 <= c.index < NZONES && c.size == ChunkSize(c.index) && n <= c.size
            && (c.index > 0 ==> ChunkSize(c.index - 1) < n)
  {
    hide Units;
    if n < 128 {
      RoundedBy(n, 8);
    } else if n < 256 {
      RoundedBy(n, 16);
    } else if n < 512 {
      RoundedBy(n, 32);
    } else if n < 1024 {
      RoundedBy(n, 64);
    } else if n < 2048 {
      RoundedBy(n, 128);
    } else if n < 4096 {
      RoundedBy(n, 256);
    } else if n < 8192 {
      RoundedBy(n, 512);
    } else {
      RoundedBy(n, 1024);
    }
  }

  lemma ChunksGrow(i: int, j: int)
    requires 0 <= i < j < NZONES
    ensures ChunkSize(i) < ChunkSize(j)
  {
  }

  /** No class with a smaller chunk would do. */
  lemma ClassIsLeast(n: int, i: int)
    requires 0 < n < 16384 && 0 <= i < NZONES
    ensures ChunkSize(i) >= n <==> i >= ClassOf(n).index
  {
    hide ClassOf, ChunkSize;
    ClassIsBest(n);
    var k := ClassOf(n).index;
    if i > k { ChunksGrow(k, i); }
    if i < k - 1 { ChunksGrow(i, k - 1); }
  }

  /** The waste is less than an eighth of the request, from 128 bytes on, and below that less than eight bytes. */
  lemma WasteIsSmall(n: int)
    requires 0 < n < 16384
    ensures n >= 128 ==> (ClassOf(n).size - n) * 8 < n
    ensures n < 128 ==> ClassOf(n).size - n < 8
    ensures ClassOf(n).size % 8 == 0
  {
    ClassIsBest(n);
    EveryClassByEights(ClassOf(n).index);
  }

  lemma EveryClassByEights(index: int)
    requires 0 <= index < NZONES
    ensures ChunkSize(index) % 8 == 0
  {
  }
}

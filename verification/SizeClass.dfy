/** Size classes of the memory pool: class i serves blocks of (i + 1) * 8 bytes. */
module SizeClass {

  const ALIGNMENT: nat := 8
  const MAX_BYTE: nat := 256 * 1024
  const FREE_LIST_SIZE: nat := MAX_BYTE / ALIGNMENT
  const PAGE_SIZE: nat := 4096
  const SPAN_PAGES: nat := 8
  const SPAN_BYTES: nat := SPAN_PAGES * PAGE_SIZE

  /** Classes whose blocks are carved from a fixed eight-page span. */
  const SMALL_CLASSES: nat := SPAN_BYTES / ALIGNMENT

  /** Number of values of `size_t`; unsigned arithmetic is modulo this. */
  const SIZE_T: nat := 0x1_0000_0000_0000_0000

  /** The result n of unsigned arithmetic as it is stored in a `size_t`. */
  function Wrap(n: int): nat {
    n % SIZE_T
  }

  function BlockBytes(index: nat): nat {
    (index + 1) * ALIGNMENT
  }

  function GetIndex(bytes: nat): nat {
    var atLeast := if bytes < ALIGNMENT then ALIGNMENT else bytes;
    (atLeast + ALIGNMENT - 1) / ALIGNMENT - 1
  }

  /** `& ~7` clears the three low bits, that is, subtracts the remainder (see `ClearLowBits`). */
  function RoundUp(bytes: nat): nat {
    (bytes + ALIGNMENT - 1) - (bytes + ALIGNMENT - 1) % ALIGNMENT
  }

  lemma ClearLowBits(x: bv64)
    ensures x & !7 == x - x % 8
  {
    assert x & 7 == x % 8;
    assert (x & !7) + (x & 7) == x;
  }

  /** The class chosen for a request is the smallest one whose blocks hold it. */
  lemma GetIndexIsBestFit(bytes: nat)
    ensures bytes <= BlockBytes(GetIndex(bytes))
    ensures forall j: nat :: bytes <= BlockBytes(j) ==> GetIndex(bytes) <= j
    ensures bytes <= MAX_BYTE ==> GetIndex(bytes) < FREE_LIST_SIZE
    ensures GetIndex(bytes) < SMALL_CLASSES <==> bytes <= SPAN_BYTES
    ensures RoundUp(bytes) == if bytes == 0 then 0 else BlockBytes(GetIndex(bytes))
    ensures BlockBytes(GetIndex(bytes)) == 8 * (GetIndex(bytes) + 1)
    ensures bytes <= 262144 ==> GetIndex(bytes) < 32768
    ensures GetIndex(bytes) < 4096 <==> bytes <= 32768
  {
  }

  /** How many blocks one trip to the central cache asks for. */
  function GetBatchNum(size: nat): (n: nat)
    requires size > 0
    ensures 1 <= n <= 64
    ensures n > 1 ==> size <= 1024 && 2 <= n * size <= 4096
  {
    var baseNum :=
      if size <= 32 then 64
      else if size <= 64 then 32
      else if size <= 128 then 16
      else if size <= 256 then 8
      else if size <= 512 then 4
      else if size <= 1024 then 2
      else 1;
    var perPage := 4096 / size;
    var maxNum := if 1 < perPage then perPage else 1;
    var atMost := if maxNum < baseNum then maxNum else baseNum;
    if 1 < atMost then atMost else 1
  }

  /** At least k blocks fit into 4 KB. */
  lemma FitIn4K(size: nat, k: nat)
    requires size > 0 && k * size <= 4096
    ensures k <= 4096 / size
  {
    var q, r := 4096 / size, 4096 % size;
    assert 4096 == q * size + r;
    assert q < k ==> (q + 1) * size <= k * size;
  }

  /** The table; the bound of 4 KB is never below it. */
  lemma BatchTable(size: nat)
    requires size > 0
    ensures GetBatchNum(size) ==
      if size <= 32 then 64 else if size <= 64 then 32 else if size <= 128 then 16
      else if size <= 256 then 8 else if size <= 512 then 4 else if size <= 1024 then 2 else 1
    ensures GetBatchNum(size) == 1 || GetBatchNum(size) <= 4096 / size
  {
    var k := if size <= 32 then 64 else if size <= 64 then 32 else if size <= 128 then 16
             else if size <= 256 then 8 else if size <= 512 then 4 else if size <= 1024 then 2 else 1;
    if size <= 1024 { FitIn4K(size, k); }
  }

  /** So a batch is the largest power of two up to 64 whose blocks fit into 2 KB, or a single block. */
  lemma BatchFits2K(size: nat)
    requires size > 0
    ensures
      var n := GetBatchNum(size);
      && n in {1, 2, 4, 8, 16, 32, 64}
      && (n > 1 ==> n * size <= 2048) && (n < 64 ==> 2 * (n * size) > 2048)
  {
    hide GetBatchNum;
    BatchTable(size);
  }
}

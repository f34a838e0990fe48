/** How GPU launches split a nonce range over work items: host sizes of
    src/opencl_miner.c and src/cuda_miner.c, work items of their kernels, in 32-bit
    unsigned arithmetic. */
module Launch {
  import opened Words

  const W := 0x1_0000_0000

  datatype Kernel = CudaGeneric | CudaDual | CudaFixed | OpenClGeneric | OpenClFixed | RegisterHeavy

  function Mul(a: int, b: int): Word {
    a * b % 0x1_0000_0000
  }

  function Sub(a: int, b: int): Word {
    (a - b) % 0x1_0000_0000
  }

  /** The offsets base, base + 1, ... of a loop over len items. */
  function Span(base: Word, len: nat): (s: seq<Word>)
    ensures |s| == len
  {
    if len == 0 then [] else Span(base, len - 1) + [Add(base, (len - 1) % 0x1_0000_0000)]
  }

  /** The limit as the generic kernels compute it; base + n may wrap. */
  function Limit(base: Word, n: Word, count: Word): Word {
    if Add(base, n) > count then Sub(count, base) else n
  }

  function CeilDiv(a: nat, b: nat): nat
    requires b > 0
  {
    (a + b - 1) / b
  }

  /** The offsets work item gid visits. */
  function Offsets(k: Kernel, gid: Word, n: Word, count: Word): seq<Word> {
    var base := Mul(gid, n);
    match k
    case CudaGeneric => if base >= count then [] else Span(base, Limit(base, n, count))
    case CudaDual => if base >= count then [] else Span(base, Limit(base, n, count))
    case OpenClGeneric =>
      if count == 0 || n == 0 || gid >= (count - 1) / n + 1 then [] else Span(base, Limit(base, n, count))
    case _ => if base >= count then [] else Span(base, if count - base < n then count - base else n)
  }

  // ---- The kernels ----

  method CudaItem(gid: Word, n: Word, count: Word) returns (visited: seq<Word>)
    ensures visited == Offsets(CudaGeneric, gid, n, count)
  {
    hide Span, Add;
    NoItems();
    visited := [];
    var base := Mul(gid, n);
    if base >= count {
      return;
    }
    var limit := n;
    if Add(base, limit) > count {
      limit := Sub(count, base);
    }
    var item: Word := 0;
    while item < limit
      invariant item <= limit && visited == Span(base, item)
    {
      NextItem(base, item);
      visited := visited + [Add(base, item)];
      item := item + 1;
    }
  }

  lemma NoItems()
    ensures forall base :: Span(base, 0) == []
  {
  }

  lemma NextItem(base: Word, item: Word)
    ensures Span(base, item + 1) == Span(base, item) + [Add(base, item)]
  {
    hide Add;
  }

  /** The dual kernel takes two nonces at a time. */
  method CudaDualItem(gid: Word, n: Word, count: Word) returns (visited: seq<Word>)
    ensures visited == Offsets(CudaDual, gid, n, count)
  {
    hide Span, Add;
    NoItems();
    visited := [];
    var base := Mul(gid, n);
    if base >= count {
      return;
    }
    var limit := n;
    if Add(base, limit) > count {
      limit := Sub(count, base);
    }
    var item: Word := 0;
    while item + 1 < limit
      invariant item <= limit && visited == Span(base, item)
      decreases limit - item
    {
      NextItem(base, item);
      NextItem(base, item + 1);
      AddOne(base, item);
      visited := visited + [Add(base, item), Add(Add(base, item), 1)];
      item := item + 2;
    }
    if item < limit {
      NextItem(base, item);
      visited := visited + [Add(base, item)];
    }
  }

  lemma AddOne(base: Word, item: Word)
    requires item + 1 < W
    ensures Add(Add(base, item), 1) == Add(base, item + 1)
  {
  }

  method CudaFixedItem(gid: Word, n: Word, count: Word) returns (visited: seq<Word>)
    requires n in {1, 2, 4}
    ensures visited == Offsets(CudaFixed, gid, n, count)
  {
    hide Span, Add;
    NoItems();
    visited := [];
    var base := Mul(gid, n);
    if base >= count {
      return;
    }
    var limit: Word := count - base;
    if limit > n {
      limit := n;
    }
    var item: Word := 0;
    while item < limit
      invariant item <= limit && visited == Span(base, item)
    {
      NextItem(base, item);
      visited := visited + [Add(base, item)];
      item := item + 1;
    }
  }

  method OpenClItem(gid: Word, n: Word, count: Word) returns (visited: seq<Word>)
    requires n > 0
    ensures visited == Offsets(OpenClGeneric, gid, n, count)
  {
    hide Span, Add;
    NoItems();
    visited := [];
    if count == 0 {
      return;
    }
    var workItems := (count - 1) / n + 1;
    if gid >= workItems {
      return;
    }
    var base := Mul(gid, n);
    var limit := n;
    if Add(base, limit) > count {
      limit := Sub(count, base);
    }
    var item: Word := 0;
    while item < limit
      invariant item <= limit && visited == Span(base, item)
    {
      NextItem(base, item);
      visited := visited + [Add(base, item)];
      item := item + 1;
    }
  }

  /** The npi1, npi2 and npi4 kernels test each further nonce by itself. */
  method OpenClFixedItem(gid: Word, n: Word, count: Word) returns (visited: seq<Word>)
    requires n in {1, 2, 4}
    ensures visited == Offsets(OpenClFixed, gid, n, count)
  {
    hide Span, Add, Mul;
    visited := [];
    var base := Mul(gid, n);
    if base >= count {
      return;
    }
    ShortSpans(base);
    BaseIsMultiple(gid, n);
    NoItemWraps(base, n);
    visited := [base];
    if n > 1 && Add(base, 1) < count {
      visited := visited + [Add(base, 1)];
    }
    if n > 2 && Add(base, 2) < count {
      visited := visited + [Add(base, 2)];
    }
    if n > 2 && Add(base, 3) < count {
      visited := visited + [Add(base, 3)];
    }
  }

  lemma ShortSpans(base: Word)
    ensures Span(base, 1) == [base] && Span(base, 2) == [base, Add(base, 1)]
    ensures Span(base, 3) == [base, Add(base, 1), Add(base, 2)]
    ensures Span(base, 4) == [base, Add(base, 1), Add(base, 2), Add(base, 3)]
  {
    hide Span, Add;
    NoItems();
    AddZero(base);
    NextItem(base, 0);
    NextItem(base, 1);
    NextItem(base, 2);
    NextItem(base, 3);
  }

  lemma AddZero(base: Word)
    ensures Add(base, 0) == base
  {
  }

  lemma BaseIsMultiple(gid: Word, n: Word)
    requires n in {1, 2, 4}
    ensures Mul(gid, n) % n == 0
  {
    if n == 2 {
      TwiceIsEven(gid);
    } else if n == 4 {
      FourTimes(gid);
    }
  }

  lemma TwiceIsEven(gid: Word)
    ensures Mul(gid, 2) % 2 == 0
  {
    assert Mul(gid, 2) == 2 * (gid % 0x8000_0000);
  }

  lemma FourTimes(gid: Word)
    ensures Mul(gid, 4) % 4 == 0
  {
    assert Mul(gid, 4) == 4 * (gid % 0x4000_0000);
  }

  lemma NoItemWraps(base: Word, n: Word)
    requires n in {1, 2, 4} && base % n == 0
    ensures n > 1 ==> Add(base, 1) == base + 1
    ensures n > 2 ==> Add(base, 2) == base + 2 && Add(base, 3) == base + 3
  {
    if n == 4 {
      assert base <= 0xFFFF_FFFC;
    }
  }

  /** Two lanes; the second counts only while it is inside the range. */
  method RegisterHeavyItem(gid: Word, count: Word) returns (visited: seq<Word>)
    ensures visited == Offsets(RegisterHeavy, gid, 2, count)
  {
    hide Span, Add, Mul;
    visited := [];
    var base := Mul(gid, 2);
    if base >= count {
      return;
    }
    ShortSpans(base);
    BaseIsMultiple(gid, 2);
    NoItemWraps(base, 2);
    visited := [base];
    if Add(base, 1) < count {
      visited := visited + [Add(base, 1)];
    }
  }

  // ---- The host side ----

  /** clamp_threads_per_block; the default is 256. */
  function ClampThreads(value: Word): (r: Word)
    ensures 32 <= r <= 1024 && r % 32 == 0
    ensures if value == 0 then r == 256 else if value > 1024 then r == 1024 else value <= r < value + 32
  {
    var v := if value != 0 then value else 256;
    if v < 32 then 32 else if v > 1024 then 1024 else (v + 31) / 32 * 32
  }

  /** clamp_nonces_per_thread; the default is 1. */
  function ClampNonces(value: Word): (r: Word)
    ensures 1 <= r <= 16 && (1 <= value <= 16 ==> r == value)
  {
    if value == 0 then 1 else if value > 16 then 16 else value
  }

  /** The global size of opencl_miner_scan: enough items, padded to whole groups. */
  method OpenClGlobal(count: Word, n: Word, local: Word) returns (global: nat)
    requires n > 0
    ensures CeilDiv(count, n) <= global < CeilDiv(count, n) + AtLeast1(local)
    ensures local > 0 ==> global % local == 0
  {
    global := (count + n - 1) / n;
    if local > 0 {
      var rem := global % local;
      if rem != 0 {
        Padded(global, local);
        global := global + (local - rem);
      }
    }
  }

  function AtLeast1(g: nat): nat {
    if g == 0 then 1 else g
  }

  lemma Padded(a: nat, g: nat)
    requires g > 0
    ensures (a + (g - a % g)) % g == 0
  {
    assert a == g * (a / g) + a % g;
    var q := a / g + 1;
    assert a + (g - a % g) == g * q;
    MultipleMod(g, q);
  }

  lemma MultipleMod(g: nat, q: nat)
    requires g > 0
    ensures (g * q) % g == 0
  {
    ModUnique(g * q, g, q, 0);
  }

  lemma ModUnique(x: int, g: int, q: int, r: int)
    requires g > 0 && x == g * q + r && 0 <= r < g
    ensures x / g == q && x % g == r
  {
    var p, s := x / g, x % g;
    assert x == g * p + s;
    if p != q {
      assert g * (p - q) == r - s;
      if p > q { MulAtLeast(g, p - q); } else { MulAtLeast(g, q - p); }
      assert false;
    }
  }

  lemma MulAtLeast(g: int, d: int)
    requires g > 0 && d >= 1
    ensures g * d >= g
  {
  }

  /** The items of the launch of cuda_miner_scan: whole blocks. */
  method CudaGrid(count: Word, n: Word, threads: Word) returns (grid: nat)
    requires n > 0 && threads > 0
    ensures CeilDiv(count, n) <= grid * threads < CeilDiv(count, n) + threads
  {
    var workItems := (count + n - 1) / n;
    grid := (workItems + threads - 1) / threads;
    CeilTimes(workItems, threads);
  }

  lemma CeilTimes(a: nat, b: nat)
    requires b > 0
    ensures a <= CeilDiv(a, b) * b < a + b
  {
    var x := a + b - 1;
    assert x == b * (x / b) + x % b;
  }

  // ---- Every offset once ----

  /** The offsets of all items of a launch, item by item. */
  function AllOffsets(k: Kernel, items: nat, n: Word, count: Word): seq<Word> {
    if items == 0 then []
    else AllOffsets(k, items - 1, n, count) + Offsets(k, (items - 1) % 0x1_0000_0000, n, count)
  }

  /** No product or sum that decides anything wraps: the last item's base, and for the
      kernels that add before they compare, the end of the last item with work. */
  predicate NoWrap(k: Kernel, items: nat, n: nat, count: nat)
    requires n > 0
  {
    && (k.OpenClGeneric? || items == 0 || (items - 1) * n < W)
    && (k.CudaGeneric? || k.CudaDual? || k.OpenClGeneric? ==> CeilDiv(count, n) * n < W)
  }

  /** What one item visits when nothing wraps. */
  function Share(base: nat, n: nat, count: Word): seq<Word> {
    if base >= count then [] else Span(base, if count - base < n then count - base else n)
  }

  lemma OffsetsAreShare(k: Kernel, gid: Word, n: Word, count: Word)
    requires n > 0 && (k.OpenClGeneric? || gid * n < W)
    requires k.CudaGeneric? || k.CudaDual? || k.OpenClGeneric? ==> CeilDiv(count, n) * n < W
    ensures Offsets(k, gid, n, count) == Share(gid * n, n, count)
  {
    hide Span, CeilDiv, Limit, Mul;
    var base, end := gid * n, CeilDiv(count, n) * n;
    WhichItems(gid, n, count);
    if base < W {
      MulFits(gid, n);
      if base < count && end < W {
        LimitFits(base, n, count);
      }
    }
    if k.OpenClGeneric? && count > 0 {
      CeilIsFloorPlusOne(count, n);
    }
  }

  lemma MulFits(a: nat, b: nat)
    requires a * b < W
    ensures Mul(a, b) == a * b
  {
  }

  lemma LimitFits(base: Word, n: Word, count: Word)
    requires base < count && base + n < W
    ensures Limit(base, n, count) == if count - base < n then count - base else n
  {
  }

  /** Exactly the items below the quotient start inside the range. */
  lemma WhichItems(gid: nat, n: nat, count: nat)
    requires n > 0
    ensures gid < CeilDiv(count, n) <==> gid * n < count
    ensures gid < CeilDiv(count, n) ==> gid * n + n <= CeilDiv(count, n) * n
    ensures count == 0 ==> CeilDiv(count, n) == 0
  {
    CeilTimes(count, n);
    if gid < CeilDiv(count, n) {
      ProductBelow(gid, CeilDiv(count, n), n);
    } else {
      ProductAtLeast(CeilDiv(count, n), gid, n);
    }
    if count == 0 {
      ModUnique(n - 1, n, 0, n - 1);
    }
  }

  lemma ProductBelow(a: nat, b: nat, n: nat)
    requires a < b
    ensures a * n + n <= b * n
  {
    assert (a + 1) * n <= b * n;
  }

  lemma ProductAtLeast(a: nat, b: nat, n: nat)
    requires a <= b
    ensures a * n <= b * n
  {
  }

  lemma CeilIsFloorPlusOne(count: nat, n: nat)
    requires count > 0 && n > 0
    ensures CeilDiv(count, n) == (count - 1) / n + 1
  {
    var q, r := (count - 1) / n, (count - 1) % n;
    assert count - 1 == n * q + r;
    assert count + n - 1 == n * (q + 1) + r;
    ModUnique(count + n - 1, n, q + 1, r);
  }

  function Least(a: nat, b: nat): nat {
    if a < b then a else b
  }

  lemma {:induction false} SpanJoin(a: Word, m: nat, b: nat)
    requires a + m + b <= W && a + m < W
    ensures Span(a, m) + Span(a + m, b) == Span(a, m + b)
    decreases b
  {
    hide Span, Add;
    NoItems();
    if b > 0 {
      SpanJoin(a, m, b - 1);
      NextItem(a + m, b - 1);
      NextItem(a, m + b - 1);
      AddParts(a, m, b - 1);
      assert Span(a, m) + (Span(a + m, b - 1) + [Add(a + m, b - 1)]) == Span(a, m) + Span(a + m, b - 1) + [Add(a + m, b - 1)];
    } else {
      assert Span(a, m) + [] == Span(a, m);
    }
  }

  lemma AddParts(a: nat, m: nat, b: nat)
    requires a + m + b < W
    ensures Add(a + m, b) == Add(a, m + b)
  {
  }

  lemma ShareJoin(before: nat, n: nat, count: Word)
    ensures Span(0, Least(before, count)) + Share(before, n, count) == Span(0, Least(before + n, count))
  {
    hide Span;
    if before < count {
      SpanJoin(0, before, if count - before < n then count - before else n);
    }
  }

  lemma NoWrapFewer(k: Kernel, items: nat, n: nat, count: nat)
    requires n > 0 && items > 0 && NoWrap(k, items, n, count) && (k.OpenClGeneric? ==> items <= W)
    ensures NoWrap(k, items - 1, n, count) && items - 1 < W
    ensures k.OpenClGeneric? || (items - 1) * n < W
    ensures k.CudaGeneric? || k.CudaDual? || k.OpenClGeneric? ==> CeilDiv(count, n) * n < W
  {
    hide CeilDiv;
    FewerItems(items - 1, n);
    MulGrows(items - 1, n);
  }

  lemma {:induction false} AllShares(k: Kernel, items: nat, n: Word, count: Word)
    requires n > 0 && NoWrap(k, items, n, count) && (k.OpenClGeneric? ==> items <= W)
    ensures AllOffsets(k, items, n, count) == Span(0, Least(items * n, count))
  {
    hide Span, Offsets, CeilDiv, Share, NoWrap, Least;
    if items == 0 {
      NothingShared(k, n, count);
    } else {
      hide AllOffsets, Mul;
      var gid := items - 1;
      NoWrapFewer(k, items, n, count);
      AllShares(k, gid, n, count);
      OffsetsAreShare(k, gid, n, count);
      LastItem(k, gid, n, count);
      OneMore(gid, n);
      ShareJoin(gid * n, n, count);
    }
  }

  lemma LastItem(k: Kernel, gid: Word, n: Word, count: Word)
    ensures AllOffsets(k, gid + 1, n, count) == AllOffsets(k, gid, n, count) + Offsets(k, gid, n, count)
  {
    hide Offsets;
  }

  lemma NothingShared(k: Kernel, n: Word, count: Word)
    ensures AllOffsets(k, 0, n, count) == Span(0, Least(0 * n, count))
  {
  }

  lemma OneMore(gid: nat, n: nat)
    ensures (gid + 1) * n == gid * n + n
  {
  }

  lemma FewerItems(gid: nat, n: nat)
    ensures gid > 0 ==> (gid - 1) * n <= gid * n
  {
  }

  lemma MulGrows(a: nat, n: nat)
    requires n > 0
    ensures a <= a * n
  {
  }

  /** A launch visits every offset of its range once and nothing else. */
  ghost predicate ExactLaunch(k: Kernel, items: nat, n: Word, count: Word) {
    AllOffsets(k, items, n, count) == Span(0, count)
  }

  /** Every kernel visits every offset of the range once, in order item by item, and
      nothing else, when the padded launch stays inside 32 bits. */
  lemma LaunchVisitsOnce(k: Kernel, items: nat, n: Word, count: Word, group: nat)
    requires n > 0 && CeilDiv(count, n) <= items < CeilDiv(count, n) + AtLeast1(group)
    requires count + n * AtLeast1(group) <= W
    ensures ExactLaunch(k, items, n, count)
  {
    hide CeilDiv, AllOffsets, Span;
    CeilTimes(count, n);
    var c, g := CeilDiv(count, n), AtLeast1(group);
    ProductAtLeast(c, items, n);
    if items > 0 {
      MulGrows(items - 1, n);
      PaddedProduct(items, c, g, n, count);
      AllShares(k, items, n, count);
    } else {
      AllShares(k, 0, n, count);
    }
  }

  lemma PaddedProduct(items: nat, c: nat, g: nat, n: nat, count: nat)
    requires 0 < items < c + g && n > 0 && g > 0 && c * n < count + n && count + n * g <= W
    ensures (items - 1) * n < W && c * n < W
  {
    ProductAtLeast(items, c + g - 1, n);
    assert (c + g - 1) * n == c * n + n * g - n;
    OneMore(items - 1, n);
    MulGrows(n, g);
  }

  // ---- When a launch goes wrong ----

  lemma {:induction false} SpanHas(base: Word, len: nat, i: nat)
    requires i < len
    ensures Add(base, i % W) in Span(base, len)
    decreases len
  {
    if i < len - 1 {
      SpanHas(base, len - 1, i);
    }
  }

  lemma {:induction false} SpanMember(base: Word, len: nat, x: Word)
    requires base + len <= W && x in Span(base, len)
    ensures base <= x < base + len
  {
    if len > 0 && x in Span(base, len - 1) {
      SpanMember(base, len - 1, x);
    }
  }

  lemma {:induction false} ItemIncluded(k: Kernel, items: nat, n: Word, count: Word, gid: Word, x: Word)
    requires gid < items && x in Offsets(k, gid, n, count)
    ensures x in AllOffsets(k, items, n, count)
    decreases items
  {
    hide Offsets;
    if gid < items - 1 {
      ItemIncluded(k, items - 1, n, count, gid, x);
    }
  }

  /** The generic OpenCL kernel is exact precisely when the end of its last work item
      does not wrap. */
  lemma OpenClGenericExact(items: nat, n: Word, count: Word)
    requires n > 0 && CeilDiv(count, n) <= items <= W
    ensures ExactLaunch(OpenClGeneric, items, n, count) <==> CeilDiv(count, n) * n < W
  {
    CeilTimes(count, n);
    if CeilDiv(count, n) * n < W {
      ProductAtLeast(CeilDiv(count, n), items, n);
      AllShares(OpenClGeneric, items, n, count);
    } else {
      LastItemOverruns(OpenClGeneric, items, n, count);
      if count in Span(0, count) {
        SpanMember(0, count, count);
      }
    }
  }

  /** When the end of the last work item wraps, the item does not see that it is over the
      range and visits the offset after it. */
  lemma LastItemOverruns(k: Kernel, items: nat, n: Word, count: Word)
    requires k.CudaGeneric? || k.CudaDual? || k.OpenClGeneric?
    requires n > 0 && CeilDiv(count, n) <= items && CeilDiv(count, n) * n >= W
    ensures count in AllOffsets(k, items, n, count)
  {
    hide Span, CeilDiv, Mul, Limit, AllOffsets;
    CeilTimes(count, n);
    var gid := CeilDiv(count, n) - 1;
    OneMore(gid, n);
    WhichItems(gid, n, count);
    MulGrows(gid, n);
    MulFits(gid, n);
    CeilIsFloorPlusOne(count, n);
    var base: Word := gid * n;
    LimitWraps(base, n, count);
    SpanHas(base, n, count - base);
    ItemIncluded(k, items, n, count, gid, count);
  }

  lemma LimitWraps(base: Word, n: Word, count: Word)
    requires base < count && base + n >= W
    ensures Limit(base, n, count) == n
    ensures Add(base, (count - base) % W) == count
  {
  }

  /** The kernels without a guard on the item number are exact precisely when no padded
      item's base wraps either; the configured threads per block and nonces per thread go
      through their clamps. */
  lemma CudaGenericExact(k: Kernel, items: nat, nonces: Word, count: Word, threads: Word)
    requires k.CudaGeneric? || k.CudaDual?
    requires var n := ClampNonces(nonces);
      CeilDiv(count, n) <= items < CeilDiv(count, n) + ClampThreads(threads)
    ensures var n := ClampNonces(nonces);
      ExactLaunch(k, items, n, count) <==>
        CeilDiv(count, n) * n < W && (items == 0 || (items - 1) * n < W)
  {
    hide Offsets, Span, ClampNonces, ClampThreads;
    var n := ClampNonces(nonces);
    CeilTimes(count, n);
    if CeilDiv(count, n) * n >= W {
      LastItemOverruns(k, items, n, count);
      if count in Span(0, count) {
        SpanMember(0, count, count);
      }
    } else if items == 0 || (items - 1) * n < W {
      ProductAtLeast(CeilDiv(count, n), items, n);
      AllShares(k, items, n, count);
    } else {
      WrappedItemRepeats(k, items, n, count, ClampThreads(threads));
    }
  }

  /** An item whose base wraps starts over at the front of the range, so that more than
      count offsets are visited. */
  lemma WrappedItemRepeats(k: Kernel, items: nat, n: Word, count: Word, threads: nat)
    requires k.CudaGeneric? || k.CudaDual?
    requires 1 <= n <= 16 && 1 <= threads <= 1024
    requires CeilDiv(count, n) <= items < CeilDiv(count, n) + threads
    requires CeilDiv(count, n) * n < W <= (items - 1) * n
    ensures |AllOffsets(k, items, n, count)| > count
  {
    hide Offsets, Span;
    var first := FirstWrapped(n);
    ManyOffsets(items, n, count, threads);
    if first > items - 1 {
      ProductBelow(items - 1, first, n);
      assert false;
    }
    WrappedVisits(k, n, count, first);
    OneMore(first - 1, n);
    AllShares(k, first, n, count);
    MoreOffsets(k, first + 1, items, n, count);
  }

  lemma {:induction false} MoreOffsets(k: Kernel, a: nat, b: nat, n: Word, count: Word)
    requires a <= b
    ensures |AllOffsets(k, a, n, count)| <= |AllOffsets(k, b, n, count)|
    decreases b
  {
    hide Offsets;
    if a < b {
      MoreOffsets(k, a, b - 1, n, count);
    }
  }

  /** The first item whose base wraps. */
  function FirstWrapped(n: Word): (g: nat)
    requires 1 <= n <= 16
    ensures W <= g * n < W + n && 0 < g <= W
  {
    CeilTimes(W, n);
    FirstFits(W, n);
    CeilDiv(W, n)
  }

  lemma FirstFits(w: nat, n: nat)
    requires n > 0 && w > 0
    ensures 0 < CeilDiv(w, n) <= w
  {
    CeilTimes(w, n);
    if CeilDiv(w, n) > w {
      ProductAtLeast(w + 1, CeilDiv(w, n), n);
      OneMore(w, n);
      MulGrows(w, n);
    }
  }

  lemma ManyOffsets(items: nat, n: Word, count: Word, threads: nat)
    requires 1 <= n <= 16 && 1 <= threads <= 1024
    requires items < CeilDiv(count, n) + threads && W <= (items - 1) * n
    ensures count > 16
  {
    CeilTimes(count, n);
    ProductAtLeast(items - 1, CeilDiv(count, n) + 1024, n);
    assert (CeilDiv(count, n) + 1024) * n == CeilDiv(count, n) * n + 1024 * n;
  }

  lemma WrappedVisits(k: Kernel, n: Word, count: Word, g: nat)
    requires k.CudaGeneric? || k.CudaDual?
    requires 1 <= n <= 16 < count && g <= W && W <= g * n < W + n
    ensures Offsets(k, g % W, n, count) != []
  {
    hide Span;
    WrappedBase(n, g);
  }

  lemma WrappedBase(n: Word, g: nat)
    requires 1 <= n <= 16 && g <= W && W <= g * n < W + n
    ensures Mul(g % W, n) == g * n - W
  {
    if g == W {
      assert g % W == 0;
    }
  }

  /** A range for which a clamped CUDA launch, at two nonces a thread, visits an offset
      outside: the one that leaves out only the last offset. */
  lemma FullRangeOverruns(items: nat)
    requires CeilDiv(0xFFFF_FFFF, 2) <= items
    ensures 0xFFFF_FFFF in AllOffsets(CudaGeneric, items, 2, 0xFFFF_FFFF)
  {
    assert CeilDiv(0xFFFF_FFFF, 2) == 0x8000_0000;
    LastItemOverruns(CudaGeneric, items, 2, 0xFFFF_FFFF);
  }

  /** The same range at eight nonces a work item, where the generic OpenCL kernel runs. */
  lemma OpenClFullRangeOverruns(items: nat)
    requires CeilDiv(0xFFFF_FFFF, 8) <= items
    ensures 0xFFFF_FFFF in AllOffsets(OpenClGeneric, items, 8, 0xFFFF_FFFF)
  {
    assert CeilDiv(0xFFFF_FFFF, 8) == 0x2000_0000;
    LastItemOverruns(OpenClGeneric, items, 8, 0xFFFF_FFFF);
  }

  /** The fixed kernels and the register-heavy kernel take 1, 2 or 4 nonces an item. */
  predicate IsFixed(k: Kernel, n: nat) {
    (k.CudaFixed? || k.OpenClFixed? || k.RegisterHeavy?) && n in {1, 2, 4}
  }

  /** These kernels subtract before they compare, so they are exact precisely when the
      base of the last padded item does not wrap. */
  lemma FixedExact(k: Kernel, items: nat, n: Word, count: Word)
    requires IsFixed(k, n) && count > 0 && CeilDiv(count, n) <= items
    ensures ExactLaunch(k, items, n, count) <==> (items - 1) * n < W
  {
    hide Offsets, Span;
    CeilTimes(count, n);
    if (items - 1) * n < W {
      ProductAtLeast(CeilDiv(count, n), items, n);
      AllShares(k, items, n, count);
    } else {
      FixedRepeats(k, items, n, count);
    }
  }

  /** The item whose base is 2^32 starts over at the front. */
  lemma FixedRepeats(k: Kernel, items: nat, n: Word, count: Word)
    requires IsFixed(k, n) && count > 0 && W <= (items - 1) * n
    ensures |AllOffsets(k, items, n, count)| > count
  {
    hide Offsets, Span;
    var g := W / n;
    assert g * n == W && (g - 1) * n < W;
    FactorAtMost(g, items - 1, n);
    AllShares(k, g, n, count);
    StartsOver(k, g, n, count);
    MoreOffsets(k, g + 1, items, n, count);
  }

  lemma FactorAtMost(a: nat, b: nat, n: nat)
    requires n > 0 && a * n <= b * n
    ensures a <= b
  {
    if b < a {
      ProductBelow(b, a, n);
    }
  }

  lemma StartsOver(k: Kernel, g: nat, n: Word, count: Word)
    requires IsFixed(k, n) && count > 0 && g == W / n
    ensures Offsets(k, g % W, n, count) != []
  {
    hide Span;
    assert Mul(g % W, n) == 0;
  }

  /** The padded items of the largest batch, 2^32 - 1 nonces, in groups of 96. */
  function PaddedItems(n: nat): nat {
    if n == 1 then 44739243 * 96 else 22369622 * 96
  }

  /** A launch the program can make: with one nonce an item (two in the register-heavy
      kernel) the largest batch in groups of 96 ends with items that visit the first
      offsets again. */
  lemma FixedLaunchRepeats(k: Kernel, n: Word)
    requires IsFixed(k, n) && n == if k.RegisterHeavy? then 2 else 1
    ensures ClampThreads(96) == 96 && PaddedItems(n) % 96 == 0
    ensures CeilDiv(0xFFFF_FFFF, n) <= PaddedItems(n) < CeilDiv(0xFFFF_FFFF, n) + 96
    ensures !ExactLaunch(k, PaddedItems(n), n, 0xFFFF_FFFF)
  {
    hide Offsets, Span;
    FixedExact(k, PaddedItems(n), n, 0xFFFF_FFFF);
  }
}

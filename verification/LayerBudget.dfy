/**
 How many layers of a model go to the GPU, and the footprint that is reserved for
 the result.  The two are computed by different methods; the lemmas say when
 they agree.  Megabyte and ratio arithmetic is over the reals.
 */
module LayerBudget {
  import opened Wrappers

  const RESERVE_MB: nat := 2000
  const MIN_OVERHEAD_MB: nat := 400
  const MIN_FOOTPRINT_MB: nat := 100
  const LOAD_CTX_DEFAULT: nat := 8192
  const NEED_CTX_DEFAULT: nat := 4096

  /** A model whose file metadata is known; `context` is 0 when none is configured. */
  datatype Model = Model(fileMb: real, blocks: nat, experts: nat, mtp: bool, mmprojMb: nat, context: nat, kvPerToken: real) {
    predicate Valid() {
      fileMb >= 1.0 && blocks > 0 && kvPerToken >= 0.0
    }
  }

  /** `int(x)` of a non-negative number. */
  function Trunc(x: real): nat
    requires x >= 0.0
  {
    x.Floor
  }

  function MaxReal(x: real, y: real): real {
    if x >= y then x else y
  }

  /** Room for the model once the reserve and the vision encoder are taken. */
  function Available(m: Model, totalMb: nat): nat {
    Max(0, totalMb - RESERVE_MB - m.mmprojMb)
  }

  /** The rough need: the file and a fifth, more with a draft head. */
  function RoughNeed(m: Model): (n: nat)
    requires m.Valid()
    ensures n >= 1
  {
    var base := Trunc(m.fileMb * 1.2);
    if m.mtp then Trunc(base as real * 1.15) else base
  }

  function Ctx(m: Model, fallback: nat): nat {
    if m.context == 0 then fallback else m.context
  }

  /** Share of the weights that `layers` layers put on the card. */
  function Share(m: Model, layers: nat): (r: real)
    requires m.Valid()
    ensures 0.0 <= r <= 1.0
  {
    if layers >= m.blocks then 1.0 else Quotient(layers, m.blocks)
  }

  function Quotient(a: nat, b: nat): (r: real)
    requires b > 0
    ensures 0.0 <= r && (a <= b ==> r <= 1.0)
  {
    a as real / b as real
  }

  function Factor(m: Model): (r: real)
    ensures r > 0.0
  {
    (if m.experts > 0 then 0.95 else 1.0) * (if m.mtp then 1.15 else 1.0)
  }

  function Overhead(m: Model, ctx: nat): nat
    requires m.Valid()
  {
    Max(MIN_OVERHEAD_MB, Trunc(m.fileMb * 0.05 + ctx as real * 0.002))
  }

  /** KV cache, buffers and vision encoder: what stays on the card without any layer. */
  function Fixed(m: Model, ctx: nat): (r: real)
    requires m.Valid()
    ensures r >= MIN_OVERHEAD_MB as real
  {
    Product(ctx as real, m.kvPerToken) + (Overhead(m, ctx) + m.mmprojMb) as real
  }

  function Product(x: real, y: real): (r: real)
    ensures x >= 0.0 && y >= 0.0 ==> r >= 0.0
    ensures y == 0.0 ==> r == 0.0
  {
    x * y
  }

  /** The estimate of the degradation loop. */
  function Estimate(m: Model, layers: nat): real
    requires m.Valid()
  {
    Product(MaxReal(m.fileMb, 100.0), Product(Factor(m), Share(m, layers))) + Fixed(m, Ctx(m, LOAD_CTX_DEFAULT))
  }

  predicate Fits(m: Model, totalMb: nat, layers: nat)
    requires m.Valid()
  {
    Estimate(m, layers) <= Available(m, totalMb) as real
  }

  // ---- the layer count ----------------------------------------------------------------

  /** The choice by proportion, then by size of the card; -1 means every layer. */
  function ByProportion(m: Model, totalMb: nat): int
    requires m.Valid()
  {
    var available, needed := Available(m, totalMb), RoughNeed(m);
    if available == 0 || available >= needed then -1
    else
      var layers := Max(1, Trunc(m.blocks as real * Quotient(available, needed)));
      if layers >= m.blocks then -1 else layers
  }

  function ByTier(m: Model, totalMb: nat): int
    requires m.Valid()
  {
    var layers, available, needed := ByProportion(m, totalMb), Available(m, totalMb), RoughNeed(m);
    if totalMb >= 24000 then layers
    else if totalMb >= 16000 then
      if layers == -1 && needed + RESERVE_MB + m.mmprojMb > totalMb
      then Max(10, Trunc(32.0 * Quotient(available, needed)))
      else layers
    else if totalMb >= 8000 then (if layers == -1 then 10 else layers)
    else 0
  }

  function GridStep(m: Model): nat {
    Max(1, m.blocks / 8)
  }

  /** The degradation loop on values. */
  function Degrade(m: Model, totalMb: nat, layers: nat): nat
    requires m.Valid()
  {
    if layers == 0 || Fits(m, totalMb, layers) then layers
    else Degrade(m, totalMb, Max(0, layers - GridStep(m)))
  }

  /** Where the loop starts: -1 stands for all blocks. */
  function Start(m: Model, layers: int): nat
    requires layers >= -1
  {
    if layers == -1 then m.blocks else layers
  }

  /** The final `n_gpu_layers` on a card of `totalMb`. */
  function LayerCount(m: Model, totalMb: nat): int
    requires m.Valid()
  {
    var layers := ByTier(m, totalMb);
    if layers == 0 then 0
    else
      var effective := Degrade(m, totalMb, Start(m, layers));
      if effective == layers then layers else if effective < m.blocks then effective else -1
  }

  method ComputeLayerCount(m: Model, totalMb: nat) returns (layers: int)
    requires m.Valid()
    ensures layers == LayerCount(m, totalMb)
  {
    layers := ByTier(m, totalMb);
    if layers != 0 {
      var effective: nat := Start(m, layers);
      while effective > 0
        invariant Degrade(m, totalMb, Start(m, layers)) == Degrade(m, totalMb, effective)
      {
        if Estimate(m, effective) <= Available(m, totalMb) as real {
          break;
        }
        effective := Max(0, effective - GridStep(m));
      }
      if effective != layers {
        layers := if effective < m.blocks then effective else -1;
      }
    }
  }

  // ---- the footprint --------------------------------------------------------------------

  /** Megabytes reserved for the model, with the layer count the loader will use. */
  function NeededMb(m: Model, totalMb: nat): nat
    requires m.Valid()
  {
    var layers := LayerCount(m, totalMb);
    var onCard := if layers == -1 then m.blocks else if layers >= 0 then layers else 0;
    var weights := Product(m.fileMb, Product(Factor(m), Share(m, onCard)));
    Max(Trunc(weights + Fixed(m, Ctx(m, NEED_CTX_DEFAULT))), MIN_FOOTPRINT_MB)
  }

  /** What the model costs on the card with no layer there. */
  function FloorMb(m: Model): nat
    requires m.Valid()
  {
    Trunc(Fixed(m, Ctx(m, NEED_CTX_DEFAULT)))
  }

  // ---- lemmas -----------------------------------------------------------------------------

  /** Zero, or the largest layer count on the step grid that fits. */
  lemma {:induction false} DegradeLargest(m: Model, totalMb: nat, start: nat)
    requires m.Valid()
    ensures var e := Degrade(m, totalMb, start);
      && e <= start && (e == 0 || Fits(m, totalMb, e))
      && OnGrid(m, start, e)
      && forall x: nat | e < x && OnGrid(m, start, x) :: !Fits(m, totalMb, x)
    decreases start
  {
    forall x: nat | OnGrid(m, start, x) ensures x <= start {
      OnGridBelow(m, start, x);
    }
    if start != 0 && !Fits(m, totalMb, start) {
      DegradeLargest(m, totalMb, Max(0, start - GridStep(m)));
    }
  }

  /** `x` is reached from `start` by steps of an eighth of the blocks, one at least, the last one cut at zero. */
  ghost predicate OnGrid(m: Model, start: nat, x: nat)
    decreases start
  {
    x == start || (start > 0 && OnGrid(m, Max(0, start - Max(1, m.blocks / 8)), x))
  }

  lemma {:induction false} OnGridBelow(m: Model, start: nat, x: nat)
    requires OnGrid(m, start, x)
    ensures x <= start
    decreases start
  {
    if x != start {
      OnGridBelow(m, Max(0, start - GridStep(m)), x);
    }
  }

  /** The reserved footprint grows with the layers on the card and with the window. */
  lemma ProductMonotone(a: real, b: real, x: real)
    requires a <= b && x >= 0.0
    ensures Product(a, x) <= Product(b, x)
  {
    assert Product(b - a, x) >= 0.0;
  }

  lemma FixedGrowsWithWindow(m: Model)
    requires m.Valid()
    ensures Fixed(m, Ctx(m, NEED_CTX_DEFAULT)) <= Fixed(m, Ctx(m, LOAD_CTX_DEFAULT))
  {
    ProductMonotone(Ctx(m, NEED_CTX_DEFAULT) as real, Ctx(m, LOAD_CTX_DEFAULT) as real, m.kvPerToken);
  }

  /** Layers that the loop accepted are within the bound in the footprint too. */
  lemma AcceptedLayersFit(m: Model, totalMb: nat, layers: nat)
    requires m.Valid() && Fits(m, totalMb, layers)
    ensures Trunc(Product(m.fileMb, Product(Factor(m), Share(m, layers))) + Fixed(m, Ctx(m, NEED_CTX_DEFAULT)))
            <= Available(m, totalMb)
    ensures FloorMb(m) <= Available(m, totalMb) && MIN_FOOTPRINT_MB <= Available(m, totalMb)
  {
    var share := Product(Factor(m), Share(m, layers));
    ProductMonotone(m.fileMb, MaxReal(m.fileMb, 100.0), share);
    FixedGrowsWithWindow(m);
  }

  /** No layer on the card unless some count fits. */
  lemma NonZeroFits(m: Model, totalMb: nat)
    requires m.Valid() && LayerCount(m, totalMb) != 0
    ensures LayerCount(m, totalMb) >= -1
    ensures Fits(m, totalMb, if LayerCount(m, totalMb) == -1 then m.blocks else LayerCount(m, totalMb))
  {
    DegradeLargest(m, totalMb, Start(m, ByTier(m, totalMb)));
    var effective := Degrade(m, totalMb, Start(m, ByTier(m, totalMb)));
    assert effective >= m.blocks ==> Share(m, effective) == Share(m, m.blocks);
  }

  /**
   The reserved footprint stays within the loop's own bound exactly when the part
   that no layer count can remove does; otherwise the loop ends at zero layers
   and the footprint is over the bound.
   */
  lemma FootprintWithinBoundIff(m: Model, totalMb: nat)
    requires m.Valid()
    ensures NeededMb(m, totalMb) <= Available(m, totalMb) <==> FloorMb(m) <= Available(m, totalMb)
  {
    var layers := LayerCount(m, totalMb);
    if layers == 0 {
      assert Share(m, 0) == 0.0;
    } else {
      NonZeroFits(m, totalMb);
      AcceptedLayersFit(m, totalMb, if layers == -1 then m.blocks else layers);
    }
  }

  /** Then unloading everything else always makes room, with any headroom up to the reserve. */
  lemma FullUnloadMakesRoom(m: Model, totalMb: nat, headroomMb: nat)
    requires m.Valid() && headroomMb <= RESERVE_MB
    requires FloorMb(m) <= Available(m, totalMb)
    ensures NeededMb(m, totalMb) + m.mmprojMb + headroomMb <= totalMb
  {
    FootprintWithinBoundIff(m, totalMb);
  }

  /** A long window alone can exceed a card: the loader settles for zero layers and asks for more than there is. */
  lemma LongWindowExceedsCard(m: Model, totalMb: nat)
    requires m.Valid() && m.context > 0
    requires Product(m.context as real, m.kvPerToken) > totalMb as real
    ensures LayerCount(m, totalMb) == 0 && NeededMb(m, totalMb) > Available(m, totalMb)
  {
    FootprintWithinBoundIff(m, totalMb);
    if LayerCount(m, totalMb) != 0 {
      NonZeroFits(m, totalMb);
    }
  }

  // ---- where the loop starts ------------------------------------------------------------------

  lemma ScaledFloor(k: nat, a: nat, b: nat)
    requires b > 0
    ensures Trunc(k as real * Quotient(a, b)) == k * a / b
  {
    var q := Quotient(a, b);
    var x := k as real * q;
    ScaledTimes(k as real, q, a as real, b as real);
    FloorIsDivision(x, k * a, b);
  }

  lemma ScaledTimes(k: real, q: real, a: real, b: real)
    requires b != 0.0 && q == a / b
    ensures (k * q) * b == k * a
  {
    assert q * b == a;
    assert (k * q) * b == k * (q * b);
  }

  lemma FloorIsDivision(x: real, n: nat, b: nat)
    requires b > 0 && x >= 0.0 && x * b as real == n as real
    ensures x.Floor == n / b
  {
    var f := x.Floor;
    AtMostDivision(x, n, b, f);
    BelowDivision(x, n, b, f + 1);
    DivisionIs(n, b, f);
  }

  lemma AtMostDivision(x: real, n: nat, b: nat, f: int)
    requires b > 0 && f as real <= x && x * b as real == n as real
    ensures f * b <= n
  {
    TimesAtMost(f as real, x, b as real);
    IntegerTimes(f, b);
  }

  lemma BelowDivision(x: real, n: nat, b: nat, f: int)
    requires b > 0 && x < f as real && x * b as real == n as real
    ensures n < f * b
  {
    TimesBelow(x, f as real, b as real);
    IntegerTimes(f, b);
  }

  lemma IntegerTimes(f: int, b: int)
    ensures (f * b) as real == f as real * b as real
  {
  }

  lemma TimesAtMost(x: real, y: real, b: real)
    requires x <= y && b > 0.0
    ensures x * b <= y * b
  {
  }

  lemma TimesBelow(x: real, y: real, b: real)
    requires x < y && b > 0.0
    ensures x * b < y * b
  {
  }

  lemma AtMostTimes(x: int, y: int, b: int)
    requires x <= y && b > 0
    ensures x * b <= y * b
  {
  }

  lemma DivisionIs(n: int, b: int, f: int)
    requires b > 0 && f * b <= n < (f + 1) * b
    ensures n / b == f
  {
    var q := n / b;
    assert q * b <= n < (q + 1) * b;
    if q < f {
      AtMostTimes(q + 1, f, b);
    } else if f < q {
      AtMostTimes(f + 1, q, b);
    }
  }

  /** The share of the blocks that the card has room for, in whole numbers. */
  function ProportionalLayers(m: Model, totalMb: nat): nat
    requires m.Valid()
  {
    Max(1, m.blocks * Available(m, totalMb) / RoughNeed(m))
  }

  lemma ProportionIs(m: Model, totalMb: nat)
    requires m.Valid()
    ensures var available, need := Available(m, totalMb), RoughNeed(m);
      ByProportion(m, totalMb) == if 0 < available < need && ProportionalLayers(m, totalMb) < m.blocks
                                  then ProportionalLayers(m, totalMb) else -1
  {
    ScaledFloor(m.blocks, Available(m, totalMb), RoughNeed(m));
  }

  lemma TierIs(m: Model, totalMb: nat, layers: int)
    requires m.Valid() && layers == ByProportion(m, totalMb)
    ensures ByTier(m, totalMb)
      == if totalMb < 8000 then 0
         else if layers != -1 then layers
         else if totalMb < 16000 then 10
         else if totalMb < 24000 && RoughNeed(m) + 2000 + m.mmprojMb > totalMb
         then Max(10, 32 * Available(m, totalMb) / RoughNeed(m))
         else -1
  {
    ScaledFloor(32, Available(m, totalMb), RoughNeed(m));
  }

  /**
   Where the degradation starts: nothing on a card under 8 GB; the proportional share
   if the rough need exceeds the room and leaves blocks out; otherwise all blocks, ten
   on a card under 16 GB, and 32 times the share but ten at least under 24 GB when the
   model does not fit beside the reserve.
   */
  lemma StartOfLoop(m: Model, totalMb: nat)
    requires m.Valid()
    ensures var start, available, need := Start(m, ByTier(m, totalMb)), Available(m, totalMb), RoughNeed(m);
      var partly := 0 < available < need && ProportionalLayers(m, totalMb) < m.blocks;
      start == if totalMb < 8000 then 0
               else if partly then ProportionalLayers(m, totalMb)
               else if totalMb < 16000 then 10
               else if totalMb < 24000 && need + 2000 + m.mmprojMb > totalMb then Max(10, 32 * available / need)
               else m.blocks
  {
    ProportionIs(m, totalMb);
    TierIs(m, totalMb, ByProportion(m, totalMb));
  }

  /** The layers that end up on the card; -1 stands for all. */
  function OnCard(m: Model, layers: int): nat {
    if layers == -1 then m.blocks else Max(0, layers)
  }

  /** The result is zero or the largest count on the grid from that start whose estimate fits. */
  lemma LayerCountLargest(m: Model, totalMb: nat)
    requires m.Valid()
    ensures var start := Start(m, ByTier(m, totalMb));
      var e := Degrade(m, totalMb, start);
      && (OnCard(m, LayerCount(m, totalMb)) == e || (e >= m.blocks && LayerCount(m, totalMb) == -1))
      && (e == 0 || Fits(m, totalMb, e))
      && forall x: nat | e < x && OnGrid(m, start, x) :: !Fits(m, totalMb, x)
  {
    DegradeLargest(m, totalMb, Start(m, ByTier(m, totalMb)));
  }

  /** On a card of 24 GB a model that fits by both estimates is loaded whole. */
  lemma WholeModelLoaded(m: Model, totalMb: nat)
    requires m.Valid() && totalMb >= 24000
    requires RoughNeed(m) <= Available(m, totalMb) && Fits(m, totalMb, m.blocks)
    ensures LayerCount(m, totalMb) == -1 && OnCard(m, -1) == m.blocks
  {
    StartOfLoop(m, totalMb);
  }

  // ---- two models worked out, with every constant in play ---------------------------------------

  /** A mixture of experts with a draft head and a vision encoder, no window configured. */
  const LARGE: Model := Model(10000.0, 40, 8, true, 500, 0, 0.05)

  /** A small dense model. */
  const SMALL: Model := Model(50.0, 5, 0, false, 0, 1000, 0.0)

  lemma LargeNumbers()
    ensures LARGE.Valid() && RoughNeed(LARGE) == 13800 && Available(LARGE, 12000) == 9500
    ensures Estimate(LARGE, 40) == 12350.6 && Estimate(LARGE, 27) == 8799.975
    ensures Fixed(LARGE, Ctx(LARGE, NEED_CTX_DEFAULT)) == 1212.8
    ensures Factor(LARGE) == Factor(LARGE.(experts := 1)) == 1.0925 && Factor(LARGE.(experts := 0)) == 1.15
  {
    assert Trunc(10000.0 * 1.2) == 12000;
    assert Trunc(12000.0 * 1.15) == 13800;
    assert Factor(LARGE) == 1.0925;
    assert Overhead(LARGE, 8192) == 516 && Overhead(LARGE, 4096) == 508;
    assert Product(8192.0, 0.05) == 409.6 && Product(4096.0, 0.05) == 204.8;
  }

  /** On 24 GB all of it, on 12 GB 27 of the 40 layers, on 6 GB none. */
  lemma LargeModel()
    ensures LayerCount(LARGE, 24000) == -1 && NeededMb(LARGE, 24000) == 12137
    ensures LayerCount(LARGE, 12000) == 27 && NeededMb(LARGE, 12000) == 8587
    ensures LayerCount(LARGE, 6000) == 0 && NeededMb(LARGE, 6000) == 1212
  {
    LargeNumbers();
    WholeModelLoaded(LARGE, 24000);
    StartOfLoop(LARGE, 12000);
    assert ProportionalLayers(LARGE, 12000) == 27;
    assert Product(1.0925, 27.0 / 40.0) == 0.7374375;
    assert Product(10000.0, 0.7374375) == 7374.375;
    assert Product(1.0925, 0.0) == 0.0 && Product(1.0925, 1.0) == 1.0925;
  }

  /** A file counts as 100 MB in the loop, the buffers as 400 MB; ten layers are asked for even of a model with five. */
  lemma SmallModel()
    ensures SMALL.Valid() && RoughNeed(SMALL) == 60
    ensures Estimate(SMALL, 5) == 500.0 && LayerCount(SMALL, 10000) == 10 && NeededMb(SMALL, 10000) == 450
    ensures Available(SMALL, 2499) == 499 && Available(SMALL, 1999) == 0 && Fits(SMALL, 2500, 5) && !Fits(SMALL, 2499, 5)
  {
    assert Trunc(50.0 * 1.2) == 60;
    assert Factor(SMALL) == 1.0 && Overhead(SMALL, 1000) == 400;
    assert Product(1000.0, 0.0) == 0.0 && Product(1.0, 1.0) == 1.0;
    StartOfLoop(SMALL, 10000);
  }
}

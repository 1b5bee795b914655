/**
 * Sizing of the bloom and post-processing framebuffers, as values: the
 * downsampling chain halves the viewport, the upsampling chain climbs back to
 * it, and three full-size buffers (atmospherics and two FXAA passes) follow.
 * Framebuffers are created in that order, and the first one the driver
 * rejects stops the whole sequence.
 */
module PostFx {

  datatype Size = Size(width: nat, height: nat)

  /** At most this many downsampling buffers. */
  const MAX_DOWNSAMPLE_ITERATIONS: nat := 8

  /** A halving that leaves either side below this ends the chain. */
  const MIN_BLOOM_SIZE: nat := 8

  function Half(s: Size): Size {
    Size(s.width / 2, s.height / 2)
  }

  function Pow2(n: nat): (p: nat)
    ensures p >= 1
  {
    if n == 0 then 1 else 2 * Pow2(n - 1)
  }

  /** Sizes of successive halvings of s, while both sides stay at or above the minimum, at most budget of them. */
  function Halvings(s: Size, budget: nat): (r: seq<Size>)
    ensures |r| <= budget
    ensures forall i :: 0 <= i < |r| ==> r[i].width >= MIN_BLOOM_SIZE && r[i].height >= MIN_BLOOM_SIZE
    decreases budget
  {
    var h := Half(s);
    if budget == 0 || h.width < MIN_BLOOM_SIZE || h.height < MIN_BLOOM_SIZE then []
    else [h] + Halvings(h, budget - 1)
  }

  /** One more halving within the budget extends the chain built so far by that halving. */
  lemma HalvingsNext(downs: seq<Size>, built: seq<Size>, s: Size, budget: nat)
    requires budget > 0 && Half(s).width >= MIN_BLOOM_SIZE && Half(s).height >= MIN_BLOOM_SIZE
    requires downs == built + Halvings(s, budget)
    ensures downs == (built + [Half(s)]) + Halvings(Half(s), budget - 1)
  {
    assert Halvings(s, budget) == [Half(s)] + Halvings(Half(s), budget - 1);
  }

  /** The downsampling buffers for a viewport. */
  function Downsamples(viewport: Size): seq<Size> {
    Halvings(viewport, MAX_DOWNSAMPLE_ITERATIONS)
  }

  /** Quotient and remainder are unique. */
  lemma DivUnique(w: nat, d: nat, q: nat, r: nat)
    requires d > 0 && r < d && w == q * d + r
    ensures w / d == q
  {
    var q0, r0 := w / d, w % d;
    MulStep(q0, q, d);
    MulStep(q, q0, d);
  }

  /** A larger factor gives a product larger by at least d. */
  lemma MulStep(a: nat, b: nat, d: nat)
    ensures a < b ==> a * d + d <= b * d
  {
    if a < b {
      var k := b - a;
      assert b * d == a * d + k * d;
      assert k * d == (k - 1) * d + d;
    }
  }

  /** Dividing a half by p is dividing by 2 * p. */
  lemma DivHalfFirst(w: nat, p: nat)
    requires p >= 1
    ensures (w / 2) / p == w / (2 * p)
  {
    var q1, r1 := w / 2, w % 2;
    var q2, r2 := q1 / p, q1 % p;
    assert q1 == q2 * p + r2;
    assert w == q2 * (2 * p) + (2 * r2 + r1);
    DivUnique(w, 2 * p, q2, 2 * r2 + r1);
  }

  /** One more halving in front of i halvings. */
  lemma QuotientStep(s: Size, i: nat)
    ensures Half(s).width / Pow2(i) == s.width / Pow2(i + 1)
    ensures Half(s).height / Pow2(i) == s.height / Pow2(i + 1)
  {
    assert Pow2(i + 1) == 2 * Pow2(i);
    DivHalfFirst(s.width, Pow2(i));
    DivHalfFirst(s.height, Pow2(i));
  }

  /** Entry i of the chain is the start divided by 2 to the power i + 1. */
  lemma {:induction false} HalvingEntry(s: Size, budget: nat, i: nat)
    requires i < |Halvings(s, budget)|
    ensures Halvings(s, budget)[i] == Size(s.width / Pow2(i + 1), s.height / Pow2(i + 1))
    decreases i
  {
    var h := Half(s);
    var t := Halvings(h, budget - 1);
    assert Halvings(s, budget) == [h] + t;
    if i == 0 {
      assert Pow2(1) == 2;
    } else {
      HalvingEntry(h, budget - 1, i - 1);
      QuotientStep(s, i);
    }
  }

  /** A chain shorter than its budget ended because one more halving fell below the minimum. */
  lemma {:induction false} HalvingsStopBelowMinimum(s: Size, budget: nat)
    ensures var r := Halvings(s, budget);
      |r| < budget ==>
        var last := if r == [] then s else r[|r| - 1];
        Half(last).width < MIN_BLOOM_SIZE || Half(last).height < MIN_BLOOM_SIZE
    decreases budget
  {
    var r := Halvings(s, budget);
    if r != [] {
      HalvingsStopBelowMinimum(Half(s), budget - 1);
      var t := Halvings(Half(s), budget - 1);
      if t != [] {
        assert r[|r| - 1] == t[|t| - 1];
      }
    }
  }

  /** s in reverse order. */
  function Reverse(s: seq<Size>): (r: seq<Size>)
    ensures |r| == |s|
    ensures forall i :: 0 <= i < |s| ==> r[i] == s[|s| - 1 - i]
    decreases |s|
  {
    if s == [] then [] else Reverse(s[1..]) + [s[0]]
  }

  /**
   * The upsampling buffers: every downsampling size but the smallest, from
   * small to large, and then the viewport.
   */
  function Upsamples(downs: seq<Size>, viewport: Size): seq<Size> {
    (if |downs| >= 1 then Reverse(downs[..|downs| - 1]) else []) + [viewport]
  }

  /** Every framebuffer of the post-processing setup, in creation order. */
  function Plan(viewport: Size): seq<Size> {
    var downs := Downsamples(viewport);
    downs + Upsamples(downs, viewport) + [viewport, viewport, viewport]
  }

  /** There are as many upsampling as downsampling buffers, and one if there are none. */
  lemma PlanCounts(viewport: Size)
    ensures var d := |Downsamples(viewport)|;
      && d <= MAX_DOWNSAMPLE_ITERATIONS
      && |Upsamples(Downsamples(viewport), viewport)| == (if d == 0 then 1 else d)
      && |Plan(viewport)| == d + (if d == 0 then 1 else d) + 3
  {
  }

  /** Upsampling buffer k has the size of the downsampling buffer that mirrors it; the last is the viewport. */
  lemma UpsamplesMirror(downs: seq<Size>, viewport: Size)
    requires |downs| >= 1
    ensures var ups := Upsamples(downs, viewport);
      && ups[|ups| - 1] == viewport
      && forall k :: 0 <= k < |downs| - 1 ==> ups[k] == downs[|downs| - 2 - k]
  {
  }

  /**
   * The number of framebuffers built before the first one the driver rejects:
   * verdicts holds the driver's verdict on each framebuffer in creation order.
   */
  function FirstRejected(verdicts: seq<bool>): (k: nat)
    ensures k <= |verdicts|
    ensures forall i :: 0 <= i < k ==> verdicts[i]
    ensures k < |verdicts| ==> !verdicts[k]
    decreases |verdicts|
  {
    if verdicts == [] then 0
    else if !verdicts[0] then 0
    else 1 + FirstRejected(verdicts[1..])
  }

  /** Any index with only accepted verdicts before it and a rejection (or the end) at it is FirstRejected. */
  lemma FirstRejectedAt(verdicts: seq<bool>, k: nat)
    requires k <= |verdicts| && (forall i :: 0 <= i < k ==> verdicts[i]) && (k < |verdicts| ==> !verdicts[k])
    ensures FirstRejected(verdicts) == k
  {
  }

  /** The verdicts on the plan's framebuffers reject the k-th one first (or none, for k == |plan|). */
  lemma RejectedAt(plan: seq<Size>, verdicts: seq<bool>, k: nat)
    requires |verdicts| >= |plan| && k <= |plan|
    requires forall i :: 0 <= i < k ==> verdicts[i]
    requires k < |plan| ==> !verdicts[k]
    ensures FirstRejected(verdicts[..|plan|]) == k
  {
    FirstRejectedAt(verdicts[..|plan|], k);
  }

  /** The post-processing buffers and counters the backend keeps. */
  datatype Buffers = Buffers(postFx: seq<Size>, gaussian: seq<Size>, downsamples: nat, upsamples: nat, valid: bool)

  /**
   * What building the plan for viewport leaves behind when the k-th
   * framebuffer is the first one rejected (k == |Plan(viewport)| when none
   * is): the buffers before it, two blur buffers for each downsampling buffer
   * built, the downsampling count, the upsampling count (which counts the
   * rejected upsampling buffer too), and the validity flag.
   */
  function Built(viewport: Size, k: nat, wasValid: bool): (b: Buffers)
    requires k <= |Plan(viewport)|
    ensures b.postFx == Plan(viewport)[..k]
    ensures b.valid <==> wasValid && k == |Plan(viewport)|
    ensures b.downsamples <= k && b.downsamples <= |Downsamples(viewport)|
    ensures b.gaussian == BlurPairs(b.postFx[..b.downsamples])
    ensures b.upsamples <= |Upsamples(Downsamples(viewport), viewport)|
  {
    var downs := Downsamples(viewport);
    var ups := Upsamples(downs, viewport);
    var built := if k < |downs| then k else |downs|;
    assert Plan(viewport)[..k][..built] == downs[..built];
    Buffers(Plan(viewport)[..k], BlurPairs(downs[..built]), built,
            if k < |downs| then 0 else if k - |downs| + 1 < |ups| then k - |downs| + 1 else |ups|,
            wasValid && k == |Plan(viewport)|)
  }

  /** The plan is the downsampling buffers, the upsampling buffers and the three full-size buffers. */
  lemma PlanParts(viewport: Size)
    ensures var downs := Downsamples(viewport);
      var ups := Upsamples(downs, viewport);
      Plan(viewport) == downs + ups + [viewport, viewport, viewport]
  {
  }

  /** Downsampling buffer k rejected: the chain before it, no upsampling. */
  lemma BuiltWhileDownsampling(viewport: Size, verdicts: seq<bool>, k: nat, wasValid: bool)
    requires |verdicts| >= |Plan(viewport)| && k < |Downsamples(viewport)|
    requires (forall i :: 0 <= i < k ==> verdicts[i]) && !verdicts[k]
    ensures var downs := Downsamples(viewport);
      Built(viewport, FirstRejected(verdicts[..|Plan(viewport)|]), wasValid)
        == Buffers(downs[..k], BlurPairs(downs[..k]), k, 0, false)
  {
    PlanParts(viewport);
    RejectedAt(Plan(viewport), verdicts, k);
  }

  /** Upsampling buffer j rejected: the whole downsampling chain and the upsampling buffers before j. */
  lemma BuiltWhileUpsampling(viewport: Size, verdicts: seq<bool>, j: nat, wasValid: bool)
    requires |verdicts| >= |Plan(viewport)| && j < |Upsamples(Downsamples(viewport), viewport)|
    requires var n := |Downsamples(viewport)| + j;
      (forall i :: 0 <= i < n ==> verdicts[i]) && !verdicts[n]
    ensures var downs := Downsamples(viewport);
      var ups := Upsamples(downs, viewport);
      Built(viewport, FirstRejected(verdicts[..|Plan(viewport)|]), wasValid)
        == Buffers(downs + ups[..j], BlurPairs(downs), |downs|, j + 1, false)
  {
    PlanParts(viewport);
    RejectedAt(Plan(viewport), verdicts, |Downsamples(viewport)| + j);
    BuiltAtUpsample(viewport, j, wasValid);
  }

  /** Built at upsampling buffer j, worked out. */
  lemma BuiltAtUpsample(viewport: Size, j: nat, wasValid: bool)
    requires j < |Upsamples(Downsamples(viewport), viewport)|
    ensures var downs := Downsamples(viewport);
      var ups := Upsamples(downs, viewport);
      Built(viewport, |downs| + j, wasValid) == Buffers(downs + ups[..j], BlurPairs(downs), |downs|, j + 1, false)
  {
    var downs := Downsamples(viewport);
    var ups := Upsamples(downs, viewport);
    PlanParts(viewport);
    assert Plan(viewport)[..|downs| + j] == downs + ups[..j];
    assert downs[..|downs|] == downs;
  }

  /** Full-size buffer made rejected, or none if made is 3: the whole bloom chain and the full-size buffers made. */
  lemma BuiltWhileFinishing(viewport: Size, verdicts: seq<bool>, made: nat, wasValid: bool)
    requires |verdicts| >= |Plan(viewport)| && made <= 3
    requires var n := |Downsamples(viewport)| + |Upsamples(Downsamples(viewport), viewport)| + made;
      (forall i :: 0 <= i < n ==> verdicts[i]) && (made < 3 ==> !verdicts[n])
    ensures var downs := Downsamples(viewport);
      var ups := Upsamples(downs, viewport);
      Built(viewport, FirstRejected(verdicts[..|Plan(viewport)|]), wasValid)
        == Buffers(downs + ups + [viewport, viewport, viewport][..made], BlurPairs(downs), |downs|, |ups|, wasValid && made == 3)
  {
    var k := |Downsamples(viewport)| + |Upsamples(Downsamples(viewport), viewport)| + made;
    assert FirstRejected(verdicts[..|Plan(viewport)|]) == k by {
      PlanParts(viewport);
      RejectedAt(Plan(viewport), verdicts, k);
    }
    BuiltAtFullSize(viewport, made, wasValid);
  }

  /** Built at full-size buffer made, worked out. */
  lemma BuiltAtFullSize(viewport: Size, made: nat, wasValid: bool)
    requires made <= 3
    ensures var downs := Downsamples(viewport);
      var ups := Upsamples(downs, viewport);
      Built(viewport, |downs| + |ups| + made, wasValid)
        == Buffers(downs + ups + [viewport, viewport, viewport][..made], BlurPairs(downs), |downs|, |ups|, wasValid && made == 3)
  {
    var downs := Downsamples(viewport);
    var ups := Upsamples(downs, viewport);
    PlanParts(viewport);
    assert Plan(viewport)[..|downs| + |ups| + made] == downs + ups + [viewport, viewport, viewport][..made];
    assert downs[..|downs|] == downs;
  }

  /** With every framebuffer accepted: all downsampling, upsampling and full-size buffers, in that order. */
  lemma BuiltComplete(viewport: Size, wasValid: bool)
    ensures var downs := Downsamples(viewport);
      var ups := Upsamples(downs, viewport);
      var b := Built(viewport, |Plan(viewport)|, wasValid);
      && b.postFx == downs + ups + [viewport, viewport, viewport]
      && b.downsamples == |downs| && b.upsamples == |ups|
      && b.gaussian == BlurPairs(downs)
      && b.valid == wasValid
  {
    var downs := Downsamples(viewport);
    assert downs[..|downs|] == downs;
  }

  /** Two blur buffers per downsampling buffer, each of its size. */
  function BlurPairs(downs: seq<Size>): (r: seq<Size>)
    ensures |r| == 2 * |downs|
    ensures forall i :: 0 <= i < |downs| ==> r[2 * i] == downs[i] && r[2 * i + 1] == downs[i]
    decreases |downs|
  {
    if downs == [] then []
    else
      var init := downs[..|downs| - 1];
      var last := downs[|downs| - 1];
      BlurPairs(init) + [last, last]
  }
  // ---------------------------------------------------------------------------
  // The setup loops

  /** The buffers, counters and validity flag the post-processing setup leaves, starting from empty lists. */
  method BuildPostFx(viewport: Size, verdicts: seq<bool>, wasValid: bool) returns (b: Buffers)
    requires |verdicts| >= |Plan(viewport)|
    ensures b == Built(viewport, FirstRejected(verdicts[..|Plan(viewport)|]), wasValid)
  {
    var downs, blurs, ok := BuildDownsamples(viewport, verdicts);
    if !ok {
      BuiltWhileDownsampling(viewport, verdicts, |downs|, wasValid);
      return Buffers(downs, blurs, |downs|, 0, false);
    }
    b := BuildPostFxAfterDownsampling(viewport, verdicts, wasValid, downs, blurs);
  }

  /** BuildPostFx once every downsampling buffer is built. */
  method BuildPostFxAfterDownsampling(viewport: Size, verdicts: seq<bool>, wasValid: bool, downs: seq<Size>, blurs: seq<Size>)
    returns (b: Buffers)
    requires |verdicts| >= |Plan(viewport)|
    requires downs == Downsamples(viewport) && blurs == BlurPairs(downs)
    requires forall i :: 0 <= i < |downs| ==> verdicts[i]
    ensures b == Built(viewport, FirstRejected(verdicts[..|Plan(viewport)|]), wasValid)
  {
    PlanParts(viewport);
    var chain, ok := BuildUpsamples(viewport, downs, verdicts);
    if !ok {
      BuiltWhileUpsampling(viewport, verdicts, |chain| - |downs|, wasValid);
      return Buffers(chain, blurs, |downs|, |chain| - |downs| + 1, false);
    }
    b := BuildPostFxAfterUpsampling(viewport, verdicts, wasValid, downs, blurs, chain);
  }

  /** BuildPostFx once the whole bloom chain is built. */
  method BuildPostFxAfterUpsampling(viewport: Size, verdicts: seq<bool>, wasValid: bool, downs: seq<Size>, blurs: seq<Size>,
                                    chain: seq<Size>)
    returns (b: Buffers)
    requires |verdicts| >= |Plan(viewport)|
    requires downs == Downsamples(viewport) && blurs == BlurPairs(downs)
    requires chain == downs + Upsamples(downs, viewport)
    requires forall i :: 0 <= i < |chain| ==> verdicts[i]
    ensures b == Built(viewport, FirstRejected(verdicts[..|Plan(viewport)|]), wasValid)
  {
    PlanParts(viewport);
    var all, ok := BuildFullSize(viewport, chain, verdicts);
    BuiltWhileFinishing(viewport, verdicts, |all| - |chain|, wasValid);
    b := Buffers(all, blurs, |downs|, |chain| - |downs|, wasValid && ok);
  }

  /**
   * The downsampling half of the bloom chain: the buffers built, each with
   * its pair of blur buffers, and whether all of them were.
   */
  method BuildDownsamples(viewport: Size, verdicts: seq<bool>) returns (buffers: seq<Size>, blurs: seq<Size>, ok: bool)
    requires |verdicts| >= |Downsamples(viewport)|
    ensures |buffers| <= |Downsamples(viewport)| && buffers == Downsamples(viewport)[..|buffers|]
    ensures blurs == BlurPairs(buffers)
    ensures forall i :: 0 <= i < |buffers| ==> verdicts[i]
    ensures ok <==> |buffers| == |Downsamples(viewport)|
    ensures ok ==> buffers == Downsamples(viewport)
    ensures !ok ==> !verdicts[|buffers|]
  {
    ghost var downs := Downsamples(viewport);
    var curr := viewport;
    buffers, blurs := [], [];
    var n := 0;
    while n < MAX_DOWNSAMPLE_ITERATIONS
      invariant n <= MAX_DOWNSAMPLE_ITERATIONS && |buffers| == n
      invariant DownsamplingFrom(downs, buffers, blurs, curr, verdicts)
    {
      var half := Half(curr);
      if half.width < MIN_BLOOM_SIZE || half.height < MIN_BLOOM_SIZE {
        break;
      }
      if !verdicts[n] {
        DownsamplingRejected(downs, buffers, blurs, curr, verdicts);
        return buffers, blurs, false;
      }
      DownsamplingNext(downs, buffers, blurs, curr, verdicts);
      buffers, blurs := buffers + [half], blurs + [half, half];
      n := n + 1;
      curr := half;
    }
    DownsamplingDone(downs, buffers, blurs, curr, verdicts);
    ok := true;
  }

  /**
   * The upsampling half of the bloom chain after the downsampling buffers
   * downs: the chain with the upsampling buffers built, mirroring the
   * downsampling sizes and ending at the viewport, and whether all were.
   */
  method BuildUpsamples(viewport: Size, downs: seq<Size>, verdicts: seq<bool>) returns (chain: seq<Size>, ok: bool)
    requires downs == Downsamples(viewport)
    requires |verdicts| >= |downs| + |Upsamples(downs, viewport)| && forall i :: 0 <= i < |downs| ==> verdicts[i]
    ensures var ups := Upsamples(downs, viewport);
      && |downs| <= |chain| <= |downs| + |ups| && chain == downs + ups[..|chain| - |downs|]
      && (forall i :: 0 <= i < |chain| ==> verdicts[i])
      && (ok <==> |chain| == |downs| + |ups|)
      && (!ok ==> !verdicts[|chain|])
  {
    var sizes := MirrorSizes(downs);
    sizes := sizes + [viewport];
    chain := downs;
    var j := 0;
    while j < |sizes|
      invariant j <= |sizes| && ChainSoFar(downs, sizes, j, chain, verdicts)
    {
      if !verdicts[|chain|] {
        return chain, false;
      }
      ChainNext(downs, sizes, j, chain, verdicts);
      chain := chain + [sizes[j]];
      j := j + 1;
    }
    assert sizes[..j] == sizes;
    ok := true;
  }

  /** The sizes of every downsampling buffer but the last, from the last back to the first. */
  method MirrorSizes(downs: seq<Size>) returns (sizes: seq<Size>)
    ensures sizes == if |downs| >= 1 then Reverse(downs[..|downs| - 1]) else []
  {
    sizes := [];
    var i: int := |downs| - 2;
    while i >= 0
      invariant (if |downs| >= 1 then -1 else -2) <= i <= |downs| - 2 && |sizes| == |downs| - 2 - i
      invariant forall j :: 0 <= j < |sizes| ==> sizes[j] == downs[|downs| - 2 - j]
    {
      sizes := sizes + [downs[i]];
      i := i - 1;
    }
  }

  /**
   * The atmospheric buffer and the two FXAA buffers after the bloom chain:
   * the buffers with those of them built, all of the viewport's size, and
   * whether all three were.
   */
  method BuildFullSize(viewport: Size, chain: seq<Size>, verdicts: seq<bool>) returns (buffers: seq<Size>, ok: bool)
    requires |verdicts| >= |chain| + 3 && forall i :: 0 <= i < |chain| ==> verdicts[i]
    ensures |chain| <= |buffers| <= |chain| + 3
    ensures buffers == chain + [viewport, viewport, viewport][..|buffers| - |chain|]
    ensures forall i :: 0 <= i < |buffers| ==> verdicts[i]
    ensures ok <==> |buffers| == |chain| + 3
    ensures !ok ==> !verdicts[|buffers|]
  {
    buffers := chain;
    var made := 0;
    while made < 3
      invariant made <= 3 && buffers == chain + [viewport, viewport, viewport][..made]
      invariant forall i :: 0 <= i < |buffers| ==> verdicts[i]
    {
      if !verdicts[|buffers|] {
        return buffers, false;
      }
      buffers := buffers + [viewport];
      made := made + 1;
    }
    ok := true;
  }

  /**
   * The downsampling loop has built buffers, all accepted, with their blur
   * buffers, and the rest of the chain is the halvings of curr the budget
   * still allows.
   */
  ghost predicate DownsamplingFrom(downs: seq<Size>, buffers: seq<Size>, blurs: seq<Size>, curr: Size, verdicts: seq<bool>)
  {
    && |buffers| <= MAX_DOWNSAMPLE_ITERATIONS && |buffers| <= |verdicts|
    && downs == buffers + Halvings(curr, MAX_DOWNSAMPLE_ITERATIONS - |buffers|)
    && blurs == BlurPairs(buffers)
    && forall i :: 0 <= i < |buffers| ==> verdicts[i]
  }

  /** One more accepted halving keeps DownsamplingFrom. */
  lemma DownsamplingNext(downs: seq<Size>, buffers: seq<Size>, blurs: seq<Size>, curr: Size, verdicts: seq<bool>)
    requires DownsamplingFrom(downs, buffers, blurs, curr, verdicts) && |buffers| < MAX_DOWNSAMPLE_ITERATIONS
    requires Half(curr).width >= MIN_BLOOM_SIZE && Half(curr).height >= MIN_BLOOM_SIZE
    requires |downs| <= |verdicts| && verdicts[|buffers|]
    ensures var half := Half(curr);
      DownsamplingFrom(downs, buffers + [half], blurs + [half, half], half, verdicts)
  {
    HalvingsNext(downs, buffers, curr, MAX_DOWNSAMPLE_ITERATIONS - |buffers|);
    var half := Half(curr);
    assert (buffers + [half])[..|buffers|] == buffers;
  }

  /** A rejected halving leaves the chain built so far, a prefix of the full one. */
  lemma DownsamplingRejected(downs: seq<Size>, buffers: seq<Size>, blurs: seq<Size>, curr: Size, verdicts: seq<bool>)
    requires DownsamplingFrom(downs, buffers, blurs, curr, verdicts) && |buffers| < MAX_DOWNSAMPLE_ITERATIONS
    requires Half(curr).width >= MIN_BLOOM_SIZE && Half(curr).height >= MIN_BLOOM_SIZE
    ensures |buffers| < |downs| && buffers == downs[..|buffers|]
  {
    HalvingsNext(downs, buffers, curr, MAX_DOWNSAMPLE_ITERATIONS - |buffers|);
  }

  /** When the budget is spent or the next halving is too small, the chain is complete. */
  lemma DownsamplingDone(downs: seq<Size>, buffers: seq<Size>, blurs: seq<Size>, curr: Size, verdicts: seq<bool>)
    requires DownsamplingFrom(downs, buffers, blurs, curr, verdicts)
    requires |buffers| == MAX_DOWNSAMPLE_ITERATIONS || Half(curr).width < MIN_BLOOM_SIZE || Half(curr).height < MIN_BLOOM_SIZE
    ensures buffers == downs && downs[..|buffers|] == buffers
  {
  }

  /** The upsampling loop has built the first j of sizes after downs, all accepted. */
  ghost predicate ChainSoFar(downs: seq<Size>, sizes: seq<Size>, j: nat, chain: seq<Size>, verdicts: seq<bool>)
  {
    && j <= |sizes| && |downs| + |sizes| <= |verdicts|
    && chain == downs + sizes[..j]
    && forall i :: 0 <= i < |chain| ==> verdicts[i]
  }

  /** One more accepted upsampling buffer keeps ChainSoFar. */
  lemma ChainNext(downs: seq<Size>, sizes: seq<Size>, j: nat, chain: seq<Size>, verdicts: seq<bool>)
    requires ChainSoFar(downs, sizes, j, chain, verdicts) && j < |sizes| && verdicts[|chain|]
    ensures ChainSoFar(downs, sizes, j + 1, chain + [sizes[j]], verdicts)
  {
    assert sizes[..j + 1] == sizes[..j] + [sizes[j]];
  }
}

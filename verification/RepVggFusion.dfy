/** Structural re-parameterisation of a RepVGG block: a 3x3 branch, a 1x1 branch and an
    optional identity branch, each followed by batch normalisation, collapse into one 3x3
    convolution with a bias. Values are real numbers; `std` stands for the square root of
    running variance plus epsilon and is any positive number. */
module RepVggFusion {
  import opened Wrappers

  /** channel, row, column */
  type Image = seq<seq<seq<real>>>

  predicate Shaped(t: Image, channels: nat, height: nat, width: nat) {
    && |t| == channels
    && (forall c :: 0 <= c < channels ==> |t[c]| == height)
    && (forall c, y :: 0 <= c < channels && 0 <= y < height ==> |t[c][y]| == width)
  }

  /** A pixel, zero outside the image: the zero padding of a convolution. */
  function At(t: Image, c: int, y: int, x: int): (p: real) {
    if 0 <= c < |t| && 0 <= y < |t[c]| && 0 <= x < |t[c][y]| then t[c][y][x] else 0.0
  }

  /** output channel, input channel within the group, kernel row, kernel column */
  type Kernel = (int, int, int, int) -> real

  type Positive = f: int -> real | (forall o :: f(o) > 0.0) witness (o: int) => 1.0

  /** Parameters per channel. */
  datatype BatchNorm = BatchNorm(mean: int -> real, std: Positive, gamma: int -> real, beta: int -> real)

  /** The geometry all branches share. */
  datatype Shape = Shape(inChannels: nat, outChannels: nat, groups: nat, stride: nat)

  /** What a grouped convolution demands of its channel counts. */
  predicate ValidShape(s: Shape) {
    s.groups > 0 && s.stride > 0 && s.inChannels % s.groups == 0 && s.outChannels % s.groups == 0
    && s.inChannels > 0 && s.outChannels > 0
  }

  function InPerGroup(s: Shape): (n: nat)
    requires s.groups > 0
  {
    s.inChannels / s.groups
  }

  /** First input channel of the group that output channel `o` belongs to. */
  function GroupBase(s: Shape, o: nat): (n: nat)
    requires ValidShape(s)
  {
    PerGroupPositive(s);
    o / (s.outChannels / s.groups) * InPerGroup(s)
  }

  lemma PerGroupPositive(s: Shape)
    requires ValidShape(s)
    ensures s.outChannels / s.groups > 0 && s.inChannels / s.groups > 0
  {
    Exact(s.outChannels, s.groups);
    Exact(s.inChannels, s.groups);
  }

  lemma Exact(a: nat, b: nat)
    requires b > 0 && a > 0 && a % b == 0
    ensures a / b > 0 && a / b * b == a
  {
  }

  /* ------------------------------------------------------------- convolutions */

  /** One kernel row over the pixels (y, x - 1), (y, x), (y, x + 1). */
  function Row(w: Kernel, t: Image, o: int, i: int, c: int, ky: int, y: int, x: int): (r: real) {
    w(o, i, ky, 0) * At(t, c, y, x - 1) + w(o, i, ky, 1) * At(t, c, y, x) + w(o, i, ky, 2) * At(t, c, y, x + 1)
  }

  /** The nine taps of one input channel, centred on (y, x). */
  function Taps(w: Kernel, t: Image, o: int, i: int, c: int, y: int, x: int): (r: real) {
    Row(w, t, o, i, c, 0, y - 1, x) + Row(w, t, o, i, c, 1, y, x) + Row(w, t, o, i, c, 2, y + 1, x)
  }

  /** A 3x3 convolution over the first `n` input channels of a group. */
  function Conv3(w: Kernel, t: Image, o: int, base: int, n: nat, y: int, x: int): (r: real) {
    if n == 0 then 0.0 else Conv3(w, t, o, base, n - 1, y, x) + Taps(w, t, o, n - 1, base + n - 1, y, x)
  }

  /** A 1x1 convolution over the first `n` input channels of a group. */
  function Conv1(w: Kernel, t: Image, o: int, base: int, n: nat, y: int, x: int): (r: real) {
    if n == 0 then 0.0 else Conv1(w, t, o, base, n - 1, y, x) + w(o, n - 1, 0, 0) * At(t, base + n - 1, y, x)
  }

  function Normalise(bn: BatchNorm, o: int, v: real): (r: real)
  {
    (v - bn.mean(o)) / bn.std(o) * bn.gamma(o) + bn.beta(o)
  }

  /* ------------------------------------------------------------------ fusing */

  function Scale(bn: BatchNorm, o: int): (r: real)
  {
    bn.gamma(o) / bn.std(o)
  }

  function FusedBias(bn: BatchNorm, o: int): (r: real)
  {
    bn.beta(o) - bn.mean(o) * bn.gamma(o) / bn.std(o)
  }

  /** The kernel of a 1x1 convolution padded with zeros to 3x3. */
  function Pad1x1(w: Kernel, o: int, i: int, ky: int, kx: int): (r: real) {
    if ky == 1 && kx == 1 then w(o, i, 0, 0) else 0.0
  }

  /** The 3x3 kernel of the identity on `dim` channels per group. */
  function IdTensor(dim: nat, o: int, i: int, ky: int, kx: int): (r: real)
    requires dim > 0
  {
    if ky == 1 && kx == 1 && i == o % dim then 1.0 else 0.0
  }

  /** The training-time branches of a block. */
  datatype Branches = Branches(dense: Kernel, denseBn: BatchNorm, one: Kernel, oneBn: BatchNorm, identity: Option<BatchNorm>)

  predicate ValidBranches(s: Shape, b: Branches) {
    ValidShape(s) && (b.identity.Some? ==> s.inChannels == s.outChannels && s.stride == 1)
  }

  function FusedWeight(s: Shape, b: Branches, o: int, i: int, ky: int, kx: int): (r: real)
    requires ValidBranches(s, b)
  {
    PerGroupPositive(s);
    b.dense(o, i, ky, kx) * Scale(b.denseBn, o) + Pad1x1(b.one, o, i, ky, kx) * Scale(b.oneBn, o)
    + (if b.identity.Some? then IdTensor(InPerGroup(s), o, i, ky, kx) * Scale(b.identity.value, o) else 0.0)
  }

  function EquivalentKernel(s: Shape, b: Branches): (w: Kernel)
    requires ValidBranches(s, b)
    ensures forall o, i, ky, kx :: w(o, i, ky, kx) == FusedWeight(s, b, o, i, ky, kx)
  {
    (o, i, ky, kx) => FusedWeight(s, b, o, i, ky, kx)
  }

  function EquivalentBias(s: Shape, b: Branches, o: int): (r: real)
    requires ValidBranches(s, b)
  {
    FusedBias(b.denseBn, o) + FusedBias(b.oneBn, o) + (if b.identity.Some? then FusedBias(b.identity.value, o) else 0.0)
  }

  /* -------------------------------------------------- one output value of a block */

  /** The sum of the branches at one output position, before the nonlinearity. */
  function TrainValue(s: Shape, b: Branches, t: Image, o: nat, y: nat, x: nat): (r: real)
    requires ValidBranches(s, b)
  {
    var base, n := GroupBase(s, o), InPerGroup(s);
    Normalise(b.denseBn, o, Conv3(b.dense, t, o, base, n, y * s.stride, x * s.stride))
    + Normalise(b.oneBn, o, Conv1(b.one, t, o, base, n, y * s.stride, x * s.stride))
    + (if b.identity.Some? then Normalise(b.identity.value, o, At(t, o, y, x)) else 0.0)
  }

  /** The single convolution at one output position. */
  function DeployValue(s: Shape, w: Kernel, bias: int -> real, t: Image, o: nat, y: nat, x: nat): (r: real)
    requires ValidShape(s)
  {
    Conv3(w, t, o, GroupBase(s, o), InPerGroup(s), y * s.stride, x * s.stride) + bias(o)
  }

  /* ------------------------------------------------------------------- algebra */

  lemma Distribute(a: real, s: real, b: real, u: real, d: real, v: real, p: real)
    ensures (a * s + b * u + d * v) * p == s * (a * p) + u * (b * p) + v * (d * p)
  {
    assert (a * s + b * u + d * v) * p == (a * s) * p + (b * u) * p + (d * v) * p;
  }

  /** A tap away from the centre sees only the dense kernel. */
  lemma OuterTap(s: Shape, b: Branches, o: int, i: int, ky: int, kx: int, p: real)
    requires ValidBranches(s, b) && (ky != 1 || kx != 1)
    ensures FusedWeight(s, b, o, i, ky, kx) * p == Scale(b.denseBn, o) * (b.dense(o, i, ky, kx) * p)
  {
    var a, k := b.dense(o, i, ky, kx), Scale(b.denseBn, o);
    assert FusedWeight(s, b, o, i, ky, kx) == a * k;
    assert (a * k) * p == k * (a * p);
  }

  /** The centre tap sees all three branches. */
  lemma CentreTap(s: Shape, b: Branches, o: int, i: int, p: real)
    requires ValidBranches(s, b)
    ensures InPerGroup(s) > 0
    ensures FusedWeight(s, b, o, i, 1, 1) * p
         == Scale(b.denseBn, o) * (b.dense(o, i, 1, 1) * p) + Scale(b.oneBn, o) * (b.one(o, i, 0, 0) * p)
            + (if b.identity.Some? then Scale(b.identity.value, o) * (if i == o % InPerGroup(s) then p else 0.0) else 0.0)
  {
    PerGroupPositive(s);
    var a, k, c, l := b.dense(o, i, 1, 1), Scale(b.denseBn, o), b.one(o, i, 0, 0), Scale(b.oneBn, o);
    if b.identity.Some? {
      var d, m := IdTensor(InPerGroup(s), o, i, 1, 1), Scale(b.identity.value, o);
      Distribute(a, k, c, l, d, m, p);
      assert d * p == if i == o % InPerGroup(s) then p else 0.0;
    } else {
      Distribute(a, k, c, l, 0.0, 0.0, p);
    }
  }

  lemma Mul3(k: real, a: real, b: real, c: real)
    ensures k * (a + b + c) == k * a + k * b + k * c
  {
  }

  lemma OuterRow(s: Shape, b: Branches, w: Kernel, t: Image, o: int, i: int, c: int, ky: int, y: int, x: int)
    requires ValidBranches(s, b) && w == EquivalentKernel(s, b) && ky != 1
    ensures Row(w, t, o, i, c, ky, y, x) == Scale(b.denseBn, o) * Row(b.dense, t, o, i, c, ky, y, x)
  {
    hide FusedWeight;
    hide At;
    hide Scale;
    var l, m, r := At(t, c, y, x - 1), At(t, c, y, x), At(t, c, y, x + 1);
    OuterTap(s, b, o, i, ky, 0, l);
    OuterTap(s, b, o, i, ky, 1, m);
    OuterTap(s, b, o, i, ky, 2, r);
    Mul3(Scale(b.denseBn, o), b.dense(o, i, ky, 0) * l, b.dense(o, i, ky, 1) * m, b.dense(o, i, ky, 2) * r);
  }

  lemma MiddleRow(s: Shape, b: Branches, w: Kernel, t: Image, o: int, i: int, c: int, y: int, x: int)
    requires ValidBranches(s, b) && w == EquivalentKernel(s, b)
    ensures InPerGroup(s) > 0
    ensures Row(w, t, o, i, c, 1, y, x)
         == Scale(b.denseBn, o) * Row(b.dense, t, o, i, c, 1, y, x) + Scale(b.oneBn, o) * (b.one(o, i, 0, 0) * At(t, c, y, x))
            + (if b.identity.Some? then Scale(b.identity.value, o) * (if i == o % InPerGroup(s) then At(t, c, y, x) else 0.0) else 0.0)
  {
    hide FusedWeight;
    hide At;
    hide Scale;
    var l, m, r := At(t, c, y, x - 1), At(t, c, y, x), At(t, c, y, x + 1);
    OuterTap(s, b, o, i, 1, 0, l);
    CentreTap(s, b, o, i, m);
    OuterTap(s, b, o, i, 1, 2, r);
    Mul3(Scale(b.denseBn, o), b.dense(o, i, 1, 0) * l, b.dense(o, i, 1, 1) * m, b.dense(o, i, 1, 2) * r);
  }

  /** The nine taps of the fused kernel on one channel. */
  lemma FusedTaps(s: Shape, b: Branches, w: Kernel, t: Image, o: int, i: int, c: int, y: int, x: int)
    requires ValidBranches(s, b) && w == EquivalentKernel(s, b)
    ensures InPerGroup(s) > 0
    ensures Taps(w, t, o, i, c, y, x)
         == Scale(b.denseBn, o) * Taps(b.dense, t, o, i, c, y, x) + Scale(b.oneBn, o) * (b.one(o, i, 0, 0) * At(t, c, y, x))
            + (if b.identity.Some? then Scale(b.identity.value, o) * (if i == o % InPerGroup(s) then At(t, c, y, x) else 0.0) else 0.0)
  {
    hide Row;
    hide At;
    hide Scale;
    OuterRow(s, b, w, t, o, i, c, 0, y - 1, x);
    MiddleRow(s, b, w, t, o, i, c, y, x);
    OuterRow(s, b, w, t, o, i, c, 2, y + 1, x);
    Mul3(Scale(b.denseBn, o), Row(b.dense, t, o, i, c, 0, y - 1, x), Row(b.dense, t, o, i, c, 1, y, x), Row(b.dense, t, o, i, c, 2, y + 1, x));
  }

  /** Summed over the channels of the group: the identity contributes its own channel once. */
  lemma {:induction false} FusedConv(s: Shape, b: Branches, w: Kernel, t: Image, o: nat, base: int, n: nat, y: int, x: int)
    requires ValidBranches(s, b) && w == EquivalentKernel(s, b) && n <= InPerGroup(s)
    ensures InPerGroup(s) > 0
    ensures Conv3(w, t, o, base, n, y, x)
         == Scale(b.denseBn, o) * Conv3(b.dense, t, o, base, n, y, x) + Scale(b.oneBn, o) * Conv1(b.one, t, o, base, n, y, x)
            + (if b.identity.Some? then
                 Scale(b.identity.value, o) * (if o % InPerGroup(s) < n then At(t, base + o % InPerGroup(s), y, x) else 0.0)
               else 0.0)
  {
    hide Taps;
    hide Scale;
    hide At;
    PerGroupPositive(s);
    if n > 0 {
      FusedConv(s, b, w, t, o, base, n - 1, y, x);
      FusedTaps(s, b, w, t, o, n - 1, base + n - 1, y, x);
      var k, l := Scale(b.denseBn, o), Scale(b.oneBn, o);
      Mul2(k, Conv3(b.dense, t, o, base, n - 1, y, x), Taps(b.dense, t, o, n - 1, base + n - 1, y, x));
      Mul2(l, Conv1(b.one, t, o, base, n - 1, y, x), b.one(o, n - 1, 0, 0) * At(t, base + n - 1, y, x));
    }
  }

  lemma Mul2(k: real, a: real, b: real)
    ensures k * (a + b) == k * a + k * b
  {
  }

  /** Normalising is scaling and adding the fused bias. */
  lemma NormaliseIsAffine(bn: BatchNorm, o: int, v: real)
    ensures Normalise(bn, o, v) == Scale(bn, o) * v + FusedBias(bn, o)
  {
    Affine(v, bn.mean(o), bn.std(o), bn.gamma(o), bn.beta(o));
  }

  lemma Affine(v: real, m: real, d: real, g: real, e: real)
    requires d > 0.0
    ensures (v - m) / d * g + e == g / d * v + (e - m * g / d)
  {
    var i := 1.0 / d;
    assert (v - m) / d == (v - m) * i;
    assert g / d == g * i;
    assert m * g / d == (m * g) * i;
    assert (v - m) * i * g == v * i * g - m * i * g by { assert (v - m) * i == v * i - m * i; }
    assert m * i * g == (m * g) * i;
    assert v * i * g == (g * i) * v;
  }

  lemma OwnChannel(s: Shape, o: nat)
    requires ValidShape(s) && s.inChannels == s.outChannels
    ensures InPerGroup(s) > 0 && GroupBase(s, o) + o % InPerGroup(s) == o
  {
    PerGroupPositive(s);
  }

  /** Fusion preserves meaning: at every output position, for all weights, groups, strides and
      image sizes, borders included, the fused convolution equals the sum of the branches. */
  lemma FusionIsExact(s: Shape, b: Branches, t: Image, o: nat, y: nat, x: nat)
    requires ValidBranches(s, b)
    ensures DeployValue(s, EquivalentKernel(s, b), (c: int) => EquivalentBias(s, b, c), t, o, y, x) == TrainValue(s, b, t, o, y, x)
  {
    hide Conv3;
    hide Conv1;
    hide Scale;
    hide FusedBias;
    hide Normalise;
    var base, n, yy, xx := GroupBase(s, o), InPerGroup(s), y * s.stride, x * s.stride;
    FusedConv(s, b, EquivalentKernel(s, b), t, o, base, n, yy, xx);
    NormaliseIsAffine(b.denseBn, o, Conv3(b.dense, t, o, base, n, yy, xx));
    NormaliseIsAffine(b.oneBn, o, Conv1(b.one, t, o, base, n, yy, xx));
    if b.identity.Some? {
      OwnChannel(s, o);
      assert yy == y && xx == x;
      NormaliseIsAffine(b.identity.value, o, At(t, o, y, x));
    }
  }

  /* ------------------------------------------------- what the operations mean */

  /** A kernel that is 1 at one tap only. */
  ghost predicate OneTap(w: Kernel, o: int, i: int, ky: int, kx: int) {
    forall a, b :: 0 <= a < 3 && 0 <= b < 3 ==> w(o, i, a, b) == if a == ky && b == kx then 1.0 else 0.0
  }

  /** A kernel is laid over the image as it stands: tap (ky, kx) reads the pixel ky - 1 rows below
      and kx - 1 columns to the right. */
  lemma TapReads(w: Kernel, t: Image, o: int, i: int, c: int, y: int, x: int, ky: int, kx: int)
    requires 0 <= ky < 3 && 0 <= kx < 3 && OneTap(w, o, i, ky, kx)
    ensures Taps(w, t, o, i, c, y, x) == At(t, c, y + ky - 1, x + kx - 1)
  {
    hide At;
    RowReads(w, t, o, i, c, 0, y - 1, x, ky, kx);
    RowReads(w, t, o, i, c, 1, y, x, ky, kx);
    RowReads(w, t, o, i, c, 2, y + 1, x, ky, kx);
  }

  lemma RowReads(w: Kernel, t: Image, o: int, i: int, c: int, a: int, y: int, x: int, ky: int, kx: int)
    requires 0 <= a < 3 && 0 <= ky < 3 && 0 <= kx < 3 && OneTap(w, o, i, ky, kx)
    ensures Row(w, t, o, i, c, a, y, x) == if a == ky then At(t, c, y, x + kx - 1) else 0.0
  {
    hide At;
    assert w(o, i, a, 0) == if a == ky && kx == 0 then 1.0 else 0.0;
    assert w(o, i, a, 1) == if a == ky && kx == 1 then 1.0 else 0.0;
    assert w(o, i, a, 2) == if a == ky && kx == 2 then 1.0 else 0.0;
  }

  /** Normalisation takes the mean to beta, and a value one deviation above it to beta plus gamma. */
  lemma NormaliseAnchors(bn: BatchNorm, o: int)
    ensures Normalise(bn, o, bn.mean(o)) == bn.beta(o)
    ensures Normalise(bn, o, bn.mean(o) + bn.std(o)) == bn.gamma(o) + bn.beta(o)
  {
    Zero(bn.std(o), bn.gamma(o));
    One(bn.std(o), bn.gamma(o));
  }

  lemma Zero(d: real, g: real)
    requires d > 0.0
    ensures 0.0 / d * g == 0.0
  {
    assert 0.0 / d == 0.0;
  }

  lemma One(d: real, g: real)
    requires d > 0.0
    ensures d / d * g == g
  {
    assert d / d == 1.0;
  }

  /** Every pixel of an image is read as it is, and every position outside as zero. */
  lemma Padding(t: Image, channels: nat, height: nat, width: nat, c: int, y: int, x: int)
    requires Shaped(t, channels, height, width)
    ensures 0 <= c <= channels - 1 && 0 <= y <= height - 1 && 0 <= x <= width - 1 ==> At(t, c, y, x) == t[c][y][x]
    ensures c < 0 || y < 0 || x < 0 || c >= channels || y >= height || x >= width ==> At(t, c, y, x) == 0.0
  {
  }
}

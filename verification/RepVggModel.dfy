/** Blocks and stacks of blocks as objects: the forward pass in both forms, and the in-place
    switch from the training form to the deployed one. */
module RepVggModel {
  import opened Wrappers
  import opened RepVggFusion

  function Relu(v: real): (r: real) { if v > 0.0 then v else 0.0 }

  /** The deployed form. */
  datatype Reparam = Reparam(kernel: Kernel, bias: int -> real)

  /** Exactly one of the two forms is present. */
  datatype Form = Training(branches: Branches) | Deployed(conv: Reparam)

  predicate Runnable(s: Shape, f: Form) {
    ValidShape(s) && (f.Training? ==> ValidBranches(s, f.branches))
  }

  /** Output extent of a 3x3 convolution with padding 1, and of a 1x1 one without padding:
      the branches can be added because the two agree. */
  function Extent3(n: nat, stride: nat): (r: int)
    requires stride > 0
  {
    (n + 2 * 1 - 3) / stride + 1
  }

  function Extent1(n: nat, stride: nat): (r: int)
    requires stride > 0
  {
    (n + 2 * 0 - 1) / stride + 1
  }

  lemma BranchesHaveOneExtent(n: nat, stride: nat)
    requires stride > 0
    ensures Extent3(n, stride) == Extent1(n, stride) >= 0
    ensures stride == 1 ==> Extent3(n, stride) == n
  {
    if n == 0 { assert (0 - 1) / stride == -1; }
  }

  function Height(t: Image): (h: nat) { if t == [] then 0 else |t[0]| }

  function Width(t: Image): (w: nat) { if t == [] || t[0] == [] then 0 else |t[0][0]| }

  /** One value of the block's output, before the nonlinearity. */
  function Value(s: Shape, f: Form, t: Image, o: nat, y: nat, x: nat): (r: real)
    requires Runnable(s, f)
  {
    match f
    case Training(b) => TrainValue(s, b, t, o, y, x)
    case Deployed(c) => DeployValue(s, c.kernel, c.bias, t, o, y, x)
  }

  function OutRow(s: Shape, f: Form, t: Image, o: nat, y: nat, w: nat): (r: seq<real>)
    requires Runnable(s, f)
    ensures |r| == w && forall x :: 0 <= x < w ==> r[x] == Relu(Value(s, f, t, o, y, x))
  {
    seq(w, x requires 0 <= x < w => Relu(Value(s, f, t, o, y, x)))
  }

  function OutPlane(s: Shape, f: Form, t: Image, o: nat, h: nat, w: nat): (r: seq<seq<real>>)
    requires Runnable(s, f)
    ensures |r| == h && forall y :: 0 <= y < h ==> r[y] == OutRow(s, f, t, o, y, w)
  {
    seq(h, y requires 0 <= y < h => OutRow(s, f, t, o, y, w))
  }

  function Planes(s: Shape, f: Form, t: Image, h: nat, w: nat): (r: Image)
    requires Runnable(s, f)
    ensures |r| == s.outChannels && forall o :: 0 <= o < s.outChannels ==> r[o] == OutPlane(s, f, t, o, h, w)
  {
    seq(s.outChannels, o requires 0 <= o < s.outChannels => OutPlane(s, f, t, o, h, w))
  }

  /** The common extent of the branches. */
  function OutExtent(n: nat, stride: nat): (r: nat)
    requires stride > 0
  {
    BranchesHaveOneExtent(n, stride);
    Extent3(n, stride)
  }

  /** The whole output of a block. */
  function BlockForward(s: Shape, f: Form, t: Image): (r: Image)
    requires Runnable(s, f)
  {
    Planes(s, f, t, OutExtent(Height(t), s.stride), OutExtent(Width(t), s.stride))
  }

  function Fuse(s: Shape, b: Branches): (r: Reparam)
    requires ValidBranches(s, b)
  {
    Reparam(EquivalentKernel(s, b), (c: int) => EquivalentBias(s, b, c))
  }

  /** The two forms of a block are the same function on images. */
  lemma FuseSameForward(s: Shape, b: Branches, t: Image)
    requires ValidBranches(s, b)
    ensures BlockForward(s, Deployed(Fuse(s, b)), t) == BlockForward(s, Training(b), t)
  {
    hide TrainValue;
    hide DeployValue;
    hide OutExtent;
    var h, w := OutExtent(Height(t), s.stride), OutExtent(Width(t), s.stride);
    var p, q := Deployed(Fuse(s, b)), Training(b);
    forall o | 0 <= o < s.outChannels ensures OutPlane(s, p, t, o, h, w) == OutPlane(s, q, t, o, h, w) {
      forall y | 0 <= y < h ensures OutRow(s, p, t, o, y, w) == OutRow(s, q, t, o, y, w) {
        forall x | 0 <= x < w ensures Value(s, p, t, o, y, x) == Value(s, q, t, o, y, x) {
          FusionIsExact(s, b, t, o, y, x);
        }
      }
    }
  }

  function Deploy(s: Shape, f: Form): (g: Form)
    requires Runnable(s, f)
  {
    if f.Training? then Deployed(Fuse(s, f.branches)) else f
  }

  lemma DeploySameForward(s: Shape, f: Form, t: Image)
    requires Runnable(s, f)
    ensures BlockForward(s, Deploy(s, f), t) == BlockForward(s, f, t)
  {
    hide BlockForward;
    if f.Training? { FuseSameForward(s, f.branches, t); }
  }

  class RepVGGBlock {
    const shape: Shape
    var branches: Option<Branches>   // rbr_dense, rbr_1x1 and rbr_identity
    var reparam: Option<Reparam>     // rbr_reparam

    predicate Valid()
      reads this
    {
      && ValidShape(shape)
      && (reparam.None? ==> branches.Some?)
      && (branches.Some? ==> ValidBranches(shape, branches.value))
    }

    /** As the forward pass sees it: the deployed convolution wins when it is there. */
    function CurrentForm(): (f: Form)
      requires Valid()
      reads this
    {
      if reparam.Some? then Deployed(reparam.value) else Training(branches.value)
    }

    function Forward(t: Image): (r: Image)
      requires Valid()
      reads this
    {
      BlockForward(shape, CurrentForm(), t)
    }

    constructor (shape: Shape, branches: Branches)
      requires ValidBranches(shape, branches)
      ensures Valid() && this.shape == shape && CurrentForm() == Training(branches)
    {
      this.shape := shape;
      this.branches := Some(branches);
      this.reparam := None;
    }

    constructor Copy(b: RepVGGBlock)
      requires b.Valid()
      ensures Valid() && shape == b.shape && branches == b.branches && reparam == b.reparam
    {
      shape, branches, reparam := b.shape, b.branches, b.reparam;
    }

    /** Switching to the deployed form drops the branches and keeps the function; a second
        switch changes nothing. */
    method SwitchToDeploy()
      requires Valid()
      modifies this
      ensures Valid() && reparam.Some?
      ensures old(reparam).Some? ==> reparam == old(reparam) && branches == old(branches)
      ensures old(reparam).None? ==> branches.None?
      ensures CurrentForm() == Deploy(shape, old(CurrentForm()))
      ensures forall t :: Forward(t) == old(Forward(t))
    {
      if reparam.Some? { return; }
      var b := branches.value;
      var r := Fuse(shape, b);
      ghost var f := CurrentForm();
      forall t: Image ensures BlockForward(shape, Deploy(shape, f), t) == BlockForward(shape, f, t) {
        DeploySameForward(shape, f, t);
      }
      reparam := Some(r);
      branches := None;
    }
  }

  ghost predicate Fits(shapes: seq<Shape>, forms: seq<Form>) {
    |shapes| == |forms| && forall i :: 0 <= i < |shapes| ==> Runnable(shapes[i], forms[i])
  }

  /** The output of a stack of blocks, the last block applied last. */
  function StackForward(shapes: seq<Shape>, forms: seq<Form>, t: Image): (r: Image)
    requires Fits(shapes, forms)
  {
    var n := |shapes|;
    if n == 0 then t
    else BlockForward(shapes[n - 1], forms[n - 1], StackForward(shapes[..n - 1], forms[..n - 1], t))
  }

  /** Deploying all the blocks of a stack keeps the function of the stack. */
  lemma {:induction false} StackSame(shapes: seq<Shape>, f: seq<Form>, g: seq<Form>, t: Image)
    requires Fits(shapes, f) && |g| == |shapes|
    requires forall i :: 0 <= i < |shapes| ==> g[i] == Deploy(shapes[i], f[i])
    ensures Fits(shapes, g) && StackForward(shapes, f, t) == StackForward(shapes, g, t)
  {
    hide BlockForward;
    hide Fuse;
    if shapes != [] {
      var n := |shapes| - 1;
      StackSame(shapes[..n], f[..n], g[..n], t);
      DeploySameForward(shapes[n], f[n], StackForward(shapes[..n], f[..n], t));
    }
  }

  /** A network: a stack of blocks, then pooling and a linear layer, which the conversion does
      not touch. */
  class RepVGG {
    const blocks: seq<RepVGGBlock>
    const head: Image -> seq<real>

    predicate Valid()
      reads this, blocks
    {
      forall i :: 0 <= i < |blocks| ==> blocks[i].Valid()
    }

    function Shapes(): (r: seq<Shape>)
      ensures |r| == |blocks| && forall i :: 0 <= i < |blocks| ==> r[i] == blocks[i].shape
    {
      seq(|blocks|, i requires 0 <= i < |blocks| => blocks[i].shape)
    }

    function Forms(): (r: seq<Form>)
      requires Valid()
      reads this, blocks
      ensures |r| == |blocks| && forall i :: 0 <= i < |blocks| ==> r[i] == blocks[i].CurrentForm()
    {
      seq(|blocks|, i requires 0 <= i < |blocks| && blocks[i].Valid() reads this, blocks => blocks[i].CurrentForm())
    }

    function Forward(t: Image): (r: seq<real>)
      requires Valid()
      reads this, blocks
    {
      head(StackForward(Shapes(), Forms(), t))
    }

    constructor (blocks: seq<RepVGGBlock>, head: Image -> seq<real>)
      requires forall i :: 0 <= i < |blocks| ==> blocks[i].Valid()
      ensures Valid() && this.blocks == blocks && this.head == head
    {
      this.blocks := blocks;
      this.head := head;
    }

    /** A deep copy of the blocks. */
    method CopyBlocks() returns (model: seq<RepVGGBlock>)
      requires Valid()
      ensures |model| == |blocks|
      ensures forall i :: 0 <= i < |model| ==>
                fresh(model[i]) && model[i].Valid() && model[i].shape == blocks[i].shape && model[i].CurrentForm() == blocks[i].CurrentForm()
    {
      model := [];
      for i := 0 to |blocks|
        invariant |model| == i
        invariant forall j :: 0 <= j < i ==>
                    fresh(model[j]) && model[j].Valid() && model[j].shape == blocks[j].shape && model[j].CurrentForm() == blocks[j].CurrentForm()
      {
        var b := new RepVGGBlock.Copy(blocks[i]);
        model := model + [b];
      }
    }

    /** Converting in place: every block is deployed and the network function is unchanged. With
        `doCopy` the code converts a deep copy and drops it: the blocks of this network stay as
        they were, whatever form they had. */
    method ConvertToInferenceModel(doCopy: bool)
      requires Valid()
      modifies blocks
      ensures Valid()
      ensures !doCopy ==> forall i :: 0 <= i < |blocks| ==> blocks[i].reparam.Some?
      ensures doCopy ==>
                forall i :: 0 <= i < |blocks| ==>
                  blocks[i].reparam == old(blocks[i].reparam) && blocks[i].branches == old(blocks[i].branches)
      ensures forall t :: Forward(t) == old(Forward(t))
    {
      hide BlockForward;
      hide Fuse;
      if doCopy {
        var model := CopyBlocks();
        SwitchAll(model);
        assert Forms() == old(Forms());
        return;
      }
      ghost var was := Forms();
      SwitchAll(blocks);
      forall t: Image ensures StackForward(Shapes(), Forms(), t) == StackForward(Shapes(), was, t) {
        StackSame(Shapes(), was, Forms(), t);
      }
    }
  }

  /** The conversion loop: each block ends up deployed, from the form it had. */
  method SwitchAll(model: seq<RepVGGBlock>)
    requires forall i :: 0 <= i < |model| ==> model[i].Valid()
    modifies model
    ensures forall i :: 0 <= i < |model| ==>
              && model[i].Valid() && model[i].reparam.Some?
              && model[i].CurrentForm() == Deploy(model[i].shape, old(model[i].CurrentForm()))
  {
    hide BlockForward;
    hide Fuse;
    for i := 0 to |model|
      invariant forall j :: 0 <= j < |model| ==> model[j].Valid() && (j < i ==> model[j].reparam.Some?)
      invariant forall j :: 0 <= j < |model| ==>
                  || model[j].CurrentForm() == old(model[j].CurrentForm())
                  || model[j].CurrentForm() == Deploy(model[j].shape, old(model[j].CurrentForm()))
    {
      model[i].SwitchToDeploy();
    }
  }
}

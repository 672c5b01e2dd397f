/**
 * The abstract-interpretation backend: instead of computing values, each
 * primitive computes the shape and type of its result and charges a cost to
 * the execution context, under the context label carried by its arguments.
 */
module AbstractBackend {
  import opened Wrappers

  // ---------------------------------------------------------------------------
  // Values

  /** The context an abstract value is evaluated in: none, the concrete one used while
      computing shapes and costs, or a label naming a cost account. */
  datatype Context = NoContext | Concrete | Labelled(tag: string)

  datatype Type = Integer | Float | Bool | Vec(elem: Type) | Tuple(children: seq<Type>)

  /** A shape is a number (a dimension) or a tuple of shapes: a scalar has the empty tuple,
      a vector of `n` elements of shape `(d1, ..)` has `(n, d1, ..)`, a tuple the tuple of
      its components' shapes. */
  datatype Shape = Dim(n: int) | Tup(items: seq<Shape>)

  /** The data an abstract value may carry (a known size, a tuple of known parts). */
  datatype Data = NoData | IntData(i: int) | RealData(r: real) | TupleData(items: seq<Data>)

  datatype AbstractValue = AbstractValue(shape: Shape, ty: Type, data: Data, context: Context)

  /** An argument is an abstract value or a plain value. */
  datatype Arg = Abstract(v: AbstractValue) | Plain(d: Data)

  /** The errors the backend raises: a context clash (an assertion), a non-vector where a
      vector is required (an assertion), an ill-formed shape (a type or index error), an
      unknown build size (a name error), and `fold`, which is not implemented. */
  datatype Error =
    | ContextMismatch(call: string, argNumber: nat, expected: Context, got: Context)
    | NotAVector(op: string)
    | ShapeError(op: string)
    | UnknownSize(op: string)
    | NotImplemented(op: string)

  /** The data carried by an argument, abstract or plain. */
  function DataOf(a: Arg): Data
  {
    match a
    case Abstract(v) => v.data
    case Plain(d) => d
  }

  /** The types of the components of a type: the element of a vector, the components of a
      tuple, none for a scalar. */
  function ChildTypes(t: Type): seq<Type>
  {
    match t
    case Vec(e) => [e]
    case Tuple(cs) => cs
    case _ => []
  }

  // ---------------------------------------------------------------------------
  // The context of a call

  /** An abstract argument with a context label. */
  predicate IsLabelled(a: Arg)
  {
    a.Abstract? && a.v.context.Labelled?
  }

  predicate NoneAbstract(args: seq<Arg>)
  {
    forall i :: 0 <= i < |args| ==> !args[i].Abstract?
  }

  /** All labelled arguments carry the same label. */
  predicate Agree(args: seq<Arg>)
  {
    forall i, j :: 0 <= i < |args| && 0 <= j < |args| && IsLabelled(args[i]) && IsLabelled(args[j]) ==>
      args[i].v.context == args[j].v.context
  }

  predicate HasConcrete(args: seq<Arg>)
  {
    exists i :: 0 <= i < |args| && args[i].Abstract? && args[i].v.context == Concrete
  }

  /** The context of a call whose arguments agree: their common label if there is one,
      otherwise concrete if some argument is concrete, otherwise none. */
  ghost function AgreedContext(args: seq<Arg>): Context
    requires Agree(args)
  {
    if exists i :: 0 <= i < |args| && IsLabelled(args[i]) then
      var i :| 0 <= i < |args| && IsLabelled(args[i]);
      args[i].v.context
    else if HasConcrete(args) then Concrete
    else NoContext
  }

  /** The context of a call whose arguments agree. */
  ghost function CallContext(args: seq<Arg>): Context
    requires Agree(args)
  {
    if NoneAbstract(args) then Concrete else AgreedContext(args)
  }

  /** Argument `f` is the first labelled one and `k` the first whose label differs from it. */
  predicate FirstConflict(args: seq<Arg>, f: nat, k: nat)
  {
    f < k < |args| && IsLabelled(args[f]) && IsLabelled(args[k])
    && args[k].v.context != args[f].v.context
    && (forall j :: 0 <= j < f ==> !IsLabelled(args[j]))
    && (forall j :: f < j < k && IsLabelled(args[j]) ==> args[j].v.context == args[f].v.context)
  }

  /**
   * The context of a call to `name`: concrete when no argument is abstract; otherwise the
   * label the labelled arguments share, or concrete, or none. Two different labels are an
   * error naming the first argument (counted from 1) whose label differs from the first.
   */
  method CheckArgsAndGetContext(name: string, args: seq<Arg>) returns (r: Result<Context, Error>)
    ensures r.Success? <==> Agree(args)
    ensures r.Success? ==> r.value == CallContext(args)
    ensures r.Failure? ==> exists f: nat, k: nat :: (FirstConflict(args, f, k)
      && r.error == ContextMismatch(name, k + 1, args[f].v.context, args[k].v.context))
  {
    if forall i :: 0 <= i < |args| ==> !args[i].Abstract? {
      return Success(Concrete);
    }
    var context := NoContext;
    ghost var first: int := -1;
    var i := 0;
    while i < |args|
      invariant 0 <= i <= |args| && -1 <= first
      invariant first == -1 <==> forall j :: 0 <= j < i ==> !IsLabelled(args[j])
      invariant first != -1 ==> (0 <= first < i && IsLabelled(args[first])
        && (forall j :: 0 <= j < first ==> !IsLabelled(args[j]))
        && context == args[first].v.context
        && forall j :: 0 <= j < i && IsLabelled(args[j]) ==> args[j].v.context == context)
      invariant first == -1 ==> ((context == Concrete || context == NoContext)
        && (context == Concrete <==> exists j :: 0 <= j < i && args[j].Abstract? && args[j].v.context == Concrete))
    {
      var arg := args[i];
      if arg.Abstract? && arg.v.context != NoContext {
        var ctx := arg.v.context;
        if context == NoContext || context == Concrete {
          context := ctx;
          if ctx.Labelled? { first := i; }
        }
        if !(ctx == Concrete || ctx == context) {
          assert FirstConflict(args, first, i);
          return Failure(ContextMismatch(name, i + 1, context, ctx));
        }
      }
      i := i + 1;
    }
    if first != -1 {
      var k :| 0 <= k < |args| && IsLabelled(args[k]);
      assert AgreedContext(args) == args[k].v.context;
    }
    return Success(context);
  }

  /** Only membership matters to the context of a call, so reordering the arguments
      changes at most which conflict is reported. */
  lemma ContextIgnoresOrder(args: seq<Arg>, args': seq<Arg>)
    requires multiset(args) == multiset(args')
    ensures NoneAbstract(args) <==> NoneAbstract(args')
    ensures Agree(args) <==> Agree(args')
    ensures Agree(args) ==> CallContext(args) == CallContext(args')
  {
    forall a ensures a in args <==> a in args' {
      assert a in args <==> a in multiset(args);
      assert a in args' <==> a in multiset(args');
    }
    SameMembers(args, args');
    SameMembers(args', args);
    if Agree(args) {
      if exists i :: 0 <= i < |args| && IsLabelled(args[i]) {
        var i :| 0 <= i < |args| && IsLabelled(args[i]);
        assert args[i] in args';
        var i' :| 0 <= i' < |args'| && args'[i'] == args[i];
        assert AgreedContext(args) == args[i].v.context;
        assert AgreedContext(args') == args'[i'].v.context;
      }
    }
  }

  lemma SameMembers(args: seq<Arg>, args': seq<Arg>)
    requires forall a :: a in args ==> a in args'
    ensures NoneAbstract(args') ==> NoneAbstract(args)
    ensures Agree(args') ==> Agree(args)
    ensures HasConcrete(args) ==> HasConcrete(args')
    ensures (exists i :: 0 <= i < |args| && IsLabelled(args[i])) ==> exists i :: 0 <= i < |args'| && IsLabelled(args'[i])
  {
    forall i | 0 <= i < |args| && args[i].Abstract? ensures !NoneAbstract(args') {
      assert args[i] in args';
    }
    if Agree(args') {
      forall i, j | 0 <= i < |args| && 0 <= j < |args| && IsLabelled(args[i]) && IsLabelled(args[j])
        ensures args[i].v.context == args[j].v.context
      {
        assert args[i] in args';
        assert args[j] in args';
      }
    }
    if HasConcrete(args) {
      var i :| 0 <= i < |args| && args[i].Abstract? && args[i].v.context == Concrete;
      assert args[i] in args';
    }
    if exists i :: 0 <= i < |args| && IsLabelled(args[i]) {
      var i :| 0 <= i < |args| && IsLabelled(args[i]);
      assert args[i] in args';
    }
  }

  // ---------------------------------------------------------------------------
  // The execution context: a log of the costs charged, each under a context

  datatype CostEntry = CostEntry(name: string, context: Context, cost: real)

  /** The configured costs of the primitives. */
  datatype Config = Config(indexCost: real, sizeCost: real, buildMallocCost: real, letCost: real,
                           selectCost: real, assumedVectorSize: int)

  /** The total cost charged under `ctx`. */
  function CostIn(log: seq<CostEntry>, ctx: Context): real
  {
    if log == [] then 0.0
    else (if log[0].context == ctx then log[0].cost else 0.0) + CostIn(log[1..], ctx)
  }

  /** Charging a cost adds it to the total of its own context and leaves the others alone. */
  lemma {:induction false} CostInAppend(log: seq<CostEntry>, e: CostEntry, ctx: Context)
    ensures CostIn(log + [e], ctx) == CostIn(log, ctx) + (if e.context == ctx then e.cost else 0.0)
  {
    if log != [] {
      assert (log + [e])[1..] == log[1..] + [e];
      CostInAppend(log[1..], e, ctx);
    }
  }

  class ExecutionContext {
    const config: Config
    var costs: seq<CostEntry>

    constructor(config: Config)
      ensures this.config == config && costs == []
    {
      this.config := config;
      costs := [];
    }

    method AccumulateCost(name: string, context: Context, cost: real)
      modifies this
      ensures costs == old(costs) + [CostEntry(name, context, cost)]
      ensures forall c :: Total(c) == old(Total(c)) + (if c == context then cost else 0.0)
    {
      costs := costs + [CostEntry(name, context, cost)];
      forall c ensures Total(c) == old(Total(c)) + (if c == context then cost else 0.0) {
        CostInAppend(old(costs), CostEntry(name, context, cost), c);
      }
    }

    function Total(ctx: Context): real
      reads this
    {
      CostIn(costs, ctx)
    }
  }

  // ---------------------------------------------------------------------------
  // Shapes and types of the primitives' results

  /** The shape and type of an element of vector `v`: its shape without the leading
      dimension; the data is not known. */
  function IndexValue(v: AbstractValue): (r: Result<AbstractValue, Error>)
    ensures r.Success? <==> v.ty.Vec? && v.shape.Tup?
    ensures r.Failure? && v.ty.Vec? ==> r.error == ShapeError("index")
    ensures r.Success? ==> (r.value.ty == v.ty.elem && r.value.context == v.context
      && r.value.data == NoData && r.value.shape.Tup?
      && (if v.shape.items == [] then r.value.shape.items == []
          else v.shape.items == [v.shape.items[0]] + r.value.shape.items))
  {
    if !v.ty.Vec? then Failure(NotAVector("index"))
    else match v.shape
      case Tup(items) =>
        Success(AbstractValue(Tup(if items == [] then [] else items[1..]), v.ty.elem, NoData, v.context))
      case Dim(_) => Failure(ShapeError("index"))
  }

  /** A known integer as a scalar abstract value. */
  function FromInt(n: int, ctx: Context): AbstractValue
  {
    AbstractValue(Tup([]), Integer, IntData(n), ctx)
  }

  /** The size of vector `v` is its leading dimension, a known integer. */
  function SizeValue(v: AbstractValue): (r: Result<AbstractValue, Error>)
    ensures r.Success? <==> v.ty.Vec? && v.shape.Tup? && v.shape.items != [] && v.shape.items[0].Dim?
    ensures r.Success? ==> r.value == FromInt(v.shape.items[0].n, v.context)
  {
    if !v.ty.Vec? then Failure(NotAVector("size"))
    else if v.shape.Tup? && v.shape.items != [] && v.shape.items[0].Dim? then
      Success(FromInt(v.shape.items[0].n, v.context))
    else Failure(ShapeError("size"))
  }

  /** A vector of `n` elements like `el`. */
  function BuildValue(n: int, el: AbstractValue, ctx: Context): (r: Result<AbstractValue, Error>)
    ensures r.Success? <==> el.shape.Tup?
  {
    match el.shape
    case Tup(items) => Success(AbstractValue(Tup([Dim(n)] + items), Vec(el.ty), NoData, ctx))
    case Dim(_) => Failure(ShapeError("build"))
  }

  /** Indexing a built vector gives back the element's shape and type. */
  lemma IndexOfBuilt(n: int, el: AbstractValue, ctx: Context)
    requires el.shape.Tup?
    ensures BuildValue(n, el, ctx).Success?
    ensures IndexValue(BuildValue(n, el, ctx).value) == Success(AbstractValue(el.shape, el.ty, NoData, ctx))
  {
    assert ([Dim(n)] + el.shape.items)[1..] == el.shape.items;
  }

  /** The size of a built vector is the number of elements it was built with. */
  lemma SizeOfBuilt(n: int, el: AbstractValue, ctx: Context)
    requires el.shape.Tup?
    ensures BuildValue(n, el, ctx).Success?
    ensures SizeValue(BuildValue(n, el, ctx).value) == Success(FromInt(n, ctx))
  {
  }

  /** A tuple of the arguments: componentwise shapes, types and data. */
  function MakeTupleValue(args: seq<AbstractValue>, ctx: Context): (r: AbstractValue)
    ensures r.shape.Tup? && |r.shape.items| == |args| && r.ty.Tuple? && |r.ty.children| == |args|
    ensures r.data.TupleData? && |r.data.items| == |args|
    ensures forall i :: 0 <= i < |args| ==>
      r.shape.items[i] == args[i].shape && r.ty.children[i] == args[i].ty && r.data.items[i] == args[i].data
  {
    AbstractValue(Tup(seq(|args|, i requires 0 <= i < |args| => args[i].shape)),
                  Tuple(seq(|args|, i requires 0 <= i < |args| => args[i].ty)),
                  TupleData(seq(|args|, i requires 0 <= i < |args| => args[i].data)),
                  ctx)
  }

  /** Component `i` of a tuple: its shape and type, and its data when the tuple's data is a
      tuple. */
  function TupleElementValue(i: nat, tup: AbstractValue): (r: Result<AbstractValue, Error>)
    ensures r.Success? <==> (tup.shape.Tup? && i < |tup.shape.items| && i < |ChildTypes(tup.ty)|
      && (tup.data.TupleData? ==> i < |tup.data.items|))
    ensures r.Success? ==> (r.value.shape == tup.shape.items[i] && r.value.ty == ChildTypes(tup.ty)[i]
      && r.value.context == tup.context
      && r.value.data == (if tup.data.TupleData? then tup.data.items[i] else NoData))
  {
    if !(tup.shape.Tup? && i < |tup.shape.items|) || i >= |ChildTypes(tup.ty)| then
      Failure(ShapeError("select"))
    else if tup.data.TupleData? && i >= |tup.data.items| then
      Failure(ShapeError("select"))
    else
      var data := if tup.data.TupleData? then tup.data.items[i] else NoData;
      Success(AbstractValue(tup.shape.items[i], ChildTypes(tup.ty)[i], data, tup.context))
  }

  /** Selecting component `i` of a tuple built from `args` gives back argument `i`, in the
      tuple's context. */
  lemma TupleRoundTrip(args: seq<AbstractValue>, ctx: Context, i: nat)
    requires i < |args|
    ensures TupleElementValue(i, MakeTupleValue(args, ctx)) ==
      Success(AbstractValue(args[i].shape, args[i].ty, args[i].data, ctx))
  {
  }

  /** The shape an external definition's shape function returns; the number 0 stands for a
      scalar. */
  function NormaliseShape(s: Shape): (r: Shape)
    ensures r != Dim(0)
    ensures s == Dim(0) ==> r == Tup([])
    ensures s != Dim(0) ==> r == s
  {
    if s == Dim(0) then Tup([]) else s
  }

  lemma NormaliseShapeIdempotent(s: Shape)
    ensures NormaliseShape(NormaliseShape(s)) == NormaliseShape(s)
  {
  }

  // ---------------------------------------------------------------------------
  // The primitives, charging the execution context

  /** A build allocates its result and evaluates its body once per element. */
  function BuildCost(config: Config, n: int, innerCost: real): real
  {
    config.buildMallocCost + n as real * innerCost
  }

  method Index(exec: ExecutionContext, i: Arg, v: AbstractValue) returns (r: Result<AbstractValue, Error>)
    modifies exec
    ensures r == IndexValue(v)
    ensures exec.costs == if v.ty.Vec? then old(exec.costs) + [CostEntry("index", v.context, exec.config.indexCost)]
      else old(exec.costs)
  {
    if !v.ty.Vec? {
      return Failure(NotAVector("index"));
    }
    exec.AccumulateCost("index", v.context, exec.config.indexCost);
    r := IndexValue(v);
  }

  method Size(exec: ExecutionContext, v: AbstractValue) returns (r: Result<AbstractValue, Error>)
    modifies exec
    ensures r == SizeValue(v)
    ensures exec.costs == if v.ty.Vec? then old(exec.costs) + [CostEntry("size", v.context, exec.config.sizeCost)]
      else old(exec.costs)
  {
    if !v.ty.Vec? {
      return Failure(NotAVector("size"));
    }
    exec.AccumulateCost("size", v.context, exec.config.sizeCost);
    r := SizeValue(v);
  }

  /** The context of a call with the single argument `a`. */
  function ContextOfArg(a: Arg): Context
  {
    if a.Abstract? then a.v.context else Concrete
  }

  /** A single argument never conflicts with itself; the call takes its context, and a
      plain argument makes the call concrete. */
  lemma SingleArgContext(a: Arg)
    ensures Agree([a]) && CallContext([a]) == ContextOfArg(a)
  {
    if a.Abstract? {
      if a.v.context.Labelled? {
        assert IsLabelled([a][0]);
      } else if a.v.context == Concrete {
        assert !IsLabelled([a][0]);
        assert [a][0].v.context == Concrete;
      } else {
        assert !IsLabelled([a][0]);
        assert !HasConcrete([a]);
      }
    }
  }

  /** The size a build or sumbuild iterates over: the data of `n`, which must be a known
      integer. */
  function BuildSize(op: string, n: Arg): (r: Result<int, Error>)
    ensures r.Success? <==> DataOf(n).IntData?
    ensures r.Success? ==> r.value == DataOf(n).i
    ensures DataOf(n) == NoData ==> r == Failure(UnknownSize(op))
  {
    match DataOf(n)
    case IntData(k) => Success(k)
    case NoData => Failure(UnknownSize(op))
    case _ => Failure(ShapeError(op))
  }

  /**
   * `build n f`: the context comes from `n` alone; `el` and `innerCost` are the value of
   * the body on an abstract index and the cost it charged in a fresh execution context.
   * The build charges its allocation and `n` times the body's cost.
   */
  method Build(exec: ExecutionContext, n: Arg, el: AbstractValue, innerCost: real)
    returns (r: Result<AbstractValue, Error>)
    modifies exec
    ensures BuildSize("build", n).Failure? ==>
      r == Failure(BuildSize("build", n).error) && exec.costs == old(exec.costs)
    ensures BuildSize("build", n).Success? ==>
      r == BuildValue(DataOf(n).i, el, ContextOfArg(n))
      && exec.costs == old(exec.costs)
        + [CostEntry("build", ContextOfArg(n), BuildCost(exec.config, DataOf(n).i, innerCost))]
  {
    SingleArgContext(n);
    var context := CheckArgsAndGetContext("build", [n]);
    if context.Failure? {
      assert false;
    }
    var size := BuildSize("build", n);
    if size.Failure? {
      return Failure(size.error);
    }
    exec.AccumulateCost("build", context.value, BuildCost(exec.config, size.value, innerCost));
    r := BuildValue(size.value, el, context.value);
  }

  /** A sumbuild adds up `n` elements: `n` evaluations of the body and `n - 1` additions of
      elements of `numElements` scalars each. */
  function SumBuildCost(n: int, innerCost: real, numElements: real): real
  {
    n as real * innerCost + (n - 1) as real * numElements
  }

  /**
   * `sumbuild n f`: the sum has the element's shape and type. `numElements` is the number
   * of scalars in a value of the element's type, given the configured vector size.
   */
  method SumBuild(exec: ExecutionContext, n: Arg, el: AbstractValue, innerCost: real, numElements: real)
    returns (r: Result<AbstractValue, Error>)
    modifies exec
    ensures BuildSize("sumbuild", n).Failure? ==>
      r == Failure(BuildSize("sumbuild", n).error) && exec.costs == old(exec.costs)
    ensures BuildSize("sumbuild", n).Success? ==>
      r == Success(AbstractValue(el.shape, el.ty, NoData, ContextOfArg(n)))
      && exec.costs == old(exec.costs)
        + [CostEntry("sumbuild", ContextOfArg(n), SumBuildCost(DataOf(n).i, innerCost, numElements))]
  {
    SingleArgContext(n);
    var context := CheckArgsAndGetContext("sumbuild", [n]);
    if context.Failure? {
      assert false;
    }
    var size := BuildSize("sumbuild", n);
    if size.Failure? {
      return Failure(size.error);
    }
    exec.AccumulateCost("sumbuild", context.value, SumBuildCost(size.value, innerCost, numElements));
    r := Success(AbstractValue(el.shape, el.ty, NoData, context.value));
  }

  /** A sumbuild of one element costs exactly one evaluation of its body, and each further
      element adds one evaluation and one addition. */
  lemma SumBuildCostGrows(n: int, innerCost: real, numElements: real)
    ensures SumBuildCost(1, innerCost, numElements) == innerCost
    ensures SumBuildCost(n + 1, innerCost, numElements) == SumBuildCost(n, innerCost, numElements) + innerCost + numElements
  {
  }

  /** Fold is not implemented by the abstract backend. */
  function Fold(f: Arg, s0: Arg, xs: Arg): (r: Result<AbstractValue, Error>)
    ensures r == Failure(NotImplemented("fold"))
  {
    Failure(NotImplemented("fold"))
  }

  /** The arguments of a call, all abstract. */
  function AsArgs(vs: seq<AbstractValue>): (r: seq<Arg>)
    ensures |r| == |vs| && forall i :: 0 <= i < |vs| ==> r[i] == Abstract(vs[i])
  {
    seq(|vs|, i requires 0 <= i < |vs| => Abstract(vs[i]))
  }

  /** `make_tuple`: a tuple of the arguments in the context they agree on, charging one
      `let_cost` per component. */
  method MakeTuple(exec: ExecutionContext, args: seq<AbstractValue>) returns (r: Result<AbstractValue, Error>)
    modifies exec
    ensures r.Success? <==> Agree(AsArgs(args))
    ensures r.Failure? ==> r.error.ContextMismatch? && exec.costs == old(exec.costs)
    ensures r.Success? ==> (r.value == MakeTupleValue(args, CallContext(AsArgs(args)))
      && exec.costs == old(exec.costs)
        + [CostEntry("tuple", CallContext(AsArgs(args)), exec.config.letCost * |args| as real)])
  {
    var context := CheckArgsAndGetContext("tuple", AsArgs(args));
    if context.Failure? {
      return Failure(context.error);
    }
    exec.AccumulateCost("tuple", context.value, exec.config.letCost * |args| as real);
    r := Success(MakeTupleValue(args, context.value));
  }

  /** The context of a call with some abstract argument is the context of one of them. */
  lemma AgreedContextFromArgs(args: seq<Arg>)
    requires Agree(args) && !NoneAbstract(args)
    ensures exists i :: 0 <= i < |args| && args[i].Abstract? && args[i].v.context == CallContext(args)
  {
    if exists i :: 0 <= i < |args| && IsLabelled(args[i]) {
    } else if HasConcrete(args) {
    } else {
      var i :| 0 <= i < |args| && args[i].Abstract?;
      assert args[i].v.context == NoContext;
    }
  }

  /** `get_tuple_element`: component `i` of `tup`, charging `select_cost` when it exists. */
  method GetTupleElement(exec: ExecutionContext, i: nat, tup: AbstractValue) returns (r: Result<AbstractValue, Error>)
    modifies exec
    ensures r == TupleElementValue(i, tup)
    ensures exec.costs == if r.Success? then old(exec.costs) + [CostEntry("select", tup.context, exec.config.selectCost)]
      else old(exec.costs)
  {
    r := TupleElementValue(i, tup);
    if r.Success? {
      exec.AccumulateCost("select", tup.context, exec.config.selectCost);
    }
  }

  /** `let var body`: charges `let_cost` in the context of the bound value, then evaluates
      the body on it. */
  method LetBinding(exec: ExecutionContext, bound: Arg, body: Arg -> Arg) returns (r: Arg)
    modifies exec
    ensures r == body(bound)
    ensures exec.costs == old(exec.costs) + [CostEntry("let", ContextOfArg(bound), exec.config.letCost)]
  {
    SingleArgContext(bound);
    var context := CheckArgsAndGetContext("let", [bound]);
    if context.Failure? {
      assert false;
    }
    exec.AccumulateCost("let", context.value, exec.config.letCost);
    r := body(bound);
  }
}

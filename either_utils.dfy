/**
 * EitherUtils: combinators that build functions. Left is the value that flows
 * on and Right the one that short-circuits, as Bind treats them.
 */
module EitherUtils {
  import opened EitherType
  import opened EitherExtensions

  /**
   * Bind(func): a Left is handed to `func`, a Right is passed through
   * unchanged without calling `func`.
   */
  function Bind<A(!new), B, C(!new)>(func: A -> Either<B, C>): (bound: Either<A, C> -> Either<B, C>)
    ensures forall a :: bound(Left(a)) == func(a)
    ensures forall c :: bound(Right(c)) == Right(c)
  {
    e => Match(e, (a: A) => func(a), (c: C) => FromRight<B, C>(c))
  }

  /** Binding the Left constructor changes nothing. */
  lemma BindLeftConstructorIsIdentity<A(!new), C(!new)>(e: Either<A, C>)
    ensures Bind((a: A) => FromLeft<A, C>(a))(e) == e
  {
  }

  /** Binding twice is binding once with the composite: Bind is associative. */
  lemma BindAssociative<A(!new), B(!new), D, C(!new)>(f: A -> Either<B, C>, g: B -> Either<D, C>, e: Either<A, C>)
    ensures Bind(g)(Bind(f)(e)) == Bind((a: A) => Bind(g)(f(a)))(e)
  {
    if e.Left? {
      assert Bind(f)(e) == f(e.left);
    }
  }

  /**
   * ReturnParam(action): calls the action for its effect and returns the
   * argument. Actions here have no visible effect, so only the returned value
   * is modelled.
   */
  function ReturnParam<T(!new)>(action: T -> ()): (f: T -> T)
    ensures forall x :: f(x) == x
  {
    arg => var _ := action(arg); arg
  }

  /** ReturnEitherLeft(func): the function's result, wrapped as a Left. */
  function ReturnEitherLeft<A(!new), B>(func: A -> A): (f: A -> Either<A, B>)
    ensures forall x :: f(x) == Left(func(x))
  {
    arg => FromLeft<A, B>(func(arg))
  }

  /** Identity(func): the function itself. */
  function Identity<A, B, C>(func: A -> Either<B, C>): (f: A -> Either<B, C>)
    ensures f == func
  {
    func
  }

  /** gn(...g2(g1(v))): the functions applied to `v` in the order given. */
  function ApplyInOrder<B>(funcs: seq<B -> B>, v: B): B
    decreases |funcs|
  {
    if funcs == [] then v else funcs[|funcs| - 1](ApplyInOrder(funcs[..|funcs| - 1], v))
  }

  /** The first function is applied first: the fold runs from the left. */
  lemma {:induction false} ApplyInOrderCons<B>(g: B -> B, funcs: seq<B -> B>, v: B)
    ensures ApplyInOrder([g] + funcs, v) == ApplyInOrder(funcs, g(v))
    decreases |funcs|
  {
    if funcs != [] {
      var init := funcs[..|funcs| - 1];
      assert ([g] + funcs)[..|[g] + funcs| - 1] == [g] + init;
      ApplyInOrderCons(g, init, v);
    } else {
      assert ([g] + funcs)[..0] == [];
    }
  }

  /** Applying `a` and then `b` is applying their concatenation. */
  lemma {:induction false} ApplyInOrderAppend<B>(a: seq<B -> B>, b: seq<B -> B>, v: B)
    ensures ApplyInOrder(a + b, v) == ApplyInOrder(b, ApplyInOrder(a, v))
    decreases |b|
  {
    if b == [] {
      assert a + b == a;
    } else {
      assert (a + b)[..|a + b| - 1] == a + b[..|b| - 1];
      ApplyInOrderAppend(a, b[..|b| - 1], v);
    }
  }

  /**
   * What the function Combine returns computes for `arg`: the source's loop,
   * which starts from firstFunc(arg) and replaces the value with each further
   * function's result, in order.
   */
  method CombineInvoke<A, B>(firstFunc: A -> B, moreFuncs: seq<B -> B>, arg: A) returns (ret: B)
    ensures ret == ApplyInOrder(moreFuncs, firstFunc(arg))
  {
    ret := firstFunc(arg);
    for i := 0 to |moreFuncs|
      invariant ret == ApplyInOrder(moreFuncs[..i], firstFunc(arg))
    {
      assert moreFuncs[..i + 1][..i] == moreFuncs[..i];
      ret := moreFuncs[i](ret);
    }
    assert moreFuncs[..|moreFuncs|] == moreFuncs;
  }

  /** Combine(firstFunc, moreFuncs): firstFunc, then each of moreFuncs in order. */
  function Combine<A(!new), B>(firstFunc: A -> B, moreFuncs: seq<B -> B>): (f: A -> B)
    ensures moreFuncs == [] ==> forall x :: f(x) == firstFunc(x)
  {
    arg => ApplyInOrder(moreFuncs, firstFunc(arg))
  }

  /** One more function at the end is applied last, to the combined result. */
  lemma CombineSnoc<A(!new), B>(firstFunc: A -> B, moreFuncs: seq<B -> B>, g: B -> B, x: A)
    ensures Combine(firstFunc, moreFuncs + [g])(x) == g(Combine(firstFunc, moreFuncs)(x))
  {
    assert (moreFuncs + [g])[..|moreFuncs|] == moreFuncs;
  }

  /** The first of moreFuncs is applied right after firstFunc: Combine(f, g, h, ...) is Combine(g after f, h, ...). */
  lemma CombineHead<A(!new), B>(firstFunc: A -> B, g: B -> B, moreFuncs: seq<B -> B>, x: A)
    ensures Combine(firstFunc, [g] + moreFuncs)(x) == Combine((a: A) => g(firstFunc(a)), moreFuncs)(x)
  {
    ApplyInOrderCons(g, moreFuncs, firstFunc(x));
  }
}

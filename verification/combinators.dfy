/** The combinator algebra over context-requiring computations.

    A computation is a function from a context to a `Result`; a failing
    lookup becomes `Err(Missing(id))` and travels out through every
    combinator, as the source's `KeyError` does. Combinators that run two
    computations run them against the same context, in the order stated.
 */
module Combinators {
  import opened Results
  import opened Tags
  import opened Contexts
  import Defer

  /** `RequiresContext[T, A]`. */
  type Comp<!V, A> = Context<V> -> Result<A>

  /** Two computations agree on every context. */
  ghost predicate Equiv<V(!new), A>(m1: Comp<V, A>, m2: Comp<V, A>) {
    forall c :: Run(c, m1) == Run(c, m2)
  }

  /** `pure(a)`: ignore the context, yield `a`. */
  function Pure<V(!new), A>(a: A): (m: Comp<V, A>)
    ensures forall c :: m(c) == Ok(a)
  {
    _ => Ok(a)
  }

  /** `ask(t)`: the service stored under `t`'s id, or a missing-service failure. */
  function Ask<V(!new)>(t: Tag): (m: Comp<V, V>)
    ensures forall c :: t.id in c ==> m(c) == Ok(c[t.id])
    ensures forall c :: t.id !in c ==> m(c) == Err(Missing(t.id))
  {
    c => if t.id in c then Ok(c[t.id]) else Err(Missing(t.id))
  }

  /** `map(ma, f)`: run `ma`, transform its value with `f`; a failure passes through. */
  function Map<V(!new), A, B>(ma: Comp<V, A>, f: A -> B): (m: Comp<V, B>)
    ensures forall c :: m(c).Ok? <==> ma(c).Ok?
    ensures forall c :: ma(c).Ok? ==> m(c).value == f(ma(c).value)
    ensures forall c :: ma(c).Err? ==> m(c).error == ma(c).error
  {
    c => match ma(c)
         case Ok(a) => Ok(f(a))
         case Err(e) => Err(e)
  }

  /** `bind(ma, f)`: run `ma`, then run `f` of its value against the same context. */
  function Bind<V(!new), A, B>(ma: Comp<V, A>, f: A -> Comp<V, B>): (m: Comp<V, B>)
    ensures forall c :: ma(c).Ok? ==> m(c) == f(ma(c).value)(c)
    ensures forall c :: ma(c).Err? ==> m(c) == Err(ma(c).error)
  {
    c => match ma(c)
         case Ok(a) => f(a)(c)
         case Err(e) => Err(e)
  }

  /** `apply(mab, ma)`: run `ma` first, then `mab`, and apply the function to the value. */
  function Apply<V(!new), A, B>(mab: Comp<V, A -> B>, ma: Comp<V, A>): (m: Comp<V, B>)
    ensures forall c :: ma(c).Err? ==> m(c) == Err(ma(c).error)
    ensures forall c :: ma(c).Ok? && mab(c).Err? ==> m(c) == Err(mab(c).error)
    ensures forall c :: ma(c).Ok? && mab(c).Ok? ==> m(c) == Ok(mab(c).value(ma(c).value))
  {
    c => match ma(c)
         case Err(e) => Err(e)
         case Ok(a) =>
           match mab(c)
           case Err(e) => Err(e)
           case Ok(f) => Ok(f(a))
  }

  /** `then(ma, mb)`, built as in the source from `apply` and `map`:
      run `ma`, then `mb`, and keep `ma`'s value. */
  function Then<V(!new), A, B>(ma: Comp<V, A>, mb: Comp<V, B>): (m: Comp<V, A>)
    ensures forall c :: m(c).Ok? <==> ma(c).Ok? && mb(c).Ok?
    ensures forall c :: m(c).Ok? ==> m(c).value == ma(c).value
    ensures forall c :: ma(c).Err? ==> m(c) == Err(ma(c).error)
    ensures forall c :: ma(c).Ok? && mb(c).Err? ==> m(c) == Err(mb(c).error)
  {
    Apply(Map(mb, (_: B) => (b: A) => b), ma)
  }

  /** `asks(f, t)`: look `t` up and transform the service with `f`. */
  function Asks<V(!new), A>(f: V -> A, t: Tag): (m: Comp<V, A>)
    ensures forall c :: t.id in c ==> m(c) == Ok(f(c[t.id]))
    ensures forall c :: t.id !in c ==> m(c) == Err(Missing(t.id))
  {
    Map(Ask(t), f)
  }

  /** `with_service(f, t)`: a function of the remaining arguments whose
      first argument is looked up under `t` when the computation runs. */
  function WithService<V(!new), P(!new), A>(f: (V, P) -> A, t: Tag): (g: P -> Comp<V, A>)
    ensures forall args, c :: t.id in c ==> g(args)(c) == Ok(f(c[t.id], args))
    ensures forall args, c :: t.id !in c ==> g(args)(c) == Err(Missing(t.id))
  {
    args => c => if t.id in c then Ok(f(c[t.id], args)) else Err(Missing(t.id))
  }

  // ---------------------------------------------------------------------
  // traverse
  // ---------------------------------------------------------------------

  /** `f(xs[i])` succeeds on `c` for every `i` below `n`. */
  ghost predicate AllOkBelow<V, A, B>(c: Context<V>, xs: seq<A>, f: A -> Comp<V, B>, n: int)
    requires 0 <= n <= |xs|
  {
    forall i :: 0 <= i < n ==> f(xs[i])(c).Ok?
  }

  /** The list comprehension `[c.run(f(x)) for x in xs]`: elements run in
      order, the first failure ends the whole run. */
  function TraverseOn<V, A, B>(c: Context<V>, xs: seq<A>, f: A -> Comp<V, B>): (r: Result<seq<B>>)
    ensures r.Ok? <==> AllOkBelow(c, xs, f, |xs|)
    ensures r.Ok? ==> |r.value| == |xs| && forall i :: 0 <= i < |xs| ==> r.value[i] == f(xs[i])(c).value
    ensures r.Err? ==> exists i :: 0 <= i < |xs| && AllOkBelow(c, xs, f, i) && f(xs[i])(c) == Err(r.error)
  {
    if |xs| == 0 then Ok([])
    else
      match f(xs[0])(c)
      case Err(e) =>
        assert AllOkBelow(c, xs, f, 0);
        Err(e)
      case Ok(b) =>
        var rest := TraverseOn(c, xs[1..], f);
        assert forall i :: 1 <= i < |xs| ==> xs[1..][i - 1] == xs[i];
        match rest
        case Err(e) =>
          FailureInTail(c, xs, f, e);
          Err(e)
        case Ok(bs) => Ok([b] + bs)
  }

  /** A failure found in the tail is a first failure of the whole input
      once the head has succeeded. */
  lemma FailureInTail<V, A, B>(c: Context<V>, xs: seq<A>, f: A -> Comp<V, B>, e: Error)
    requires |xs| > 0 && f(xs[0])(c).Ok?
    requires exists i :: 0 <= i < |xs| - 1 && AllOkBelow(c, xs[1..], f, i) && f(xs[1..][i])(c) == Err(e)
    ensures exists i :: 0 <= i < |xs| && AllOkBelow(c, xs, f, i) && f(xs[i])(c) == Err(e)
  {
    var i :| 0 <= i < |xs| - 1 && AllOkBelow(c, xs[1..], f, i) && f(xs[1..][i])(c) == Err(e);
    assert forall j :: 1 <= j < |xs| ==> xs[1..][j - 1] == xs[j];
    assert AllOkBelow(c, xs, f, i + 1);
  }

  /** `traverse(xs, f)`. */
  function Traverse<V(!new), A, B>(xs: seq<A>, f: A -> Comp<V, B>): (m: Comp<V, seq<B>>)
    ensures forall c :: m(c).Ok? <==> AllOkBelow(c, xs, f, |xs|)
    ensures forall c :: m(c).Ok? ==>
      && |m(c).value| == |xs|
      && forall i :: 0 <= i < |xs| ==> f(xs[i])(c).Ok? && m(c).value[i] == f(xs[i])(c).value
    ensures forall c :: m(c).Err? ==>
      exists i :: 0 <= i < |xs| && AllOkBelow(c, xs, f, i) && f(xs[i])(c) == Err(m(c).error)
  {
    c => TraverseOn(c, xs, f)
  }

  /** The comprehension as a loop: the value list grows by one element per
      input, and the first failure is returned at once. */
  method RunTraverse<V, A, B>(c: Context<V>, xs: seq<A>, f: A -> Comp<V, B>) returns (r: Result<seq<B>>)
    ensures r == TraverseOn(c, xs, f)
    ensures r.Ok? ==> |r.value| == |xs|
  {
    var acc: seq<B> := [];
    var k := 0;
    while k < |xs|
      invariant 0 <= k <= |xs|
      invariant AllOkBelow(c, xs, f, k)
      invariant |acc| == k
      invariant forall i :: 0 <= i < k ==> acc[i] == f(xs[i])(c).value
    {
      var step := f(xs[k])(c);
      if step.Err? {
        TraverseFirstFailure(c, xs, f, k);
        return Err(step.error);
      }
      acc := acc + [step.value];
      k := k + 1;
    }
    r := Ok(acc);
    assert acc == TraverseOn(c, xs, f).value;
  }

  /** When every element before `k` succeeds and element `k` fails, the
      traversal fails with element `k`'s error. */
  lemma TraverseFirstFailure<V, A, B>(c: Context<V>, xs: seq<A>, f: A -> Comp<V, B>, k: int)
    requires 0 <= k < |xs|
    requires AllOkBelow(c, xs, f, k) && f(xs[k])(c).Err?
    ensures TraverseOn(c, xs, f) == Err(f(xs[k])(c).error)
  {
    var r := TraverseOn(c, xs, f);
    assert !AllOkBelow(c, xs, f, |xs|);
    var i :| 0 <= i < |xs| && AllOkBelow(c, xs, f, i) && f(xs[i])(c) == Err(r.error);
    assert f(xs[i])(c).Err? && f(xs[k])(c).Err?;
    assert i == k;
  }

  // ---------------------------------------------------------------------
  // Laws
  // ---------------------------------------------------------------------

  /** Functor identity: mapping the identity changes nothing. */
  lemma MapIdentity<V(!new), A>(ma: Comp<V, A>)
    ensures Equiv(Map(ma, (a: A) => a), ma)
  {
  }

  /** Functor composition: mapping `g . f` is mapping `f` then mapping `g`. */
  lemma MapComposition<V(!new), A, B, C>(ma: Comp<V, A>, f: A -> B, g: B -> C)
    ensures Equiv(Map(ma, (a: A) => g(f(a))), Map(Map(ma, f), g))
  {
  }

  /** Monad left identity. */
  lemma BindLeftIdentity<V(!new), A, B>(a: A, f: A -> Comp<V, B>)
    ensures Equiv(Bind(Pure(a), f), f(a))
  {
  }

  /** Monad right identity. */
  lemma BindRightIdentity<V(!new), A>(ma: Comp<V, A>)
    ensures Equiv(Bind(ma, (a: A) => Pure(a)), ma)
  {
    forall c ensures Run(c, Bind(ma, (a: A) => Pure(a))) == Run(c, ma) {
      if ma(c).Err? {
        assert Run(c, ma) == Err(ma(c).error);
      }
    }
  }

  /** Monad associativity. */
  lemma BindAssociativity<V(!new), A, B, C>(ma: Comp<V, A>, f: A -> Comp<V, B>, g: B -> Comp<V, C>)
    ensures Equiv(Bind(Bind(ma, f), g), Bind(ma, (a: A) => Bind(f(a), g)))
  {
  }

  /** `apply` is bind-then-map with the value computation first: an
      independent description of the same computation. */
  lemma ApplyIsBindMap<V(!new), A, B>(mab: Comp<V, A -> B>, ma: Comp<V, A>)
    ensures Equiv(Apply(mab, ma), Bind(ma, (a: A) => Map(mab, (h: A -> B) => h(a))))
  {
  }

  /** `apply(pure(f), ask(t))` is `f` of the service under `t`. */
  lemma ApplyPureAsk<V(!new), B>(f: V -> B, t: Tag, c: Context<V>)
    ensures t.id in c ==> Run(c, Apply(Pure(f), Ask(t))) == Ok(f(c[t.id]))
    ensures t.id !in c ==> Run(c, Apply(Pure(f), Ask(t))) == Err(Missing(t.id))
  {
  }

  /** `then` is `bind` that discards the second value. */
  lemma ThenIsBind<V(!new), A, B>(ma: Comp<V, A>, mb: Comp<V, B>)
    ensures Equiv(Then(ma, mb), Bind(ma, (a: A) => Map(mb, (_: B) => a)))
  {
  }

  /** `with_service(f, t)(args)` is `ask(t)` mapped through `f(_, args)`. */
  lemma WithServiceIsAsks<V(!new), P(!new), A>(f: (V, P) -> A, t: Tag, args: P)
    ensures Equiv(WithService(f, t)(args), Map(Ask(t), (s: V) => f(s, args)))
  {
  }

  /** Traversing a concatenation traverses the first part, then the second,
      and concatenates the values. */
  lemma {:induction false} TraverseAppend<V(!new), A, B>(xs: seq<A>, ys: seq<A>, f: A -> Comp<V, B>, c: Context<V>)
    ensures TraverseOn(c, xs + ys, f)
         == Bind(Traverse(xs, f), (bs: seq<B>) => Map(Traverse(ys, f), (cs: seq<B>) => bs + cs))(c)
  {
    if |xs| > 0 {
      assert (xs + ys)[1..] == xs[1..] + ys;
      assert (xs + ys)[0] == xs[0];
      TraverseAppend(xs[1..], ys, f, c);
      match f(xs[0])(c)
      case Err(_) =>
      case Ok(b) =>
        match TraverseOn(c, xs[1..], f)
        case Err(_) =>
        case Ok(bs) =>
          match TraverseOn(c, ys, f)
          case Err(_) =>
          case Ok(cs) =>
            assert [b] + (bs + cs) == ([b] + bs) + cs;
    } else {
      assert xs + ys == ys;
      match TraverseOn(c, ys, f)
      case Err(_) =>
      case Ok(cs) =>
        assert [] + cs == cs;
    }
  }

  /** Traversing with a service-scaled function: every element is multiplied
      by the service under `t`, in input order. */
  lemma TraverseScale(xs: seq<int>, t: Tag, k: int)
    ensures Run(Of(k, t), Traverse(xs, WithService((a: int, b: int) => a * b, t)))
         == Ok(seq(|xs|, i requires 0 <= i < |xs| => k * xs[i]))
  {
    var f := WithService((a: int, b: int) => a * b, t);
    var c := Of(k, t);
    assert forall i :: 0 <= i < |xs| ==> f(xs[i])(c) == Ok(k * xs[i]);
    assert AllOkBelow(c, xs, f, |xs|);
    var r := TraverseOn(c, xs, f);
    assert r.value == seq(|xs|, i requires 0 <= i < |xs| => k * xs[i]);
  }

  /** The data-last forms produced by `defer` agree with the direct calls.
      For `then` this swaps the roles: `then(x)(y)` is `then(y, x)`, which
      runs `y` before `x` and yields `y`'s value. */
  lemma DataLastForms<V(!new), A(!new), B(!new)>(ma: Comp<V, A>, f: A -> B, g: A -> Comp<V, B>, x: Comp<V, A>, y: Comp<V, A>)
    ensures Defer.Defer((m: Comp<V, A>, h: A -> B) => Map(m, h))(f)(ma) == Map(ma, f)
    ensures Defer.Defer((m: Comp<V, A>, h: A -> Comp<V, B>) => Bind(m, h))(g)(ma) == Bind(ma, g)
    ensures Defer.Defer((m: Comp<V, A>, n: Comp<V, A>) => Then(m, n))(x)(y) == Then(y, x)
  {
  }
}

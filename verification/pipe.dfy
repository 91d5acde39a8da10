/** Left-to-right function composition (`compose`) and application (`pipe`).

    The source is dynamically typed and chains functions of varying types;
    the model chains functions of one type `T`.
 */
module Pipe {

  /** The reference meaning of a chain `[op1, ..., opN]` applied to `x`:
      `opN(...op2(op1(x)))`, built from the outermost call inwards. */
  function Nest<T>(ops: seq<T -> T>, x: T): T
  {
    if |ops| == 0 then x else ops[|ops| - 1](Nest(ops[..|ops| - 1], x))
  }

  /** Peeling off the first operator: the rest of the chain nests over
      `op1(x)`. */
  lemma {:induction false} NestFirst<T>(ops: seq<T -> T>, x: T)
    requires |ops| > 0
    ensures Nest(ops, x) == Nest(ops[1..], ops[0](x))
  {
    var n := |ops| - 1;
    if n == 0 {
      assert ops[..0] == [] && ops[1..] == [];
    } else {
      NestFirst(ops[..n], x);
      assert ops[..n][1..] == ops[1..][..n - 1];
      assert ops[..n][0] == ops[0];
      assert ops[1..][n - 1] == ops[n];
    }
  }

  /** The left fold `reduce(lambda obs, op: op(obs), ops, x)`: feed the
      running value through each operator in turn, which applies them in
      exactly the nesting order. */
  function Fold<T>(ops: seq<T -> T>, x: T): (r: T)
    ensures r == Nest(ops, x)
  {
    if |ops| == 0 then x
    else
      NestFirst(ops, x);
      Fold(ops[1..], ops[0](x))
  }

  /** Folding over a concatenation folds over the second part from where
      the first part left off. */
  lemma {:induction false} FoldAppend<T>(fs: seq<T -> T>, gs: seq<T -> T>, x: T)
    ensures Fold(fs + gs, x) == Fold(gs, Fold(fs, x))
  {
    if |fs| > 0 {
      assert (fs + gs)[1..] == fs[1..] + gs;
      FoldAppend(fs[1..], gs, fs[0](x));
    } else {
      assert fs + gs == gs;
    }
  }

  /** `compose(*ops)`: one function running every operator, left to right. */
  function Compose<T(!new)>(ops: seq<T -> T>): (h: T -> T)
    ensures forall x :: h(x) == Nest(ops, x)
    ensures |ops| == 0 ==> forall x :: h(x) == x
  {
    x => Fold(ops, x)
  }

  /** `pipe(value, *fns)`: `value` run through `compose(*fns)`. */
  function Pipe<T(!new)>(value: T, fns: seq<T -> T>): (r: T)
    ensures r == Nest(fns, value)
    ensures |fns| == 0 ==> r == value
  {
    Compose(fns)(value)
  }

  /** Composing `fs ++ gs` runs `compose(fs)` first and `compose(gs)` on its result. */
  lemma ComposeAppend<T(!new)>(fs: seq<T -> T>, gs: seq<T -> T>, x: T)
    ensures Compose(fs + gs)(x) == Compose(gs)(Compose(fs)(x))
  {
    FoldAppend(fs, gs, x);
  }

  /** The documented small cases: each operator once, in argument order. */
  lemma ComposeSmall<T(!new)>(f: T -> T, g: T -> T, h: T -> T, x: T)
    ensures Compose([f])(x) == f(x)
    ensures Compose([f, g])(x) == g(f(x))
    ensures Compose([f, g, h])(x) == h(g(f(x)))
    ensures Pipe(x, [f, g]) == g(f(x))
  {
    assert [f][..0] == [];
    assert Nest([f], x) == f(Nest([], x));
    assert [f, g][..1] == [f];
    assert [f, g, h][..2] == [f, g];
  }
}

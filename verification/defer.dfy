/** `defer`: move a function's first parameter to a trailing curried call.

    `P` stands for everything else the caller passes (positional and keyword
    arguments alike); it reaches `f` untouched. `f` may be partial (`-->`):
    building `defer(f)(args)` places no demand on `f`, which is the model's
    way of saying `f` is not called before the final argument arrives.
 */
module Defer {

  function Defer<A(!new), P(!new), B>(f: (A, P) --> B): (g: P -> (A --> B))
    ensures forall args, a :: f.requires(a, args) ==> g(args).requires(a)
    ensures forall args, a :: f.requires(a, args) ==> g(args)(a) == f(a, args)
  {
    args => (a requires f.requires(a, args) => f(a, args))
  }
}

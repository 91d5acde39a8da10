# A Dafny model of a Reader-style dependency-injection library

The library lets pure functions declare the services they need and get
them later from an explicit, immutable context. This project models its
core and proves the properties the library promises:

- **Context store** (`Contexts`). A context maps tag ids to service values,
  `map<string, V>`. It is built with `of`, `from_pairs` and `from_dict`,
  combined with `join` and `extend`, and consumed by `run` (`Contexts.Run`
  applies the computation to the context). Every operation returns a new map,
  so the frozen-dataclass guarantee holds by construction: no operation
  changes a context it is given.
- **Tags** (`Tags`). A tag is its id string. Auto-generated ids come from
  one counter that starts at 0 and is shared by every tag. The model threads
  that counter explicitly as an `IdGen` state and renders its value in
  decimal with `NatToString`.
- **Combinator algebra** (`Combinators`). A computation is
  `Context<V> -> Result<A>`. A failed lookup becomes `Err(Missing(id))`,
  which stands for Python's `KeyError`. The module covers `pure`, `ask`,
  `asks`, `map`, `bind`, `apply`, `then`, `traverse` and `with_service`.
  It proves the functor and monad laws extensionally, as `Equiv`: equal
  results under `Run` on every context.
- **`requires`/`use`** (`Driver`). The generator is replaced by an explicit
  program, `Done(result) | Need(tag, resume)`. `Drive` is the driver loop.
  Resuming is not structurally smaller, so `Drive` takes a resumption budget
  (`fuel`). The driver's re-raised `KeyError` is
  `Err(NotFound(id, available ids))`.
- **Helpers.** `Pipe` models `compose`/`pipe` as the source's left fold.
  `Defer` models `defer`, which moves the first parameter to a trailing
  curried call.

The package exists in two behaviourally identical copies, `context/` and
`monadic_context/`. They differ only in typing imports and docstrings, so
one module models both. The rows below cite whichever copy the property is
drawn from. `monadic_context/defer.py:16-23` is the same function as
`context/defer.py:6-13`.

Where the source's type annotations and its code disagree, the model
follows the code:

- `then(ma, mb)` is annotated to return `RequiresContext[T, B]`, which is
  `mb`'s type (context/context.py:69, monadic_context/context.py:84). The
  code builds it as `apply(map(mb, _ -> (b -> b)), ma)` (context/context.py:70-74).
  It therefore runs `ma`, then `mb`, and yields **`ma`'s** value.
  `Combinators.Then` states that behaviour. The curried form is
  `then(x)(y) = then(y, x)`: it runs `y` first and yields `y`'s value.
  `Combinators.DataLastForms` proves this form.

Auto-generated ids and explicit ids share one namespace. `Tag.new("0")`
aliases the first auto-generated tag, because the source performs no
check.

## Model

| member | source | states |
|---|---|---|
| Tags.New | monadic_context/context.py:212-214 | `Tag.new(id)` carries exactly `id`, and any tag with that id is equal to it |
| Tags.NatToString | monadic_context/context.py:198-200 | `str(n)` on the counter is a non-empty run of decimal digits with no leading zero |
| Tags.ParseNatToString | monadic_context/context.py:200 | reading the decimal id back gives the counter value (round trip) |
| Tags.NatToStringInjective | monadic_context/context.py:198-200 | distinct counter values never render to the same id |
| Tags.Fresh | monadic_context/context.py:198-210 | a default-constructed tag takes an id never issued before, the issued set grows by exactly that id, and the id is the decimal of the counter value |
| Tags.FreshTags | monadic_context/context.py:198-210 | `n` successive default tags have pairwise distinct ids, none issued before |
| Tags.FreshTagsDistinct | monadic_context/context.py:210 | two tags drawn one after another from the shared counter are different tags |
| Tags.FirstIds | monadic_context/context.py:198-200 | the counter starts at 0: the first ids are "0" then "1" |
| Contexts.Run | context/context.py:123-124 | `run` hands this very context to the computation: the result is the computation applied to it, with no copying and no other input |
| Contexts.Empty | context/context.py:121 | a context built with no arguments holds no ids |
| Contexts.Join | context/context.py:126-129 | `join` holds every id of both operands, the right operand's value wins on a shared id, and the left one's value is kept elsewhere |
| Contexts.Extend | context/context.py:131-132 | `extend(t, s)` binds `t`'s id to `s`, adds no other id and keeps every other entry |
| Contexts.Of | context/context.py:135-139 | `of(s, t)` holds exactly `t`'s id, bound to `s` |
| Contexts.InsertLast | context/context.py:151 | inserting the last pair into the context built from the earlier pairs gives the context the whole sequence describes |
| Contexts.FromPairs | context/context.py:148-151 | `from_pairs` holds exactly the ids the pairs name, each bound to the service of the last pair with that id |
| Contexts.FromDict | monadic_context/context.py:154-157 | `from_dict` holds a tag's id exactly when the dict holds the tag, bound to the dict's service |
| Contexts.FromDictIsFromPairs | monadic_context/context.py:154-163 | for every iteration order of the dict's items, `from_dict` equals `from_pairs` over them |
| Contexts.OfIsSinglePair | context/context.py:135-151 | `of(s, t)` equals the one-pair `from_pairs` and `extend` of the empty context |
| Contexts.ExtendIsJoinOf | context/context.py:126-139 | `extend(t, s)` equals `join` with `of(s, t)` |
| Contexts.JoinMonoid | context/context.py:126-129 | `join` is associative, with the empty context as unit on both sides |
| Contexts.OverrideExamples | context/context.py:126-139 | joining `of(x, t)` with `of(y, t)` resolves `t` to `y`, and extending with `z` resolves it to `z` |
| Contexts.OfDataLast | context/context.py:135-139 | the data-last form `of(t)(s)` equals `of(s, t)` |
| Combinators.Pure | context/context.py:16-22 | `pure(a)` yields `a` on every context |
| Combinators.Ask | context/context.py:89-93 | `ask(t)` yields the stored service when `t`'s id is present and fails with missing(`t`'s id) otherwise |
| Combinators.Map | context/context.py:25-34 | `map(ma, f)` succeeds exactly when `ma` does, with `f` of its value, and otherwise passes `ma`'s error through |
| Combinators.Bind | context/context.py:37-48 | `bind(ma, f)` runs `f(a)` on the same context once `ma` yields `a`, and fails with `ma`'s error otherwise |
| Combinators.Apply | monadic_context/context.py:66-77 | `apply(mab, ma)` runs `ma` first, then `mab` on the same context, and yields the function applied to the value; the first failure wins |
| Combinators.Then | monadic_context/context.py:80-89 | `then(ma, mb)` succeeds exactly when both do, yields `ma`'s value, and reports `ma`'s failure before `mb`'s |
| Combinators.Asks | monadic_context/context.py:111-116 | `asks(f, t)` yields `f` of the service under `t`, or fails with missing(`t`'s id) |
| Combinators.WithService | monadic_context/context.py:119-128 | `with_service(f, t)(args)` on `c` yields `f(c[t.id], args)`, and fails with missing(`t`'s id) if the id is absent |
| Combinators.FailureInTail | context/context.py:84 | a first failure in the tail is the first failure of the whole list once the head has succeeded |
| Combinators.TraverseOn | context/context.py:77-86 | `traverse` succeeds exactly when every element's computation does; its list has one element per input, in input order; a failure is the error of the first failing element |
| Combinators.Traverse | context/context.py:77-86 | the `traverse(xs, f)` computation has the same characterisation on every context |
| Combinators.RunTraverse | context/context.py:84 | the comprehension as a loop grows the value list in order and stops at the first failure, agreeing with `traverse` |
| Combinators.TraverseFirstFailure | context/context.py:84 | when every element before `k` succeeds and element `k` fails, `traverse` fails with element `k`'s error |
| Combinators.MapIdentity | context/context.py:25-34 | functor identity: mapping the identity function is equivalent to the original computation |
| Combinators.MapComposition | context/context.py:25-34 | functor composition: mapping `g . f` is equivalent to mapping `f` then `g` |
| Combinators.BindLeftIdentity | context/context.py:37-48 | `bind(pure(a), f)` is equivalent to `f(a)` |
| Combinators.BindRightIdentity | context/context.py:37-48 | `bind(ma, pure)` is equivalent to `ma` |
| Combinators.BindAssociativity | context/context.py:37-48 | `bind(bind(ma, f), g)` is equivalent to `bind(ma, x -> bind(f(x), g))` |
| Combinators.ApplyIsBindMap | monadic_context/context.py:66-77 | `apply(mab, ma)` is equivalent to binding `ma`'s value and mapping `mab`'s function over it |
| Combinators.ApplyPureAsk | monadic_context/context.py:66-77 | `apply(pure(f), ask(t))` yields `f(v)` for the service `v`, and fails with missing when `v` is absent |
| Combinators.ThenIsBind | monadic_context/context.py:80-89 | `then(ma, mb)` is equivalent to binding `ma` and returning its value after `mb` succeeds |
| Combinators.WithServiceIsAsks | monadic_context/context.py:119-128 | `with_service(f, t)(args)` is equivalent to `ask(t)` mapped through `f(_, args)` |
| Combinators.TraverseAppend | context/context.py:77-86 | traversing `xs ++ ys` is traversing `xs`, then `ys`, and concatenating the lists |
| Combinators.TraverseScale | tests/test_context.py:131-143 | traversing with a `with_service` multiplier bound to `k` yields `k * x` for each `x`, in input order |
| Combinators.DataLastForms | context/context.py:25-74 | the deferred forms `map(f)(ma)` and `bind(f)(ma)` equal `map(ma, f)` and `bind(ma, f)`, and `then(x)(y)` equals `then(y, x)` |
| Driver.Use | context/context.py:182-183 | `use(t)` yields `t` once and returns whatever service is sent back |
| Driver.Drive | context/context.py:164-177 | a program that requests nothing returns its value at once; the only failures are a missing service, reported with that id (absent from the context) and the available id set, or an exhausted budget |
| Driver.DriveRequests | context/context.py:168-177 | ids are looked up in yield order, starting with the first yielded tag; every id but the last was found; on success all were found; on a missing service the missing id is the last requested, and nothing is requested after it |
| Driver.DriveFuelMonotone | context/context.py:168-173 | once a run has finished or failed on a missing service, a larger budget gives the same result |
| Driver.Requires | context/context.py:157-179 | `requires(gen)(args)` on a context returns a generator's value at once if it yields nothing, fails at a missing first tag with the available ids, and fails only with NotFound or OutOfFuel |
| Driver.Diagnose | context/context.py:174-177 | the driver's re-raise turns a raw missing-service failure into one carrying the same id and the context's available ids, and leaves every other outcome unchanged |
| Driver.DriveNeedIsBindAsk | context/context.py:170-177 | one suspension point is `bind` over `ask`, with the missing id re-reported with the available ids |
| Driver.UseIsAsk | context/context.py:170-183 | driving `use(t)` is `ask(t)` with the driver's diagnostics |
| Driver.TwoServicesRun | tests/test_context.py:208-222 | requesting two services yields their combination when both are present; with only the first present it fails at the second after asking for the first; with neither present it fails at the first and asks for nothing else |
| Pipe.Fold | context/pipe.py:96 | the `reduce` left fold applies the operators as `opN(...op1(x))`, each once, in argument order |
| Pipe.FoldAppend | context/pipe.py:96 | the left fold over `fs ++ gs` continues the fold over `gs` from the fold over `fs` |
| Pipe.Compose | context/pipe.py:77-98 | `compose(op1..opN)(x)` is `opN(...op1(x))`, and `compose()` is the identity |
| Pipe.ComposeAppend | context/pipe.py:96 | `compose(fs ++ gs)` is `compose(gs)` applied after `compose(fs)` |
| Pipe.ComposeSmall | monadic_context/pipe.py:86-88 | `compose(f)(x) == f(x)`, `compose(f, g)(x) == g(f(x))`, `compose(f, g, h)(x) == h(g(f(x)))`, `pipe(x, f, g) == g(f(x))` |
| Pipe.Pipe | monadic_context/pipe.py:201-213 | `pipe(x, f1..fn)` is `fn(...f1(x))`, and `pipe(x)` is `x` |
| Defer.Defer | context/defer.py:6-13 | `defer(f)(args)(a) == f(a, args)` for every `a` and unchanged `args`, and building `defer(f)(args)` places no demand on `f` |

## Left out

- Static typing with no runtime effect is not modelled: the phantom type of `Tag`, the union tracking on `Context`, `ParamSpec`/`Concatenate`, variance, the `@overload` stubs of `compose`/`pipe`, and the `sys.version_info` import switch. Services share one type `V`.
- Pipe.Compose: chains functions of a single type `T -> T`; the Python version chains functions of changing types.
- Driver.Drive: the Python driver can loop forever on a generator that never stops yielding. The model stops after `fuel` resumptions with `OutOfFuel`, and `DriveFuelMonotone` shows that extra fuel never changes a finished run.
- Driver.Requires: a `KeyError` raised by the generator's own body is not modelled. The driver would re-raise it as a missing service; here the body is pure and cannot fail.
- The driver resumes with `next(gen)` when the looked-up value is `None` and with `gen.send(value)` otherwise. Both resume the generator with that value, so the model always resumes with it.
- The missing-service message text is not modelled. The available ids are kept as a set, not in dict order.
- `functools.wraps` metadata copying is not modelled.
- Defer.Defer: a pure model cannot observe when `f` is called. "Not called until `a` is supplied" is stated as follows: building the partial application places no precondition on `f`. Keyword arguments are part of the opaque argument bundle `P`.
- The tag counter is shared process-wide state in the source. Here it is an `IdGen` value that callers thread through. The source has no thread-safety guard, and the model has no concurrency.
- The example script and the license headers are not modelled.

/** The `requires`/`use` protocol with the generator made explicit.

    A suspended computation is either finished (`Done`) or waiting for the
    service under a tag (`Need`), with the code to resume once that service
    is supplied. The driver looks each requested id up in the context,
    resumes with the value found and stops at the first id the context
    lacks. Resuming is not structurally smaller than the suspended value,
    so the driver counts resumptions with `fuel`.
 */
module Driver {
  import opened Results
  import opened Tags
  import opened Contexts
  import opened Combinators

  /** A generator that yields tags, receives services and returns an `A`. */
  datatype Prog<!V, A> = Done(result: A) | Need(tag: Tag, resume: V -> Prog<V, A>)

  /** `use(tag)`: yield `tag` once and return the service sent back. */
  function Use<V(!new)>(t: Tag): (p: Prog<V, V>)
    ensures p.Need? && p.tag == t
    ensures forall v :: p.resume(v) == Done(v)
  {
    Need(t, v => Done(v))
  }

  /** The driver loop of `requires`: resume, look the yielded tag up, repeat.
      A missing id ends the run with that id and the ids on offer; `fuel`
      bounds how many resumptions follow a successful lookup. */
  function Drive<V, A>(c: Context<V>, p: Prog<V, A>, fuel: nat): (r: Result<A>)
    ensures p.Done? ==> r == Ok(p.result)
    ensures r.Err? ==> r.error.NotFound? || r.error.OutOfFuel?
    ensures r.Err? && r.error.NotFound? ==> r.error.id !in c && r.error.available == c.Keys
    decreases fuel
  {
    match p
    case Done(a) => Ok(a)
    case Need(t, k) =>
      if t.id !in c then Err(NotFound(t.id, c.Keys))
      else if fuel == 0 then Err(OutOfFuel)
      else Drive(c, k(c[t.id]), fuel - 1)
  }

  /** The ids the driver looks up, in the order it looks them up. */
  function Requests<V, A>(c: Context<V>, p: Prog<V, A>, fuel: nat): seq<string>
    decreases fuel
  {
    match p
    case Done(_) => []
    case Need(t, k) =>
      if t.id !in c || fuel == 0 then [t.id]
      else [t.id] + Requests(c, k(c[t.id]), fuel - 1)
  }

  /** The driver's lookups: strictly in yield order, every id before the last
      one found; a success found them all, a missing-service failure names the
      last id asked for and nothing is asked after it. */
  lemma {:induction false} DriveRequests<V, A>(c: Context<V>, p: Prog<V, A>, fuel: nat)
    ensures var ids := Requests(c, p, fuel);
      && |ids| <= fuel + 1
      && (p.Done? <==> |ids| == 0)
      && (p.Need? ==> ids[0] == p.tag.id)
      && (forall i :: 0 <= i < |ids| - 1 ==> ids[i] in c)
      && (Drive(c, p, fuel).Ok? ==> forall i :: 0 <= i < |ids| ==> ids[i] in c)
      && (Drive(c, p, fuel).Err? && Drive(c, p, fuel).error.NotFound? ==>
            |ids| > 0 && ids[|ids| - 1] == Drive(c, p, fuel).error.id)
    decreases fuel
  {
    match p
    case Done(_) =>
    case Need(t, k) =>
      if t.id in c && fuel > 0 {
        DriveRequests(c, k(c[t.id]), fuel - 1);
      }
  }

  /** Once the driver has finished or hit a missing service, more fuel
      changes nothing. */
  lemma {:induction false} DriveFuelMonotone<V, A>(c: Context<V>, p: Prog<V, A>, n: nat, m: nat)
    requires n <= m
    requires Drive(c, p, n) != Err(OutOfFuel)
    ensures Drive(c, p, m) == Drive(c, p, n)
    decreases n
  {
    match p
    case Done(_) =>
    case Need(t, k) =>
      if t.id in c {
        DriveFuelMonotone(c, k(c[t.id]), n - 1, m - 1);
      }
  }

  /** `requires(gen)`: a function of the caller's arguments returning the
      computation that drives a fresh generator `gen(args)` on the context
      it is run against. */
  function Requires<V(!new), P(!new), A>(gen: P -> Prog<V, A>, fuel: nat): (g: P -> Comp<V, A>)
    ensures forall args, c :: gen(args).Done? ==> g(args)(c) == Ok(gen(args).result)
    ensures forall args, c :: gen(args).Need? && gen(args).tag.id !in c ==>
      g(args)(c) == Err(NotFound(gen(args).tag.id, c.Keys))
    ensures forall args, c :: g(args)(c).Err? ==> g(args)(c).error.NotFound? || g(args)(c).error.OutOfFuel?
  {
    args => c => Drive(c, gen(args), fuel)
  }

  /** The driver's re-raise: a raw missing-service failure gains the list of
      available ids; anything else passes unchanged. */
  function Diagnose<V, A>(c: Context<V>, r: Result<A>): (d: Result<A>)
    ensures r.Err? && r.error.Missing? ==> d == Err(NotFound(r.error.id, c.Keys))
    ensures !(r.Err? && r.error.Missing?) ==> d == r
  {
    if r.Err? && r.error.Missing? then Err(NotFound(r.error.id, c.Keys)) else r
  }

  /** One suspension point is `bind` over `ask`: look the tag up, then drive
      the rest with the value, the missing id reported with the available ones. */
  lemma DriveNeedIsBindAsk<V(!new), A>(t: Tag, k: V -> Prog<V, A>, n: nat, c: Context<V>)
    ensures Drive(c, Need(t, k), n + 1)
         == Diagnose(c, Bind(Ask(t), (v: V) => (d: Context<V>) => Drive(d, k(v), n))(c))
  {
  }

  /** Driving `use(t)` is `ask(t)` with the driver's diagnostics. */
  lemma UseIsAsk<V(!new)>(t: Tag, n: nat, c: Context<V>)
    ensures Drive(c, Use(t), n + 1) == Diagnose(c, Ask(t)(c))
  {
  }

  /** A generator that yields two tags in turn and combines the services. */
  function TwoServices<V(!new), A>(t1: Tag, t2: Tag, combine: (V, V) -> A): Prog<V, A>
  {
    Need(t1, x => Need(t2, y => Done(combine(x, y))))
  }

  /** Requesting two services: with both present the result is the
      combination; with only the first present the run fails at the second,
      after asking for the first; with neither present it fails at the first
      and asks for nothing more. */
  lemma TwoServicesRun<V(!new), A>(t1: Tag, t2: Tag, x: V, y: V, combine: (V, V) -> A, fuel: nat)
    requires t1.id != t2.id
    requires fuel >= 2
    ensures Drive(FromPairs([(t1, x), (t2, y)]), TwoServices(t1, t2, combine), fuel) == Ok(combine(x, y))
    ensures Drive(Of(x, t1), TwoServices(t1, t2, combine), fuel) == Err(NotFound(t2.id, {t1.id}))
    ensures Requests(Of(x, t1), TwoServices(t1, t2, combine), fuel) == [t1.id, t2.id]
    ensures Drive(Empty(), TwoServices(t1, t2, combine), fuel) == Err(NotFound(t1.id, {}))
    ensures Requests(Empty(), TwoServices(t1, t2, combine), fuel) == [t1.id]
  {
    var pairs := [(t1, x), (t2, y)];
    assert LastFor(pairs, 0) && LastFor(pairs, 1);
    var c := FromPairs(pairs);
    assert t1.id in c && c[t1.id] == x;
    assert t2.id in c && c[t2.id] == y;
  }
}

/** Runs of one tenant: requests and rate-limit changes, one after the other. */
module Runs {
  import opened Base
  import opened RateLimiter
  import opened Tenants

  datatype Step = Ask(op: Op, env: Env) | SetRateLimit(rl: RateLimitConfig, at: real)

  /** A tenant together with its directory. */
  datatype Whole = Whole(tenant: Tenant, dir: Option<Dir>)

  function WholeAfter(limits: Limits, scan: Scan, w: Whole, s: Step): Whole {
    match s
    case Ask(op, env) => var o := Request(limits, scan, w.tenant, w.dir, op, env); Whole(o.tenant, o.dir)
    case SetRateLimit(rl, at) => w.(tenant := Limited(w.tenant, rl, at))
  }

  function Told(limits: Limits, scan: Scan, w: Whole, s: Step): seq<Response> {
    match s
    case Ask(op, env) => [Request(limits, scan, w.tenant, w.dir, op, env).response]
    case SetRateLimit(_, _) => []
  }

  function WholeAfterAll(limits: Limits, scan: Scan, w: Whole, steps: seq<Step>): Whole
    decreases |steps|
  {
    if steps == [] then w else WholeAfterAll(limits, scan, WholeAfter(limits, scan, w, steps[0]), steps[1..])
  }

  function Responses(limits: Limits, scan: Scan, w: Whole, steps: seq<Step>): seq<Response>
    decreases |steps|
  {
    if steps == [] then []
    else Told(limits, scan, w, steps[0]) + Responses(limits, scan, WholeAfter(limits, scan, w, steps[0]), steps[1..])
  }

  function Begin(s: Step): real {
    if s.Ask? then s.env.now else s.at
  }

  function End(s: Step): real {
    if s.Ask? then s.env.later else s.at
  }

  /** Steps follow one another in time. */
  ghost predicate InOrder(from: real, steps: seq<Step>)
    decreases |steps|
  {
    steps == [] || (from <= Begin(steps[0]) <= End(steps[0]) && InOrder(End(steps[0]), steps[1..]))
  }

  function EndOf(from: real, steps: seq<Step>): real {
    if steps == [] then from else End(steps[|steps| - 1])
  }

  lemma EndOfRest(from: real, steps: seq<Step>)
    requires steps != []
    ensures EndOf(from, steps) == EndOf(End(steps[0]), steps[1..])
  {
    if |steps| > 1 {
      assert steps[1..][|steps| - 2] == steps[|steps| - 1];
    }
  }
}

/**
 * The output side of one export: the archive stream, the optional compressor
 * and the caller's stream, together with the repository walkers, seen as one
 * ordered trace of effects. I/O failure is injected: the trace holds the
 * number of further writes that succeed (None: none fails); the write after
 * them throws, appends nothing, and so does every later one.
 */
module Pipeline {
  import opened Archive

  /** A run of writes starting with budget b completes without an exception. */
  predicate Survives(ops: seq<Event>, b: Option<nat>)
  {
    b.None? || |ops| <= b.value
  }

  /** The writes of `ops` that take effect when the budget is b: all of them, or those before the failing one. */
  function Run(ops: seq<Event>, b: Option<nat>): (r: seq<Event>)
    ensures r <= ops
    ensures |r| == |ops| <==> Survives(ops, b)
    ensures !Survives(ops, b) ==> |r| == b.value
  {
    if Survives(ops, b) then ops else ops[..b.value]
  }

  /** The budget left after n successful writes. */
  function Spend(b: Option<nat>, n: nat): Option<nat>
  {
    if b.None? then None else Some(if n <= b.value then b.value - n else 0)
  }

  class Trace {
    var log: seq<Event>
    var budget: Option<nat>

    constructor (budget: Option<nat>)
      ensures log == [] && this.budget == budget
    {
      log := [];
      this.budget := budget;
    }

    /** An effect that performs no output I/O and cannot fail. */
    method Note(e: Event)
      modifies this
      ensures log == old(log) + [e] && budget == old(budget)
    {
      log := log + [e];
    }

    /** An output write: it takes effect, or throws when the budget is spent. */
    method Write(e: Event) returns (ok: bool)
      modifies this
      ensures ok <==> old(budget) != Some(0)
      ensures log == old(log) + (if ok then [e] else [])
      ensures budget == Spend(old(budget), if ok then 1 else 0)
    {
      ok := budget != Some(0);
      if ok {
        log := log + [e];
        budget := Spend(budget, 1);
      }
    }
  }
}

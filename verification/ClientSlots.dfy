/**
 The per-client concurrency slots, rate_limiter.py: a counter per client, taken on entry and given back on exit, each
 in one step under a lock.  A run is any interleaving of tasks entering and leaving, normally or by an exception.
 */
module ClientSlots {
  import opened Prelude

  function Held(counters: map<string, int>, client: string): int {
    if client in counters then counters[client] else 0
  }

  /** Entry: refused at the maximum, else the counter goes up by one. */
  function Enter(counters: map<string, int>, client: string, maximum: int): (map<string, int>, bool) {
    if Held(counters, client) >= maximum then (counters, false)
    else (counters[client := Held(counters, client) + 1], true)
  }

  /** Exit: an absent counter reads as one, and the result is clamped at zero. */
  function Leave(counters: map<string, int>, client: string): map<string, int> {
    counters[client := Max((if client in counters then counters[client] else 1) - 1, 0)]
  }

  class SlotTable {
    var clientCounters: map<string, int>

    constructor ()
      ensures clientCounters == map[]
    {
      clientCounters := map[];
    }

    method AcquireClientSlot(client: string, maxConcurrent: int) returns (ok: bool)
      modifies this
      ensures (clientCounters, ok) == Enter(old(clientCounters), client, maxConcurrent)
    {
      var current := if client in clientCounters then clientCounters[client] else 0;
      if current >= maxConcurrent {
        return false;
      }
      clientCounters := clientCounters[client := current + 1];
      ok := true;
    }

    method ReleaseClientSlot(client: string)
      modifies this
      ensures clientCounters == Leave(old(clientCounters), client)
    {
      var current := if client in clientCounters then clientCounters[client] else 1;
      clientCounters := clientCounters[client := Max(current - 1, 0)];
    }
  }

  /** Leaving frees a slot of one client and never goes below none; a client not counted has none afterwards. */
  lemma LeaveFreesOne(counters: map<string, int>, client: string, other: string)
    ensures var after := Leave(counters, client);
            && client in after && after[client] == (if Held(counters, client) >= 1 then Held(counters, client) - 1 else 0)
            && (other != client ==> Held(after, other) == Held(counters, other))
  {
  }

  // ----- Interleavings -----

  datatype Step = Arrive(task: nat, client: string) | Depart(task: nat)

  /** The counters, and the client of every task inside. */
  datatype Floor = Floor(counters: map<string, int>, inside: map<nat, string>)

  function Move(maximum: string -> int, f: Floor, s: Step): Floor {
    match s
    case Arrive(task, client) =>
      if task in f.inside then f
      else
        var (c, ok) := Enter(f.counters, client, maximum(client));
        Floor(c, if ok then f.inside[task := client] else f.inside)
    case Depart(task) =>
      if task !in f.inside then f
      else Floor(Leave(f.counters, f.inside[task]), f.inside - {task})
  }

  function Run(maximum: string -> int, steps: seq<Step>): Floor {
    if steps == [] then Floor(map[], map[]) else Move(maximum, Run(maximum, steps[..|steps|-1]), steps[|steps|-1])
  }

  function Holders(f: Floor, client: string): set<nat> {
    set t | t in f.inside && f.inside[t] == client
  }

  /** The counter is the number of holders, which is within the client's maximum. */
  ghost predicate Fair(maximum: string -> int, f: Floor, client: string) {
    Held(f.counters, client) == |Holders(f, client)| <= Max(maximum(client), 0)
  }

  lemma HoldersAfter(maximum: string -> int, f: Floor, s: Step, client: string)
    ensures var g := Move(maximum, f, s);
            Holders(g, client) ==
            match s
            case Arrive(task, c) =>
              if task !in f.inside && c == client && Held(f.counters, c) < maximum(c)
              then Holders(f, client) + {task} else Holders(f, client)
            case Depart(task) => Holders(f, client) - {task}
  {
    hide Held, Leave;
  }

  lemma MoveIsFair(maximum: string -> int, f: Floor, s: Step, client: string)
    requires Fair(maximum, f, client)
    ensures Fair(maximum, Move(maximum, f, s), client)
  {
    hide Holders;
    HoldersAfter(maximum, f, s, client);
    InsideHolds(f, s.task, client);
  }

  lemma InsideHolds(f: Floor, task: nat, client: string)
    ensures task in Holders(f, client) <==> task in f.inside && f.inside[task] == client
  {
  }

  /** In every interleaving the counter equals the number of holders and never exceeds the client's maximum. */
  lemma {:induction false} CounterIsHolders(maximum: string -> int, steps: seq<Step>, client: string)
    ensures Fair(maximum, Run(maximum, steps), client)
  {
    if steps != [] {
      CounterIsHolders(maximum, steps[..|steps|-1], client);
      MoveIsFair(maximum, Run(maximum, steps[..|steps|-1]), steps[|steps|-1], client);
    } else {
      assert Holders(Run(maximum, steps), client) == {};
    }
  }

  /** Neither the clamp at zero nor the default of one ever takes effect: a leaving task finds its counter positive. */
  lemma ClampNeverNeeded(maximum: string -> int, steps: seq<Step>, task: nat)
    requires task in Run(maximum, steps).inside
    ensures var f := Run(maximum, steps); var client := f.inside[task];
            && client in f.counters && f.counters[client] >= 1
            && Leave(f.counters, client) == f.counters[client := f.counters[client] - 1]
  {
    var f := Run(maximum, steps);
    var client := f.inside[task];
    CounterIsHolders(maximum, steps, client);
    assert task in Holders(f, client);
  }

  /** A task is refused exactly when as many tasks of its client as the maximum allows are inside. */
  lemma RefusedExactly(maximum: string -> int, steps: seq<Step>, task: nat, client: string)
    requires task !in Run(maximum, steps).inside
    ensures task !in Move(maximum, Run(maximum, steps), Arrive(task, client)).inside <==>
            |Holders(Run(maximum, steps), client)| >= maximum(client)
  {
    CounterIsHolders(maximum, steps, client);
  }
}

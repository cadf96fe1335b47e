/** The supervisor daemon's admission of `ask` requests under a global and a per-agent limit. */
module Admission {

  type Counters = map<string, nat>

  function CountOf(counters: Counters, agent: string): nat {
    if agent in counters then counters[agent] else 0
  }

  function ClampedMinusOne(n: int): nat {
    if n - 1 > 0 then n - 1 else 0
  }

  ghost function Sum(counters: Counters): nat {
    if counters == map[] then 0 else
      var agent :| agent in counters;
      counters[agent] + Sum(counters - {agent})
  }

  lemma {:induction false} SumWithout(counters: Counters, agent: string)
    requires agent in counters
    ensures Sum(counters) == counters[agent] + Sum(counters - {agent})
    decreases |counters|
  {
    var first :| first in counters && Sum(counters) == counters[first] + Sum(counters - {first});
    if first != agent {
      SumWithout(counters - {first}, agent);
      SumWithout(counters - {agent}, first);
      assert counters - {first} - {agent} == counters - {agent} - {first};
    }
  }

  /** Setting one counter moves the sum by the difference. */
  lemma SumSet(counters: Counters, agent: string, n: nat)
    ensures Sum(counters[agent := n]) + CountOf(counters, agent) == Sum(counters) + n
  {
    var after := counters[agent := n];
    SumWithout(after, agent);
    if agent in counters {
      SumWithout(counters, agent);
      assert after - {agent} == counters - {agent};
    } else {
      assert after - {agent} == counters;
    }
  }

  datatype Load = Load(global: nat, perAgent: Counters, outstanding: multiset<string>)

  /** An ask arrives, or one of the outstanding asks of an agent settles. */
  datatype Event = Arrives(agent: string) | Settles(agent: string)

  function Step(globalLimit: nat, agentLimit: nat, s: Load, e: Event): Load {
    match e
    case Arrives(agent) =>
      if s.global >= globalLimit || CountOf(s.perAgent, agent) >= agentLimit then s
      else Load(s.global + 1, s.perAgent[agent := CountOf(s.perAgent, agent) + 1], s.outstanding + multiset{agent})
    case Settles(agent) =>
      if agent !in s.outstanding then s  // only an admitted ask can settle
      else Load(ClampedMinusOne(s.global),
                s.perAgent[agent := ClampedMinusOne(CountOf(s.perAgent, agent))], s.outstanding - multiset{agent})
  }

  /**
   * The module-level counters. `outstanding` records, for the proof, the agent of every ask that was
   * admitted and has not completed.
   */
  class Admitter {
    const globalLimit: nat
    const agentLimit: nat
    var global: nat
    var perAgent: Counters
    ghost var outstanding: multiset<string>

    ghost predicate Valid()
      reads this
    {
      && global == Sum(perAgent) == |outstanding|
      && global <= globalLimit
      && forall agent :: CountOf(perAgent, agent) == outstanding[agent] <= agentLimit
    }

    ghost function State(): Load
      reads this
    {
      Load(global, perAgent, outstanding)
    }

    constructor (globalLimit: nat, agentLimit: nat)
      ensures Valid() && outstanding == multiset{}
      ensures this.globalLimit == globalLimit && this.agentLimit == agentLimit
    {
      this.globalLimit, this.agentLimit := globalLimit, agentLimit;
      global, perAgent, outstanding := 0, map[], multiset{};
    }

    /** The part of an ask before it waits: refuse, or count it. A refusal changes nothing. */
    method Ask(agent: string) returns (admitted: bool)
      requires Valid()
      modifies this
      ensures Valid()
      ensures admitted <==> |old(outstanding)| < globalLimit && old(outstanding)[agent] < agentLimit
      ensures State() == Step(globalLimit, agentLimit, old(State()), Arrives(agent))
      ensures outstanding == if admitted then old(outstanding) + multiset{agent} else old(outstanding)
    {
      var current := CountOf(perAgent, agent);
      if global >= globalLimit || current >= agentLimit {
        return false;
      }
      SumSet(perAgent, agent, current + 1);
      global := global + 1;
      perAgent := perAgent[agent := current + 1];
      outstanding := outstanding + multiset{agent};
      admitted := true;
    }

    /** The finally block of an admitted ask; neither clamp ever changes a value. */
    method Complete(agent: string)
      requires Valid() && agent in outstanding
      modifies this
      ensures Valid()
      ensures State() == Step(globalLimit, agentLimit, old(State()), Settles(agent))
      ensures outstanding == old(outstanding) - multiset{agent}
      ensures global == old(global) - 1
      ensures perAgent.Keys == old(perAgent).Keys
      ensures forall a :: CountOf(perAgent, a) == CountOf(old(perAgent), a) - (if a == agent then 1 else 0)
    {
      SumSet(perAgent, agent, ClampedMinusOne(CountOf(perAgent, agent)));
      global := ClampedMinusOne(global);
      perAgent := perAgent[agent := ClampedMinusOne(CountOf(perAgent, agent))];
      outstanding := outstanding - multiset{agent};
    }
  }

  // ---- Every interleaving ----

  function Run(globalLimit: nat, agentLimit: nat, events: seq<Event>): Load {
    if events == [] then Load(0, map[], multiset{})
    else Step(globalLimit, agentLimit, Run(globalLimit, agentLimit, events[..|events| - 1]), events[|events| - 1])
  }

  /** How many asks of `agent` a history admitted, less how many settled. */
  function Unsettled(globalLimit: nat, agentLimit: nat, events: seq<Event>, agent: string): int {
    if events == [] then 0 else
      var before, e := events[..|events| - 1], events[|events| - 1];
      var earlier := Unsettled(globalLimit, agentLimit, before, agent);
      var s := Run(globalLimit, agentLimit, before);
      if e.agent != agent || Step(globalLimit, agentLimit, s, e) == s then earlier
      else if e.Arrives? then earlier + 1 else earlier - 1
  }

  /** The counters of a state are exact and within the limits. */
  ghost predicate Exact(globalLimit: nat, agentLimit: nat, s: Load) {
    && s.global == Sum(s.perAgent) == |s.outstanding| <= globalLimit
    && forall agent :: CountOf(s.perAgent, agent) == s.outstanding[agent] <= agentLimit
  }

  lemma ArrivalKeepsExact(globalLimit: nat, agentLimit: nat, s: Load, agent: string)
    requires Exact(globalLimit, agentLimit, s)
    ensures Exact(globalLimit, agentLimit, Step(globalLimit, agentLimit, s, Arrives(agent)))
  {
    hide Sum;
    SumSet(s.perAgent, agent, CountOf(s.perAgent, agent) + 1);
  }

  lemma SettlingKeepsExact(globalLimit: nat, agentLimit: nat, s: Load, agent: string)
    requires Exact(globalLimit, agentLimit, s)
    ensures Exact(globalLimit, agentLimit, Step(globalLimit, agentLimit, s, Settles(agent)))
  {
    hide Sum;
    SumSet(s.perAgent, agent, ClampedMinusOne(CountOf(s.perAgent, agent)));
  }

  /** One step moves the counter of its own agent by one, or is refused. */
  lemma StepCounts(globalLimit: nat, agentLimit: nat, s: Load, e: Event, agent: string)
    requires Exact(globalLimit, agentLimit, s)
    ensures var t := Step(globalLimit, agentLimit, s, e);
      CountOf(t.perAgent, agent) == CountOf(s.perAgent, agent) +
        if e.agent != agent || t == s then 0 else if e.Arrives? then 1 else -1
  {
    hide Sum;
  }

  /**
   * Over every interleaving: the global counter is the sum of the agents' counters and the number of
   * outstanding asks, each agent's counter is its admissions less its completions, and no limit is exceeded.
   */
  lemma {:induction false} CountersAreExact(globalLimit: nat, agentLimit: nat, events: seq<Event>)
    ensures var s := Run(globalLimit, agentLimit, events);
      && s.global == Sum(s.perAgent) == |s.outstanding| <= globalLimit
      && forall agent ::
           && CountOf(s.perAgent, agent) == s.outstanding[agent] <= agentLimit
           && CountOf(s.perAgent, agent) == Unsettled(globalLimit, agentLimit, events, agent)
  {
    hide Step;
    if events != [] {
      var e := events[|events| - 1];
      var before := Run(globalLimit, agentLimit, events[..|events| - 1]);
      CountersAreExact(globalLimit, agentLimit, events[..|events| - 1]);
      match e {
        case Arrives(agent) => ArrivalKeepsExact(globalLimit, agentLimit, before, agent);
        case Settles(agent) => SettlingKeepsExact(globalLimit, agentLimit, before, agent);
      }
      forall agent {
        StepCounts(globalLimit, agentLimit, before, e, agent);
      }
    }
  }

  /** An ask is refused exactly when a limit is full of outstanding asks. */
  lemma BusyOnlyWhenFull(globalLimit: nat, agentLimit: nat, events: seq<Event>, agent: string)
    ensures var s := Run(globalLimit, agentLimit, events);
      Step(globalLimit, agentLimit, s, Arrives(agent)) == s <==>
        |s.outstanding| == globalLimit || s.outstanding[agent] == agentLimit
  {
    CountersAreExact(globalLimit, agentLimit, events);
    var s := Run(globalLimit, agentLimit, events);
    assert |s.outstanding + multiset{agent}| == |s.outstanding| + 1;
  }

  /** When every admitted ask has settled, the daemon is back to admitting: nothing leaks. */
  lemma NothingLeaks(globalLimit: nat, agentLimit: nat, events: seq<Event>)
    requires Run(globalLimit, agentLimit, events).outstanding == multiset{}
    ensures Run(globalLimit, agentLimit, events).global == 0
    ensures forall agent :: CountOf(Run(globalLimit, agentLimit, events).perAgent, agent) == 0
  {
    CountersAreExact(globalLimit, agentLimit, events);
  }
}

/** The change-or-timeout throttle of the supervisor's in-flight metric. */
module InflightMetric {
  import opened Wrappers
  import opened Order

  const MIN_INTERVAL_MS := 10 * 60 * 1000

  type Entry = (string, int)

  /** What a sample is compared by: its total and its agents in name order. The JSON text is taken to be injective. */
  datatype Key = Key(total: int, agents: seq<Entry>)

  // ---- The sample key ----

  function NameOf(e: Entry): string {
    e.0
  }

  function KeyOf(total: int, byAgent: seq<Entry>): Key {
    Key(total, SortBy(NameOf, byAgent))
  }

  /**
   * Two samples have the same key exactly when they agree on the total and on every agent, in whatever
   * order they list them. The entries are those of one object each, so their names differ.
   */
  lemma KeyIgnoresOrder(total1: int, a: seq<Entry>, total2: int, b: seq<Entry>)
    requires DistinctKeys(NameOf, a) && DistinctKeys(NameOf, b)
    ensures KeyOf(total1, a) == KeyOf(total2, b) <==> total1 == total2 && forall e :: e in a <==> e in b
  {
    SortForgetsOrder(NameOf, a, b);
  }

  // ---- The throttle ----

  datatype Emission = Emission(key: Key, at: int)

  datatype Gauge = Gauge(lastKey: Option<Key>, lastAt: int, emissions: seq<Emission>)

  datatype Sample = Sample(key: Key, now: int)

  const Fresh := Gauge(None, 0, [])

  /** Emit unless the sample equals the last one emitted and the interval has not passed. */
  function Offer(s: Gauge, x: Sample): Gauge {
    if s.lastKey == Some(x.key) && x.now - s.lastAt < MIN_INTERVAL_MS then s
    else Gauge(Some(x.key), x.now, s.emissions + [Emission(x.key, x.now)])
  }

  function Run(samples: seq<Sample>): Gauge {
    if samples == [] then Fresh else Offer(Run(samples[..|samples| - 1]), samples[|samples| - 1])
  }

  /** The module-level throttle variables and the emitted events. */
  class Throttle {
    var lastKey: Option<Key>
    var lastAt: int
    var emissions: seq<Emission>

    ghost function State(): Gauge
      reads this
    {
      Gauge(lastKey, lastAt, emissions)
    }

    constructor ()
      ensures State() == Fresh
    {
      lastKey, lastAt, emissions := None, 0, [];
    }

    method RecordSample(total: int, byAgent: seq<Entry>, now: int)
      modifies this
      ensures State() == Offer(old(State()), Sample(KeyOf(total, byAgent), now))
    {
      var key := KeyOf(total, byAgent);
      var changed := lastKey != Some(key);
      var elapsed := now - lastAt;
      if !changed && elapsed < MIN_INTERVAL_MS {
        return;
      }
      lastKey, lastAt := Some(key), now;
      emissions := emissions + [Emission(key, now)];
    }
  }

  // ---- What every sequence of samples gets ----

  ghost predicate TimeMovesForward(samples: seq<Sample>) {
    forall i, j :: 0 <= i < j < |samples| ==> samples[i].now <= samples[j].now
  }

  /** How often a sample differs from the one before it. */
  function Changes(samples: seq<Sample>): nat {
    if |samples| < 2 then 0 else
      var last := if samples[|samples| - 1].key != samples[|samples| - 2].key then 1 else 0;
      Changes(samples[..|samples| - 1]) + last
  }

  /** Two emissions in a row of the same sample are at least the interval apart. */
  ghost predicate Spaced(emissions: seq<Emission>) {
    forall i {:trigger emissions[i]} :: 0 < i < |emissions| && emissions[i - 1].key == emissions[i].key ==>
      emissions[i].at - emissions[i - 1].at >= MIN_INTERVAL_MS
  }

  ghost predicate LastEmitted(s: Gauge) {
    && s.emissions != []
    && s.lastKey == Some(s.emissions[|s.emissions| - 1].key)
    && s.lastAt == s.emissions[|s.emissions| - 1].at
  }

  /** After every call the last emission is of the current sample, and equal emissions in a row are spaced out. */
  lemma {:induction false} LastEmissionIsCurrent(samples: seq<Sample>)
    ensures Spaced(Run(samples).emissions)
    ensures samples != [] ==>
      LastEmitted(Run(samples)) && Run(samples).lastKey == Some(samples[|samples| - 1].key)
  {
    if samples != [] {
      LastEmissionIsCurrent(samples[..|samples| - 1]);
      var before, x := Run(samples[..|samples| - 1]), samples[|samples| - 1];
      var after := Offer(before, x);
      if after != before && |samples| == 1 {
        assert before == Fresh;
      }
    }
  }

  ghost predicate TimeoutsFit(samples: seq<Sample>, s: Gauge)
    requires samples != []
  {
    var timeouts := |s.emissions| - 1 - Changes(samples);
    && 0 <= timeouts
    && timeouts * MIN_INTERVAL_MS <= s.lastAt - samples[0].now
    && s.lastAt <= samples[|samples| - 1].now
  }

  /** One more sample adds an emission for a change, one for a timeout, or none. */
  lemma OfferTakesTime(init: seq<Sample>, samples: seq<Sample>, s: Gauge)
    requires init != [] && |samples| == |init| + 1 && samples[..|init|] == init
    requires init[|init| - 1].now <= samples[|init|].now
    requires TimeoutsFit(init, s) && s.lastKey == Some(init[|init| - 1].key)
    ensures TimeoutsFit(samples, Offer(s, samples[|init|]))
  {
    var x := samples[|init|];
    assert samples[|samples| - 2] == init[|init| - 1] && samples[0] == init[0];
    assert Changes(samples) == Changes(init) + if x.key != init[|init| - 1].key then 1 else 0;
  }

  /** Emissions beyond the first and the changes each needed a full interval since the first sample. */
  lemma {:induction false} TimeoutsTakeTime(samples: seq<Sample>)
    requires samples != [] && TimeMovesForward(samples)
    ensures var s, timeouts := Run(samples), |Run(samples).emissions| - 1 - Changes(samples);
      && 0 <= timeouts
      && timeouts * MIN_INTERVAL_MS <= s.lastAt - samples[0].now
      && s.lastAt <= samples[|samples| - 1].now
  {
    hide Offer;
    var init := samples[..|samples| - 1];
    if init == [] {
      FirstIsEmitted(samples);
    } else {
      TimeoutsTakeTime(init);
      LastEmissionIsCurrent(init);
      assert TimeoutsFit(init, Run(init));
      OfferTakesTime(init, samples, Run(init));
      assert TimeoutsFit(samples, Run(samples));
    }
  }

  lemma FirstIsEmitted(samples: seq<Sample>)
    requires |samples| == 1
    ensures TimeoutsFit(samples, Run(samples))
  {
    assert samples[..0] == [];
    assert Run(samples[..0]) == Fresh;
  }

  /** The volume bound: one emission, one a change, and one for each full interval elapsed. */
  lemma {:induction false} EmissionsAreBounded(samples: seq<Sample>)
    requires samples != [] && TimeMovesForward(samples)
    ensures |Run(samples).emissions| <=
      1 + Changes(samples) + (samples[|samples| - 1].now - samples[0].now) / MIN_INTERVAL_MS
  {
    TimeoutsTakeTime(samples);
    var timeouts := |Run(samples).emissions| - 1 - Changes(samples);
    var elapsed := samples[|samples| - 1].now - samples[0].now;
    assert timeouts * MIN_INTERVAL_MS <= elapsed;
  }

  /** A change is never held back. */
  lemma {:induction false} ChangeIsEmittedAtOnce(samples: seq<Sample>, x: Sample)
    requires samples != [] && samples[|samples| - 1].key != x.key
    ensures Run(samples + [x]).emissions == Run(samples).emissions + [Emission(x.key, x.now)]
  {
    LastEmissionIsCurrent(samples);
    assert (samples + [x])[..|samples|] == samples;
  }

  /**
   * A sample is emitted exactly when it is the first, differs from the sample before it, or comes at least ten minutes
   * after the last emission.
   */
  lemma EmittedIff(samples: seq<Sample>, x: Sample)
    ensures var emissions := Run(samples).emissions;
      samples != [] ==> |emissions| > 0 && emissions[|emissions| - 1].key == samples[|samples| - 1].key
    ensures var emissions := Run(samples).emissions;
      Run(samples + [x]).emissions ==
        if samples == [] || x.key != samples[|samples| - 1].key || x.now - emissions[|emissions| - 1].at >= 600000
        then emissions + [Emission(x.key, x.now)] else emissions
  {
    LastEmissionIsCurrent(samples);
    assert (samples + [x])[..|samples|] == samples;
    assert samples == [] ==> Run(samples) == Fresh;
  }
}

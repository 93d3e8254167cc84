/** The buffer of events, and the batches handed off from it. */
module EventLogger {
  import opened Specs
  import opened Evaluation
  import Conditions
  import DepthLimit
  import Exposures

  // ----- The buffer as a state machine over its locked steps. -----

  datatype State<E> = State(buffer: seq<E>, batches: seq<seq<E>>)

  /** A step under the lock: an event is logged, or the buffer is flushed. */
  datatype Step<E> = Log(event: E) | Flush

  function Flushed<E>(s: State<E>): State<E> {
    if s.buffer == [] then s else State([], s.batches + [s.buffer])
  }

  function After<E>(s: State<E>, step: Step<E>, maxEvents: nat): State<E> {
    match step
    case Flush => Flushed(s)
    case Log(e) =>
      var s' := s.(buffer := s.buffer + [e]);
      if |s'.buffer| >= maxEvents then Flushed(s') else s'
  }

  function Run<E>(steps: seq<Step<E>>, maxEvents: nat): State<E> {
    if steps == [] then State([], [])
    else After(Run(steps[..|steps| - 1], maxEvents), steps[|steps| - 1], maxEvents)
  }

  /** The events logged, in the order in which their loggers got the lock. */
  function Logged<E>(steps: seq<Step<E>>): seq<E> {
    if steps == [] then []
    else Logged(steps[..|steps| - 1]) + match steps[|steps| - 1] case Log(e) => [e] case Flush => []
  }

  function Flatten<E>(batches: seq<seq<E>>): seq<E> {
    if batches == [] then [] else Flatten(batches[..|batches| - 1]) + batches[|batches| - 1]
  }

  /** Under every interleaving of loggers and flushes no event is lost, doubled or moved: the batches, one after the
      other, and then the buffer hold what was logged. No batch is empty or larger than the bound, and the buffer is
      always shorter than it. */
  lemma {:induction false} EventsConserved<E>(steps: seq<Step<E>>, maxEvents: nat)
    requires maxEvents > 0
    ensures var s := Run(steps, maxEvents);
            && Flatten(s.batches) + s.buffer == Logged(steps)
            && |s.buffer| < maxEvents
            && forall b <- s.batches :: 0 < |b| <= maxEvents
  {
    if steps != [] {
      var init := steps[..|steps| - 1];
      EventsConserved(init, maxEvents);
      var s := Run(init, maxEvents);
      var buffer := s.buffer + match steps[|steps| - 1] case Log(e) => [e] case Flush => [];
      assert Flatten(s.batches) + buffer == Logged(steps);
      var batches := s.batches + [buffer];
      assert batches[..|batches| - 1] == s.batches;
      assert Flatten(batches) == Flatten(s.batches) + buffer;
    }
  }

  /** A batch is handed off exactly when the event logged fills the bound, or at a flush when something waits. */
  lemma HandsOffWhenFull<E>(s: State<E>, e: E, maxEvents: nat)
    ensures After(s, Log(e), maxEvents) ==
            if |s.buffer| + 1 < maxEvents then State(s.buffer + [e], s.batches)
            else State([], s.batches + [s.buffer + [e]])
    ensures After(s, Flush, maxEvents) ==
            State([], if s.buffer == [] then s.batches else s.batches + [s.buffer])
  {
  }

  function CountFlushes<E>(steps: seq<Step<E>>): nat {
    if steps == [] then 0 else CountFlushes(steps[..|steps| - 1]) + if steps[|steps| - 1].Flush? then 1 else 0
  }

  function CountShort<E>(batches: seq<seq<E>>, maxEvents: nat): nat {
    if batches == [] then 0
    else CountShort(batches[..|batches| - 1], maxEvents) + if |batches[|batches| - 1]| < maxEvents then 1 else 0
  }

  lemma OneMoreBatch<E>(batches: seq<seq<E>>, batch: seq<E>, maxEvents: nat)
    ensures CountShort(batches + [batch], maxEvents) ==
            CountShort(batches, maxEvents) + if |batch| < maxEvents then 1 else 0
  {
    assert (batches + [batch])[..|batches|] == batches;
  }

  lemma ShortAfter<E>(s: State<E>, step: Step<E>, maxEvents: nat)
    requires |s.buffer| < maxEvents
    ensures CountShort(After(s, step, maxEvents).batches, maxEvents) <=
            CountShort(s.batches, maxEvents) + if step.Flush? then 1 else 0
  {
    match step {
      case Log(e) => OneMoreBatch(s.batches, s.buffer + [e], maxEvents);
      case Flush => OneMoreBatch(s.batches, s.buffer, maxEvents);
    }
  }

  /** Over every run there are no more batches below the bound than flushes. */
  lemma {:induction false} ShortBatchesAreFlushed<E>(steps: seq<Step<E>>, maxEvents: nat)
    requires maxEvents > 0
    ensures CountShort(Run(steps, maxEvents).batches, maxEvents) <= CountFlushes(steps)
  {
    if steps != [] {
      var init := steps[..|steps| - 1];
      ShortBatchesAreFlushed(init, maxEvents);
      EventsConserved(init, maxEvents);
      ShortAfter(Run(init, maxEvents), steps[|steps| - 1], maxEvents);
    }
  }

  /** These `n` events are in full batches but for those that wait. */
  ghost predicate FullFor<E>(s: State<E>, maxEvents: nat, n: nat) {
    && n == |s.batches| * maxEvents + |s.buffer| && |s.buffer| < maxEvents
    && forall b <- s.batches :: |b| == maxEvents
  }

  lemma FullAfter<E>(s: State<E>, e: E, maxEvents: nat, n: nat)
    requires FullFor(s, maxEvents, n)
    ensures FullFor(After(s, Log(e), maxEvents), maxEvents, n + 1)
  {
    assert (|s.batches| + 1) * maxEvents == |s.batches| * maxEvents + maxEvents;
  }

  /** Without flushes the n events logged make n div max full batches, and n mod max wait. */
  lemma {:induction false} FullBatches<E>(steps: seq<Step<E>>, maxEvents: nat)
    requires maxEvents > 0 && forall step <- steps :: step.Log?
    ensures var s := Run(steps, maxEvents);
            && |steps| == |s.batches| * maxEvents + |s.buffer| && |s.buffer| < maxEvents
            && forall b <- s.batches :: |b| == maxEvents
  {
    if steps != [] {
      var init, last := steps[..|steps| - 1], steps[|steps| - 1];
      FullBatches(init, maxEvents);
      assert last in steps;
      FullAfter(Run(init, maxEvents), last.event, maxEvents, |init|);
    }
  }

  // ----- The logger, with its slices' backing arrays. -----

  /** A slice handed to a sender: the first `len` elements of an array. */
  datatype Slice<E> = Slice(data: array<E>, len: nat)
  {
    predicate Fits() { len <= data.Length }

    ghost function Events(): seq<E>
      requires Fits()
      reads data
    {
      data[..len]
    }
  }

  class Logger<E(0)> {
    const maxEvents: nat
    /** The events slice: the first `len` elements of `data`. */
    var data: array<E>
    var len: nat
    /** The slices handed to senders so far. */
    var sent: seq<Slice<E>>
    var ticking: bool

    constructor (maxBufferSize: int)
      ensures Valid() && fresh(data) && Abstract() == State([], [])
      ensures maxEvents == if maxBufferSize > 0 then maxBufferSize else 1000
    {
      maxEvents := if maxBufferSize > 0 then maxBufferSize else 1000;
      data, len := new E[0], 0;
      sent, ticking := [], true;
    }

    ghost function Arrays(): set<array<E>> reads this {
      {data} + set b <- sent :: b.data
    }

    /** No slice that was handed off shares its array with the buffer. */
    ghost predicate Valid()
      reads this
    {
      && maxEvents > 0 && len < maxEvents && len <= data.Length
      && forall b <- sent :: b.data != data && b.Fits()
    }

    ghost function Batches(slices: seq<Slice<E>>): seq<seq<E>>
      requires forall b <- slices :: b.Fits()
      reads set b <- slices :: b.data
    {
      if slices == [] then [] else Batches(slices[..|slices| - 1]) + [slices[|slices| - 1].Events()]
    }

    ghost function Abstract(): State<E>
      requires Valid()
      reads this, Arrays()
    {
      State(data[..len], Batches(sent))
    }

    /** `append`: in place while there is room, else into a larger array. */
    method Append(e: E)
      requires maxEvents > 0 && len <= data.Length && forall b <- sent :: b.data != data && b.Fits()
      modifies this`data, this`len, data
      ensures len == old(len) + 1 && len <= data.Length && data[..len] == old(data[..len]) + [e]
      ensures data == old(data) || fresh(data)
    {
      if len == data.Length {
        var outgrown := data;
        var larger := new E[2 * data.Length + 1];
        for i := 0 to len
          invariant forall j :: 0 <= j < i ==> larger[j] == outgrown[j]
          invariant data == outgrown && len == old(len) && outgrown[..] == old(data[..])
        {
          larger[i] := outgrown[i];
        }
        data := larger;
      }
      data[len] := e;
      len := len + 1;
    }

    /** Handing off the buffer: the sender keeps its array, and the buffer gets a new one. */
    method FlushInternal(closing: bool)
      requires maxEvents > 0 && len <= data.Length && forall b <- sent :: b.data != data && b.Fits()
      modifies this
      ensures Valid() && len == 0 && (data == old(data) || fresh(data))
      ensures sent == if old(len) == 0 then old(sent) else old(sent) + [Slice(old(data), old(len))]
      ensures ticking == (old(ticking) && !closing)
    {
      if closing {
        ticking := false;
      }
      if len == 0 {
        return;
      }
      sent := sent + [Slice(data, len)];
      data, len := new E[0], 0;
    }

    method LogInternal(e: E)
      requires Valid()
      modifies this, data
      ensures Valid() && Abstract() == After(old(Abstract()), Log(e), maxEvents)
      ensures old(sent) <= sent && (data == old(data) || fresh(data)) && ticking == old(ticking)
      ensures forall b <- old(sent) :: b.data[..] == old(b.data[..])
    {
      Append(e);
      assert data[..len] == old(data[..len]) + [e];
      assert Batches(sent) == old(Batches(sent));
      if len >= maxEvents {
        FlushInternal(false);
      }
    }

    /** The locked part of a flush; the diagnostics logged before it are steps of their own. */
    method FlushEvents(closing: bool)
      requires Valid()
      modifies this
      ensures Valid() && Abstract() == Flushed(old(Abstract()))
      ensures old(sent) <= sent && (data == old(data) || fresh(data)) && ticking == (old(ticking) && !closing)
    {
      FlushInternal(closing);
    }
  }

  // ----- Layer exposures. -----

  /** The secondary exposures logged for a layer parameter. */
  function LayerExposures(r: Result, parameter: string): seq<Exposure> {
    if parameter in r.explicitParams then r.exposures else r.undelegated
  }

  lemma SoundBeginning(w: Conditions.World, a: seq<Exposure>, s: seq<Exposure>)
    requires a <= s && Exposures.Sound(w, s)
    ensures Exposures.Sound(w, a)
  {
    forall i: nat | i < |a| ensures Exposures.SoundAt(w, a, i) {
      assert Exposures.SoundAt(w, s, i) && a[..i] == s[..i];
    }
  }

  /** What is logged with a layer parameter is a sound beginning of the evaluation's trace: the exposures from before
      delegating and, if the delegate owns the parameter, all that evaluating the delegate on its own exposes. */
  lemma LayerExposuresOfDelegate(w: Conditions.World, spec: Spec, depth: nat, parameter: string)
    requires Eval(w, spec, depth).Done?
    ensures var r := Eval(w, spec, depth).value;
            var logged := LayerExposures(r, parameter);
            && logged <= r.exposures && Exposures.Sound(w, logged)
            && (r.delegate != "" ==>
                  && r.delegate in w.snap.configs
                  && var config := w.snap.configs[r.delegate];
                     var own := Eval(w, config, 0);
                     && own.Done?
                     && logged == r.undelegated +
                                  (if parameter in config.explicitParameters then own.value.exposures else []))
  {
    var r := Eval(w, spec, depth).value;
    EvalCoherent(w, spec, depth);
    Exposures.EvalSound(w, spec, depth);
    SoundBeginning(w, LayerExposures(r, parameter), r.exposures);
    if r.delegate != "" {
      NamedDelegate(w, spec, 0, [], depth);
      DepthLimit.EvalShallower(w, w.snap.configs[r.delegate], depth + 2, 0);
    }
  }
}

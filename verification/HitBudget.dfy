/** Hit budgets under any interleaving of readers of one box.
  *
  * `Map` counts H..1 and then -1 with a compare-and-swap loop, because 0 means no limit; TypedMap
  * subtracts one from its counter unconditionally and reads the sign.
  */
module HitBudget {
  import opened Probe

  /** A reader of a `Map` box: before its load, after it, or returned. */
  datatype Reader = Start | Loaded(hits: int) | Returned(consumed: bool, exhausted: bool)

  datatype State = State(hits: int, readers: seq<Reader>)

  predicate Success(r: Reader) { r.Returned? && r.consumed }

  /** The success that used up the budget; its caller clears the entry. */
  predicate Last(r: Reader) { r.Returned? && r.consumed && r.exhausted }

  function Successes(s: State): nat { Count(Success, s.readers) }

  function Lasts(s: State): nat { Count(Last, s.readers) }

  function Init(budget: int, n: nat): State {
    State(budget, seq(n, _ => Start))
  }

  /** One atomic step of consumeHit by reader i. */
  function Step(s: State, i: nat): State
    requires i < |s.readers|
  {
    match s.readers[i]
    case Start => s.(readers := s.readers[i := Loaded(s.hits)])
    case Loaded(hits) =>
      if hits == 0 then s.(readers := s.readers[i := Returned(true, false)])
      else if hits < 0 then s.(readers := s.readers[i := Returned(false, true)])
      else
        var next := if hits - 1 == 0 then -1 else hits - 1;
        if s.hits == hits then State(next, s.readers[i := Returned(true, next < 0)])
        else s.(readers := s.readers[i := Start])
    case Returned(_, _) => s
  }

  /** The state after a schedule, which says who steps next; a number that is no reader's is skipped. */
  function Run(s: State, schedule: seq<nat>): (r: State)
    ensures |r.readers| == |s.readers|
  {
    if schedule == [] then s else
    var before := Run(s, schedule[..|schedule| - 1]);
    var i := schedule[|schedule| - 1];
    if i < |before.readers| then Step(before, i) else before
  }

  /** What is left of the budget. */
  function Left(hits: int): nat { if hits < 0 then 0 else hits }

  ghost predicate Inv(s: State, budget: int) {
    && s.hits != 0 && -1 <= s.hits <= budget
    && Successes(s) == budget - Left(s.hits)
    && Lasts(s) == (if s.hits < 0 then 1 else 0)
    && (forall i :: 0 <= i < |s.readers| ==> (s.readers[i].Loaded? ==> s.readers[i].hits != 0))
    && (forall i :: 0 <= i < |s.readers| && s.readers[i].Loaded? && s.readers[i].hits < 0 ==> s.hits < 0)
    && (forall i :: 0 <= i < |s.readers| && s.readers[i].Returned? && !s.readers[i].consumed ==> s.hits < 0)
  }

  lemma StepKeeps(s: State, budget: int, i: nat)
    requires Inv(s, budget) && i < |s.readers|
    ensures Inv(Step(s, i), budget)
  {
    CountUpdate(Success, s.readers, i, Step(s, i).readers[i]);
    CountUpdate(Last, s.readers, i, Step(s, i).readers[i]);
  }

  lemma {:induction false} RunKeeps(budget: int, n: nat, schedule: seq<nat>)
    requires budget > 0
    ensures Inv(Run(Init(budget, n), schedule), budget)
  {
    if schedule == [] {
      CountAll(Success, Init(budget, n).readers);
      CountAll(Last, Init(budget, n).readers);
    } else {
      RunKeeps(budget, n, schedule[..|schedule| - 1]);
      var before := Run(Init(budget, n), schedule[..|schedule| - 1]);
      var i := schedule[|schedule| - 1];
      if i < |before.readers| {
        StepKeeps(before, budget, i);
      }
    }
  }

  /** In every state of every interleaving the counter is H..1 or -1, never the 0 that would mean no
    * limit; the successes so far are what is gone from the budget, never more than H; and there is
    * one exhausting success exactly when the counter is at -1. */
  lemma NeverUnlimited(budget: int, n: nat, schedule: seq<nat>)
    requires budget > 0
    ensures var s := Run(Init(budget, n), schedule);
      && (1 <= s.hits <= budget || s.hits == -1)
      && Successes(s) == budget - Left(s.hits)
      && Lasts(s) == if s.hits == -1 then 1 else 0
  {
    RunKeeps(budget, n, schedule);
  }

  /** When n readers have returned, min(n, H) of them succeeded, and exactly one of those reports that
    * it took the last hit if n >= H, none otherwise. */
  lemma ExactlyMinSucceed(budget: int, n: nat, schedule: seq<nat>)
    requires budget > 0
    requires forall i :: 0 <= i < n ==> Run(Init(budget, n), schedule).readers[i].Returned?
    ensures var s := Run(Init(budget, n), schedule);
      && Successes(s) == (if n < budget then n else budget)
      && Lasts(s) == (if n >= budget then 1 else 0)
  {
    RunKeeps(budget, n, schedule);
    var s := Run(Init(budget, n), schedule);
    CountAll(Success, s.readers);
    if s.hits > 0 {
      assert forall i :: 0 <= i < |s.readers| ==> Success(s.readers[i]);
    }
  }

  // ---------------------------------------------------------------- TypedMap

  /** A reader of a typed entry is one atomic subtraction: before it, or returned. */
  datatype TypedReader = Ready | Read(ok: bool)

  datatype TypedState = TypedState(hits: int, readers: seq<TypedReader>)

  predicate Admitted(r: TypedReader) { r.Read? && r.ok }

  predicate Came(r: TypedReader) { r.Read? }

  function TypedInit(budget: int, n: nat): TypedState {
    TypedState(budget, seq(n, _ => Ready))
  }

  function TypedStep(s: TypedState, i: nat): TypedState
    requires i < |s.readers|
  {
    if s.readers[i].Ready? then TypedState(s.hits - 1, s.readers[i := Read(!(s.hits - 1 < 0))]) else s
  }

  function TypedRun(s: TypedState, schedule: seq<nat>): (r: TypedState)
    ensures |r.readers| == |s.readers|
  {
    if schedule == [] then s else
    var before := TypedRun(s, schedule[..|schedule| - 1]);
    var i := schedule[|schedule| - 1];
    if i < |before.readers| then TypedStep(before, i) else before
  }

  /** deadForView, of an entry with a hit limit. */
  predicate SpentForView(hits: int) { hits <= 0 }

  /** However they interleave, the first H that come are admitted and no more, and the entry is dead
    * for the other operations exactly once H have come. */
  lemma {:induction false} TypedAdmits(budget: int, n: nat, schedule: seq<nat>)
    requires budget > 0
    ensures var s := TypedRun(TypedInit(budget, n), schedule);
      var came := Count(Came, s.readers);
      && s.hits == budget - came
      && Count(Admitted, s.readers) == (if came < budget then came else budget)
      && (SpentForView(s.hits) <==> Count(Admitted, s.readers) == budget)
  {
    if schedule == [] {
      CountAll(Came, TypedInit(budget, n).readers);
      CountAll(Admitted, TypedInit(budget, n).readers);
    } else {
      TypedAdmits(budget, n, schedule[..|schedule| - 1]);
      var before := TypedRun(TypedInit(budget, n), schedule[..|schedule| - 1]);
      var i := schedule[|schedule| - 1];
      if i < |before.readers| {
        CountUpdate(Came, before.readers, i, TypedStep(before, i).readers[i]);
        CountUpdate(Admitted, before.readers, i, TypedStep(before, i).readers[i]);
      }
    }
  }

  /** Both encodings admit the same number of the same n readers, whatever the two schedules. */
  lemma EncodingsAgree(budget: int, n: nat, schedule: seq<nat>, typedSchedule: seq<nat>)
    requires budget > 0
    requires forall i :: 0 <= i < n ==> Run(Init(budget, n), schedule).readers[i].Returned?
    requires forall i :: 0 <= i < n ==> TypedRun(TypedInit(budget, n), typedSchedule).readers[i].Read?
    ensures Successes(Run(Init(budget, n), schedule))
      == Count(Admitted, TypedRun(TypedInit(budget, n), typedSchedule).readers)
    ensures Run(Init(budget, n), schedule).hits < 0
      <==> SpentForView(TypedRun(TypedInit(budget, n), typedSchedule).hits)
  {
    ExactlyMinSucceed(budget, n, schedule);
    NeverUnlimited(budget, n, schedule);
    TypedAdmits(budget, n, typedSchedule);
    CountAll(Came, TypedRun(TypedInit(budget, n), typedSchedule).readers);
  }
}

/** The data word of one box: in-place stores and removals by compare-and-swap, in any interleaving.
  *
  * The word holds a value's data word or the dead marker. It is compared by value, so a thread may
  * swap out a word that left and came back; the history of the word tells the occurrences apart.
  */
module DataWord {
  import opened Options

  /** Publish a value, or install the dead marker. `retries` says whether a lost race is tried again
    * (swapData, claim) or reported to the caller (replaceData, claimData). */
  datatype Op<W> = Publish(w: W, retries: bool) | Remove(retries: bool)

  datatype Pc<W> =
    | Start
    | Loaded(seen: W)            // read a word that was not the dead marker
    | FoundDead                  // returned false: the box is claimed
    | LostRace                   // returned false: the word is not the one compared
    | Won(displaced: W, at: nat) // returned true, having put entry `at` into the history

  datatype Thread<W> = Thread(op: Op<W>, pc: Pc<W>)

  /** The history lists what the word has held, None for the dead marker; its last is the word. */
  datatype State<W> = State(history: seq<Option<W>>, threads: seq<Thread<W>>)

  function Word<W>(s: State<W>): Option<W>
    requires s.history != []
  {
    s.history[|s.history| - 1]
  }

  function NewWord<W>(op: Op<W>): Option<W> {
    if op.Publish? then Some(op.w) else None
  }

  function Init<W>(first: W, ops: seq<Op<W>>): (s: State<W>)
    ensures s.history == [Some(first)] && |s.threads| == |ops|
  {
    State([Some(first)], seq(|ops|, (i: nat) requires i < |ops| => Thread(ops[i], Start)))
  }

  /** One atomic step of thread i: the load, or the compare-and-swap. */
  function Step<W(==)>(s: State<W>, i: nat): (r: State<W>)
    requires i < |s.threads| && s.history != []
    ensures |r.threads| == |s.threads| && r.history != []
  {
    var t := s.threads[i];
    match t.pc
    case Start =>
      var pc := if Word(s) == None then FoundDead else Loaded(Word(s).value);
      s.(threads := s.threads[i := t.(pc := pc)])
    case Loaded(seen) =>
      if Word(s) == Some(seen) then
        State(s.history + [NewWord(t.op)], s.threads[i := t.(pc := Won(seen, |s.history|))])
      else
        s.(threads := s.threads[i := t.(pc := if t.op.retries then Start else LostRace)])
    case _ => s
  }

  function Run<W(==)>(s: State<W>, schedule: seq<nat>): (r: State<W>)
    requires s.history != []
    ensures |r.threads| == |s.threads| && r.history != []
  {
    if schedule == [] then s else
    var before := Run(s, schedule[..|schedule| - 1]);
    var i := schedule[|schedule| - 1];
    if i < |before.threads| then Step(before, i) else before
  }

  /** Thread i put entry j into the history. */
  ghost predicate Wrote<W>(s: State<W>, i: nat, j: nat) {
    i < |s.threads| && s.threads[i].pc.Won? && s.threads[i].pc.at == j
  }

  ghost predicate HasWriter<W>(s: State<W>, j: nat) {
    exists i: nat :: Wrote(s, i, j)
  }

  /** A winner put in its new word right after the word it displaced. */
  ghost predicate WinsOk<W>(s: State<W>) {
    forall i :: 0 <= i < |s.threads| && s.threads[i].pc.Won? ==>
      var at := s.threads[i].pc.at;
      1 <= at < |s.history| && s.history[at] == NewWord(s.threads[i].op)
      && s.history[at - 1] == Some(s.threads[i].pc.displaced)
  }

  /** Different winners put in different entries, and every entry but the first has a winner. */
  ghost predicate WinnersMatch<W>(s: State<W>) {
    && (forall i, k :: 0 <= i < k < |s.threads| && s.threads[i].pc.Won? && s.threads[k].pc.Won? ==>
          s.threads[i].pc.at != s.threads[k].pc.at)
    && (forall j :: 1 <= j < |s.history| ==> HasWriter(s, j))
  }

  /** The dead marker can only be the last entry. */
  ghost predicate DeadIsLast<W>(s: State<W>) {
    forall j :: 0 <= j < |s.history| - 1 ==> s.history[j].Some?
  }

  ghost predicate Inv<W>(s: State<W>) {
    s.history != [] && WinsOk(s) && WinnersMatch(s) && DeadIsLast(s)
  }

  lemma StepKeeps<W>(s: State<W>, i: nat)
    requires Inv(s) && i < |s.threads|
    ensures Inv(Step(s, i))
  {
    var s' := Step(s, i);
    forall j | 1 <= j < |s'.history| ensures HasWriter(s', j) {
      if j < |s.history| {
        assert HasWriter(s, j);
        var k: nat :| Wrote(s, k, j);
        assert Wrote(s', k, j);
      } else {
        assert Wrote(s', i, j);
      }
    }
  }

  lemma {:induction false} RunKeeps<W>(first: W, ops: seq<Op<W>>, schedule: seq<nat>)
    ensures Inv(Run(Init(first, ops), schedule))
  {
    if schedule != [] {
      var front, i := schedule[..|schedule| - 1], schedule[|schedule| - 1];
      RunKeeps(first, ops, front);
      var before := Run(Init(first, ops), front);
      if i < |before.threads| {
        StepKeeps(before, i);
      }
    }
  }

  lemma {:induction false} OpsStay<W>(s: State<W>, schedule: seq<nat>)
    requires s.history != []
    ensures forall i :: 0 <= i < |s.threads| ==> Run(s, schedule).threads[i].op == s.threads[i].op
    ensures forall i :: 0 <= i < |s.threads| && s.threads[i].pc.Won? ==>
      Run(s, schedule).threads[i].pc == s.threads[i].pc
    ensures |s.history| <= |Run(s, schedule).history| && s.history == Run(s, schedule).history[..|s.history|]
  {
    if schedule != [] {
      OpsStay(s, schedule[..|schedule| - 1]);
    }
  }

  lemma {:induction false} RunSplits<W>(s: State<W>, first: seq<nat>, rest: seq<nat>)
    requires s.history != []
    ensures Run(s, first + rest) == Run(Run(s, first), rest)
  {
    if rest == [] {
      assert first + rest == first;
    } else {
      RunSplits(s, first, rest[..|rest| - 1]);
      assert (first + rest)[..|first + rest| - 1] == first + rest[..|rest| - 1];
    }
  }

  /** Once the marker is in, nothing follows it: in every continuation the history stays what it is
    * and no further operation reports success. */
  lemma DeadIsFinal<W>(first: W, ops: seq<Op<W>>, schedule: seq<nat>, later: seq<nat>)
    requires Word(Run(Init(first, ops), schedule)) == None
    ensures Run(Init(first, ops), schedule + later).history == Run(Init(first, ops), schedule).history
    ensures forall i :: 0 <= i < |ops| ==>
      (Run(Init(first, ops), schedule + later).threads[i].pc.Won?
       <==> Run(Init(first, ops), schedule).threads[i].pc.Won?)
  {
    var s := Run(Init(first, ops), schedule);
    RunSplits(Init(first, ops), schedule, later);
    OpsStay(s, later);
    RunKeeps(first, ops, schedule + later);
    RunKeeps(first, ops, schedule);
    DeadStays(s, Run(s, later));
  }

  /** A state with the marker, and one that continues it. */
  lemma DeadStays<W>(s: State<W>, s': State<W>)
    requires Inv(s) && Inv(s') && Word(s) == None && |s'.threads| == |s.threads|
    requires |s.history| <= |s'.history| && s.history == s'.history[..|s.history|]
    requires forall i :: 0 <= i < |s.threads| && s.threads[i].pc.Won? ==> s'.threads[i].pc == s.threads[i].pc
    ensures s'.history == s.history
    ensures forall i :: 0 <= i < |s.threads| ==> (s'.threads[i].pc.Won? <==> s.threads[i].pc.Won?)
  {
    assert s'.history[|s.history| - 1] == s.history[|s.history| - 1] == None;
    forall i | 0 <= i < |s.threads| && s'.threads[i].pc.Won? ensures s.threads[i].pc.Won? {
      var j := s'.threads[i].pc.at;
      assert HasWriter(s, j);
      var k: nat :| Wrote(s, k, j);
    }
  }

  /** At most one remover wins, and one has won exactly when the word is the dead marker. */
  lemma OneRemover<W>(first: W, ops: seq<Op<W>>, schedule: seq<nat>)
    ensures var s := Run(Init(first, ops), schedule);
      && (forall i, k :: 0 <= i < |ops| && 0 <= k < |ops| && ops[i].Remove? && ops[k].Remove?
                         && s.threads[i].pc.Won? && s.threads[k].pc.Won? ==>
            i == k)
      && ((exists i :: 0 <= i < |ops| && ops[i].Remove? && s.threads[i].pc.Won?) <==> Word(s) == None)
  {
    var s := Run(Init(first, ops), schedule);
    RunKeeps(first, ops, schedule);
    OpsStay(Init(first, ops), schedule);
    forall i | 0 <= i < |ops| && ops[i].Remove? && s.threads[i].pc.Won? ensures s.threads[i].pc.at == |s.history| - 1 {
    }
    if Word(s) == None {
      OpsStay(Init(first, ops), schedule);
      assert s.history[0] == Some(first);
      assert HasWriter(s, |s.history| - 1);
      var i: nat :| Wrote(s, i, |s.history| - 1);
      assert ops[i].Remove? && s.threads[i].pc.Won?;
    }
  }

  /** Every value ever published is the current word, or exactly one winner displaced it and was
    * handed it; and every winner was handed the value that was in place right before its own. */
  lemma DisplacedOnce<W>(first: W, ops: seq<Op<W>>, schedule: seq<nat>)
    ensures var s := Run(Init(first, ops), schedule);
      && (forall j :: 0 <= j < |s.history| - 1 ==> s.history[j].Some? && HasWriter(s, j + 1))
      && (forall i: nat, k: nat, j: nat :: Wrote(s, i, j) && Wrote(s, k, j) ==> i == k)
      && (forall i: nat, j: nat :: Wrote(s, i, j) ==>
           1 <= j < |s.history| && s.history[j] == NewWord(ops[i])
           && s.history[j - 1] == Some(s.threads[i].pc.displaced))
  {
    RunKeeps(first, ops, schedule);
    OpsStay(Init(first, ops), schedule);
    Displaced(Run(Init(first, ops), schedule), ops);
  }

  lemma Displaced<W>(s: State<W>, ops: seq<Op<W>>)
    requires Inv(s) && |s.threads| == |ops| && forall i :: 0 <= i < |ops| ==> s.threads[i].op == ops[i]
    ensures forall j :: 0 <= j < |s.history| - 1 ==> s.history[j].Some? && HasWriter(s, j + 1)
    ensures forall i: nat, k: nat, j: nat :: Wrote(s, i, j) && Wrote(s, k, j) ==> i == k
    ensures forall i: nat, j: nat :: Wrote(s, i, j) ==>
      1 <= j < |s.history| && s.history[j] == NewWord(ops[i]) && s.history[j - 1] == Some(s.threads[i].pc.displaced)
  {
  }

  /** No failure without somebody's success: a thread was told that the box is claimed only if it is,
    * and that it lost a race only if it does not try again and another has displaced the word. */
  ghost predicate LosersOk<W>(s: State<W>) {
    forall i :: 0 <= i < |s.threads| ==>
      && (s.threads[i].pc.FoundDead? ==> s.history != [] && s.history[|s.history| - 1] == None)
      && (s.threads[i].pc.LostRace? ==> !s.threads[i].op.retries && |s.history| > 1)
      && (s.threads[i].pc.Loaded? && |s.history| == 1 ==> s.history[0] == Some(s.threads[i].pc.seen))
  }

  lemma {:induction false} OnlyRacesLose<W>(first: W, ops: seq<Op<W>>, schedule: seq<nat>)
    ensures LosersOk(Run(Init(first, ops), schedule))
  {
    if schedule != [] {
      var front, i := schedule[..|schedule| - 1], schedule[|schedule| - 1];
      OnlyRacesLose(first, ops, front);
      RunKeeps(first, ops, front);
      var before := Run(Init(first, ops), front);
      if i < |before.threads| && Word(before) == None {
        assert before.history[|before.history| - 1] == None;
      }
    }
  }

  /** When all have returned, somebody has won; and all have if they publish and try again. */
  lemma SomebodyWins<W>(first: W, ops: seq<Op<W>>, schedule: seq<nat>)
    requires ops != []
    requires forall i :: 0 <= i < |ops| ==>
      var pc := Run(Init(first, ops), schedule).threads[i].pc; !pc.Start? && !pc.Loaded?
    ensures exists i :: 0 <= i < |ops| && Run(Init(first, ops), schedule).threads[i].pc.Won?
    ensures (forall i :: 0 <= i < |ops| ==> ops[i].Publish? && ops[i].retries) ==>
      forall i :: 0 <= i < |ops| ==> Run(Init(first, ops), schedule).threads[i].pc.Won?
  {
    var s := Run(Init(first, ops), schedule);
    OnlyRacesLose(first, ops, schedule);
    RunKeeps(first, ops, schedule);
    OpsStay(Init(first, ops), schedule);
    assert |s.history| > 1 || s.threads[0].pc.Won?;
    assert HasWriter(s, 1) && HasWriter(s, |s.history| - 1);
    var i: nat :| Wrote(s, i, 1);
    var j: nat :| Wrote(s, j, |s.history| - 1);
    assert s.history[|s.history| - 1] == NewWord(ops[j]);
  }
}

/**
 * The loop of `Guesser.open`, over any guess step: guess on the archive at
 * hand, stack what is found and guess again, at most a given number of
 * rounds.  The guesser instantiates the step with its search over the
 * candidates; the properties of the loop only need what the step promises.
 */
module Stacking {

  import opened Errors
  import opened ArchiveCore

  const DefaultLimit := 10

  const LimitMessage := "More than 10 pipes or infinite loop detected"

  /** `b` is one step on from `a`: classes strictly extended, by at most two
      (a temporary copy and the class itself), tags by at most one. */
  predicate Grows(a: Layer, b: Layer) {
    && a.decompressors < b.decompressors
    && |b.decompressors| <= |a.decompressors| + 2
    && a.compressions <= b.compressions
    && |b.compressions| <= |a.compressions| + 1
  }

  /** A guess step finds nothing, an archive, or raises. */
  type Step = Layer -> Result<Option<Layer>>

  /** Whatever the step finds is one step on from what it read. */
  ghost predicate StepGrows(guess: Step) {
    forall a: Layer :: guess(a).Ok? && guess(a).value.Some? ==> Grows(a, guess(a).value.value)
  }

  /** The step never lets a ValueError escape. */
  ghost predicate StepKeepsValueErrors(guess: Step) {
    forall a: Layer :: guess(a).Err? ==> !guess(a).exc.ValueError?
  }

  /** `open`'s loop from `archive` with `rounds` guesses left. */
  function Stacked(guess: Step, archive: Layer, rounds: nat): (r: Result<Layer>)
    decreases rounds
  {
    if rounds == 0 then Err(Exception(LimitMessage))
    else
      var guessed := guess(archive);
      if guessed.Err? then Err(guessed.exc)
      else if guessed.value.None? then Ok(archive)
      else Stacked(guess, guessed.value.value, rounds - 1)
  }

  /** One archive found on the start and nothing on that one: the loop
      returns the archive found. */
  lemma StackedTwoRounds(guess: Step, start: Layer, inner: Layer, rounds: nat)
    requires rounds >= 2
    requires guess(start) == Ok(Some(inner)) && guess(inner) == Ok(None)
    ensures Stacked(guess, start, rounds) == Ok(inner)
  {
  }

  /** The result keeps what the starting archive recorded and adds fewer
      layers than there were rounds. */
  lemma {:induction false} StackedExtends(guess: Step, archive: Layer, rounds: nat)
    requires StepGrows(guess)
    requires Stacked(guess, archive, rounds).Ok?
    ensures rounds >= 1
    ensures var r := Stacked(guess, archive, rounds).value;
      && archive.decompressors <= r.decompressors
      && archive.compressions <= r.compressions
      && |r.decompressors| <= |archive.decompressors| + 2 * (rounds - 1)
      && |r.compressions| <= |archive.compressions| + (rounds - 1)
    decreases rounds
  {
    var guessed := guess(archive);
    if guessed.value.Some? {
      var next := guessed.value.value;
      assert Grows(archive, next);
      StackedExtends(guess, next, rounds - 1);
    }
  }

  /** The step finds nothing on the result. */
  lemma {:induction false} StackedSettles(guess: Step, archive: Layer, rounds: nat)
    requires Stacked(guess, archive, rounds).Ok?
    ensures guess(Stacked(guess, archive, rounds).value) == Ok(None)
    decreases rounds
  {
    var guessed := guess(archive);
    if guessed.value.Some? {
      StackedSettles(guess, guessed.value.value, rounds - 1);
    }
  }

  /** A failure is the round limit or an exception the step raised, so
      never a ValueError when the step lets none escape. */
  lemma {:induction false} StackedFailures(guess: Step, archive: Layer, rounds: nat)
    requires StepKeepsValueErrors(guess)
    requires Stacked(guess, archive, rounds).Err?
    ensures !Stacked(guess, archive, rounds).exc.ValueError?
    decreases rounds
  {
    if rounds > 0 {
      var guessed := guess(archive);
      if guessed.Ok? {
        StackedFailures(guess, guessed.value.value, rounds - 1);
      }
    }
  }

  /** A step that always finds something uses up the rounds. */
  lemma {:induction false} StackedEndless(guess: Step, archive: Layer, rounds: nat)
    requires forall a: Layer :: guess(a).Ok? && guess(a).value.Some?
    ensures Stacked(guess, archive, rounds) == Err(Exception(LimitMessage))
    decreases rounds
  {
    if rounds > 0 {
      StackedEndless(guess, guess(archive).value.value, rounds - 1);
    }
  }
}

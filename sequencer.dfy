/**
  The embroidery sequencer: the main program's preparation of the stitch sequences and
  the loop that drives the gantry and the sewing machine through them.

  The devices are replaced by oracles that say, for the i-th move of the j-th sequence,
  whether positioning the gantry and pulsing the machine succeed. The operator's console
  is a list of events: a line typed in (a token, with its newline), or silence, meaning
  that nothing was typed during a 10 ms check. A blocking read skips silence.
*/
module Sequencer {
  import opened Wrappers
  import opened GCode

  // ------------------------------------------------------------------ preparation

  /** The scale applied to every sequence before it is run. */
  const Shrink: real := 0.1

  /** The moves of each sequence object, in order. */
  function Codes(sequences: seq<GCodeSequence>): (all: seq<seq<G01>>)
    reads set k | 0 <= k < |sequences| :: sequences[k]
    ensures |all| == |sequences|
    ensures forall k :: 0 <= k < |sequences| ==> all[k] == sequences[k].codes
  {
    if sequences == [] then [] else [sequences[0].codes] + Codes(sequences[1..])
  }

  /** Every sequence scaled. */
  function ScaleEach(all: seq<seq<G01>>, s: real): (r: seq<seq<G01>>)
    ensures |r| == |all|
    ensures forall k :: 0 <= k < |all| ==> r[k] == ScaleAll(all[k], s)
  {
    if all == [] then [] else [ScaleAll(all[0], s)] + ScaleEach(all[1..], s)
  }

  /** Every sequence shifted by the same delta. */
  function TranslateEach(all: seq<seq<G01>>, delta: Vec3): (r: seq<seq<G01>>)
    ensures |r| == |all|
    ensures forall k :: 0 <= k < |all| ==> r[k] == TranslateAll(all[k], delta)
  {
    if all == [] then [] else [TranslateAll(all[0], delta)] + TranslateEach(all[1..], delta)
  }

  predicate NoneEmpty(all: seq<seq<G01>>)
  {
    forall k :: 0 <= k < |all| ==> all[k] != []
  }

  /** No sequence object occurs twice: scaling or shifting one leaves the others alone. */
  predicate Distinct(sequences: seq<GCodeSequence>)
  {
    forall a, b :: 0 <= a < b < |sequences| ==> sequences[a] != sequences[b]
  }

  /** Some move of one of the first n sequences has v as its i-th coordinate. */
  predicate Attains(all: seq<seq<G01>>, n: nat, i: nat, v: real)
    requires n <= |all| && i < 3
  {
    exists k, m :: 0 <= k < n && 0 <= m < |all[k]| && all[k][m].position[i] == v
  }

  /** The componentwise minimum of the first n sequences' minima, folded from the first sequence. */
  function CommonMin(all: seq<seq<G01>>, n: nat): Vec3
    requires 0 < n <= |all| && NoneEmpty(all)
  {
    if n == 1 then MinPos(all[0])
    else Min3(CommonMin(all, n - 1), MinPos(all[n - 1]))
  }

  /** The common translation: the common minimum of all the sequences, negated. */
  function Translation(all: seq<seq<G01>>): Vec3
    requires |all| > 0 && NoneEmpty(all)
  {
    Negated(CommonMin(all, |all|))
  }

  /** Each coordinate of the common minimum is at most that coordinate of every move of the sequences folded. */
  lemma {:induction false} CommonMinBelow(all: seq<seq<G01>>, n: nat)
    requires 0 < n <= |all| && NoneEmpty(all)
    ensures forall k, m, i :: 0 <= k < n && 0 <= m < |all[k]| && 0 <= i < 3 ==>
      CommonMin(all, n)[i] <= all[k][m].position[i]
  {
    MinPosIsLeast(all[n - 1]);
    if n > 1 {
      CommonMinBelow(all, n - 1);
    }
  }

  /** Each coordinate of the common minimum is that coordinate of some move of the sequences folded. */
  lemma {:induction false} CommonMinAttained(all: seq<seq<G01>>, n: nat)
    requires 0 < n <= |all| && NoneEmpty(all)
    ensures forall i :: 0 <= i < 3 ==> Attains(all, n, i, CommonMin(all, n)[i])
  {
    var last := all[n - 1];
    MinPosIsLeast(last);
    if n > 1 {
      CommonMinAttained(all, n - 1);
    }
    forall i | 0 <= i < 3
      ensures Attains(all, n, i, CommonMin(all, n)[i])
    {
      if CommonMin(all, n)[i] == MinPos(last)[i] {
        var m :| 0 <= m < |last| && MinPos(last)[i] == last[m].position[i];
        assert all[n - 1][m].position[i] == CommonMin(all, n)[i];
      } else {
        var k, m :| 0 <= k < n - 1 && 0 <= m < |all[k]| && all[k][m].position[i] == CommonMin(all, n - 1)[i];
        assert all[k][m].position[i] == CommonMin(all, n)[i];
      }
    }
  }

  /**
    Shifting every sequence by the common translation puts every move in the non-negative
    octant, and in each coordinate some move lands exactly on 0.
  */
  lemma TranslationToOrigin(all: seq<seq<G01>>)
    requires |all| > 0 && NoneEmpty(all)
    ensures forall k, m, i :: 0 <= k < |all| && 0 <= m < |all[k]| && 0 <= i < 3 ==>
      TranslateEach(all, Translation(all))[k][m].position[i] >= 0.0
    ensures forall i :: 0 <= i < 3 ==> Attains(TranslateEach(all, Translation(all)), |all|, i, 0.0)
  {
    var delta := Translation(all);
    var moved: seq<seq<G01>> := TranslateEach(all, delta);
    CommonMinBelow(all, |all|);
    CommonMinAttained(all, |all|);
    forall k, m, i | 0 <= k < |all| && 0 <= m < |all[k]| && 0 <= i < 3
      ensures moved[k][m].position[i] >= 0.0
    {
      assert moved[k][m] == Translated(all[k][m], delta);
    }
    forall i | 0 <= i < 3
      ensures Attains(moved, |all|, i, 0.0)
    {
      var k, m :| 0 <= k < |all| && 0 <= m < |all[k]| && all[k][m].position[i] == CommonMin(all, |all|)[i];
      assert moved[k][m] == Translated(all[k][m], delta);
      assert moved[k][m].position[i] == 0.0;
    }
  }

  /** Every sequence scaled in place by the same factor. */
  method ScaleEvery(sequences: seq<GCodeSequence>, s: real)
    requires Distinct(sequences)
    modifies set k | 0 <= k < |sequences| :: sequences[k]
    ensures Codes(sequences) == ScaleEach(old(Codes(sequences)), s)
  {
    ghost var original := Codes(sequences);
    var k := 0;
    while k < |sequences|
      invariant 0 <= k <= |sequences|
      invariant forall m :: 0 <= m < k ==> sequences[m].codes == ScaleAll(original[m], s)
      invariant forall m :: k <= m < |sequences| ==> sequences[m].codes == original[m]
    {
      assert forall m :: 0 <= m < |sequences| && m != k ==> sequences[m] != sequences[k];
      sequences[k].Scale(s);
      k := k + 1;
    }
    assert forall m :: 0 <= m < |sequences| ==> Codes(sequences)[m] == ScaleEach(original, s)[m];
  }

  /** Every sequence shifted in place by the same translation. */
  method TranslateEvery(sequences: seq<GCodeSequence>, delta: Vec3)
    requires Distinct(sequences)
    modifies set k | 0 <= k < |sequences| :: sequences[k]
    ensures Codes(sequences) == TranslateEach(old(Codes(sequences)), delta)
  {
    ghost var original := Codes(sequences);
    var k := 0;
    while k < |sequences|
      invariant 0 <= k <= |sequences|
      invariant forall m :: 0 <= m < k ==> sequences[m].codes == TranslateAll(original[m], delta)
      invariant forall m :: k <= m < |sequences| ==> sequences[m].codes == original[m]
    {
      assert forall m :: 0 <= m < |sequences| && m != k ==> sequences[m] != sequences[k];
      sequences[k].Translate(delta);
      k := k + 1;
    }
    assert forall m :: 0 <= m < |sequences| ==> Codes(sequences)[m] == TranslateEach(original, delta)[m];
  }

  /** Every coordinate's sign flipped, one coordinate at a time. */
  method Negate(v: Vec3) returns (r: Vec3)
    ensures r == Negated(v)
  {
    r := v;
    var c := 0;
    while c < 3
      invariant 0 <= c <= 3
      invariant forall d :: 0 <= d < c ==> r[d] == -v[d]
      invariant forall d :: c <= d < 3 ==> r[d] == v[d]
    {
      r := r[c := -r[c]];
      c := c + 1;
    }
  }

  /** The common translation, computed with nested loops from each sequence's `Min`. */
  method CommonTranslation(sequences: seq<GCodeSequence>) returns (trans: Vec3)
    requires |sequences| > 0 && NoneEmpty(Codes(sequences))
    ensures trans == Translation(Codes(sequences))
  {
    ghost var all := Codes(sequences);
    trans := sequences[0].MinBounds();
    var i := 1;
    while i < |sequences|
      invariant 1 <= i <= |sequences|
      invariant trans == CommonMin(all, i)
    {
      var next := sequences[i].MinBounds();
      ghost var prior := trans;
      var j := 0;
      while j < 3
        invariant 0 <= j <= 3
        invariant forall c :: 0 <= c < j ==> trans[c] == Min(prior[c], next[c])
        invariant forall c :: j <= c < 3 ==> trans[c] == prior[c]
      {
        if next[j] < trans[j] {
          trans := trans[j := next[j]];
        }
        j := j + 1;
      }
      assert trans == Min3(prior, next);
      i := i + 1;
    }
    trans := Negate(trans);
    assert Codes(sequences) == all;
  }

  /**
    The preparation of the main program: scale every sequence, compute the common
    translation of the scaled sequences, and shift every sequence by that same translation.
  */
  method Prepare(sequences: seq<GCodeSequence>) returns (trans: Vec3)
    requires |sequences| > 0 && NoneEmpty(Codes(sequences)) && Distinct(sequences)
    modifies set k | 0 <= k < |sequences| :: sequences[k]
    ensures NoneEmpty(ScaleEach(old(Codes(sequences)), Shrink))
    ensures trans == Translation(ScaleEach(old(Codes(sequences)), Shrink))
    ensures Codes(sequences) == TranslateEach(ScaleEach(old(Codes(sequences)), Shrink), trans)
  {
    ScaleKeepsNonEmpty(Codes(sequences), Shrink);
    ScaleEvery(sequences, Shrink);
    ghost var scaled := Codes(sequences);
    trans := CommonTranslation(sequences);
    assert Codes(sequences) == scaled;
    TranslateEvery(sequences, trans);
  }

  /** Scaling keeps every sequence non-empty. */
  lemma ScaleKeepsNonEmpty(all: seq<seq<G01>>, s: real)
    requires NoneEmpty(all)
    ensures NoneEmpty(ScaleEach(all, s))
  {
    var scaled := ScaleEach(all, s);
    forall k | 0 <= k < |scaled| ensures scaled[k] != []
    {
      assert |scaled[k]| == |all[k]|;
    }
  }

  // ------------------------------------------------------------------ operator input

  /** One console event: a line typed by the operator, or nothing typed within a check. */
  datatype Input = Token(text: string) | Silence

  /** The line that pauses and resumes the run. */
  const PauseToken: string := "P\n"

  /** A blocking read: the input after the next line typed, or None if none ever is. */
  function NextToken(input: seq<Input>): (r: Option<seq<Input>>)
    ensures r.Some? ==> |r.value| < |input|
  {
    if input == [] then None
    else if input[0].Token? then Some(input[1..])
    else NextToken(input[1..])
  }

  /** Blocking reads until the pause line: the input after it, or None if it never comes. */
  function NextPause(input: seq<Input>): (r: Option<seq<Input>>)
    ensures r.Some? ==> |r.value| < |input|
  {
    if input == [] then None
    else if input[0] == Token(PauseToken) then Some(input[1..])
    else NextPause(input[1..])
  }

  /**
    The check after each move: a pause line blocks until the next pause line; any other
    line, or silence, is dropped and the run goes on. None means paused for ever.
  */
  function Check(input: seq<Input>): Option<seq<Input>>
  {
    if input == [] then Some([])
    else if input[0] == Token(PauseToken) then NextPause(input[1..])
    else Some(input[1..])
  }

  /** The k-th event is the first line typed. */
  predicate FirstLineAt(input: seq<Input>, k: nat)
  {
    k < |input| && input[k].Token? && forall m :: 0 <= m < k ==> input[m] == Silence
  }

  /** The k-th event is the first pause line typed. */
  predicate FirstPauseAt(input: seq<Input>, k: nat)
  {
    k < |input| && input[k] == Token(PauseToken) && Token(PauseToken) !in input[..k]
  }

  /** A blocking read takes exactly one line, after any silence. */
  lemma {:induction false} NextTokenTakesOne(input: seq<Input>)
    ensures NextToken(input).None? <==> forall m :: 0 <= m < |input| ==> input[m] == Silence
    ensures NextToken(input).Some? ==> exists k: nat :: FirstLineAt(input, k) && NextToken(input).value == input[k + 1..]
    decreases |input|
  {
    if input != [] && input[0].Token? {
      assert FirstLineAt(input, 0);
    } else if input != [] {
      NextTokenTakesOne(input[1..]);
      assert forall m :: 1 <= m < |input| ==> input[m] == input[1..][m - 1];
      if NextToken(input).Some? {
        var k: nat :| FirstLineAt(input[1..], k) && NextToken(input).value == input[1..][k + 1..];
        assert input[k + 1 + 1..] == input[1..][k + 1..];
        assert FirstLineAt(input, k + 1);
      }
    }
  }

  /**
    During a pause everything up to and including the next pause line is consumed and
    nothing else: the lines in between are dropped.
  */
  lemma {:induction false} NextPauseConsumes(input: seq<Input>)
    ensures NextPause(input).None? <==> Token(PauseToken) !in input
    ensures NextPause(input).Some? ==> exists k: nat :: FirstPauseAt(input, k) && NextPause(input).value == input[k + 1..]
    decreases |input|
  {
    if input != [] && input[0] != Token(PauseToken) {
      NextPauseConsumes(input[1..]);
      assert input == [input[0]] + input[1..];
      if NextPause(input).Some? {
        var k: nat :| FirstPauseAt(input[1..], k) && NextPause(input).value == input[1..][k + 1..];
        assert input[..k + 1] == [input[0]] + input[1..][..k];
        assert input[k + 1 + 1..] == input[1..][k + 1..];
        assert FirstPauseAt(input, k + 1);
      }
    } else if input != [] {
      assert input[..0] == [];
      assert FirstPauseAt(input, 0);
    }
  }

  /** The check never blocks unless the event it reads is the pause line. */
  lemma CheckBlocksOnlyOnPause(input: seq<Input>)
    ensures input == [] ==> Check(input) == Some([])
    ensures input != [] && input[0] != Token(PauseToken) ==> Check(input) == Some(input[1..])
    ensures input != [] && input[0] == Token(PauseToken) ==>
      (Check(input).Some? <==> Token(PauseToken) in input[1..])
  {
    if input != [] {
      NextPauseConsumes(input[1..]);
    }
  }

  // ------------------------------------------------------------------ the run

  /** Whether a device call for the i-th move of the j-th sequence succeeds. */
  type Oracle = (nat, nat) -> bool

  /** A call to a device: positioning the gantry for a move, or pulsing the machine after it. */
  datatype Call = MoveCall(j: nat, i: nat) | PulseCall(j: nat, i: nat)

  /**
    How the run ends: every sequence done; a gantry or pulse failure at a move; paused
    at a move with no resuming line ever typed; or waiting for a line after a sequence.
  */
  datatype Halt =
    | Completed
    | GantryFailed(j: nat, i: nat)
    | PulseFailed(j: nat, i: nat)
    | PausedForever(j: nat, i: nat)
    | AwaitingContinue(j: nat)

  /** The device calls made, the timed moves counted, and the console input left. */
  datatype Outcome = Outcome(halt: Halt, calls: seq<Call>, iterations: nat, input: seq<Input>)

  /** A position in the run: the j-th sequence, before its i-th move. */
  predicate Position(seqs: seq<seq<G01>>, j: nat, i: nat)
  {
    j <= |seqs| && (j < |seqs| ==> i <= |seqs[j]|) && (j == |seqs| ==> i == 0)
  }

  /** The run of the main loop from position (j, i), with the calls and count so far. */
  function From(seqs: seq<seq<G01>>, moveOk: Oracle, pulseOk: Oracle,
                j: nat, i: nat, calls: seq<Call>, iterations: nat, input: seq<Input>): Outcome
    requires Position(seqs, j, i)
    decreases |seqs| - j, if j < |seqs| then |seqs[j]| - i else 0
  {
    if j == |seqs| then Outcome(Completed, calls, iterations, input)
    else if i == |seqs[j]| then
      match NextToken(input)
      case None => Outcome(AwaitingContinue(j), calls, iterations, [])
      case Some(rest) => From(seqs, moveOk, pulseOk, j + 1, 0, calls, iterations, rest)
    else
      var moved := calls + [MoveCall(j, i)];
      if !moveOk(j, i) then Outcome(GantryFailed(j, i), moved, iterations, input)
      else match Check(input)
        case None => Outcome(PausedForever(j, i), moved, iterations, [])
        case Some(rest) =>
          var pulsed := moved + [PulseCall(j, i)];
          if !pulseOk(j, i) then Outcome(PulseFailed(j, i), pulsed, iterations, rest)
          else From(seqs, moveOk, pulseOk, j, i + 1, pulsed, if i != 0 then iterations + 1 else iterations, rest)
  }

  /** The whole run of the main loop. */
  function Operation(seqs: seq<seq<G01>>, moveOk: Oracle, pulseOk: Oracle, input: seq<Input>): Outcome
  {
    From(seqs, moveOk, pulseOk, 0, 0, [], 0, input)
  }

  /** The calls for the first n moves of sequence j: each move, then its pulse. */
  function Steps(j: nat, n: nat): (r: seq<Call>)
    ensures |r| == 2 * n
    decreases n
  {
    if n == 0 then [] else Steps(j, n - 1) + [MoveCall(j, n - 1), PulseCall(j, n - 1)]
  }

  /** The calls for all the moves of the first j sequences, in order. */
  function Schedule(seqs: seq<seq<G01>>, j: nat): seq<Call>
    requires j <= |seqs|
  {
    if j == 0 then [] else Schedule(seqs, j - 1) + Steps(j - 1, |seqs[j - 1]|)
  }

  /** The calls made before position (j, i) when nothing fails. */
  function Done(seqs: seq<seq<G01>>, j: nat, i: nat): seq<Call>
    requires Position(seqs, j, i)
  {
    Schedule(seqs, j) + Steps(j, i)
  }

  /** The moves of a sequence that are timed: all but its first. */
  function Timed(n: nat): nat
  {
    if n == 0 then 0 else n - 1
  }

  /** The timed moves of the first j sequences. */
  function Counted(seqs: seq<seq<G01>>, j: nat): nat
    requires j <= |seqs|
  {
    if j == 0 then 0 else Counted(seqs, j - 1) + Timed(|seqs[j - 1]|)
  }

  /** Whether the run stopped where the schedule says it reached, with the calls it made by then. */
  predicate Follows(seqs: seq<seq<G01>>, moveOk: Oracle, pulseOk: Oracle, r: Outcome)
  {
    match r.halt
    case Completed => r.calls == Schedule(seqs, |seqs|)
    case GantryFailed(a, b) =>
      a < |seqs| && b < |seqs[a]| && !moveOk(a, b) && r.calls == Done(seqs, a, b) + [MoveCall(a, b)]
    case PulseFailed(a, b) =>
      a < |seqs| && b < |seqs[a]| && moveOk(a, b) && !pulseOk(a, b)
      && r.calls == Done(seqs, a, b) + [MoveCall(a, b), PulseCall(a, b)]
    case PausedForever(a, b) =>
      a < |seqs| && b < |seqs[a]| && moveOk(a, b) && r.calls == Done(seqs, a, b) + [MoveCall(a, b)]
    case AwaitingContinue(a) =>
      a < |seqs| && r.calls == Schedule(seqs, a + 1)
  }

  /** Whether the count of timed moves at the halt is the count of moves completed after a first. */
  predicate CountsTimed(seqs: seq<seq<G01>>, r: Outcome)
  {
    match r.halt
    case Completed => r.iterations == Counted(seqs, |seqs|)
    case GantryFailed(a, b) => a < |seqs| && r.iterations == Counted(seqs, a) + Timed(b)
    case PulseFailed(a, b) => a < |seqs| && r.iterations == Counted(seqs, a) + Timed(b)
    case PausedForever(a, b) => a < |seqs| && r.iterations == Counted(seqs, a) + Timed(b)
    case AwaitingContinue(a) => a < |seqs| && r.iterations == Counted(seqs, a + 1)
  }

  /**
    From any position reached without failure, the run makes the scheduled calls in order
    (sequences in order, and within a sequence each move and then its pulse) and stops
    right after the first call that fails, at the first pause that never ends, or at the
    first wait for a line that never comes.
  */
  lemma {:induction false} FromFollows(seqs: seq<seq<G01>>, moveOk: Oracle, pulseOk: Oracle,
                                       j: nat, i: nat, iterations: nat, input: seq<Input>)
    requires Position(seqs, j, i)
    ensures Follows(seqs, moveOk, pulseOk, From(seqs, moveOk, pulseOk, j, i, Done(seqs, j, i), iterations, input))
    decreases |seqs| - j, if j < |seqs| then |seqs[j]| - i else 0
  {
    var done := Done(seqs, j, i);
    var r := From(seqs, moveOk, pulseOk, j, i, done, iterations, input);
    if j == |seqs| {
      assert r == Outcome(Completed, done, iterations, input);
      assert done == Schedule(seqs, |seqs|);
    } else if i == |seqs[j]| {
      assert done == Schedule(seqs, j + 1);
      if NextToken(input).Some? {
        assert Done(seqs, j + 1, 0) == done;
        assert r == From(seqs, moveOk, pulseOk, j + 1, 0, done, iterations, NextToken(input).value);
        FromFollows(seqs, moveOk, pulseOk, j + 1, 0, iterations, NextToken(input).value);
      } else {
        assert r == Outcome(AwaitingContinue(j), done, iterations, []);
      }
    } else if !moveOk(j, i) {
      assert r == Outcome(GantryFailed(j, i), done + [MoveCall(j, i)], iterations, input);
    } else if Check(input).None? {
      assert r == Outcome(PausedForever(j, i), done + [MoveCall(j, i)], iterations, []);
    } else {
      var rest := Check(input).value;
      var pulsed := done + [MoveCall(j, i)] + [PulseCall(j, i)];
      assert pulsed == done + [MoveCall(j, i), PulseCall(j, i)] == Done(seqs, j, i + 1);
      if pulseOk(j, i) {
        var next := if i != 0 then iterations + 1 else iterations;
        assert r == From(seqs, moveOk, pulseOk, j, i + 1, pulsed, next, rest);
        FromFollows(seqs, moveOk, pulseOk, j, i + 1, next, rest);
      } else {
        assert r == Outcome(PulseFailed(j, i), pulsed, iterations, rest);
      }
    }
  }

  /** From any position, the count of timed moves grows by one for every completed move after a sequence's first. */
  lemma {:induction false} FromCounts(seqs: seq<seq<G01>>, moveOk: Oracle, pulseOk: Oracle,
                                      j: nat, i: nat, calls: seq<Call>, input: seq<Input>)
    requires Position(seqs, j, i)
    ensures CountsTimed(seqs, From(seqs, moveOk, pulseOk, j, i, calls, Counted(seqs, j) + Timed(i), input))
    decreases |seqs| - j, if j < |seqs| then |seqs[j]| - i else 0
  {
    if j < |seqs| {
      if i == |seqs[j]| {
        if NextToken(input).Some? {
          FromCounts(seqs, moveOk, pulseOk, j + 1, 0, calls, NextToken(input).value);
        }
      } else if moveOk(j, i) && Check(input).Some? && pulseOk(j, i) {
        var pulsed := calls + [MoveCall(j, i)] + [PulseCall(j, i)];
        assert (if i != 0 then Counted(seqs, j) + Timed(i) + 1 else Counted(seqs, j) + Timed(i))
          == Counted(seqs, j) + Timed(i + 1);
        FromCounts(seqs, moveOk, pulseOk, j, i + 1, pulsed, Check(input).value);
      }
    }
  }

  /** The total number of moves in the first j sequences. */
  function Total(seqs: seq<seq<G01>>, j: nat): nat
    requires j <= |seqs|
  {
    if j == 0 then 0 else Total(seqs, j - 1) + |seqs[j - 1]|
  }

  /** The number of non-empty sequences among the first j. */
  function NonEmpty(seqs: seq<seq<G01>>, j: nat): nat
    requires j <= |seqs|
  {
    if j == 0 then 0 else NonEmpty(seqs, j - 1) + (if seqs[j - 1] != [] then 1 else 0)
  }

  lemma {:induction false} CountedIsTotalLessNonEmpty(seqs: seq<seq<G01>>, j: nat)
    requires j <= |seqs|
    ensures NonEmpty(seqs, j) <= Total(seqs, j)
    ensures Counted(seqs, j) == Total(seqs, j) - NonEmpty(seqs, j)
  {
    if j > 0 {
      CountedIsTotalLessNonEmpty(seqs, j - 1);
    }
  }

  /**
    The run of the main loop: its device calls follow the schedule up to where it stops,
    and a run that completes has positioned and pulsed every move of every sequence in
    order and counted as timed every move but the first of each non-empty sequence.
  */
  lemma OperationFollowsSchedule(seqs: seq<seq<G01>>, moveOk: Oracle, pulseOk: Oracle, input: seq<Input>)
    ensures Follows(seqs, moveOk, pulseOk, Operation(seqs, moveOk, pulseOk, input))
    ensures CountsTimed(seqs, Operation(seqs, moveOk, pulseOk, input))
    ensures Operation(seqs, moveOk, pulseOk, input).halt == Completed ==>
      Operation(seqs, moveOk, pulseOk, input).iterations == Total(seqs, |seqs|) - NonEmpty(seqs, |seqs|)
  {
    assert Done(seqs, 0, 0) == [];
    FromFollows(seqs, moveOk, pulseOk, 0, 0, 0, input);
    FromCounts(seqs, moveOk, pulseOk, 0, 0, [], input);
    CountedIsTotalLessNonEmpty(seqs, |seqs|);
  }

  /**
    A run whose devices never fail and whose operator never pauses, typing one line after
    each sequence and nothing else, completes and consumes exactly those lines.
  */
  lemma {:induction false} SmoothRunCompletes(seqs: seq<seq<G01>>, moveOk: Oracle, pulseOk: Oracle,
                                              j: nat, i: nat, calls: seq<Call>, iterations: nat, rest: seq<Input>)
    requires Position(seqs, j, i)
    requires forall a, b :: moveOk(a, b) && pulseOk(a, b)
    ensures From(seqs, moveOk, pulseOk, j, i, calls, iterations, Quiet(seqs, j, i) + rest).halt == Completed
    ensures From(seqs, moveOk, pulseOk, j, i, calls, iterations, Quiet(seqs, j, i) + rest).input == rest
    decreases |seqs| - j, if j < |seqs| then |seqs[j]| - i else 0
  {
    var input := Quiet(seqs, j, i) + rest;
    if j < |seqs| {
      if i == |seqs[j]| {
        assert input == [Token("")] + (Quiet(seqs, j + 1, 0) + rest);
        SmoothRunCompletes(seqs, moveOk, pulseOk, j + 1, 0, calls, iterations, rest);
      } else {
        assert input == [Silence] + (Quiet(seqs, j, i + 1) + rest);
        SmoothRunCompletes(seqs, moveOk, pulseOk, j, i + 1, calls + [MoveCall(j, i), PulseCall(j, i)],
          if i != 0 then iterations + 1 else iterations, rest);
        assert calls + [MoveCall(j, i)] + [PulseCall(j, i)] == calls + [MoveCall(j, i), PulseCall(j, i)];
      }
    }
  }

  /** Console input with silence at every check and one empty line after each sequence, from position (j, i). */
  function Quiet(seqs: seq<seq<G01>>, j: nat, i: nat): seq<Input>
    requires Position(seqs, j, i)
    decreases |seqs| - j, if j < |seqs| then |seqs[j]| - i else 0
  {
    if j == |seqs| then []
    else if i == |seqs[j]| then [Token("")] + Quiet(seqs, j + 1, 0)
    else [Silence] + Quiet(seqs, j, i + 1)
  }

  /**
    The main loop: for each sequence in order, for each of its moves in order, position
    the gantry, check the console, pulse the machine and count the move as timed unless it
    is the first of its sequence; after each sequence, wait for a line.
  */
  method Operate(seqs: seq<seq<G01>>, moveOk: Oracle, pulseOk: Oracle, input: seq<Input>)
    returns (halt: Halt, calls: seq<Call>, iterations: nat, rest: seq<Input>)
    ensures Outcome(halt, calls, iterations, rest) == Operation(seqs, moveOk, pulseOk, input)
  {
    ghost var goal := Operation(seqs, moveOk, pulseOk, input);
    calls, iterations, rest := [], 0, input;
    var j := 0;
    while j < |seqs|
      invariant j <= |seqs|
      invariant From(seqs, moveOk, pulseOk, j, 0, calls, iterations, rest) == goal
    {
      var i := 0;
      while i < |seqs[j]|
        invariant i <= |seqs[j]|
        invariant From(seqs, moveOk, pulseOk, j, i, calls, iterations, rest) == goal
      {
        calls := calls + [MoveCall(j, i)];
        if !moveOk(j, i) {
          return GantryFailed(j, i), calls, iterations, rest;
        }
        ghost var checked := Check(rest);
        if rest != [] {
          var event := rest[0];
          rest := rest[1..];
          if event == Token(PauseToken) {
            ghost var paused := rest;
            var resumed := false;
            while !resumed
              invariant !resumed ==> NextPause(rest) == NextPause(paused)
              invariant resumed ==> NextPause(paused) == Some(rest)
              decreases |rest|, if resumed then 0 else 1
            {
              if rest == [] {
                return PausedForever(j, i), calls, iterations, [];
              }
              var typed := rest[0];
              rest := rest[1..];
              resumed := typed == Token(PauseToken);
            }
          }
        }
        assert checked == Some(rest);
        calls := calls + [PulseCall(j, i)];
        if !pulseOk(j, i) {
          return PulseFailed(j, i), calls, iterations, rest;
        }
        if i != 0 {
          iterations := iterations + 1;
        }
        i := i + 1;
      }
      ghost var waiting := rest;
      var typed := false;
      while !typed
        invariant !typed ==> NextToken(rest) == NextToken(waiting)
        invariant typed ==> NextToken(waiting) == Some(rest)
        decreases |rest|, if typed then 0 else 1
      {
        if rest == [] {
          return AwaitingContinue(j), calls, iterations, [];
        }
        var event := rest[0];
        rest := rest[1..];
        typed := event.Token?;
      }
      j := j + 1;
    }
    return Completed, calls, iterations, rest;
  }
}

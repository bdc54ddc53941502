/**
  G-code moves and sequences of them.

  A move is a linear move (G01) to a position at a feed rate. Moves are parsed from and
  printed to the text form `G1 X<x> Y<y> Z<z> F<rate>`; a sequence keeps its moves in
  file order together with running X/Y bounds, and can be translated and scaled as a whole.

  Positions are real numbers: the single-precision rounding of the program is not modelled.
*/
module GCode {
  import opened Wrappers
  import opened Text

  /** A position or displacement in machine coordinates X, Y, Z. */
  type Vec3 = v: seq<real> | |v| == 3 witness [0.0, 0.0, 0.0]

  /** The X and Y parts of a position. */
  type Vec2 = v: seq<real> | |v| == 2 witness [0.0, 0.0]

  function Min(a: real, b: real): (m: real)
    ensures m <= a && m <= b && (m == a || m == b)
  {
    if a <= b then a else b
  }

  function Max(a: real, b: real): (m: real)
    ensures m >= a && m >= b && (m == a || m == b)
  {
    if a >= b then a else b
  }

  /** A linear move: its G number, the target position and the feed rate. */
  datatype G01 = G01(code: int, position: Vec3, rate: int)

  /** The zero value of a move, before anything is read into it. */
  const Blank: G01 := G01(0, [0.0, 0.0, 0.0], 0)

  // ------------------------------------------------------------------ one move

  /** The move shifted by delta; its G number and rate are kept. */
  function Translated(c: G01, delta: Vec3): (r: G01)
    ensures r.code == c.code && r.rate == c.rate
    ensures forall i :: 0 <= i < 3 ==> r.position[i] == c.position[i] + delta[i]
  {
    c.(position := [c.position[0] + delta[0], c.position[1] + delta[1], c.position[2] + delta[2]])
  }

  /** The move with every coordinate multiplied by s; its G number and rate are kept. */
  function Scaled(c: G01, s: real): (r: G01)
    ensures r.code == c.code && r.rate == c.rate
    ensures forall i :: 0 <= i < 3 ==> r.position[i] == c.position[i] * s
  {
    c.(position := [c.position[0] * s, c.position[1] * s, c.position[2] * s])
  }

  function Negated(delta: Vec3): (r: Vec3)
    ensures forall i :: 0 <= i < 3 ==> r[i] == -delta[i]
  {
    [-delta[0], -delta[1], -delta[2]]
  }

  function Sum(a: Vec3, b: Vec3): (r: Vec3)
    ensures forall i :: 0 <= i < 3 ==> r[i] == a[i] + b[i]
  {
    [a[0] + b[0], a[1] + b[1], a[2] + b[2]]
  }

  /** Translating back by the opposite displacement restores the move. */
  lemma TranslateInverse(c: G01, delta: Vec3)
    ensures Translated(Translated(c, delta), Negated(delta)) == c
  {
    var r := Translated(Translated(c, delta), Negated(delta));
    assert r.position == c.position;
  }

  /** Two translations are one translation by the sum of the displacements. */
  lemma TranslateCompose(c: G01, d1: Vec3, d2: Vec3)
    ensures Translated(Translated(c, d1), d2) == Translated(c, Sum(d1, d2))
  {
    var r := Translated(Translated(c, d1), d2);
    assert r.position == Translated(c, Sum(d1, d2)).position;
  }

  /** Scaling by one changes nothing; two scalings are one by the product. */
  lemma ScaleLaws(c: G01, a: real, b: real)
    ensures Scaled(c, 1.0) == c
    ensures Scaled(Scaled(c, a), b) == Scaled(c, a * b)
  {
    assert Scaled(c, 1.0).position == c.position;
    var p := c.position;
    var q := Scaled(c, a).position;
    var r := Scaled(Scaled(c, a), b).position;
    var t := Scaled(c, a * b).position;
    forall i | 0 <= i < |r| ensures r[i] == t[i]
    {
      assert r[i] == q[i] * b && q[i] == p[i] * a;
      MulAssoc(p[i], a, b);
    }
    assert |r| == |t|;
  }

  lemma MulAssoc(x: real, a: real, b: real)
    ensures x * a * b == x * (a * b)
  {
  }

  /**
    The `same` comparison of a move with another G-code value: None stands for a value
    that is not a move (a nil code). Positions and rates are compared; the G number is not.
  */
  function Same(c: G01, other: Option<G01>): (r: bool)
    ensures r <==> (other.Some? && other.value.rate == c.rate
                    && forall i :: 0 <= i < 3 ==> other.value.position[i] == c.position[i])
  {
    match other
    case None => false
    case Some(v) =>
      v.position[0] == c.position[0] && v.position[1] == c.position[1]
      && v.position[2] == c.position[2] && v.rate == c.rate
  }

  /** `same` is an equivalence on moves that ignores the G number. */
  lemma SameIsEquivalence(a: G01, b: G01, c: G01)
    ensures Same(a, Some(a))
    ensures Same(a, Some(b)) ==> Same(b, Some(a))
    ensures Same(a, Some(b)) && Same(b, Some(c)) ==> Same(a, Some(c))
    ensures Same(a, Some(a.(code := c.code)))
    ensures Same(a, Some(b)) <==> a.(code := 0) == b.(code := 0)
  {
    if Same(a, Some(b)) {
      assert a.position == b.position;
    }
  }

  /** Translation and scaling keep `same` moves `same`. */
  lemma SameKeptByMoves(a: G01, b: G01, delta: Vec3, s: real)
    requires Same(a, Some(b))
    ensures Same(Translated(a, delta), Some(Translated(b, delta)))
    ensures Same(Scaled(a, s), Some(Scaled(b, s)))
  {
  }

  // ------------------------------------------------------------------ text form

  /** `G%d X%.2f Y%.2f Z%.2f F%d`: five fields separated by single spaces. */
  function ToString(c: G01): string
  {
    Join(["G" + FormatInt(c.code), "X" + Fixed2(c.position[0]), "Y" + Fixed2(c.position[1]),
          "Z" + Fixed2(c.position[2]), "F" + FormatInt(c.rate)], ' ')
  }

  /** What `GCodefactory` makes of a line: nothing, a move, or an index out of range. */
  datatype Made = Nil | Move(move: G01) | Crash

  /** The value Sscanf leaves in a float variable: the scanned one, or the old one on failure. */
  function ScanOr(token: string, letter: char, prior: real): real
  {
    match ScanLetterFloat(token, letter)
    case Some(v) => v
    case None => prior
  }

  function ScanIntOr(token: string, letter: char, prior: int): int
  {
    match ScanLetterInt(token, letter)
    case Some(v) => v
    case None => prior
  }

  /**
    `FromString` on a blank move, as written: X from the first token, Y from the second,
    Z also from the second (so only a token starting with Z could set it), and the rate
    from the fourth. Fewer than four tokens index out of range.
  */
  function FromString(tokens: seq<string>): (r: Made)
    ensures r.Crash? <==> |tokens| < 4
    ensures r.Move? ==> r.move.code == 1
  {
    if |tokens| < 4 then Crash
    else
      Move(G01(1, [ScanOr(tokens[0], 'X', 0.0), ScanOr(tokens[1], 'Y', 0.0), ScanOr(tokens[1], 'Z', 0.0)],
               ScanIntOr(tokens[3], 'F', 0)))
  }

  /** `FromString` reading Z from the third token, as the text form lays it out. */
  function FromStringIntended(tokens: seq<string>): (r: Made)
    ensures r.Crash? <==> |tokens| < 4
    ensures r.Move? ==> r.move.code == 1
  {
    if |tokens| < 4 then Crash
    else
      Move(G01(1, [ScanOr(tokens[0], 'X', 0.0), ScanOr(tokens[1], 'Y', 0.0), ScanOr(tokens[2], 'Z', 0.0)],
               ScanIntOr(tokens[3], 'F', 0)))
  }

  /** `GCodefactory`: a move when the first space-separated token is exactly "G1", else nil. */
  function Factory(line: string): (r: Made)
    ensures r.Nil? <==> Split(line, ' ')[0] != "G1"
    ensures r.Crash? <==> Split(line, ' ')[0] == "G1" && |Split(line, ' ')| < 5
    ensures r.Move? ==> r.move.code == 1
  {
    var components := Split(line, ' ');
    if components[0] == "G1" then FromString(components[1..]) else Nil
  }

  function FactoryIntended(line: string): (r: Made)
    ensures r.Nil? <==> Split(line, ' ')[0] != "G1"
    ensures r.Crash? <==> Split(line, ' ')[0] == "G1" && |Split(line, ' ')| < 5
    ensures r.Move? ==> r.move.code == 1
  {
    var components := Split(line, ' ');
    if components[0] == "G1" then FromStringIntended(components[1..]) else Nil
  }

  /** The fields of the printed form of a G1 move, in order. */
  function Fields(c: G01): seq<string>
  {
    ["G1", "X" + Fixed2(c.position[0]), "Y" + Fixed2(c.position[1]),
     "Z" + Fixed2(c.position[2]), "F" + FormatInt(c.rate)]
  }

  /** The printed form of a G1 move splits into its five fields. */
  lemma ToStringFields(c: G01)
    requires c.code == 1
    ensures Split(ToString(c), ' ') == Fields(c)
  {
    FieldsHaveNoSpace(c);
    SplitJoin(Fields(c), ' ');
    ToStringIsJoin(c);
  }

  lemma FieldsHaveNoSpace(c: G01)
    ensures forall k :: 0 <= k < |Fields(c)| ==> ' ' !in Fields(c)[k]
  {
    var fields := Fields(c);
    NoSpaceInFixed2(c.position[0]);
    NoSpaceInFixed2(c.position[1]);
    NoSpaceInFixed2(c.position[2]);
    NoSpaceInFormatInt(c.rate);
    forall k | 0 <= k < |fields| ensures ' ' !in fields[k]
    {
      if k > 0 {
        assert fields[k] == [fields[k][0]] + fields[k][1..];
      }
    }
  }

  lemma ToStringIsJoin(c: G01)
    requires c.code == 1
    ensures ToString(c) == Join(Fields(c), ' ')
  {
    assert FormatInt(1) == "1";
  }

  /** A field written with a letter and %.2f reads back, with that letter, as the printed value. */
  lemma ScanField(letter: char, x: real)
    ensures ScanLetterFloat([letter] + Fixed2(x), letter) == Some(Round2(x))
  {
    ScanFixed2(x, []);
    assert Fixed2(x) + [] == Fixed2(x);
    assert ([letter] + Fixed2(x))[1..] == Fixed2(x);
  }

  lemma ScanRateField(rate: int)
    ensures ScanLetterInt("F" + FormatInt(rate), 'F') == Some(rate)
  {
    ScanFormatInt(rate, []);
    assert FormatInt(rate) + [] == FormatInt(rate);
    assert ("F" + FormatInt(rate))[1..] == FormatInt(rate);
  }

  /**
    Printing a G1 move and making a move of the text back, as written, gives X and Y
    rounded to hundredths and the rate, but Z always 0: the Z field is never read.
  */
  lemma FactoryLosesZ(c: G01)
    requires c.code == 1
    ensures Factory(ToString(c)) == Move(G01(1, [Round2(c.position[0]), Round2(c.position[1]), 0.0], c.rate))
  {
    ToStringFields(c);
    ScanField('X', c.position[0]);
    ScanField('Y', c.position[1]);
    ScanRateField(c.rate);
    assert ScanLetterFloat("Y" + Fixed2(c.position[1]), 'Z').None?;
  }

  /** So a move with a non-zero height does not survive printing and reading back. */
  lemma FactoryLosesHeight()
    ensures var c := G01(1, [0.0, 0.0, 1.0], 0);
      Factory(ToString(c)) == Move(c.(position := [0.0, 0.0, 0.0]))
  {
    var c := G01(1, [0.0, 0.0, 1.0], 0);
    FactoryLosesZ(c);
    assert RoundHalfEven(0.0) == 0;
  }

  /**
    Reading Z from its own field, printing and reading back gives every coordinate
    rounded to hundredths, and the rate; a move already on the hundredths grid comes back unchanged.
  */
  lemma FactoryIntendedRoundTrip(c: G01)
    requires c.code == 1
    ensures FactoryIntended(ToString(c))
      == Move(G01(1, [Round2(c.position[0]), Round2(c.position[1]), Round2(c.position[2])], c.rate))
    ensures Factory(ToString(c)).Move? && FactoryIntended(ToString(c)).Move?
    ensures Same(FactoryIntended(ToString(c)).move, Some(Factory(ToString(c)).move))
      <==> Round2(c.position[2]) == 0.0
  {
    ToStringFields(c);
    ScanField('X', c.position[0]);
    ScanField('Y', c.position[1]);
    ScanField('Z', c.position[2]);
    ScanRateField(c.rate);
    FactoryLosesZ(c);
  }

  // ------------------------------------------------------------------ bounds

  function Min3(a: Vec3, b: Vec3): (r: Vec3)
    ensures forall i :: 0 <= i < 3 ==> r[i] == Min(a[i], b[i])
  {
    [Min(a[0], b[0]), Min(a[1], b[1]), Min(a[2], b[2])]
  }

  function Max3(a: Vec3, b: Vec3): (r: Vec3)
    ensures forall i :: 0 <= i < 3 ==> r[i] == Max(a[i], b[i])
  {
    [Max(a[0], b[0]), Max(a[1], b[1]), Max(a[2], b[2])]
  }

  /** The componentwise minimum of the positions, as `Min` folds it from the first move. */
  function MinPos(codes: seq<G01>): Vec3
    requires codes != []
  {
    if |codes| == 1 then codes[0].position
    else Min3(MinPos(codes[..|codes| - 1]), codes[|codes| - 1].position)
  }

  /** The componentwise maximum of the positions, as `Max` folds it from the first move. */
  function MaxPos(codes: seq<G01>): Vec3
    requires codes != []
  {
    if |codes| == 1 then codes[0].position
    else Max3(MaxPos(codes[..|codes| - 1]), codes[|codes| - 1].position)
  }

  /** Each coordinate of MinPos is at most that coordinate of every move, and is one of them. */
  lemma {:induction false} MinPosIsLeast(codes: seq<G01>)
    requires codes != []
    ensures forall k, i :: 0 <= k < |codes| && 0 <= i < 3 ==> MinPos(codes)[i] <= codes[k].position[i]
    ensures forall i :: 0 <= i < 3 ==> exists k :: 0 <= k < |codes| && MinPos(codes)[i] == codes[k].position[i]
    decreases |codes|
  {
    if |codes| > 1 {
      var init := codes[..|codes| - 1];
      var last := codes[|codes| - 1].position;
      MinPosIsLeast(init);
      assert MinPos(codes) == Min3(MinPos(init), last);
      forall i | 0 <= i < 3
        ensures exists k :: 0 <= k < |codes| && MinPos(codes)[i] == codes[k].position[i]
      {
        assert MinPos(codes)[i] == Min(MinPos(init)[i], last[i]);
        if MinPos(codes)[i] != last[i] {
          var k :| 0 <= k < |init| && MinPos(init)[i] == init[k].position[i];
          assert codes[k] == init[k];
        }
      }
      forall k, i | 0 <= k < |codes| && 0 <= i < 3
        ensures MinPos(codes)[i] <= codes[k].position[i]
      {
        assert MinPos(codes)[i] == Min(MinPos(init)[i], last[i]);
        if k < |init| {
          assert codes[k] == init[k];
        }
      }
    } else {
      assert MinPos(codes) == codes[0].position;
      forall i | 0 <= i < 3
        ensures exists k :: 0 <= k < |codes| && MinPos(codes)[i] == codes[k].position[i]
      {
        assert MinPos(codes)[i] == codes[0].position[i];
      }
    }
  }

  /** Each coordinate of MaxPos is at least that coordinate of every move, and is one of them. */
  lemma {:induction false} MaxPosIsGreatest(codes: seq<G01>)
    requires codes != []
    ensures forall k, i :: 0 <= k < |codes| && 0 <= i < 3 ==> codes[k].position[i] <= MaxPos(codes)[i]
    ensures forall i :: 0 <= i < 3 ==> exists k :: 0 <= k < |codes| && MaxPos(codes)[i] == codes[k].position[i]
    decreases |codes|
  {
    if |codes| > 1 {
      var init := codes[..|codes| - 1];
      var last := codes[|codes| - 1].position;
      MaxPosIsGreatest(init);
      assert MaxPos(codes) == Max3(MaxPos(init), last);
      forall i | 0 <= i < 3
        ensures exists k :: 0 <= k < |codes| && MaxPos(codes)[i] == codes[k].position[i]
      {
        assert MaxPos(codes)[i] == Max(MaxPos(init)[i], last[i]);
        if MaxPos(codes)[i] != last[i] {
          var k :| 0 <= k < |init| && MaxPos(init)[i] == init[k].position[i];
          assert codes[k] == init[k];
        }
      }
      forall k, i | 0 <= k < |codes| && 0 <= i < 3
        ensures codes[k].position[i] <= MaxPos(codes)[i]
      {
        assert MaxPos(codes)[i] == Max(MaxPos(init)[i], last[i]);
        if k < |init| {
          assert codes[k] == init[k];
        }
      }
    } else {
      assert MaxPos(codes) == codes[0].position;
      forall i | 0 <= i < 3
        ensures exists k :: 0 <= k < |codes| && MaxPos(codes)[i] == codes[k].position[i]
      {
        assert MaxPos(codes)[i] == codes[0].position[i];
      }
    }
  }

  /**
    The bound `append` keeps for coordinate i (X or Y): the minimum of the zero value
    it starts from and each appended move's coordinate.
  */
  function LowerBound(codes: seq<G01>, i: nat): real
    requires i < 2
  {
    if codes == [] then 0.0
    else Min(codes[|codes| - 1].position[i], LowerBound(codes[..|codes| - 1], i))
  }

  function UpperBound(codes: seq<G01>, i: nat): real
    requires i < 2
  {
    if codes == [] then 0.0
    else Max(codes[|codes| - 1].position[i], UpperBound(codes[..|codes| - 1], i))
  }

  /**
    Because they start at zero, the appended bounds are those of the moves with the origin
    added: never above (below) zero, and otherwise the true minimum (maximum).
  */
  lemma {:induction false} BoundsIncludeOrigin(codes: seq<G01>, i: nat)
    requires i < 2
    ensures codes == [] ==> LowerBound(codes, i) == 0.0 && UpperBound(codes, i) == 0.0
    ensures codes != [] ==> LowerBound(codes, i) == Min(0.0, MinPos(codes)[i])
    ensures codes != [] ==> UpperBound(codes, i) == Max(0.0, MaxPos(codes)[i])
    decreases |codes|
  {
    if |codes| > 1 {
      var init := codes[..|codes| - 1];
      BoundsIncludeOrigin(init, i);
    }
  }

  /** A translated sequence: every move shifted, in the same order. */
  function TranslateAll(codes: seq<G01>, delta: Vec3): (r: seq<G01>)
    ensures |r| == |codes|
    ensures forall k :: 0 <= k < |codes| ==> r[k] == Translated(codes[k], delta)
  {
    if codes == [] then [] else [Translated(codes[0], delta)] + TranslateAll(codes[1..], delta)
  }

  /** A scaled sequence: every move scaled, in the same order. */
  function ScaleAll(codes: seq<G01>, s: real): (r: seq<G01>)
    ensures |r| == |codes|
    ensures forall k :: 0 <= k < |codes| ==> r[k] == Scaled(codes[k], s)
  {
    if codes == [] then [] else [Scaled(codes[0], s)] + ScaleAll(codes[1..], s)
  }

  /** Translating a sequence shifts its minimum and maximum by the same displacement. */
  lemma TranslateShiftsBounds(codes: seq<G01>, delta: Vec3)
    requires codes != []
    ensures MinPos(TranslateAll(codes, delta)) == Sum(MinPos(codes), delta)
    ensures MaxPos(TranslateAll(codes, delta)) == Sum(MaxPos(codes), delta)
  {
    TranslateShiftsMin(codes, delta);
    TranslateShiftsMax(codes, delta);
  }

  lemma {:induction false} TranslateShiftsMin(codes: seq<G01>, delta: Vec3)
    requires codes != []
    ensures MinPos(TranslateAll(codes, delta)) == Sum(MinPos(codes), delta)
    decreases |codes|
  {
    var t := TranslateAll(codes, delta);
    if |codes| > 1 {
      var init := codes[..|codes| - 1];
      TranslateShiftsMin(init, delta);
      TranslateAllInit(codes, delta);
      MinPosSnoc(t);
      MinPosSnoc(codes);
      MinShiftsWith(MinPos(init), codes[|codes| - 1].position, delta);
    }
  }

  lemma {:induction false} TranslateShiftsMax(codes: seq<G01>, delta: Vec3)
    requires codes != []
    ensures MaxPos(TranslateAll(codes, delta)) == Sum(MaxPos(codes), delta)
    decreases |codes|
  {
    var t := TranslateAll(codes, delta);
    if |codes| > 1 {
      var init := codes[..|codes| - 1];
      TranslateShiftsMax(init, delta);
      TranslateAllInit(codes, delta);
      MaxPosSnoc(t);
      MaxPosSnoc(codes);
      MaxShiftsWith(MaxPos(init), codes[|codes| - 1].position, delta);
    }
  }

  lemma MinPosSnoc(codes: seq<G01>)
    requires |codes| > 1
    ensures MinPos(codes) == Min3(MinPos(codes[..|codes| - 1]), codes[|codes| - 1].position)
  {
  }

  lemma MaxPosSnoc(codes: seq<G01>)
    requires |codes| > 1
    ensures MaxPos(codes) == Max3(MaxPos(codes[..|codes| - 1]), codes[|codes| - 1].position)
  {
  }

  lemma MinShiftsWith(a: Vec3, b: Vec3, d: Vec3)
    ensures Min3(Sum(a, d), Sum(b, d)) == Sum(Min3(a, b), d)
  {
  }

  lemma MaxShiftsWith(a: Vec3, b: Vec3, d: Vec3)
    ensures Max3(Sum(a, d), Sum(b, d)) == Sum(Max3(a, b), d)
  {
  }

  lemma TranslateAllInit(codes: seq<G01>, delta: Vec3)
    requires codes != []
    ensures TranslateAll(codes, delta)[..|codes| - 1] == TranslateAll(codes[..|codes| - 1], delta)
    ensures TranslateAll(codes, delta)[|codes| - 1].position == Sum(codes[|codes| - 1].position, delta)
  {
    assert Translated(codes[|codes| - 1], delta).position == Sum(codes[|codes| - 1].position, delta);
  }

  /** Translating a sequence back by the opposite displacement restores it. */
  lemma TranslateAllInverse(codes: seq<G01>, delta: Vec3)
    ensures TranslateAll(TranslateAll(codes, delta), Negated(delta)) == codes
  {
    var r := TranslateAll(TranslateAll(codes, delta), Negated(delta));
    forall k | 0 <= k < |codes| ensures r[k] == codes[k]
    {
      TranslateInverse(codes[k], delta);
    }
  }

  /** Scaling a sequence by one changes nothing; two scalings are one by the product. */
  lemma ScaleAllLaws(codes: seq<G01>, a: real, b: real)
    ensures ScaleAll(codes, 1.0) == codes
    ensures ScaleAll(ScaleAll(codes, a), b) == ScaleAll(codes, a * b)
  {
    forall k | 0 <= k < |codes|
      ensures ScaleAll(codes, 1.0)[k] == codes[k]
      ensures ScaleAll(ScaleAll(codes, a), b)[k] == ScaleAll(codes, a * b)[k]
    {
      ScaleLaws(codes[k], a, b);
    }
  }

  // ------------------------------------------------------------------ the sequence object

  /** The shift `Zero` applies: the smallest X and Y negated, heights kept. */
  function ZeroShift(codes: seq<G01>): Vec3
    requires codes != []
  {
    [-MinPos(codes)[0], -MinPos(codes)[1], 0.0]
  }

  /** After the shift of `Zero`, the smallest X and Y are 0 and the smallest height is unchanged. */
  lemma ZeroedBounds(codes: seq<G01>)
    requires codes != []
    ensures MinPos(TranslateAll(codes, ZeroShift(codes)))[0] == 0.0
    ensures MinPos(TranslateAll(codes, ZeroShift(codes)))[1] == 0.0
    ensures MinPos(TranslateAll(codes, ZeroShift(codes)))[2] == MinPos(codes)[2]
  {
    TranslateShiftsBounds(codes, ZeroShift(codes));
  }

  /** A G-code sequence: its moves in file order and the running X/Y bounds kept by `append`. */
  class GCodeSequence {
    var codes: seq<G01>
    var minPos: Vec2
    var maxPos: Vec2

    /** The zero value: no moves and both bounds at the origin. */
    constructor ()
      ensures codes == [] && minPos == [0.0, 0.0] && maxPos == [0.0, 0.0]
      ensures Tracked()
    {
      codes, minPos, maxPos := [], [0.0, 0.0], [0.0, 0.0];
    }

    /** The bounds are those `append` accumulates over the moves. */
    predicate Tracked()
      reads this
    {
      minPos == [LowerBound(codes, 0), LowerBound(codes, 1)]
      && maxPos == [UpperBound(codes, 0), UpperBound(codes, 1)]
    }

    /** `append`: the move goes at the end and the X/Y bounds take it in. */
    method Append(c: G01)
      modifies this
      ensures codes == old(codes) + [c]
      ensures minPos == [Min(c.position[0], old(minPos)[0]), Min(c.position[1], old(minPos)[1])]
      ensures maxPos == [Max(c.position[0], old(maxPos)[0]), Max(c.position[1], old(maxPos)[1])]
      ensures old(Tracked()) ==> Tracked()
    {
      var pos := c.position;
      minPos := [Min(pos[0], minPos[0]), Min(pos[1], minPos[1])];
      maxPos := [Max(pos[0], maxPos[0]), Max(pos[1], maxPos[1])];
      codes := codes + [c];
      assert codes[..|codes| - 1] == old(codes);
    }

    /** `Min`: starts from the first move's position and lowers each coordinate in turn. */
    method MinBounds() returns (bounds: Vec3)
      requires codes != []
      ensures bounds == MinPos(codes)
    {
      bounds := codes[0].position;
      var k := 0;
      while k < |codes|
        invariant 0 <= k <= |codes|
        invariant bounds == MinPos(codes[..if k == 0 then 1 else k])
      {
        var pos := codes[k].position;
        ghost var before := bounds;
        var i := 0;
        while i < 3
          invariant 0 <= i <= 3
          invariant forall j :: 0 <= j < i ==> bounds[j] == Min(before[j], pos[j])
          invariant forall j :: i <= j < 3 ==> bounds[j] == before[j]
        {
          if pos[i] < bounds[i] {
            bounds := bounds[i := pos[i]];
          }
          i := i + 1;
        }
        assert bounds == Min3(before, pos);
        if k == 0 {
          assert codes[..1] == [codes[0]];
          assert bounds == before;
        } else {
          assert codes[..k + 1][..k] == codes[..k];
        }
        k := k + 1;
      }
      assert codes[..k] == codes;
    }

    /** `Max`: starts from the first move's position and raises each coordinate in turn. */
    method MaxBounds() returns (bounds: Vec3)
      requires codes != []
      ensures bounds == MaxPos(codes)
    {
      bounds := codes[0].position;
      var k := 0;
      while k < |codes|
        invariant 0 <= k <= |codes|
        invariant bounds == MaxPos(codes[..if k == 0 then 1 else k])
      {
        var pos := codes[k].position;
        ghost var before := bounds;
        var i := 0;
        while i < 3
          invariant 0 <= i <= 3
          invariant forall j :: 0 <= j < i ==> bounds[j] == Max(before[j], pos[j])
          invariant forall j :: i <= j < 3 ==> bounds[j] == before[j]
        {
          if bounds[i] < pos[i] {
            bounds := bounds[i := pos[i]];
          }
          i := i + 1;
        }
        assert bounds == Max3(before, pos);
        if k == 0 {
          assert codes[..1] == [codes[0]];
          assert bounds == before;
        } else {
          assert codes[..k + 1][..k] == codes[..k];
        }
        k := k + 1;
      }
      assert codes[..k] == codes;
    }

    /** `Translate`: every move shifted by delta; the kept X/Y bounds are not updated. */
    method Translate(delta: Vec3)
      modifies this
      ensures codes == TranslateAll(old(codes), delta)
      ensures minPos == old(minPos) && maxPos == old(maxPos)
    {
      var k := 0;
      while k < |codes|
        invariant 0 <= k <= |codes| == |old(codes)|
        invariant forall m :: 0 <= m < k ==> codes[m] == Translated(old(codes)[m], delta)
        invariant forall m :: k <= m < |codes| ==> codes[m] == old(codes)[m]
        invariant minPos == old(minPos) && maxPos == old(maxPos)
      {
        codes := codes[k := Translated(codes[k], delta)];
        k := k + 1;
      }
    }

    /** `Scale`: every move scaled by s; the kept X/Y bounds are not updated. */
    method Scale(s: real)
      modifies this
      ensures codes == ScaleAll(old(codes), s)
      ensures minPos == old(minPos) && maxPos == old(maxPos)
    {
      var k := 0;
      while k < |codes|
        invariant 0 <= k <= |codes| == |old(codes)|
        invariant forall m :: 0 <= m < k ==> codes[m] == Scaled(old(codes)[m], s)
        invariant forall m :: k <= m < |codes| ==> codes[m] == old(codes)[m]
        invariant minPos == old(minPos) && maxPos == old(maxPos)
      {
        codes := codes[k := Scaled(codes[k], s)];
        k := k + 1;
      }
    }

    /**
      `Zero`: shift the moves so that the smallest X and the smallest Y become 0; heights
      are left as they are.
    */
    method Zero()
      requires codes != []
      modifies this
      ensures codes == TranslateAll(old(codes), ZeroShift(old(codes)))
      ensures minPos == old(minPos) && maxPos == old(maxPos)
    {
      ghost var original := codes;
      var minBounds := MinBounds();
      assert codes == original;
      var delta: Vec3 := [-minBounds[0], -minBounds[1], 0.0];
      assert delta == ZeroShift(original);
      Translate(delta);
    }

    /** `Contains`: whether some move already in the sequence is `same` as the given value. */
    method Contains(other: Option<G01>) returns (found: bool)
      ensures found <==> exists k :: 0 <= k < |codes| && Same(codes[k], other)
    {
      var k := 0;
      while k < |codes|
        invariant 0 <= k <= |codes|
        invariant forall m :: 0 <= m < k ==> !Same(codes[m], other)
      {
        if Same(codes[k], other) {
          return true;
        }
        k := k + 1;
      }
      return false;
    }
  }
}

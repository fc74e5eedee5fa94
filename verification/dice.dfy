/** Dice-roll evaluation: a roll is a list of `{count, die, sign}` terms folded into one
    integer by a roll function that stands for one throw of a die. */
module Dice {
  import opened Outcomes

  /** One term of a roll such as `2d6` or `-1d4`. */
  datatype RollTerm = RollTerm(count: int, die: int, sign: string)

  /** The integers `start..end` inclusive, in increasing order; empty when `start > end`. */
  function Range(start: int, end: int): (r: seq<int>)
    ensures |r| == if start <= end then end - start + 1 else 0
    ensures forall i :: 0 <= i < |r| ==> r[i] == start + i
    decreases end - start
  {
    if start > end then [] else [start] + Range(start + 1, end)
  }

  /** A face of a `die`-sided die. */
  predicate IsFace(die: int, face: int) {
    1 <= face <= die
  }

  /** The deterministic roll functions: the lowest and the highest face. */
  function RollDieMin(die: int): (r: int)
    ensures die >= 1 ==> IsFace(die, r)
    ensures forall face :: IsFace(die, face) ==> r <= face
  {
    1
  }

  function RollDieMax(die: int): (r: int)
    ensures die >= 1 ==> IsFace(die, r)
    ensures forall face :: IsFace(die, face) ==> face <= r
  {
    die
  }

  /** The loop over `range(1, count)` inside the reducer. Its body returns on the first pass when
      the sign is "+" or "-", and does nothing otherwise; `None` means the loop ran out. */
  function TermLoop(iterations: seq<int>, sum: int, t: RollTerm, roll: int -> int): (r: Option<int>)
    ensures r.Some? <==> |iterations| > 0 && (t.sign == "+" || t.sign == "-")
    ensures r.Some? ==> r.value == sum + Signed(t, roll)
  {
    if |iterations| == 0 then None
    else if t.sign == "+" then Some(sum + roll(t.die))
    else if t.sign == "-" then Some(sum - roll(t.die))
    else TermLoop(iterations[1..], sum, t, roll)
  }

  /** A term the reducer accepts. */
  predicate Valid(t: RollTerm) {
    t.count >= 1 && (t.sign == "+" || t.sign == "-")
  }

  /** What one accepted term adds to the running sum: a single throw, negated for "-". */
  function Signed(t: RollTerm, roll: int -> int): int {
    if t.sign == "+" then roll(t.die) else -roll(t.die)
  }

  /** One call of the reducer: the loop, then the throw it falls through to. */
  function Step(sum: int, t: RollTerm, roll: int -> int): (r: Outcome<int>)
    ensures r.Success? <==> Valid(t)
    ensures r.Success? ==> r.value == sum + Signed(t, roll)
    ensures r.Failure? ==> r.error == UnrecognizedSign(t.sign)
  {
    match TermLoop(Range(1, t.count), sum, t, roll)
    case Some(v) => Success(v)
    case None => Failure(UnrecognizedSign(t.sign))
  }

  /** `Array.prototype.reduce` of the reducer from the running sum `sum`; a throw ends the fold. */
  function Fold(terms: seq<RollTerm>, sum: int, roll: int -> int): Outcome<int> {
    if |terms| == 0 then Success(sum)
    else
      match Step(sum, terms[0], roll)
      case Failure(e) => Failure(e)
      case Success(v) => Fold(terms[1..], v, roll)
  }

  /** rollDie: the fold from 0. */
  function RollDie(terms: seq<RollTerm>, roll: int -> int): (r: Outcome<int>)
    ensures |terms| == 0 ==> r == Success(0)
  {
    Fold(terms, 0, roll)
  }

  /** Reference definitions: every term accepted, the signed sum of one throw per term, and
      the first term the reducer rejects. */
  predicate AllValid(terms: seq<RollTerm>) {
    forall i :: 0 <= i < |terms| ==> Valid(terms[i])
  }

  function SignedTotal(terms: seq<RollTerm>, roll: int -> int): int {
    if |terms| == 0 then 0 else Signed(terms[0], roll) + SignedTotal(terms[1..], roll)
  }

  function FirstInvalid(terms: seq<RollTerm>): (i: nat)
    requires !AllValid(terms)
    ensures i < |terms| && !Valid(terms[i])
    ensures forall j :: 0 <= j < i ==> Valid(terms[j])
  {
    if !Valid(terms[0]) then 0 else 1 + FirstInvalid(terms[1..])
  }

  lemma {:induction false} FoldMeaning(terms: seq<RollTerm>, sum: int, roll: int -> int)
    ensures Fold(terms, sum, roll) ==
      if AllValid(terms) then Success(sum + SignedTotal(terms, roll))
      else Failure(UnrecognizedSign(terms[FirstInvalid(terms)].sign))
    decreases |terms|
  {
    if |terms| > 0 {
      var tail := terms[1..];
      assert AllValid(terms) <==> Valid(terms[0]) && AllValid(tail) by {
        if Valid(terms[0]) && AllValid(tail) {
          forall i | 0 <= i < |terms| ensures Valid(terms[i]) {
            if i > 0 { assert terms[i] == tail[i - 1]; }
          }
        }
        if AllValid(terms) {
          forall i | 0 <= i < |tail| ensures Valid(tail[i]) { assert tail[i] == terms[i + 1]; }
        }
      }
      if Valid(terms[0]) {
        FoldMeaning(tail, sum + Signed(terms[0], roll), roll);
        if !AllValid(terms) {
          assert FirstInvalid(terms) == 1 + FirstInvalid(tail);
        }
      }
    }
  }

  /** rollDie succeeds exactly when every term has a count of at least 1 and a sign of "+" or
      "-"; it then adds one throw per "+" term and subtracts one per "-" term. Otherwise it
      throws for the first rejected term, which covers an empty count range as well as a bad sign. */
  lemma RollDieMeaning(terms: seq<RollTerm>, roll: int -> int)
    ensures RollDie(terms, roll) ==
      if AllValid(terms) then Success(SignedTotal(terms, roll))
      else Failure(UnrecognizedSign(terms[FirstInvalid(terms)].sign))
  {
    FoldMeaning(terms, 0, roll);
  }

  /** Sums of the faces of the "+" (or "-") terms, and their number. */
  function DiceOf(terms: seq<RollTerm>, sign: string): int {
    if |terms| == 0 then 0 else (if terms[0].sign == sign then terms[0].die else 0) + DiceOf(terms[1..], sign)
  }

  function CountOf(terms: seq<RollTerm>, sign: string): nat {
    if |terms| == 0 then 0 else (if terms[0].sign == sign then 1 else 0) + CountOf(terms[1..], sign)
  }

  lemma {:induction false} MaxTotal(terms: seq<RollTerm>)
    requires AllValid(terms)
    ensures SignedTotal(terms, RollDieMax) == DiceOf(terms, "+") - DiceOf(terms, "-")
    decreases |terms|
  {
    if |terms| > 0 {
      assert Valid(terms[0]);
      var tail := terms[1..];
      assert AllValid(tail) by {
        forall i | 0 <= i < |tail| ensures Valid(tail[i]) { assert tail[i] == terms[i + 1]; }
      }
      MaxTotal(tail);
    }
  }

  lemma {:induction false} MinTotal(terms: seq<RollTerm>)
    requires AllValid(terms)
    ensures SignedTotal(terms, RollDieMin) == CountOf(terms, "+") - CountOf(terms, "-")
    decreases |terms|
  {
    if |terms| > 0 {
      assert Valid(terms[0]);
      var tail := terms[1..];
      assert AllValid(tail) by {
        forall i | 0 <= i < |tail| ensures Valid(tail[i]) { assert tail[i] == terms[i + 1]; }
      }
      MinTotal(tail);
    }
  }

  /** With the highest face, an accepted roll is the sum of the "+" dice minus the sum of the "-" dice. */
  lemma RollDieMaxMeaning(terms: seq<RollTerm>)
    requires AllValid(terms)
    ensures RollDie(terms, RollDieMax) == Success(DiceOf(terms, "+") - DiceOf(terms, "-"))
  {
    RollDieMeaning(terms, RollDieMax);
    MaxTotal(terms);
  }

  /** With the lowest face, an accepted roll is the number of "+" terms minus the number of "-" terms. */
  lemma RollDieMinMeaning(terms: seq<RollTerm>)
    requires AllValid(terms)
    ensures RollDie(terms, RollDieMin) == Success(CountOf(terms, "+") - CountOf(terms, "-"))
  {
    RollDieMeaning(terms, RollDieMin);
    MinTotal(terms);
  }

  /** The count of an accepted term does not matter: `3d6` rolls the same single die as `1d6`. */
  lemma {:induction false} CountIgnored(terms: seq<RollTerm>, other: seq<RollTerm>, roll: int -> int)
    requires |terms| == |other|
    requires forall i :: 0 <= i < |terms| ==>
      other[i].die == terms[i].die && other[i].sign == terms[i].sign && (other[i].count >= 1 <==> terms[i].count >= 1)
    ensures RollDie(other, roll) == RollDie(terms, roll)
  {
    RollDieMeaning(terms, roll);
    RollDieMeaning(other, roll);
    assert AllValid(other) <==> AllValid(terms) by {
      assert forall i :: 0 <= i < |terms| ==> (Valid(other[i]) <==> Valid(terms[i]));
    }
    if AllValid(terms) {
      SameTotal(terms, other, roll);
    } else {
      var i := FirstInvalid(terms);
      var j := FirstInvalid(other);
      assert !Valid(other[i]);
      assert !Valid(terms[j]);
      assert i == j;
    }
  }

  lemma {:induction false} SameTotal(terms: seq<RollTerm>, other: seq<RollTerm>, roll: int -> int)
    requires |terms| == |other|
    requires forall i :: 0 <= i < |terms| ==> other[i].die == terms[i].die && other[i].sign == terms[i].sign
    ensures SignedTotal(other, roll) == SignedTotal(terms, roll)
    decreases |terms|
  {
    if |terms| > 0 {
      SameTotal(terms[1..], other[1..], roll);
    }
  }
}

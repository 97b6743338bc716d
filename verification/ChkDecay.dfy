/** Decaying a lobby counter by the weight of a colliding item. Doubles are modelled as reals
    and the random draw is a parameter. */
module ChkDecay {
  const THRESHOLD: nat := 16        // LOBBY_PROMOTION_THRESHOLD

  function Pow(x: real, n: nat): (r: real)
  {
    if n == 0 then 1.0 else x * Pow(x, n - 1)
  }

  lemma {:induction false} PowPositive(x: real, n: nat)
    requires x > 0.0
    ensures Pow(x, n) > 0.0
  {
    if n > 0 { PowPositive(x, n - 1); }
  }

  /** Expected number of operations that decay a count to 0. */
  function ExpDecay(decay: real, cnt: nat): (r: real) {
    if cnt == 0 then 0.0 else ExpDecay(decay, cnt - 1) + Pow(decay, cnt - 1)
  }

  /** Expected number of operations that decay a count by 1. */
  function MinDecay(decay: real, cnt: nat): (r: real) {
    if cnt == 0 then 0.0 else ExpDecay(decay, cnt) - ExpDecay(decay, cnt - 1)
  }

  /** Probability that one operation decays a count by 1. */
  function DecayProb(decay: real, cnt: nat): (r: real)
    requires decay > 0.0
  {
    if cnt == 0 then 0.0 else Pow(1.0 / decay, cnt)
  }

  lemma {:induction false} ExpDecayGrows(decay: real, a: nat, b: nat)
    requires decay > 0.0 && a < b
    ensures ExpDecay(decay, a) < ExpDecay(decay, b)
  {
    PowPositive(decay, b - 1);
    if a < b - 1 { ExpDecayGrows(decay, a, b - 1); }
  }

  /** The least count from which `weight` more operations make up for decaying `cnt`. */
  function LeastCovered(decay: real, cnt: nat, weight: nat, c: nat): (r: nat)
    requires c <= cnt
    ensures c <= r <= cnt
    ensures ExpDecay(decay, r) + weight as real >= ExpDecay(decay, cnt)
    ensures forall b :: c <= b < r ==> ExpDecay(decay, b) + weight as real < ExpDecay(decay, cnt)
    decreases cnt - c
  {
    if c == cnt || ExpDecay(decay, c) + weight as real >= ExpDecay(decay, cnt) then c
    else LeastCovered(decay, cnt, weight, c + 1)
  }

  /** The count after a decay by `weight`. */
  function Decayed(decay: real, cnt: nat, weight: nat, roll: real): (r: nat)
    requires decay > 0.0
    ensures r <= cnt
  {
    if weight == 0 || cnt == 0 then cnt
    else if weight == 1 then (if roll < DecayProb(decay, cnt) then cnt - 1 else cnt)
    else if weight < MinDecay(decay, cnt).Floor then
      (if roll < weight as real / MinDecay(decay, cnt) then cnt - 1 else cnt)
    else if weight >= ExpDecay(decay, cnt).Floor then 0
    else LeastCovered(decay, cnt, weight, 0)
  }

  lemma GeoStep(d: real, e: real, p: real)
    requires (d - 1.0) * e == p - 1.0
    ensures (d - 1.0) * (e + p) == d * p - 1.0
  {
    assert (d - 1.0) * (e + p) == (d - 1.0) * e + (d - 1.0) * p;
  }

  /** The expected number of operations in closed form, a geometric sum. */
  lemma {:induction false} ExpDecayClosed(decay: real, cnt: nat)
    ensures (decay - 1.0) * ExpDecay(decay, cnt) == Pow(decay, cnt) - 1.0
  {
    if cnt > 0 {
      ExpDecayClosed(decay, cnt - 1);
      GeoStep(decay, ExpDecay(decay, cnt - 1), Pow(decay, cnt - 1));
    }
  }

  lemma MinDecayClosed(decay: real, cnt: nat)
    requires cnt > 0
    ensures MinDecay(decay, cnt) == Pow(decay, cnt - 1)
  {
    hide Pow;
  }

  lemma Inverses(a: real, b: real, x: real, y: real)
    requires Product(a, b, 1.0) && Product(x, y, 1.0)
    ensures Product(a * x, b * y, 1.0)
  {
    assert (a * x) * (b * y) == (a * b) * (x * y);
  }

  lemma {:induction false} PowInverse(a: real, b: real, n: nat)
    requires Product(a, b, 1.0)
    ensures Product(Pow(a, n), Pow(b, n), 1.0)
  {
    if n > 0 {
      PowInverse(a, b, n - 1);
      Inverses(a, b, Pow(a, n - 1), Pow(b, n - 1));
    }
  }

  /** A draw below n / scale. */
  predicate Below(roll: real, scale: real, n: real) { roll * scale < n }

  lemma Chance(roll: real, x: real, y: real, n: real)
    requires y > 0.0 && Product(x, y, n)
    ensures roll < x <==> Below(roll, y, n)
  {
    assert (x - roll) * y == x * y - roll * y;
    if roll < x { assert (x - roll) * y > 0.0; } else { assert (roll - x) * y >= 0.0; }
  }

  predicate Product(x: real, y: real, n: real) { x * y == n }

  /** One operation takes one off a count with probability 1 / decay^count. */
  lemma OneOperation(decay: real, cnt: nat, roll: real)
    requires decay > 0.0 && cnt > 0
    ensures Decayed(decay, cnt, 1, roll) == if Below(roll, Pow(decay, cnt), 1.0) then cnt - 1 else cnt
  {
    hide ExpDecay;
    hide MinDecay;
    hide Below;
    hide Product;
    ProbOf(decay, cnt);
    PowPositive(decay, cnt);
    Chance(roll, DecayProb(decay, cnt), Pow(decay, cnt), 1.0);
  }

  lemma ProbOf(decay: real, cnt: nat)
    requires decay > 0.0 && cnt > 0
    ensures Product(DecayProb(decay, cnt), Pow(decay, cnt), 1.0)
  {
    hide Product;
    Reciprocal(decay);
    PowInverse(1.0 / decay, decay, cnt);
  }

  lemma Reciprocal(d: real)
    requires d > 0.0
    ensures Product(1.0 / d, d, 1.0)
  {
  }

  /** Several at once take one off with probability weight / decay^(count - 1) while that is below
      one; from the sum of the powers on the count is gone; in between it is the least count
      whose own sum makes up the difference. */
  lemma ManyOperations(decay: real, cnt: nat, weight: nat, roll: real)
    requires decay > 0.0 && cnt > 0 && weight > 1
    ensures var r, step := Decayed(decay, cnt, weight, roll), Pow(decay, cnt - 1);
            && (weight < step.Floor ==> r == if Below(roll, step, weight as real) then cnt - 1 else cnt)
            && (weight >= step.Floor && weight >= ExpDecay(decay, cnt).Floor ==> r == 0)
            && (step.Floor <= weight < ExpDecay(decay, cnt).Floor ==>
                  && ExpDecay(decay, r) + weight as real >= ExpDecay(decay, cnt)
                  && forall b: nat :: b < r ==> ExpDecay(decay, b) + weight as real < ExpDecay(decay, cnt))
  {
    hide Below;
    hide Product;
    MinDecayClosed(decay, cnt);
    PowPositive(decay, cnt - 1);
    var step := Pow(decay, cnt - 1);
    Share(weight as real, step);
    Chance(roll, weight as real / step, step, weight as real);
  }

  lemma Share(n: real, d: real)
    requires d > 0.0
    ensures Product(n / d, d, n)
  {
  }

  /** The weighted case never empties the entry; and it leaves the count as it was exactly
      when truncation to an integer let a weight below the cost of one step through. */
  lemma SearchRange(decay: real, cnt: nat, weight: nat)
    requires decay > 0.0 && cnt > 0
    requires MinDecay(decay, cnt).Floor <= weight < ExpDecay(decay, cnt).Floor
    ensures 1 <= LeastCovered(decay, cnt, weight, 0)
    ensures LeastCovered(decay, cnt, weight, 0) == cnt <==> weight as real < MinDecay(decay, cnt)
  {
    var r := LeastCovered(decay, cnt, weight, 0);
    assert ExpDecay(decay, 0) == 0.0;
    assert (weight + 1) as real <= ExpDecay(decay, cnt);
    if r < cnt && r != cnt - 1 { ExpDecayGrows(decay, r, cnt - 1); }
  }

  /** The three tables filled at creation, with one entry per count. */
  ghost predicate ValidTables(exp: seq<real>, min: seq<real>, prob: seq<real>, decay: real) {
    && decay > 0.0
    && |exp| == |min| == |prob| == 257
    && forall i :: 0 <= i < 257 ==>
         exp[i] == ExpDecay(decay, i) && min[i] == MinDecay(decay, i) && prob[i] == DecayProb(decay, i)
  }

  method FillTables(decay: real) returns (exp: array<real>, min: array<real>, prob: array<real>)
    requires decay > 0.0
    ensures fresh(exp) && fresh(min) && fresh(prob)
    ensures ValidTables(exp[..], min[..], prob[..], decay)
  {
    exp, min, prob := new real[257], new real[257], new real[257];
    exp[0], min[0], prob[0] := 0.0, 0.0, 0.0;
    for i := 1 to 257
      invariant forall k :: 0 <= k < i ==>
                  exp[k] == ExpDecay(decay, k) && min[k] == MinDecay(decay, k) && prob[k] == DecayProb(decay, k)
    {
      exp[i] := exp[i - 1] + Pow(decay, i - 1);
      min[i] := exp[i] - exp[i - 1];
      prob[i] := Pow(1.0 / decay, i);
    }
  }

  /** Binary search over the table finds the count that a linear search would. */
  method DecayCounter(exp: seq<real>, min: seq<real>, prob: seq<real>, ghost decay: real, cnt: nat, weight: nat, roll: real)
    returns (r: nat)
    requires ValidTables(exp, min, prob, decay) && cnt <= 255 && 0.0 <= roll
    ensures r == Decayed(decay, cnt, weight, roll)
  {
    hide Pow;
    if weight == 0 { return cnt; }
    if weight == 1 {
      if roll < prob[cnt] { return cnt - 1; }
      return cnt;
    }
    var minDecay := min[cnt];
    if weight < minDecay.Floor {
      if roll < weight as real / minDecay { return cnt - 1; }
      return cnt;
    }
    if weight >= exp[cnt].Floor { return 0; }
    var left, right := 0, cnt;
    while left < right
      invariant 0 <= left <= right <= cnt
      invariant forall b :: 0 <= b < left ==> ExpDecay(decay, b) + weight as real < ExpDecay(decay, cnt)
      invariant ExpDecay(decay, right) + weight as real >= ExpDecay(decay, cnt)
    {
      var mid := left + (right - left) / 2;
      if exp[mid] + weight as real >= exp[cnt] {
        right := mid;
      } else {
        forall b | 0 <= b < mid + 1 ensures ExpDecay(decay, b) <= ExpDecay(decay, mid) {
          if b < mid { ExpDecayGrows(decay, b, mid); }
        }
        left := mid + 1;
      }
    }
    return left;
  }

  /** Count given to an item that takes over a lobby entry whose count decayed to 0. It may lie
      above the promotion threshold, and stays there when the promotion fails. */
  function Replacing(decay: real, was: nat, weight: nat): (r: nat)
    requires decay > 0.0 && weight > 0
    ensures 1 <= r <= 255 && r <= weight
    ensures r > THRESHOLD <==> ExpDecay(decay, was).Floor + THRESHOLD < weight
  {
    ExpDecayNonNegative(decay, was);
    var steps := ExpDecay(decay, was).Floor;
    if steps >= weight then 1 else if weight - steps < 255 then weight - steps else 255
  }

  lemma ExpDecayNonNegative(decay: real, cnt: nat)
    requires decay > 0.0
    ensures ExpDecay(decay, cnt) >= 0.0
  {
    if cnt > 0 { ExpDecayGrows(decay, 0, cnt); }
  }
}

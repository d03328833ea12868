/** Speeds as the route data stores them, in metres per second, where every
    negative value stands for "no restriction". */
module Speed {

  /** The intended reading of a stored speed: a finite limit, or no limit at all. */
  datatype Limit = Bounded(v: real) | Unbounded

  function Reading(v: real): Limit
  {
    if v < 0.0 then Unbounded else Bounded(v)
  }

  /** The tighter of two limits; having no limit is looser than any finite one. */
  function LimitMin(a: Limit, b: Limit): Limit
  {
    match (a, b)
    case (Unbounded, _) => b
    case (_, Unbounded) => a
    case (Bounded(x), Bounded(y)) => if x <= y then a else b
  }

  /** Strictly tighter: no limit sits above every finite one. */
  predicate LimitLess(a: Limit, b: Limit)
  {
    a.Bounded? && (b.Unbounded? || a.v < b.v)
  }

  /** `geschw_min`: combine two speeds, a negative one losing to any finite one.
      When both are negative the second one is returned. */
  function SpeedMin(v1: real, v2: real): (r: real)
    ensures Reading(r) == LimitMin(Reading(v1), Reading(v2))
    ensures v1 < 0.0 ==> r == v2
    ensures 0.0 <= v1 && v2 < 0.0 ==> r == v1
    ensures 0.0 <= v1 && 0.0 <= v2 ==> r <= v1 && r <= v2 && (r == v1 || r == v2)
  {
    if v1 < 0.0 then v2
    else if v2 < 0.0 then v1
    else if v1 <= v2 then v1 else v2
  }

  /** `geschw_kleiner`: strictly less, where every negative speed counts as infinite. */
  function SpeedLess(v1: real, v2: real): (b: bool)
    ensures b <==> LimitLess(Reading(v1), Reading(v2))
    ensures v1 < 0.0 ==> !b
    ensures 0.0 <= v1 && v2 < 0.0 ==> b
    ensures 0.0 <= v1 && 0.0 <= v2 ==> (b <==> v1 < v2)
  {
    if v2 < 0.0 then v1 >= 0.0
    else if v1 < 0.0 then false
    else v1 < v2
  }

  lemma SpeedMinCommutes(v1: real, v2: real)
    requires 0.0 <= v1 || 0.0 <= v2
    ensures SpeedMin(v1, v2) == SpeedMin(v2, v1)
  {
  }

  /** Two different "unrestricted" values do not commute: the second one wins. */
  lemma SpeedMinNotCommutative(v1: real, v2: real)
    requires v1 < 0.0 && v2 < 0.0 && v1 != v2
    ensures SpeedMin(v1, v2) == v2 && SpeedMin(v2, v1) == v1
    ensures SpeedMin(v1, v2) != SpeedMin(v2, v1)
  {
  }

  lemma SpeedMinIdempotent(v: real)
    ensures SpeedMin(v, v) == v
  {
  }

  /** -1 is neutral on the left for every speed, and on the right for finite ones. */
  lemma SpeedMinUnboundedNeutral(v: real)
    ensures SpeedMin(-1.0, v) == v
    ensures 0.0 <= v ==> SpeedMin(v, -1.0) == v
  {
  }

  /** `geschw_kleiner` is a strict order. */
  lemma SpeedLessStrictOrder(a: real, b: real, c: real)
    ensures !SpeedLess(a, a)
    ensures SpeedLess(a, b) ==> !SpeedLess(b, a)
    ensures SpeedLess(a, b) && SpeedLess(b, c) ==> SpeedLess(a, c)
  {
  }

  /** A distant speed `v` is flagged against the route limit `m` exactly when
      combining the two would tighten the limit `v` stands for. */
  lemma SpeedLessIffMinTightens(m: real, v: real)
    ensures SpeedLess(m, v) <==> Reading(SpeedMin(m, v)) != Reading(v)
  {
  }

  /** The main-signal accumulator: `acc` combined, in order, with each speed of `cs`. */
  function FoldMin(acc: real, cs: seq<real>): (r: real)
    ensures r == acc || r in cs
    ensures 0.0 <= r <==> 0.0 <= acc || exists i :: 0 <= i < |cs| && 0.0 <= cs[i]
    ensures 0.0 <= r ==> 0.0 <= acc ==> r <= acc
    ensures 0.0 <= r ==> forall i :: 0 <= i < |cs| && 0.0 <= cs[i] ==> r <= cs[i]
    ensures acc < 0.0 && (forall i :: 0 <= i < |cs| ==> cs[i] < 0.0) ==> r == (if cs == [] then acc else cs[|cs| - 1])
  {
    if cs == [] then acc
    else SpeedMin(FoldMin(acc, cs[..|cs| - 1]), cs[|cs| - 1])
  }
}

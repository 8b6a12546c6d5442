/** The stateful half of the odometry converter: origin, time jumps and reset counter. */
module Odometry {
  import opened OdometryFrames
  import opened Quaternions
  import opened Wrappers

  datatype Sample = Sample(timeUsec: nat, position: seq<Double>, orientation: seq<Double>,
                           linearVelocity: seq<Double>, angularVelocity: seq<Double>)

  // The source's fixed array sizes.
  predicate Shaped(s: Sample) {
    |s.position| == 3 && |s.orientation| == 4 && |s.linearVelocity| == 3 && |s.angularVelocity| == 3
  }

  datatype Converted = Converted(timeUsec: nat, position: Vector, orientation: Quaternion,
                                 linearVelocity: Vector, angularVelocity: Vector, resetCounter: nat)

  predicate AllNumbers(values: seq<Double>) {
    forall i :: 0 <= i < |values| ==> values[i].Number?
  }

  function ToVector(v: seq<Double>): Vector
    requires |v| == 3 && AllNumbers(v)
  {
    Vector(v[0].value, v[1].value, v[2].value)
  }

  function ToQuaternion(v: seq<Double>): Quaternion
    requires |v| == 4 && AllNumbers(v)
  {
    Quaternion(v[0].value, v[1].value, v[2].value, v[3].value)
  }

  predicate Finite(root: real -> real, s: Sample)
    requires Shaped(s)
  {
    && AllNumbers(s.position) && AllNumbers(s.orientation)
    && root(SquaredNorm(ToQuaternion(s.orientation))) > 0.0
    && AllNumbers(s.linearVelocity) && AllNumbers(s.angularVelocity)
  }

  // From an east-north-up to a north-east-down displacement.
  function EnuToNed(v: Vector): Vector {
    Vector(v.y, v.x, -v.z)
  }

  /** The changes of axes of the velocities and the positions are the two basis changes of the attitude. */
  lemma BasisChangesAgree(v: Vector)
    ensures FluToFrd(v) == Apply(FRD_TO_FLU, v) && FluToFrd(FluToFrd(v)) == v
    ensures EnuToNed(v) == Apply(ENU_TO_NED, v)
  {
  }

  /** The fields of the converter. */
  datatype State = State(origin: Option<Vector>, lastTimeUsec: Option<nat>, resetCounter: nat)

  const INITIAL := State(None, None, 0)

  predicate TimeJumpsBack(st: State, s: Sample) {
    st.lastTimeUsec.Some? && s.timeUsec < st.lastTimeUsec.value
  }

  /** The state after one sample. */
  function Next(root: real -> real, st: State, s: Sample): State
    requires Shaped(s)
  {
    if !Finite(root, s) then st
    else
      var position := ToVector(s.position);
      if TimeJumpsBack(st, s) then State(Some(position), Some(s.timeUsec), (st.resetCounter + 1) % 256)
      else State(if st.origin.None? then Some(position) else st.origin, Some(s.timeUsec), st.resetCounter)
  }

  /** What one sample is converted to. */
  function Output(root: real -> real, st: State, s: Sample): Option<Converted>
    requires SquareRoot(root) && Shaped(s)
  {
    if !Finite(root, s) then None
    else
      var next := Next(root, st, s);
      Some(Converted(s.timeUsec,
                     EnuToNed(Difference(ToVector(s.position), next.origin.value)),
                     EnuFluToNedFrdQuaternion(root, ToQuaternion(s.orientation)),
                     FluToFrd(ToVector(s.linearVelocity)),
                     FluToFrd(ToVector(s.angularVelocity)),
                     next.resetCounter))
  }

  class OdometryConverter {
    var origin: Option<Vector>
    var lastTimeUsec: Option<nat>
    var resetCounter: nat

    function Value(): State
      reads this
    {
      State(origin, lastTimeUsec, resetCounter)
    }

    constructor ()
      ensures Value() == INITIAL
    {
      origin, lastTimeUsec, resetCounter := None, None, 0;
    }

    method Convert(root: real -> real, sample: Sample) returns (result: Option<Converted>)
      requires SquareRoot(root) && Shaped(sample)
      modifies this
      ensures Value() == Next(root, old(Value()), sample)
      ensures result == Output(root, old(Value()), sample)
    {
      hide SquareRoot, AllNumbers, SquaredNorm, EnuFluToNedFrdQuaternion;
      if !Finite(root, sample) {
        return None;
      }
      if lastTimeUsec.Some? && sample.timeUsec < lastTimeUsec.value {
        resetCounter := (resetCounter + 1) % 256;
        origin := None;
      }
      lastTimeUsec := Some(sample.timeUsec);
      var position := ToVector(sample.position);
      if origin.None? {
        origin := Some(position);
      }
      var linear, angular := ToVector(sample.linearVelocity), ToVector(sample.angularVelocity);
      result := Some(Converted(
        sample.timeUsec,
        Vector(position.y - origin.value.y, position.x - origin.value.x, -(position.z - origin.value.z)),
        EnuFluToNedFrdQuaternion(root, ToQuaternion(sample.orientation)),
        Vector(linear.x, -linear.y, -linear.z),
        Vector(angular.x, -angular.y, -angular.z),
        resetCounter));
    }
  }

  // ---- Whole histories ----

  predicate AllShaped(samples: seq<Sample>) {
    forall i :: 0 <= i < |samples| ==> Shaped(samples[i])
  }

  /** The converter after a history of samples. */
  function After(root: real -> real, samples: seq<Sample>): State
    requires AllShaped(samples)
  {
    if samples == [] then INITIAL
    else Next(root, After(root, samples[..|samples| - 1]), samples[|samples| - 1])
  }

  /** What sample i of a history is converted to. */
  function OutputAt(root: real -> real, samples: seq<Sample>, i: nat): Option<Converted>
    requires SquareRoot(root) && AllShaped(samples) && i < |samples|
  {
    Output(root, After(root, samples[..i]), samples[i])
  }

  predicate Accepted(root: real -> real, samples: seq<Sample>, i: int)
    requires AllShaped(samples) && 0 <= i < |samples|
  {
    Finite(root, samples[i])
  }

  // The latest accepted sample before position n, or -1.
  function Previous(root: real -> real, samples: seq<Sample>, n: nat): (p: int)
    requires AllShaped(samples) && n <= |samples|
    ensures -1 <= p < n
    ensures p >= 0 ==> Accepted(root, samples, p)
    ensures forall k :: p < k < n ==> !Accepted(root, samples, k)
  {
    if n == 0 then -1
    else if Accepted(root, samples, n - 1) then n - 1
    else Previous(root, samples, n - 1)
  }

  // An accepted sample whose time is before that of the accepted sample preceding it.
  predicate BackwardJump(root: real -> real, samples: seq<Sample>, i: nat)
    requires AllShaped(samples) && i < |samples|
  {
    && Accepted(root, samples, i)
    && var p := Previous(root, samples, i);
       p >= 0 && samples[i].timeUsec < samples[p].timeUsec
  }

  // The backward jumps among the first n samples.
  function Jumps(root: real -> real, samples: seq<Sample>, n: nat): nat
    requires AllShaped(samples) && n <= |samples|
  {
    if n == 0 then 0
    else Jumps(root, samples, n - 1) + if BackwardJump(root, samples, n - 1) then 1 else 0
  }

  // An accepted sample that opens an epoch: the first one of all, or a backward jump.
  predicate OpensEpoch(root: real -> real, samples: seq<Sample>, i: nat)
    requires AllShaped(samples) && i < |samples|
  {
    && Accepted(root, samples, i)
    && (Previous(root, samples, i) < 0 || BackwardJump(root, samples, i))
  }

  // The position that opened the epoch the first n samples end in.
  function EpochOrigin(root: real -> real, samples: seq<Sample>, n: nat): Option<Vector>
    requires AllShaped(samples) && n <= |samples|
  {
    if n == 0 then None
    else if OpensEpoch(root, samples, n - 1) then Some(ToVector(samples[n - 1].position))
    else EpochOrigin(root, samples, n - 1)
  }

  /** The whole state is a function of the accepted samples' history. */
  lemma {:induction false} StateOfHistory(root: real -> real, samples: seq<Sample>, n: nat)
    requires AllShaped(samples) && n <= |samples|
    ensures var st := After(root, samples[..n]);
            var p := Previous(root, samples, n);
            && st.origin == EpochOrigin(root, samples, n)
            && (st.origin.Some? <==> p >= 0)
            && st.lastTimeUsec == (if p < 0 then None else Some(samples[p].timeUsec))
            && st.resetCounter == Jumps(root, samples, n) % 256
  {
    hide AllNumbers, SquaredNorm;
    if n > 0 {
      StateOfHistory(root, samples, n - 1);
      assert samples[..n][..n - 1] == samples[..n - 1];
      assert samples[..n][n - 1] == samples[n - 1];
    }
  }

  /** Every accepted sample is emitted with the number of backward jumps up to it, modulo 256; the others are
      not emitted. */
  lemma ResetCounterCountsJumps(root: real -> real, samples: seq<Sample>, i: nat)
    requires SquareRoot(root) && AllShaped(samples) && i < |samples|
    ensures OutputAt(root, samples, i).Some? <==> Accepted(root, samples, i)
    ensures Accepted(root, samples, i) ==> OutputAt(root, samples, i).value.resetCounter == Jumps(root, samples, i + 1) % 256
  {
    hide SquareRoot, AllNumbers, SquaredNorm, EnuFluToNedFrdQuaternion;
    StateOfHistory(root, samples, i);
  }

  /** The first output of an epoch is at the origin. */
  lemma EpochStartsAtZero(root: real -> real, samples: seq<Sample>, i: nat)
    requires SquareRoot(root) && AllShaped(samples) && i < |samples|
    requires OpensEpoch(root, samples, i)
    ensures OutputAt(root, samples, i).value.position == Vector(0.0, 0.0, 0.0)
  {
    hide SquareRoot, AllNumbers, SquaredNorm, EnuFluToNedFrdQuaternion;
    StateOfHistory(root, samples, i);
  }

  lemma PositionFromOrigin(root: real -> real, samples: seq<Sample>, i: nat)
    requires SquareRoot(root) && AllShaped(samples) && i < |samples| && Accepted(root, samples, i)
    ensures EpochOrigin(root, samples, i + 1).Some?
    ensures OutputAt(root, samples, i).value.position
         == EnuToNed(Difference(ToVector(samples[i].position), EpochOrigin(root, samples, i + 1).value))
  {
    hide SquareRoot, AllNumbers, SquaredNorm, EnuFluToNedFrdQuaternion;
    StateOfHistory(root, samples, i);
  }

  lemma {:induction false} OneEpochOneOrigin(root: real -> real, samples: seq<Sample>, i: nat, j: nat)
    requires AllShaped(samples) && i <= j <= |samples| && Previous(root, samples, i) >= 0
    ensures Jumps(root, samples, i) <= Jumps(root, samples, j)
    ensures Jumps(root, samples, i) == Jumps(root, samples, j)
         ==> EpochOrigin(root, samples, i) == EpochOrigin(root, samples, j)
    ensures Previous(root, samples, j) >= 0
  {
    if i < j {
      OneEpochOneOrigin(root, samples, i, j - 1);
    }
  }

  /** Two outputs with no backward jump after the first differ by exactly the displacement of their samples,
      in north-east-down axes. */
  lemma DisplacementWithinEpoch(root: real -> real, samples: seq<Sample>, i: nat, j: nat)
    requires SquareRoot(root) && AllShaped(samples) && i <= j < |samples|
    requires Accepted(root, samples, i) && Accepted(root, samples, j)
    requires Jumps(root, samples, i + 1) == Jumps(root, samples, j + 1)
    ensures var p, q := ToVector(samples[i].position), ToVector(samples[j].position);
            Difference(OutputAt(root, samples, j).value.position, OutputAt(root, samples, i).value.position)
            == Vector(q.y - p.y, q.x - p.x, -(q.z - p.z))
  {
    hide SquareRoot, OutputAt;
    ResetCounterCountsJumps(root, samples, i);
    ResetCounterCountsJumps(root, samples, j);
    PositionFromOrigin(root, samples, i);
    PositionFromOrigin(root, samples, j);
    OneEpochOneOrigin(root, samples, i + 1, j + 1);
  }

  // Every value of an array is a number.
  lemma AllNumbersMeaning(v: seq<Double>)
    ensures |v| == 3 ==> (AllNumbers(v) <==> v[0].Number? && v[1].Number? && v[2].Number?)
    ensures |v| == 4 ==> (AllNumbers(v) <==> v[0].Number? && v[1].Number? && v[2].Number? && v[3].Number?)
  {
  }

  /** A sample is accepted exactly when all its thirteen values are numbers and its orientation is not zero. */
  lemma AcceptedMeaning(root: real -> real, samples: seq<Sample>, i: nat)
    requires SquareRoot(root) && AllShaped(samples) && i < |samples|
    ensures var s := samples[i];
            var p, q, l, a := s.position, s.orientation, s.linearVelocity, s.angularVelocity;
            OutputAt(root, samples, i).Some? <==>
              && p[0].Number? && p[1].Number? && p[2].Number?
              && q[0].Number? && q[1].Number? && q[2].Number? && q[3].Number?
              && (q[0].value != 0.0 || q[1].value != 0.0 || q[2].value != 0.0 || q[3].value != 0.0)
              && l[0].Number? && l[1].Number? && l[2].Number? && a[0].Number? && a[1].Number? && a[2].Number?
  {
    hide SquareRoot, AllNumbers, SquaredNorm, EnuFluToNedFrdQuaternion, After, Next;
    var s := samples[i];
    AllNumbersMeaning(s.position);
    AllNumbersMeaning(s.orientation);
    AllNumbersMeaning(s.linearVelocity);
    AllNumbersMeaning(s.angularVelocity);
    if AllNumbers(s.orientation) {
      NormIsZero(root, ToQuaternion(s.orientation));
      NormNotNegative(root, ToQuaternion(s.orientation));
    }
  }

  lemma NormNotNegative(root: real -> real, q: Quaternion)
    requires SquareRoot(root)
    ensures root(SquaredNorm(q)) >= 0.0
  {
    NormSquared(root, q);
  }

  // A converted body vector, turned with the converted attitude, is the vector turned with the attitude.
  lemma TurnedVector(root: real -> real, q: Quaternion, v: Vector)
    requires SquareRoot(root) && q != ZERO
    ensures root(SquaredNorm(q)) != 0.0
    ensures Rotate(EnuFluToNedFrdQuaternion(root, q), FluToFrd(v)) == Apply(ENU_TO_NED, Rotate(Normalised(root, q), v))
  {
    hide SquareRoot, Rotate, EnuFluToNedFrdQuaternion, Normalised, SquaredNorm;
    BasisChangesAgree(FluToFrd(v));
    BasisChangesAgree(v);
    ConvertedAttitudeCarriesVectors(root, q, FluToFrd(v));
  }

  /** What is emitted for an accepted sample has the sample's time and a unit attitude with exactly the
      basis-changed rotation; both velocities, turned with that attitude into the north-east-down world, are the
      sample's own velocities turned with its own attitude into the east-north-up world. */
  lemma OutputShowsSample(root: real -> real, samples: seq<Sample>, i: nat)
    requires SquareRoot(root) && AllShaped(samples) && i < |samples| && OutputAt(root, samples, i).Some?
    ensures var s, out := samples[i], OutputAt(root, samples, i).value;
            && AllNumbers(s.orientation) && AllNumbers(s.linearVelocity) && AllNumbers(s.angularVelocity)
            && var q := Quaternion(s.orientation[0].value, s.orientation[1].value, s.orientation[2].value,
                                   s.orientation[3].value);
            && var l := Vector(s.linearVelocity[0].value, s.linearVelocity[1].value, s.linearVelocity[2].value);
            && var a := Vector(s.angularVelocity[0].value, s.angularVelocity[1].value, s.angularVelocity[2].value);
            && root(SquaredNorm(q)) != 0.0
            && out.timeUsec == s.timeUsec
            && SquaredNorm(out.orientation) == 1.0
            && RotationMatrix(out.orientation) == BasisChanged(RotationMatrix(Normalised(root, q)))
            && Rotate(out.orientation, out.linearVelocity) == Apply(ENU_TO_NED, Rotate(Normalised(root, q), l))
            && Rotate(out.orientation, out.angularVelocity) == Apply(ENU_TO_NED, Rotate(Normalised(root, q), a))
  {
    hide SquareRoot, AllNumbers, SquaredNorm, EnuFluToNedFrdQuaternion, After, Next, Rotate, RotationMatrix,
         BasisChanged, Normalised, FluToFrd;
    var s := samples[i];
    var q := ToQuaternion(s.orientation);
    NormIsZero(root, q);
    ConvertedAttitude(root, q);
    TurnedVector(root, q, ToVector(s.linearVelocity));
    TurnedVector(root, q, ToVector(s.angularVelocity));
    AllNumbersMeaning(s.orientation);
    AllNumbersMeaning(s.linearVelocity);
    AllNumbersMeaning(s.angularVelocity);
  }

  // The accepted samples, in order.
  function Kept(root: real -> real, samples: seq<Sample>): (kept: seq<Sample>)
    requires AllShaped(samples)
    ensures AllShaped(kept)
  {
    if samples == [] then []
    else
      var n := |samples| - 1;
      Kept(root, samples[..n]) + if Finite(root, samples[n]) then [samples[n]] else []
  }

  /** Rejected samples change nothing: the converter ends where it would have without them. */
  lemma {:induction false} RejectedSamplesChangeNothing(root: real -> real, samples: seq<Sample>)
    requires AllShaped(samples)
    ensures After(root, samples) == After(root, Kept(root, samples))
  {
    if samples != [] {
      var n := |samples| - 1;
      RejectedSamplesChangeNothing(root, samples[..n]);
      var kept := Kept(root, samples[..n]);
      if Finite(root, samples[n]) {
        assert (kept + [samples[n]])[..|kept|] == kept;
      } else {
        assert kept + [] == kept;
      }
    }
  }
}

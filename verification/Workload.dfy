/** The stepped waveform shared by the controllers and the load driver. */
module Workload {
  import opened Wrappers

  /** One plateau; `expected` is the request count the serialized definition declares. */
  datatype Step = Step(name: string, rate: int, duration: int, expected: int) {
    predicate Valid() {
      && ValidName(name)
      && rate > 0
      && duration > 0
      && expected == rate * duration
    }
  }

  predicate ValidName(name: string) {
    && name != []
    && 'a' <= name[0] <= 'z'
    && forall c <- name :: 'a' <= c <= 'z' || '0' <= c <= '9' || c == '-'
  }

  predicate DistinctNames(steps: seq<Step>) {
    forall i, j :: 0 <= i < j < |steps| ==> steps[i].name != steps[j].name
  }

  predicate ValidSteps(steps: seq<Step>) {
    && (forall s <- steps :: s.Valid())
    && DistinctNames(steps)
  }

  /** Where step k's events begin in the manifest. */
  function Offset(steps: seq<Step>, k: nat): int
    requires k <= |steps|
  {
    if k == 0 then 0 else Offset(steps, k - 1) + steps[k - 1].expected
  }

  /** When step k begins, in seconds after load start. */
  function StartTime(steps: seq<Step>, k: nat): int
    requires k <= |steps|
  {
    if k == 0 then 0 else StartTime(steps, k - 1) + steps[k - 1].duration
  }

  lemma {:induction false} OffsetsIncrease(steps: seq<Step>, i: nat, j: nat)
    requires ValidSteps(steps) && i <= j <= |steps|
    ensures 0 <= Offset(steps, i) && Offset(steps, i) + (j - i) <= Offset(steps, j)
    ensures 0 <= StartTime(steps, i) && StartTime(steps, i) + (j - i) <= StartTime(steps, j)
  {
    if i < j {
      OffsetsIncrease(steps, i, j - 1);
      assert steps[j - 1] in steps;
      PositiveProduct(steps[j - 1].rate, steps[j - 1].duration);
    } else if i > 0 {
      OffsetsIncrease(steps, i - 1, j - 1);
      assert steps[i - 1] in steps;
      PositiveProduct(steps[i - 1].rate, steps[i - 1].duration);
    }
  }

  lemma PositiveProduct(a: int, b: int)
    requires a > 0 && b > 0
    ensures a * b > 0
  {
  }

  /** Event index e belongs to step k's slice of the manifest. */
  predicate InSlice(steps: seq<Step>, k: nat, e: int) {
    k < |steps| && Offset(steps, k) <= e < Offset(steps, k + 1)
  }

  /** Second t belongs to step k's plateau. */
  predicate InPlateau(steps: seq<Step>, k: nat, t: real) {
    k < |steps| && StartTime(steps, k) as real <= t < StartTime(steps, k + 1) as real
  }

  /** Slices partition the manifest: each index lies in one and only one. */
  lemma {:induction false} SlicesPartition(steps: seq<Step>, n: nat, e: nat) returns (k: nat)
    requires ValidSteps(steps) && n <= |steps| && e < Offset(steps, n)
    ensures k < n && InSlice(steps, k, e)
    ensures forall h: nat :: InSlice(steps, h, e) ==> h == k
  {
    if e < Offset(steps, n - 1) {
      k := SlicesPartition(steps, n - 1, e);
    } else {
      k := n - 1;
      forall h: nat | InSlice(steps, h, e) ensures h == k {
        if h < k {
          OffsetsIncrease(steps, h + 1, k);
        } else if k < h {
          OffsetsIncrease(steps, k + 1, h);
        }
      }
    }
  }

  lemma PlateausAreDisjoint(steps: seq<Step>, h: nat, k: nat, t: real)
    requires ValidSteps(steps) && InPlateau(steps, h, t) && InPlateau(steps, k, t)
    ensures h == k
  {
    if h < k {
      OffsetsIncrease(steps, h + 1, k);
    } else if k < h {
      OffsetsIncrease(steps, k + 1, h);
    }
  }

  /** Accumulate the boundaries until one lies beyond t. */
  method ActiveStep(steps: seq<Step>, t: real) returns (name: string, rate: int)
    requires ValidSteps(steps) && steps != []
    ensures forall k: nat :: InPlateau(steps, k, t) ==> name == steps[k].name && rate == steps[k].rate
    ensures t >= StartTime(steps, |steps|) as real <==> name == "post-load" && rate == 0
    ensures t < 0.0 ==> name == steps[0].name && rate == steps[0].rate
  {
    OffsetsIncrease(steps, 0, |steps|);
    var boundary := 0;
    for n := 0 to |steps|
      invariant boundary == StartTime(steps, n)
      invariant n > 0 ==> 0.0 <= boundary as real <= t
    {
      OffsetsIncrease(steps, 0, n + 1);
      boundary := boundary + steps[n].duration;
      if t < boundary as real {
        forall k: nat | InPlateau(steps, k, t) ensures k == n {
          OffsetsIncrease(steps, 0, k);
          PlateausAreDisjoint(steps, k, n, t);
        }
        OffsetsIncrease(steps, n + 1, |steps|);
        assert steps[n] in steps;
        return steps[n].name, steps[n].rate;
      }
    }
    forall k: nat | InPlateau(steps, k, t) ensures false {
      OffsetsIncrease(steps, k + 1, |steps|);
    }
    return "post-load", 0;
  }

  /** The plateaus tile the load: before its end, every instant lies in one of them. */
  lemma {:induction false} PlateausTile(steps: seq<Step>, n: nat, t: real) returns (k: nat)
    requires ValidSteps(steps) && n <= |steps| && 0.0 <= t < StartTime(steps, n) as real
    ensures k < n && InPlateau(steps, k, t)
    ensures forall h: nat :: InPlateau(steps, h, t) ==> h == k
  {
    if t < StartTime(steps, n - 1) as real {
      k := PlateausTile(steps, n - 1, t);
    } else {
      k := n - 1;
      forall h: nat | InPlateau(steps, h, t) ensures h == k {
        PlateausAreDisjoint(steps, h, k, t);
      }
    }
  }
}

/** The 3D-printing evaluator (src/evaluators/3d_printing.py): n jobs with processing times p,
    weights w and due dates d are printed one after the other in the order the output file
    lists them, and the objective is the total weighted tardiness.
    Line numbers in the comments below are those of src/evaluators/3d_printing.py. */
module Printing3dEvaluator {
  import opened Wrappers
  import opened Utils
  import Printing3d

  /** The instance: the first third of the numbers are the processing times, the second the
      weights, the last the due dates. */
  datatype Instance = Instance(n: nat, p: seq<int>, w: seq<int>, d: seq<int>)

  predicate WellFormed(inst: Instance)
  {
    |inst.p| == inst.n && |inst.w| == inst.n && |inst.d| == inst.n
  }

  /** Lines 21-28: None when the count of numbers is not a multiple of 3. */
  function Read(nums: seq<int>): (r: Option<Instance>)
    ensures r.None? <==> |nums| % 3 != 0
    ensures r.Some? ==> WellFormed(r.value) && 3 * r.value.n == |nums|
    ensures r.Some? ==> nums == r.value.p + r.value.w + r.value.d
  {
    if |nums| % 3 != 0 then None
    else
      var n := |nums| / 3;
      assert nums == nums[..n] + nums[n..2 * n] + nums[2 * n..];
      Some(Instance(n, nums[..n], nums[n..2 * n], nums[2 * n..]))
  }

  /** The evaluator and the solver's Problem.from_textio accept the same inputs and agree on
      the number of items. */
  lemma ReadAgrees(nums: seq<int>)
    ensures Read(nums).Some? <==> Printing3d.FromNumbers(nums).Some?
    ensures Read(nums).Some? ==> Read(nums).value.n == Printing3d.FromNumbers(nums).value.nItems
  {
  }

  /** range(1, n + 1) as a sequence. */
  function Jobs(n: nat): (r: seq<int>)
    ensures |r| == n && forall t :: 0 <= t < n ==> r[t] == t + 1
  {
    seq(n, t requires 0 <= t < n => t + 1)
  }

  /** Every entry of sol names one of the jobs 1..n. */
  predicate JobsIn(sol: seq<int>, n: int)
  {
    forall t :: 0 <= t < |sol| ==> 1 <= sol[t] <= n
  }

  /** A value at two positions is counted at least twice. */
  lemma CountedTwice<T>(s: seq<T>, a: nat, b: nat)
    requires a < b < |s| && s[a] == s[b]
    ensures multiset(s)[s[a]] >= 2
  {
    assert s == s[..b] + [s[b]] + s[b + 1..];
    assert s[a] in s[..b];
  }

  /** The check of line 38 (sorted lists are equal exactly when the multisets are): sol holds
      each of the jobs 1..n exactly once. */
  lemma PermutationOfJobs(sol: seq<int>, n: nat)
    ensures multiset(sol) == multiset(Jobs(n)) <==> |sol| == n && Distinct(sol) && JobsIn(sol, n)
  {
    var js := Jobs(n);
    assert Distinct(js);
    assert forall v :: v in js <==> 1 <= v <= n by {
      forall v | 1 <= v <= n ensures v in js {
        assert js[v - 1] == v;
      }
    }
    if multiset(sol) == multiset(js) {
      assert |sol| == n && Distinct(sol) && JobsIn(sol, n) by {
        assert |sol| == |multiset(sol)| == |multiset(js)| == n;
        forall t | 0 <= t < |sol| ensures 1 <= sol[t] <= n {
          assert sol[t] in multiset(sol);
          assert sol[t] in js;
        }
        forall a, b | 0 <= a < b < |sol| ensures sol[a] != sol[b] {
          if sol[a] == sol[b] {
            CountedTwice(sol, a, b);
            DistinctCount(js, sol[a]);
            assert false;
          }
        }
      }
    }
    if |sol| == n && Distinct(sol) && JobsIn(sol, n) {
      assert multiset(sol) == multiset(js) by {
        var shifted := seq(n, t requires 0 <= t < n => sol[t] - 1);
        assert Distinct(shifted);
        Covers(shifted, n);
        forall v ensures multiset(sol)[v] == multiset(js)[v] {
          DistinctCount(sol, v);
          DistinctCount(js, v);
          if 1 <= v <= n {
            assert v - 1 in shifted;
            var t :| 0 <= t < n && shifted[t] == v - 1;
            assert sol[t] == v;
          }
        }
      }
    }
  }

  /** The completion time of the last job of sol: the sum of the processing times so far. */
  function Completion(inst: Instance, sol: seq<int>): int
    requires WellFormed(inst) && JobsIn(sol, inst.n)
    decreases |sol|
  {
    if sol == [] then 0 else Completion(inst, sol[..|sol| - 1]) + inst.p[sol[|sol| - 1] - 1]
  }

  function Max0(x: int): int { if x < 0 then 0 else x }

  /** The total weighted tardiness of printing the jobs of sol in order: each job j contributes
      w[j] times max(C_j - d[j], 0), C_j being the time it completes. */
  function Tardiness(inst: Instance, sol: seq<int>): int
    requires WellFormed(inst) && JobsIn(sol, inst.n)
    decreases |sol|
  {
    if sol == [] then 0
    else
      var j := sol[|sol| - 1] - 1;
      Tardiness(inst, sol[..|sol| - 1]) + inst.w[j] * Max0(Completion(inst, sol) - inst.d[j])
  }

  /** With non-negative weights no schedule has a negative objective. */
  lemma {:induction false} TardinessNonNegative(inst: Instance, sol: seq<int>)
    requires WellFormed(inst) && JobsIn(sol, inst.n)
    requires forall k :: 0 <= k < inst.n ==> inst.w[k] >= 0
    ensures Tardiness(inst, sol) >= 0
    decreases |sol|
  {
    if sol != [] {
      var j := sol[|sol| - 1] - 1;
      TardinessNonNegative(inst, sol[..|sol| - 1]);
      assert inst.w[j] * Max0(Completion(inst, sol) - inst.d[j]) >= 0;
    }
  }

  /** A schedule in which every job completes by its due date costs nothing. */
  lemma {:induction false} OnTimeCostsNothing(inst: Instance, sol: seq<int>)
    requires WellFormed(inst) && JobsIn(sol, inst.n)
    requires forall t :: 0 <= t < |sol| ==> Completion(inst, sol[..t + 1]) <= inst.d[sol[t] - 1]
    ensures Tardiness(inst, sol) == 0
    decreases |sol|
  {
    if sol != [] {
      var q := sol[..|sol| - 1];
      forall t | 0 <= t < |q| ensures Completion(inst, q[..t + 1]) <= inst.d[q[t] - 1] {
        assert q[..t + 1] == sol[..t + 1];
      }
      OnTimeCostsNothing(inst, q);
      assert sol[..|sol|] == sol;
    }
  }

  /** Lines 42-47: the loop over the schedule, keeping the completion time C and the objective. */
  method Objective(inst: Instance, sol: seq<int>) returns (obj: int)
    requires WellFormed(inst) && JobsIn(sol, inst.n)
    ensures obj == Tardiness(inst, sol)
  {
    obj := 0;
    var c := 0;
    for t := 0 to |sol|
      invariant c == Completion(inst, sol[..t])
      invariant obj == Tardiness(inst, sol[..t])
    {
      assert sol[..t + 1][..t] == sol[..t];
      var i := sol[t];
      c := c + inst.p[i - 1];
      var late := Max0(c - inst.d[i - 1]);
      obj := obj + inst.w[i - 1] * late;
    }
    assert sol[..|sol|] == sol;
  }

  /** evaluate(inputfile, outputfile) on the numbers of the input file and the integers of the
      output file (None when some token is not an integer): None when the input is malformed,
      the output does not parse, has the wrong length or is not a permutation of 1..n;
      otherwise the total weighted tardiness of that order. */
  function Evaluation(nums: seq<int>, out: Option<seq<int>>): (r: Option<int>)
  {
    match Read(nums)
    case None => None
    case Some(inst) =>
      if out.None? || |out.value| != inst.n then None
      else if multiset(out.value) != multiset(Jobs(inst.n)) then None
      else PermutationOfJobs(out.value, inst.n); Some(Tardiness(inst, out.value))
  }

  /** An output is scored exactly when the input is well formed and it lists each of the jobs
      1..n exactly once. */
  lemma Scored(nums: seq<int>, out: Option<seq<int>>)
    ensures Evaluation(nums, out).Some? <==>
              |nums| % 3 == 0 && out.Some? && |out.value| == |nums| / 3 &&
              Distinct(out.value) && JobsIn(out.value, |nums| / 3)
  {
    if |nums| % 3 == 0 && out.Some? {
      PermutationOfJobs(out.value, |nums| / 3);
    }
  }

  /** With non-negative weights every score is non-negative. */
  lemma ScoreNonNegative(nums: seq<int>, out: Option<seq<int>>)
    requires Read(nums).Some? ==> forall k :: 0 <= k < Read(nums).value.n ==> Read(nums).value.w[k] >= 0
    ensures Evaluation(nums, out).Some? ==> Evaluation(nums, out).value >= 0
  {
    if Evaluation(nums, out).Some? {
      var inst := Read(nums).value;
      PermutationOfJobs(out.value, inst.n);
      TardinessNonNegative(inst, out.value);
    }
  }

  /** The evaluator on the integers it has read. */
  method Evaluate(nums: seq<int>, out: Option<seq<int>>) returns (r: Option<int>)
    ensures r == Evaluation(nums, out)
  {
    if |nums| % 3 != 0 {
      return None;
    }
    var n := |nums| / 3;
    var inst := Instance(n, nums[..n], nums[n..2 * n], nums[2 * n..]);
    assert Read(nums) == Some(inst);
    if out.None? {
      return None;
    }
    var sol := out.value;
    if |sol| != n {
      return None;
    }
    if multiset(sol) != multiset(Jobs(n)) {
      return None;
    }
    PermutationOfJobs(sol, n);
    var obj := Objective(inst, sol);
    return Some(obj);
  }
}

/** Channel-count conversion (crates/audio-core/src/bus.rs): several special-case branches that
    must all mean "output channel c is the mean of the inputs congruent to c". */
module ChannelRemap {
  import opened Interleaving

  /** Sum of input[i] over i < upto with i % outputs == c. */
  function ResidueSum(input: seq<real>, outputs: nat, c: nat, upto: nat): real
    requires outputs > 0 && upto <= |input|
  {
    if upto == 0 then 0.0
    else ResidueSum(input, outputs, c, upto - 1) + (if (upto - 1) % outputs == c then input[upto - 1] else 0.0)
  }

  /** How many i < upto have i % outputs == c. */
  function ResidueCount(outputs: nat, c: nat, upto: nat): nat
    requires outputs > 0
  {
    if upto == 0 then 0 else ResidueCount(outputs, c, upto - 1) + (if (upto - 1) % outputs == c then 1 else 0)
  }

  /** The mean of the inputs congruent to c, by definition. */
  function ResidueMean(input: seq<real>, outputs: nat, c: nat): real
    requires 0 < outputs && c < outputs <= |input|
  {
    ResidueCountClosedForm(outputs, c, |input|);
    ResidueSum(input, outputs, c, |input|) / ResidueCount(outputs, c, |input|) as real
  }

  /** What every branch together computes, for every pair of channel counts. */
  function Remapped(input: seq<real>, outputs: nat, c: nat): real
    requires c < outputs
  {
    if input == [] then 0.0
    else if |input| >= outputs then ResidueMean(input, outputs, c)
    else if |input| == 1 then input[0]
    else if c < |input| then input[c]
    else 0.0
  }

  lemma NextResidue(n: nat, outputs: nat)
    requires outputs > 0
    ensures var q, r := n / outputs, n % outputs;
      if r + 1 < outputs then (n + 1) / outputs == q && (n + 1) % outputs == r + 1
      else (n + 1) / outputs == q + 1 && (n + 1) % outputs == 0
  {
    var q, r := n / outputs, n % outputs;
    assert n == q * outputs + r;
    if r + 1 < outputs {
      DivModUnique(n + 1, outputs, q, r + 1);
    } else {
      assert (q + 1) * outputs == q * outputs + outputs;
      DivModUnique(n + 1, outputs, q + 1, 0);
    }
  }

  /** The closed form the code divides by counts the residue class. */
  lemma {:induction false} ResidueCountClosedForm(outputs: nat, c: nat, n: nat)
    requires c < outputs
    ensures ResidueCount(outputs, c, n) == n / outputs + (if c < n % outputs then 1 else 0)
    ensures outputs <= n ==> ResidueCount(outputs, c, n) > 0
  {
    if n > 0 {
      ResidueCountClosedForm(outputs, c, n - 1);
      NextResidue(n - 1, outputs);
      if outputs <= n { DivLe(1, n, outputs); }
    } else {
      DivModUnique(0, outputs, 0, 0);
    }
  }

  // ---------------------------------------------------------------- the branches agree

  /** With one output every index is congruent. */
  lemma {:induction false} OneOutput(input: seq<real>, n: nat)
    requires n <= |input|
    ensures ResidueSum(input, 1, 0, n) == Total(input, n) && ResidueCount(1, 0, n) == n
  {
    if n > 0 { OneOutput(input, n - 1); }
  }

  function Total(input: seq<real>, n: nat): real
    requires n <= |input|
  {
    if n == 0 then 0.0 else Total(input, n - 1) + input[n - 1]
  }

  /** With as many outputs as inputs each class is a single channel. */
  lemma {:induction false} SameWidth(input: seq<real>, c: nat, n: nat)
    requires n <= |input| && c < |input|
    ensures ResidueSum(input, |input|, c, n) == (if c < n then input[c] else 0.0)
    ensures ResidueCount(|input|, c, n) == (if c < n then 1 else 0)
  {
    if n > 0 {
      SameWidth(input, c, n - 1);
      DivModUnique(n - 1, |input|, 0, n - 1);
    }
  }

  method RemapFrameInto(input: seq<real>, output: array<real>)
    modifies output
    ensures forall c :: 0 <= c < output.Length ==> output[c] == Remapped(input, output.Length, c)
  {
    Fill(output, 0.0);
    var outputs := output.Length;
    if |input| == 0 || outputs == 0 {
      return;
    }
    if |input| == outputs {
      forall c | 0 <= c < outputs ensures Remapped(input, outputs, c) == input[c] {
        SameWidth(input, c, |input|);
      }
      for c := 0 to outputs
        invariant forall i :: 0 <= i < c ==> output[i] == input[i]
      {
        output[c] := input[c];
      }
      return;
    }
    if outputs == 1 {
      OneOutput(input, |input|);
      var sum := 0.0;
      for i := 0 to |input|
        invariant sum == Total(input, i)
      {
        sum := sum + input[i];
      }
      output[0] := sum / |input| as real;
      return;
    }
    if |input| == 1 {
      Fill(output, input[0]);
      return;
    }
    if outputs == 2 {
      Downmix2(input, output);
      return;
    }
    if |input| < outputs {
      for c := 0 to |input|
        invariant forall i :: 0 <= i < outputs ==> output[i] == if i < c then input[i] else 0.0
      {
        output[c] := input[c];
      }
      return;
    }
    AccumulateResidues(input, output);
    DivideByCounts(input, output);
  }

  method Fill(output: array<real>, value: real)
    modifies output
    ensures forall c :: 0 <= c < output.Length ==> output[c] == value
  {
    for c := 0 to output.Length
      invariant forall i :: 0 <= i < c ==> output[i] == value
    {
      output[c] := value;
    }
  }

  /** The stereo branch counts as it sums. */
  method Downmix2(input: seq<real>, output: array<real>)
    requires output.Length == 2 && |input| > 2
    modifies output
    ensures forall c :: 0 <= c < 2 ==> output[c] == Remapped(input, 2, c)
  {
    var left, right, leftCount, rightCount := 0.0, 0.0, 0, 0;
    for index := 0 to |input|
      invariant left == ResidueSum(input, 2, 0, index) && leftCount == ResidueCount(2, 0, index)
      invariant right == ResidueSum(input, 2, 1, index) && rightCount == ResidueCount(2, 1, index)
    {
      if index % 2 == 0 {
        left := left + input[index];
        leftCount := leftCount + 1;
      } else {
        right := right + input[index];
        rightCount := rightCount + 1;
      }
    }
    ResidueCountClosedForm(2, 0, |input|);
    ResidueCountClosedForm(2, 1, |input|);
    output[0] := left / (if leftCount < 1 then 1 else leftCount) as real;
    output[1] := right / (if rightCount < 1 then 1 else rightCount) as real;
  }

  method AccumulateResidues(input: seq<real>, output: array<real>)
    requires output.Length > 0 && forall c :: 0 <= c < output.Length ==> output[c] == 0.0
    modifies output
    ensures forall c :: 0 <= c < output.Length ==> output[c] == ResidueSum(input, output.Length, c, |input|)
  {
    for index := 0 to |input|
      invariant forall c :: 0 <= c < output.Length ==> output[c] == ResidueSum(input, output.Length, c, index)
    {
      var outputChannel := index % output.Length;
      output[outputChannel] := output[outputChannel] + input[index];
    }
  }

  method DivideByCounts(input: seq<real>, output: array<real>)
    requires 0 < output.Length <= |input|
    requires forall c :: 0 <= c < output.Length ==> output[c] == ResidueSum(input, output.Length, c, |input|)
    modifies output
    ensures forall c :: 0 <= c < output.Length ==> output[c] == ResidueMean(input, output.Length, c)
  {
    var baseCount := Quotient(|input|, output.Length);
    var extraChannels := |input| % output.Length;
    for index := 0 to output.Length
      invariant forall c :: 0 <= c < output.Length ==>
        output[c] == if c < index then ResidueMean(input, output.Length, c)
                     else ResidueSum(input, output.Length, c, |input|)
    {
      var count := baseCount + if index < extraChannels then 1 else 0;
      ResidueCountClosedForm(output.Length, index, |input|);
      output[index] := output[index] / (if count < 1 then 1 else count) as real;
    }
  }

  // ---------------------------------------------------------------- conservation and linearity

  /** Sum over the outputs below c of what each class adds up to. */
  function ClassTotals(input: seq<real>, outputs: nat, c: nat, upto: nat): real
    requires outputs > 0 && upto <= |input|
  {
    if c == 0 then 0.0 else ClassTotals(input, outputs, c - 1, upto) + ResidueSum(input, outputs, c - 1, upto)
  }

  lemma {:induction false} ClassTotalsStep(input: seq<real>, outputs: nat, c: nat, n: nat)
    requires 0 < n <= |input| && outputs > 0
    ensures ClassTotals(input, outputs, c, n)
         == ClassTotals(input, outputs, c, n - 1) + (if (n - 1) % outputs < c then input[n - 1] else 0.0)
  {
    if c > 0 { ClassTotalsStep(input, outputs, c - 1, n); }
  }

  lemma {:induction false} ClassesPartition(input: seq<real>, outputs: nat, n: nat)
    requires n <= |input| && outputs > 0
    ensures ClassTotals(input, outputs, outputs, n) == Total(input, n)
  {
    if n > 0 {
      ClassesPartition(input, outputs, n - 1);
      ClassTotalsStep(input, outputs, outputs, n);
    } else {
      NoTotals(input, outputs, outputs);
    }
  }

  lemma {:induction false} NoTotals(input: seq<real>, outputs: nat, c: nat)
    requires outputs > 0
    ensures ClassTotals(input, outputs, c, 0) == 0.0
  {
    if c > 0 { NoTotals(input, outputs, c - 1); }
  }

  /** Sum over the outputs below c of count times output. */
  function WeightedOutputs(input: seq<real>, outputs: nat, c: nat): real
    requires c <= outputs && 0 < outputs <= |input|
  {
    if c == 0 then 0.0
    else WeightedOutputs(input, outputs, c - 1)
         + ResidueCount(outputs, c - 1, |input|) as real * Remapped(input, outputs, c - 1)
  }

  lemma MeanTimesCount(input: seq<real>, outputs: nat, c: nat)
    requires c < outputs <= |input|
    ensures ResidueCount(outputs, c, |input|) as real * Remapped(input, outputs, c)
         == ResidueSum(input, outputs, c, |input|)
  {
    ResidueCountClosedForm(outputs, c, |input|);
    Cancels(ResidueSum(input, outputs, c, |input|), ResidueCount(outputs, c, |input|) as real);
  }

  lemma Cancels(x: real, n: real)
    requires n != 0.0
    ensures n * (x / n) == x
  {
  }

  lemma {:induction false} WeightedOutputsAre(input: seq<real>, outputs: nat, c: nat)
    requires c <= outputs && 0 < outputs <= |input|
    ensures WeightedOutputs(input, outputs, c) == ClassTotals(input, outputs, c, |input|)
  {
    if c > 0 {
      WeightedOutputsAre(input, outputs, c - 1);
      MeanTimesCount(input, outputs, c - 1);
    }
  }

  /** A downmix loses nothing: the outputs weighted by their class sizes add up to the input. */
  lemma DownmixConserves(input: seq<real>, outputs: nat)
    requires 0 < outputs <= |input|
    ensures WeightedOutputs(input, outputs, outputs) == Total(input, |input|)
  {
    WeightedOutputsAre(input, outputs, outputs);
    ClassesPartition(input, outputs, |input|);
  }

  function Scale(k: real, input: seq<real>): (r: seq<real>)
    ensures |r| == |input|
  {
    seq(|input|, i requires 0 <= i < |input| => k * input[i])
  }

  lemma {:induction false} ResidueSumScales(k: real, input: seq<real>, outputs: nat, c: nat, n: nat)
    requires outputs > 0 && n <= |input|
    ensures ResidueSum(Scale(k, input), outputs, c, n) == k * ResidueSum(input, outputs, c, n)
  {
    if n > 0 { ResidueSumScales(k, input, outputs, c, n - 1); }
  }

  lemma QuotientScales(k: real, sum: real, n: real, scaledSum: real, mean: real, scaledMean: real)
    requires n != 0.0 && mean == sum / n && scaledSum == k * sum && scaledMean == scaledSum / n
    ensures scaledMean == k * mean
  {
    Cancels(sum, n);
    assert scaledSum == (k * mean) * n;
  }

  lemma MeanScales(k: real, input: seq<real>, outputs: nat, c: nat)
    requires c < outputs <= |input|
    ensures ResidueMean(Scale(k, input), outputs, c) == k * ResidueMean(input, outputs, c)
  {
    ResidueCountClosedForm(outputs, c, |input|);
    ResidueSumScales(k, input, outputs, c, |input|);
    QuotientScales(k, ResidueSum(input, outputs, c, |input|), ResidueCount(outputs, c, |input|) as real,
                   ResidueSum(Scale(k, input), outputs, c, |input|),
                   ResidueMean(input, outputs, c), ResidueMean(Scale(k, input), outputs, c));
  }

  /** Scaling the input scales every output, in every branch. */
  lemma RemapScales(k: real, input: seq<real>, outputs: nat, c: nat)
    requires c < outputs
    ensures Remapped(Scale(k, input), outputs, c) == k * Remapped(input, outputs, c)
  {
    if input != [] && |input| >= outputs {
      MeanScales(k, input, outputs, c);
      assert Remapped(Scale(k, input), outputs, c) == ResidueMean(Scale(k, input), outputs, c);
    }
  }

  // ---------------------------------------------------------------- which input reaches which output

  function Plus(a: seq<real>, b: seq<real>): (r: seq<real>)
    requires |a| == |b|
    ensures |r| == |a|
  {
    seq(|a|, i requires 0 <= i < |a| => a[i] + b[i])
  }

  lemma {:induction false} ResidueSumAdds(a: seq<real>, b: seq<real>, outputs: nat, c: nat, n: nat)
    requires outputs > 0 && |a| == |b| && n <= |a|
    ensures ResidueSum(Plus(a, b), outputs, c, n) == ResidueSum(a, outputs, c, n) + ResidueSum(b, outputs, c, n)
  {
    if n > 0 { ResidueSumAdds(a, b, outputs, c, n - 1); }
  }

  lemma QuotientAdds(x: real, y: real, n: real)
    requires n != 0.0
    ensures (x + y) / n == x / n + y / n
  {
  }

  /** Superposed inputs give superposed outputs, in every branch. */
  lemma RemapAdds(a: seq<real>, b: seq<real>, outputs: nat, c: nat)
    requires |a| == |b| && c < outputs
    ensures Remapped(Plus(a, b), outputs, c) == Remapped(a, outputs, c) + Remapped(b, outputs, c)
  {
    if |a| >= outputs {
      ResidueSumAdds(a, b, outputs, c, |a|);
      ResidueCountClosedForm(outputs, c, |a|);
      QuotientAdds(ResidueSum(a, outputs, c, |a|), ResidueSum(b, outputs, c, |a|),
                   ResidueCount(outputs, c, |a|) as real);
    }
  }

  /** A signal on channel i alone. */
  function Impulse(n: nat, i: nat): (r: seq<real>)
    ensures |r| == n
  {
    seq(n, j => if j == i then 1.0 else 0.0)
  }

  lemma {:induction false} ResidueSumOfImpulse(len: nat, i: nat, outputs: nat, c: nat, n: nat)
    requires outputs > 0 && n <= len
    ensures ResidueSum(Impulse(len, i), outputs, c, n) == if i < n && i % outputs == c then 1.0 else 0.0
  {
    if n > 0 { ResidueSumOfImpulse(len, i, outputs, c, n - 1); }
  }

  /** Input i of n reaches exactly output i modulo the output count on a downmix, with the share of
      its class; a mono input reaches every output, and other upmixes pass channels straight on.
      With superposition and scaling this is the whole conversion. */
  lemma ImpulseResponse(n: nat, i: nat, outputs: nat, c: nat)
    requires i < n && c < outputs
    ensures n >= outputs && i % outputs == c ==>
      Remapped(Impulse(n, i), outputs, c) * (n / outputs + (if c < n % outputs then 1 else 0)) as real == 1.0
    ensures n >= outputs && i % outputs != c ==> Remapped(Impulse(n, i), outputs, c) == 0.0
    ensures n < outputs ==> Remapped(Impulse(n, i), outputs, c) == if n == 1 || c == i then 1.0 else 0.0
  {
    if n >= outputs {
      ResidueSumOfImpulse(n, i, outputs, c, n);
      ResidueCountClosedForm(outputs, c, n);
      Cancels(ResidueSum(Impulse(n, i), outputs, c, n), ResidueCount(outputs, c, n) as real);
    }
  }
}

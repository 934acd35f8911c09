/** The integer perceptron of the single-layer-perceptron handler: prediction and
    in-place training over 32-bit words, the mistake bound of the ideal perceptron,
    and the range of inputs on which the 32-bit code is that ideal perceptron. */
module Perceptron {
  import opened Arith
  import opened Vectors
  import opened Word32

  const VECTOR_LEN := 8
  const LEARNING_RATE := 1
  const SQUARE_LIMIT: int := 0x4000_0000_0000_0000
  const FIT_DATA := 0
  const PREDICT := 1
  const HEADER_BYTES := 8
  const WORD_BYTES := 4
  const UDP_HEADER_BYTES := 8

  // A training sample; the answer is 0 or 1.
  datatype Sample = Sample(input: seq<int>, answer: int)

  type Weights = w: seq<int> | |w| == VECTOR_LEN + 1 witness [0, 0, 0, 0, 0, 0, 0, 0, 0]

  const ZERO: Weights := [0, 0, 0, 0, 0, 0, 0, 0, 0]

  predicate Shaped(s: Sample) { |s.input| == VECTOR_LEN }

  predicate AllShaped(ss: seq<Sample>) { forall i :: 0 <= i < |ss| ==> Shaped(ss[i]) }

  // ---------- 32-bit arithmetic ----------

  function WordDot(x: seq<int>, w: seq<int>, n: nat): int
    requires n <= |x| && n <= |w|
  {
    if n == 0 then 0 else Wrap(WordDot(x, w, n - 1) + Wrap(x[n - 1] * w[n - 1]))
  }

  function Activation(dot: int): int { if dot >= 0 then 1 else 0 }

  function WordPredict(x: seq<int>, w: Weights): int
    requires |x| == VECTOR_LEN
  {
    Activation(Wrap(WordDot(x, w, VECTOR_LEN) + w[VECTOR_LEN]))
  }

  // Every intermediate wrap only counts as one at the end.
  lemma {:induction false} WordDotWraps(x: seq<int>, w: seq<int>, n: nat)
    requires n <= |x| && n <= |w|
    ensures WordDot(x, w, n) == Wrap(Dot(x, w, n))
    decreases n
  {
    if n > 0 {
      WordDotWraps(x, w, n - 1);
      var p := x[n - 1] * w[n - 1];
      WrapSum(Dot(x, w, n - 1), Wrap(p));
      WrapSum(Dot(x, w, n - 1), p);
    }
  }

  // Main result on predictions: the answer is 1 exactly when the inner product plus the
  // bias, as a 32-bit word, is not negative, and 0 otherwise.
  lemma PredictsExactly(x: seq<int>, w: Weights)
    requires |x| == VECTOR_LEN
    ensures var score := Dot(x, w, VECTOR_LEN) + w[VECTOR_LEN];
      && WordPredict(x, w) == (if Wrap(score) >= 0 then 1 else 0)
      && (-HALF <= score < HALF ==> WordPredict(x, w) == if score >= 0 then 1 else 0)
  {
    WordDotWraps(x, w, VECTOR_LEN);
    WrapSum(Dot(x, w, VECTOR_LEN), w[VECTOR_LEN]);
  }

  function WordFit(w: Weights, s: Sample): Weights
    requires Shaped(s)
  {
    var e := Wrap(s.answer - WordPredict(s.input, w));
    seq(VECTOR_LEN + 1, k requires 0 <= k < VECTOR_LEN + 1 =>
      if k < VECTOR_LEN
      then Wrap(w[k] + Wrap(Wrap(LEARNING_RATE * e) * s.input[k]))
      else Wrap(w[k] + Wrap(LEARNING_RATE * e)))
  }

  function WordTrain(w: Weights, ss: seq<Sample>): Weights
    requires AllShaped(ss)
    decreases |ss|
  {
    if ss == [] then w else WordFit(WordTrain(w, ss[..|ss| - 1]), ss[|ss| - 1])
  }

  // ---------- The handler's loops ----------

  // The len samples whose inputs start at word `input` of mem and answers at `res`.
  function Batch(mem: seq<int>, input: nat, res: nat, len: nat): (ss: seq<Sample>)
    requires input + len * VECTOR_LEN <= |mem| && res + len <= |mem|
    ensures |ss| == len && AllShaped(ss)
  {
    seq(len, i requires 0 <= i < len => SampleAt(mem, input, res, len, i))
  }

  function SampleAt(mem: seq<int>, input: nat, res: nat, len: nat, i: nat): (s: Sample)
    requires i < len && input + len * VECTOR_LEN <= |mem| && res + len <= |mem|
    ensures Shaped(s)
  {
    Sample(mem[input + i * VECTOR_LEN..input + i * VECTOR_LEN + VECTOR_LEN], mem[res + i])
  }

  lemma WordTrainStep(w: Weights, ss: seq<Sample>, i: nat, before: Weights, s: Sample, after: Weights)
    requires AllShaped(ss) && i < |ss| && Shaped(s) && s == ss[i]
    requires before == WordTrain(w, ss[..i]) && after == WordFit(before, s)
    ensures after == WordTrain(w, ss[..i + 1])
  {
    assert ss[..i + 1][..i] == ss[..i];
  }

  method Predict(mem: array<int>, input: nat, weight: array<int>) returns (r: int)
    requires input + VECTOR_LEN <= mem.Length && weight.Length == VECTOR_LEN + 1
    ensures r == WordPredict(mem[..][input..input + VECTOR_LEN], weight[..])
    ensures var x, w := mem[..][input..input + VECTOR_LEN], weight[..];
      r == if Wrap(Dot(x, w, VECTOR_LEN) + w[VECTOR_LEN]) >= 0 then 1 else 0
  {
    var dot := 0;
    for i := 0 to VECTOR_LEN
      invariant dot == WordDot(mem[..][input..input + VECTOR_LEN], weight[..], i)
    {
      dot := Wrap(dot + Wrap(mem[input + i] * weight[i]));
    }
    dot := Wrap(dot + weight[VECTOR_LEN]);
    r := Activation(dot);
    PredictsExactly(mem[..][input..input + VECTOR_LEN], weight[..]);
  }

  lemma FitByWeights(w: Weights, s: Sample, g: int, after: Weights)
    requires Shaped(s) && g == Wrap(LEARNING_RATE * Wrap(s.answer - WordPredict(s.input, w)))
    requires forall j :: 0 <= j < VECTOR_LEN ==> after[j] == Wrap(w[j] + Wrap(g * s.input[j]))
    requires after[VECTOR_LEN] == Wrap(w[VECTOR_LEN] + g)
    ensures after == WordFit(w, s)
  {
    var fit := WordFit(w, s);
    forall k | 0 <= k <= VECTOR_LEN
      ensures after[k] == fit[k]
    {
      if k < VECTOR_LEN {
        assert fit[k] == Wrap(w[k] + Wrap(g * s.input[k]));
      }
    }
  }

  method FitSample(mem: array<int>, input: nat, answer: int, weight: array<int>)
    requires input + VECTOR_LEN <= mem.Length && weight.Length == VECTOR_LEN + 1 && weight != mem
    modifies weight
    ensures weight[..] == WordFit(old(weight[..]), Sample(mem[..][input..input + VECTOR_LEN], answer))
  {
    var p := Predict(mem, input, weight);
    var e := Wrap(answer - p);
    for k := 0 to VECTOR_LEN
      invariant forall j :: 0 <= j < k ==>
        weight[j] == Wrap(old(weight[j]) + Wrap(Wrap(LEARNING_RATE * e) * mem[input + j]))
      invariant forall j :: k <= j <= VECTOR_LEN ==> weight[j] == old(weight[j])
    {
      weight[k] := Wrap(weight[k] + Wrap(Wrap(LEARNING_RATE * e) * mem[input + k]));
    }
    weight[VECTOR_LEN] := Wrap(weight[VECTOR_LEN] + Wrap(LEARNING_RATE * e));
    FitByWeights(old(weight[..]), Sample(mem[..][input..input + VECTOR_LEN], answer), Wrap(LEARNING_RATE * e),
                 weight[..]);
  }

  method FitBatch(mem: array<int>, input: nat, res: nat, len: nat, weight: array<int>)
    requires input + len * VECTOR_LEN <= mem.Length && res + len <= mem.Length
    requires weight.Length == VECTOR_LEN + 1 && weight != mem
    modifies weight
    ensures weight[..] == WordTrain(old(weight[..]), Batch(old(mem[..]), input, res, len))
  {
    ghost var ss, w := Batch(mem[..], input, res, len), weight[..];
    for i := 0 to len
      invariant weight[..] == WordTrain(w, ss[..i])
    {
      ghost var before := weight[..];
      FitAt(mem, input, res, len, i, weight);
      WordTrainStep(w, ss, i, before, ss[i], weight[..]);
    }
    assert ss[..len] == ss;
  }

  // One turn of that loop.
  method FitAt(mem: array<int>, input: nat, res: nat, len: nat, i: nat, weight: array<int>)
    requires input + len * VECTOR_LEN <= mem.Length && res + len <= mem.Length && i < len
    requires weight.Length == VECTOR_LEN + 1 && weight != mem
    modifies weight
    ensures weight[..] == WordFit(old(weight[..]), SampleAt(mem[..], input, res, len, i))
  {
    FitSample(mem, input + i * VECTOR_LEN, mem[res + i], weight);
  }

  // `after` is `before` with the prediction for input i, as it was, at word i.
  predicate Answers(before: seq<int>, after: seq<int>, input: nat, count: nat, w: Weights) {
    && |after| == |before| && input + count * VECTOR_LEN <= |before|
    && (forall i :: 0 <= i < count ==>
      after[input + i] == WordPredict(before[input + i * VECTOR_LEN..input + i * VECTOR_LEN + VECTOR_LEN], w))
    && (forall j :: 0 <= j < |before| && !(input <= j < input + count) ==> after[j] == before[j])
  }

  // Predictions overwrite the front of the inputs they were made from; answer i is
  // still the prediction for input i as it arrived.
  method PredictBatch(mem: array<int>, input: nat, count: nat, weight: array<int>)
    requires input + count * VECTOR_LEN <= mem.Length
    requires weight.Length == VECTOR_LEN + 1 && weight != mem
    modifies mem
    ensures Answers(old(mem[..]), mem[..], input, count, weight[..])
  {
    ghost var before := mem[..];
    for i := 0 to count
      invariant forall k :: 0 <= k < i ==>
        mem[input + k] == WordPredict(before[input + k * VECTOR_LEN..input + k * VECTOR_LEN + VECTOR_LEN], weight[..])
      invariant forall j :: (0 <= j < input || input + i <= j < mem.Length) ==> mem[j] == before[j]
    {
      var r := Predict(mem, input + i * VECTOR_LEN, weight);
      assert mem[..][input + i * VECTOR_LEN..input + i * VECTOR_LEN + VECTOR_LEN]
          == before[input + i * VECTOR_LEN..input + i * VECTOR_LEN + VECTOR_LEN];
      mem[input + i] := r;
    }
  }

  // The fields of the IP and UDP headers in front of the payload that the reply uses.
  class Headers {
    var ihl: nat        // length of the IP header in words, 4 bits
    var ipLength: nat
    var sourceId: nat
    var destId: nat
    var udpLength: nat
    var srcPort: nat
    var dstPort: nat

    // send_return: the packet goes back where it came from, with this payload; the result
    // is the number of bytes sent.
    method SendReturn(payloadSize: nat) returns (sent: nat)
      requires payloadSize < 256 && ihl < 16
      modifies this
      ensures ihl == old(ihl) && sent == ipLength == ihl * 4 + udpLength
      ensures udpLength == UDP_HEADER_BYTES + payloadSize
      ensures sourceId == old(destId) && destId == old(sourceId)
      ensures srcPort == old(dstPort) && dstPort == old(srcPort)
    {
      ipLength := (ihl * 4 + UDP_HEADER_BYTES + payloadSize) % 0x1_0000;
      udpLength := (UDP_HEADER_BYTES + payloadSize) % 0x1_0000;
      var srcId := sourceId;
      sourceId := destId;
      destId := srcId;
      var port := srcPort;
      srcPort := dstPort;
      dstPort := port;
      sent := ipLength;
    }
  }

  // The length passed to send_return is an 8-bit parameter.
  function ReplySize(count: nat): (r: nat)
    ensures r < 256
  {
    (HEADER_BYTES + WORD_BYTES * count) % 256
  }

  // The reply is as long as its answers exactly up to 61 of them.
  lemma ReplyHoldsAnswers(count: nat)
    ensures ReplySize(count) == HEADER_BYTES + WORD_BYTES * count <==> count <= 61
  {
    var size := HEADER_BYTES + WORD_BYTES * count;
    assert size < 256 <==> count <= 61;
  }

  // A training packet: its inputs, and behind them its answers.
  predicate HoldsBatch(mem: seq<int>, input: nat, count: nat) { input + count * VECTOR_LEN + count <= |mem| }

  function TrainOn(w: Weights, mem: seq<int>, input: nat, count: nat): Weights
    requires HoldsBatch(mem, input, count)
  {
    WordTrain(w, Batch(mem, input, input + count * VECTOR_LEN, count))
  }

  // The training branch of the payload handler.
  method FitPacket(mem: array<int>, input: nat, count: nat, weight: array<int>)
    requires HoldsBatch(mem[..], input, count) && weight.Length == VECTOR_LEN + 1 && weight != mem
    modifies weight
    ensures weight[..] == TrainOn(old(weight[..]), old(mem[..]), input, count)
  {
    FitBatch(mem, input, input + count * VECTOR_LEN, count, weight);
  }

  // The prediction branch of the payload handler.
  method Answer(hdr: Headers, count: nat, mem: array<int>, input: nat, weight: array<int>) returns (sent: nat)
    requires input + count * VECTOR_LEN <= mem.Length
    requires weight.Length == VECTOR_LEN + 1 && weight != mem && hdr.ihl < 16
    modifies mem, hdr
    ensures Answers(old(mem[..]), mem[..], input, count, weight[..])
    ensures hdr.udpLength == UDP_HEADER_BYTES + ReplySize(count)
    ensures sent == hdr.ipLength == old(hdr.ihl) * 4 + hdr.udpLength
    ensures hdr.sourceId == old(hdr.destId) && hdr.destId == old(hdr.sourceId)
    ensures hdr.srcPort == old(hdr.dstPort) && hdr.dstPort == old(hdr.srcPort)
  {
    PredictBatch(mem, input, count, weight);
    sent := hdr.SendReturn(ReplySize(count));
  }

  // One payload packet: train the shared weights, or answer with this cluster's
  // copy of them (the shared weights themselves on cluster 0), or do nothing.
  method PayloadHandler(kind: int, count: nat, hdr: Headers, mem: array<int>, input: nat,
                        master: array<int>, self: array<int>) returns (sent: nat)
    requires kind == FIT_DATA ==> HoldsBatch(mem[..], input, count)
    requires kind == PREDICT ==> input + count * VECTOR_LEN <= mem.Length
    requires master.Length == VECTOR_LEN + 1 && self.Length == VECTOR_LEN + 1 && master != mem && self != mem
    requires hdr.ihl < 16
    modifies mem, master, hdr
    ensures kind == FIT_DATA ==> master[..] == TrainOn(old(master[..]), old(mem[..]), input, count)
    ensures kind != FIT_DATA ==> master[..] == old(master[..])
    ensures kind == PREDICT ==> Answers(old(mem[..]), mem[..], input, count, old(self[..]))
    ensures kind == PREDICT ==>
      && hdr.udpLength == UDP_HEADER_BYTES + ReplySize(count)
      && sent == hdr.ipLength == old(hdr.ihl) * 4 + hdr.udpLength
      && hdr.sourceId == old(hdr.destId) && hdr.destId == old(hdr.sourceId)
      && hdr.srcPort == old(hdr.dstPort) && hdr.dstPort == old(hdr.srcPort)
    ensures kind != PREDICT ==> mem[..] == old(mem[..]) && unchanged(hdr) && sent == 0
  {
    sent := 0;
    if kind == FIT_DATA {
      FitPacket(mem, input, count, master);
    } else if kind == PREDICT {
      sent := Answer(hdr, count, mem, input, self);
    }
  }

  // ---------- The ideal perceptron ----------

  // The input with a constant 1 for the bias weight.
  function Extended(s: Sample): (x: Weights)
    requires Shaped(s)
  {
    s.input + [1]
  }

  function Score(w: Weights, s: Sample): int
    requires Shaped(s)
  {
    Dot(Extended(s), w, VECTOR_LEN + 1)
  }

  function Error(w: Weights, s: Sample): int
    requires Shaped(s)
  {
    s.answer - Activation(Score(w, s))
  }

  function Fit(w: Weights, s: Sample): (w': Weights)
    requires Shaped(s)
    ensures IsStep(w', w, Error(w, s), Extended(s), VECTOR_LEN + 1)
  {
    var e, x := Error(w, s), Extended(s);
    seq(VECTOR_LEN + 1, k requires 0 <= k < VECTOR_LEN + 1 => w[k] + e * x[k])
  }

  // One sample moves every weight by the error times its input, wrapped once.
  lemma WordFitWraps(w: Weights, s: Sample, k: nat, e: int)
    requires Shaped(s) && k <= VECTOR_LEN && e == s.answer - WordPredict(s.input, w)
    ensures WordFit(w, s)[k] == Wrap(w[k] + e * Extended(s)[k])
  {
    StepWraps(w[k], e, Wrap(e), Extended(s)[k]);
  }

  lemma StepWraps(w: int, e: int, e': int, x: int)
    requires e' == Wrap(e)
    ensures Wrap(LEARNING_RATE * e') == e' && Wrap(w + e') == Wrap(w + e)
    ensures Wrap(w + Wrap(e' * x)) == Wrap(w + e * x)
  {
    WrapProduct(e, x);
    WrapSum(w, e);
    WrapSum(w, e' * x);
    WrapSum(w, e * x);
  }

  // Main result on the start: from zero weights the first sample is a mistake exactly when
  // its answer is 0, and then the weights become minus its extended input.
  lemma FirstSample(s: Sample)
    requires Shaped(s) && (s.answer == 0 || s.answer == 1)
    ensures Hit(ZERO, s) == 1 - s.answer
    ensures forall k :: 0 <= k <= VECTOR_LEN ==> Fit(ZERO, s)[k] == if s.answer == 0 then -Extended(s)[k] else 0
    ensures forall k :: 0 <= k <= VECTOR_LEN ==>
      WordFit(ZERO, s)[k] == Wrap(if s.answer == 0 then -Extended(s)[k] else 0)
  {
    ZeroDot(Extended(s), VECTOR_LEN + 1);
    ZeroDot(s.input, VECTOR_LEN);
    PredictsExactly(s.input, ZERO);
    forall k | 0 <= k <= VECTOR_LEN
      ensures WordFit(ZERO, s)[k] == Wrap(if s.answer == 0 then -Extended(s)[k] else 0)
    {
      WordFitWraps(ZERO, s, k, s.answer - 1);
    }
  }

  function Train(w: Weights, ss: seq<Sample>): Weights
    requires AllShaped(ss)
    decreases |ss|
  {
    if ss == [] then w else Fit(Train(w, ss[..|ss| - 1]), ss[|ss| - 1])
  }

  function Hit(w: Weights, s: Sample): nat
    requires Shaped(s)
  {
    if Error(w, s) == 0 then 0 else 1
  }

  // How many samples were answered wrongly when training reached them.
  function Mistakes(w: Weights, ss: seq<Sample>): nat
    requires AllShaped(ss)
    decreases |ss|
  {
    if ss == [] then 0
    else
      var before := ss[..|ss| - 1];
      Mistakes(w, before) + Hit(Train(w, before), ss[|ss| - 1])
  }

  predicate Answered(ss: seq<Sample>) { forall i :: 0 <= i < |ss| ==> ss[i].answer == 0 || ss[i].answer == 1 }

  predicate WithinNorm(ss: seq<Sample>, B: int)
    requires AllShaped(ss)
  {
    forall i :: 0 <= i < |ss| ==> Norm(Extended(ss[i]), VECTOR_LEN + 1) <= B
  }

  // u answers s with at least margin g to spare.
  predicate SeparatesOne(u: Weights, g: int, s: Sample)
    requires Shaped(s)
  {
    if s.answer == 1 then Score(u, s) >= g else Score(u, s) <= -g
  }

  predicate Separates(u: Weights, g: int, ss: seq<Sample>)
    requires AllShaped(ss)
  {
    forall i :: 0 <= i < |ss| ==> SeparatesOne(u, g, ss[i])
  }

  // ---------- Mistake bound ----------

  // One wrong answer adds at most |x|^2 to |w|^2.
  lemma NormAfterFit(w: Weights, s: Sample)
    requires Shaped(s) && (s.answer == 0 || s.answer == 1)
    ensures Norm(Fit(w, s), VECTOR_LEN + 1)
         <= Norm(w, VECTOR_LEN + 1) + Hit(w, s) * Norm(Extended(s), VECTOR_LEN + 1)
  {
    NormStep(w, Error(w, s), Extended(s), Fit(w, s), VECTOR_LEN + 1);
    DotCommutes(w, Extended(s), VECTOR_LEN + 1);
  }

  lemma {:induction false} NormBound(ss: seq<Sample>, B: int)
    requires AllShaped(ss) && Answered(ss) && WithinNorm(ss, B)
    ensures Norm(Train(ZERO, ss), VECTOR_LEN + 1) <= B * Mistakes(ZERO, ss)
    decreases |ss|
  {
    if ss == [] {
      ZeroNorm(VECTOR_LEN + 1);
    } else {
      var before, s := ss[..|ss| - 1], ss[|ss| - 1];
      var w := Train(ZERO, before);
      NormBound(before, B);
      NormAfterFit(w, s);
      MulMono(Norm(Extended(s), VECTOR_LEN + 1), B, Hit(w, s));
      Distribute(B, Mistakes(ZERO, before), Hit(w, s));
    }
  }

  lemma {:induction false} ZeroNorm(n: nat)
    requires n <= VECTOR_LEN + 1
    ensures Norm(ZERO, n) == 0
  {
    if n > 0 {
      ZeroNorm(n - 1);
    }
  }

  lemma {:induction false} ZeroDot(u: seq<int>, n: nat)
    requires n <= VECTOR_LEN + 1 && n <= |u|
    ensures Dot(u, ZERO, n) == 0
  {
    if n > 0 {
      ZeroDot(u, n - 1);
    }
  }

  lemma Gain(u: Weights, g: int, w: Weights, s: Sample)
    requires Shaped(s) && (s.answer == 0 || s.answer == 1) && SeparatesOne(u, g, s)
    ensures Dot(u, Fit(w, s), VECTOR_LEN + 1)
         >= Dot(u, w, VECTOR_LEN + 1) + g * Hit(w, s)
  {
    DotStep(u, w, Error(w, s), Extended(s), Fit(w, s), VECTOR_LEN + 1);
    DotCommutes(u, Extended(s), VECTOR_LEN + 1);
  }

  // Each wrong answer moves the weights at least g along the separator.
  lemma {:induction false} AlignmentBound(ss: seq<Sample>, u: Weights, g: int)
    requires AllShaped(ss) && Answered(ss) && Separates(u, g, ss)
    ensures Dot(u, Train(ZERO, ss), VECTOR_LEN + 1) >= g * Mistakes(ZERO, ss)
    decreases |ss|
  {
    if ss == [] {
      ZeroDot(u, VECTOR_LEN + 1);
    } else {
      var before, s := ss[..|ss| - 1], ss[|ss| - 1];
      AlignmentBound(before, u, g);
      var w := Train(ZERO, before);
      Gain(u, g, w, s);
      Distribute(g, Mistakes(ZERO, before), Hit(w, s));
    }
  }

  // Main result (Novikoff): k mistakes with margin g and |x|^2 <= B mean k g^2 <= B |u|^2.
  lemma MistakeBound(ss: seq<Sample>, u: Weights, g: int, B: int)
    requires AllShaped(ss) && Answered(ss) && Separates(u, g, ss) && WithinNorm(ss, B)
    requires g > 0 && B >= 0
    ensures Mistakes(ZERO, ss) * (g * g) <= B * Norm(u, VECTOR_LEN + 1)
  {
    var k, w, N := Mistakes(ZERO, ss), Train(ZERO, ss), Norm(u, VECTOR_LEN + 1);
    NormNonneg(u, VECTOR_LEN + 1);
    MulMono(0, B, N);
    if k > 0 {
      AlignmentBound(ss, u, g);
      NormBound(ss, B);
      CauchySchwarz(u, w, VECTOR_LEN + 1);
      DivideOut(k, g, Dot(u, w, VECTOR_LEN + 1), N, Norm(w, VECTOR_LEN + 1), B);
    }
  }

  lemma DivideOut(k: int, g: int, d: int, N: int, M: int, B: int)
    requires k > 0 && g > 0 && d >= g * k && d * d <= N * M && M <= B * k && 0 <= N
    ensures k * (g * g) <= B * N
  {
    MulMono(0, k, g);
    SquareMono(g * k, d);
    MulMono(M, B * k, N);
    Regroup(g, k, g, k);
    assert (B * k) * N == k * (B * N);
    Cancel(k, k * (g * g), B * N);
  }

  lemma SquareMono(a: int, b: int)
    requires 0 <= a <= b
    ensures a * a <= b * b
  {
    MulMono(a, b, a);
    MulMono(a, b, b);
  }

  lemma Cancel(k: int, a: int, b: int)
    requires k > 0 && k * a <= k * b
    ensures a <= b
  {
    if b < a {
      MulMono(b + 1, a, k);
    }
  }

  // ---------- When 32 bits are enough ----------

  lemma SquareOfNegation(x: int)
    ensures (-x) * (-x) == x * x
  {}

  // A value whose square is at most c fits a word when c is below 2^62.
  lemma SmallSquareFits(x: int, c: int)
    requires x * x <= c < SQUARE_LIMIT
    ensures -HALF < x < HALF
  {
    SquareOfNegation(x);
    if x >= HALF {
      SquareMono(HALF, x);
    } else if -x >= HALF {
      SquareMono(HALF, -x);
    }
  }

  // Partial inner products and each of their terms stay below the limit.
  lemma {:induction false} PartialDotFits(x: Weights, w: Weights, c: int, n: nat)
    requires n <= VECTOR_LEN + 1
    requires Norm(x, VECTOR_LEN + 1) * Norm(w, VECTOR_LEN + 1) <= c < SQUARE_LIMIT
    ensures -HALF < Dot(x, w, n) < HALF
    ensures n > 0 ==> -HALF < x[n - 1] * w[n - 1] < HALF
  {
    CauchySchwarz(x, w, n);
    ProductOfNorms(x, w, n);
    SmallSquareFits(Dot(x, w, n), c);
    if n > 0 {
      NormNonneg(x, VECTOR_LEN + 1);
      NormNonneg(w, VECTOR_LEN + 1);
      var a, b := x[n - 1] * x[n - 1], w[n - 1] * w[n - 1];
      MulMono(a, Norm(x, VECTOR_LEN + 1), b);
      MulMono(b, Norm(w, VECTOR_LEN + 1), Norm(x, VECTOR_LEN + 1));
      Regroup(x[n - 1], x[n - 1], w[n - 1], w[n - 1]);
      SmallSquareFits(x[n - 1] * w[n - 1], c);
    }
  }

  lemma ProductOfNorms(x: Weights, w: Weights, n: nat)
    requires n <= VECTOR_LEN + 1
    ensures Norm(x, n) * Norm(w, n) <= Norm(x, VECTOR_LEN + 1) * Norm(w, VECTOR_LEN + 1)
  {
    NormGrows(x, n, VECTOR_LEN + 1);
    NormGrows(w, n, VECTOR_LEN + 1);
    NormNonneg(x, n);
    NormNonneg(w, n);
    MulMono(Norm(x, n), Norm(x, VECTOR_LEN + 1), Norm(w, n));
    MulMono(Norm(w, n), Norm(w, VECTOR_LEN + 1), Norm(x, VECTOR_LEN + 1));
  }

  lemma {:induction false} WordDotIsDot(s: Sample, w: Weights, c: int, n: nat)
    requires Shaped(s) && n <= VECTOR_LEN
    requires Norm(Extended(s), VECTOR_LEN + 1) * Norm(w, VECTOR_LEN + 1) <= c < SQUARE_LIMIT
    ensures WordDot(s.input, w, n) == Dot(Extended(s), w, n)
    decreases n
  {
    if n > 0 {
      WordDotIsDot(s, w, c, n - 1);
      PartialDotFits(Extended(s), w, c, n);
      assert Extended(s)[n - 1] == s.input[n - 1];
    }
  }

  // One prediction is exact while |x|^2 |w|^2 < 2^62.
  lemma PredictionIsExact(s: Sample, w: Weights, c: int)
    requires Shaped(s)
    requires Norm(Extended(s), VECTOR_LEN + 1) * Norm(w, VECTOR_LEN + 1) <= c < SQUARE_LIMIT
    ensures WordPredict(s.input, w) == Activation(Score(w, s))
  {
    WordDotIsDot(s, w, c, VECTOR_LEN);
    PartialDotFits(Extended(s), w, c, VECTOR_LEN + 1);
    assert Extended(s)[VECTOR_LEN] == 1;
  }

  // No product and no partial sum of a prediction leaves 32 bits.
  predicate PredictInRange(w: Weights, s: Sample)
    requires Shaped(s)
  {
    && (forall n :: 0 <= n <= VECTOR_LEN + 1 ==> -HALF < Dot(Extended(s), w, n) < HALF)
    && (forall k :: 0 <= k < VECTOR_LEN + 1 ==> -HALF < Extended(s)[k] * w[k] < HALF)
  }

  // Nor do the product and the sum that change a weight.
  predicate FitInRange(w: Weights, s: Sample)
    requires Shaped(s)
  {
    && (forall k :: 0 <= k < VECTOR_LEN + 1 ==> -HALF < Error(w, s) * Extended(s)[k] < HALF)
    && (forall k :: 0 <= k < VECTOR_LEN + 1 ==> -HALF < Fit(w, s)[k] < HALF)
  }

  lemma PredictionInRange(s: Sample, w: Weights, c: int)
    requires Shaped(s)
    requires Norm(Extended(s), VECTOR_LEN + 1) * Norm(w, VECTOR_LEN + 1) <= c < SQUARE_LIMIT
    ensures PredictInRange(w, s)
  {
    forall n | 0 <= n <= VECTOR_LEN + 1
      ensures -HALF < Dot(Extended(s), w, n) < HALF
    {
      PartialDotFits(Extended(s), w, c, n);
    }
    forall k | 0 <= k < VECTOR_LEN + 1
      ensures -HALF < Extended(s)[k] * w[k] < HALF
    {
      PartialDotFits(Extended(s), w, c, k + 1);
    }
  }

  lemma UpdateInRange(s: Sample, w: Weights, c: int)
    requires Shaped(s) && (s.answer == 0 || s.answer == 1)
    requires Norm(Fit(w, s), VECTOR_LEN + 1) <= c < SQUARE_LIMIT
    requires Error(w, s) != 0 ==> Norm(Extended(s), VECTOR_LEN + 1) <= c
    ensures FitInRange(w, s)
  {
    NormNonneg(Fit(w, s), VECTOR_LEN + 1);
    NormNonneg(Extended(s), VECTOR_LEN + 1);
    forall k | 0 <= k < VECTOR_LEN + 1
      ensures -HALF < Fit(w, s)[k] < HALF
      ensures -HALF < Error(w, s) * Extended(s)[k] < HALF
    {
      SmallSquareFits(Fit(w, s)[k], c);
      if Error(w, s) != 0 {
        SmallSquareFits(Extended(s)[k], c);
      }
    }
  }

  // One update is exact when its prediction is and nothing in it leaves 32 bits.
  lemma FitIsExact(s: Sample, w: Weights)
    requires Shaped(s) && (s.answer == 0 || s.answer == 1) && FitInRange(w, s)
    requires WordPredict(s.input, w) == Activation(Score(w, s))
    ensures WordFit(w, s) == Fit(w, s)
  {
    forall k | 0 <= k < VECTOR_LEN + 1
      ensures WordFit(w, s)[k] == Fit(w, s)[k]
    {
      assert -HALF < Error(w, s) * Extended(s)[k] < HALF && -HALF < Fit(w, s)[k] < HALF;
      assert k < VECTOR_LEN ==> Extended(s)[k] == s.input[k];
    }
  }

  lemma BiasNorm(s: Sample)
    requires Shaped(s)
    ensures Norm(Extended(s), VECTOR_LEN + 1) >= 1
  {
    NormNonneg(Extended(s), VECTOR_LEN);
    assert Extended(s)[VECTOR_LEN] == 1;
  }

  lemma Room(B: int, k: nat, k': nat, x: int, n: int, n': int)
    requires 1 <= x <= B && 0 <= n <= B * k && k <= k' && n' <= B * k'
    ensures x * n <= B * (B * k')
    ensures B * (B * k) <= B * (B * k')
    ensures n' <= B * (B * k')
    ensures k' > 0 ==> x <= B * (B * k')
  {
    MulMono(k, k', B);
    MulMono(0, k', B);
    MulMono(B * k, B * k', B);
    MulMono(x, B, n);
    MulMono(n, B * k, B);
    MulMono(1, B, B * k');
    if k' > 0 {
      MulMono(1, k', B);
    }
  }

  // The limits of the last step of a training.
  lemma LastStepRoom(ss: seq<Sample>, B: int, before: seq<Sample>, s: Sample, w: Weights) returns (c: int)
    requires AllShaped(ss) && Answered(ss) && WithinNorm(ss, B) && ss != []
    requires before == ss[..|ss| - 1] && s == ss[|ss| - 1] && w == Train(ZERO, before)
    ensures c == B * (B * Mistakes(ZERO, ss)) && B * (B * Mistakes(ZERO, before)) <= c
    ensures Norm(Extended(s), VECTOR_LEN + 1) * Norm(w, VECTOR_LEN + 1) <= c
    ensures Norm(Fit(w, s), VECTOR_LEN + 1) <= c
    ensures Error(w, s) != 0 ==> Norm(Extended(s), VECTOR_LEN + 1) <= c
  {
    var k, k' := Mistakes(ZERO, before), Mistakes(ZERO, ss);
    c := B * (B * k');
    BiasNorm(s);
    NormNonneg(w, VECTOR_LEN + 1);
    NormBound(before, B);
    NormBound(ss, B);
    Room(B, k, k', Norm(Extended(s), VECTOR_LEN + 1), Norm(w, VECTOR_LEN + 1), Norm(Fit(w, s), VECTOR_LEN + 1));
  }

  // Training from zero is exact as long as B^2 times the number of mistakes is below 2^62.
  lemma {:induction false} TrainingIsExact(ss: seq<Sample>, B: int)
    requires AllShaped(ss) && Answered(ss) && WithinNorm(ss, B)
    requires B * (B * Mistakes(ZERO, ss)) < SQUARE_LIMIT
    ensures WordTrain(ZERO, ss) == Train(ZERO, ss)
    decreases |ss|
  {
    if ss != [] {
      var before, s := ss[..|ss| - 1], ss[|ss| - 1];
      var w := Train(ZERO, before);
      var c := LastStepRoom(ss, B, before, s, w);
      TrainingIsExact(before, B);
      PredictionIsExact(s, w, c);
      UpdateInRange(s, w, c);
      FitIsExact(s, w);
    }
  }

  // ... and on the way nothing it computes leaves 32 bits.
  lemma {:induction false} TrainingStaysInRange(ss: seq<Sample>, B: int)
    requires AllShaped(ss) && Answered(ss) && WithinNorm(ss, B)
    requires B * (B * Mistakes(ZERO, ss)) < SQUARE_LIMIT
    ensures forall i :: 0 <= i < |ss| ==>
      PredictInRange(Train(ZERO, ss[..i]), ss[i]) && FitInRange(Train(ZERO, ss[..i]), ss[i])
    decreases |ss|
  {
    if ss != [] {
      var before, s := ss[..|ss| - 1], ss[|ss| - 1];
      var w := Train(ZERO, before);
      var c := LastStepRoom(ss, B, before, s, w);
      TrainingStaysInRange(before, B);
      PredictionInRange(s, w, c);
      UpdateInRange(s, w, c);
      forall i | 0 <= i < |ss|
        ensures PredictInRange(Train(ZERO, ss[..i]), ss[i]) && FitInRange(Train(ZERO, ss[..i]), ss[i])
      {
        if i < |before| {
          assert before[..i] == ss[..i] && before[i] == ss[i];
        }
      }
    }
  }

  // Room for separable training: B^3 |u|^2 < 2^62 g^2, whatever its length.
  predicate Roomy(u: Weights, g: int, B: int) {
    g > 0 && B >= 0 && B * (B * (B * Norm(u, VECTOR_LEN + 1))) < SQUARE_LIMIT * (g * g)
  }

  lemma SeparableHasRoom(ss: seq<Sample>, u: Weights, g: int, B: int)
    requires AllShaped(ss) && Answered(ss) && Separates(u, g, ss) && WithinNorm(ss, B) && Roomy(u, g, B)
    ensures B * (B * Mistakes(ZERO, ss)) < SQUARE_LIMIT
  {
    MistakeBound(ss, u, g, B);
    EnoughRoom(B, Mistakes(ZERO, ss), g, Norm(u, VECTOR_LEN + 1));
  }

  // Predictions with the trained weights, on inputs within the same bound.
  lemma TrainedPredictions(ss: seq<Sample>, B: int, s: Sample)
    requires AllShaped(ss) && Answered(ss) && WithinNorm(ss, B)
    requires B * (B * Mistakes(ZERO, ss)) < SQUARE_LIMIT
    requires Shaped(s) && Norm(Extended(s), VECTOR_LEN + 1) <= B
    ensures WordPredict(s.input, Train(ZERO, ss)) == Activation(Score(Train(ZERO, ss), s))
    ensures PredictInRange(Train(ZERO, ss), s)
  {
    var w, c := Train(ZERO, ss), B * (B * Mistakes(ZERO, ss));
    NormBound(ss, B);
    BiasNorm(s);
    NormNonneg(w, VECTOR_LEN + 1);
    Room(B, Mistakes(ZERO, ss), Mistakes(ZERO, ss), Norm(Extended(s), VECTOR_LEN + 1), Norm(w, VECTOR_LEN + 1), 0);
    PredictionIsExact(s, w, c);
    PredictionInRange(s, w, c);
  }

  // Main result: with inputs |x|^2 <= B and a separator u of margin g that leave that
  // room, no product, partial sum or weight ever leaves 32 bits, in training or in
  // predicting, however long training goes on; so the code is the ideal perceptron.
  lemma SeparableTrainingNeverOverflows(ss: seq<Sample>, u: Weights, g: int, B: int)
    requires AllShaped(ss) && Answered(ss) && Separates(u, g, ss) && WithinNorm(ss, B) && Roomy(u, g, B)
    ensures forall i :: 0 <= i < |ss| ==>
      PredictInRange(Train(ZERO, ss[..i]), ss[i]) && FitInRange(Train(ZERO, ss[..i]), ss[i])
    ensures forall s :: Shaped(s) && Norm(Extended(s), VECTOR_LEN + 1) <= B ==>
      && PredictInRange(Train(ZERO, ss), s)
      && WordPredict(s.input, Train(ZERO, ss)) == Activation(Score(Train(ZERO, ss), s))
    ensures WordTrain(ZERO, ss) == Train(ZERO, ss)
  {
    SeparableHasRoom(ss, u, g, B);
    TrainingIsExact(ss, B);
    TrainingStaysInRange(ss, B);
    forall s | Shaped(s) && Norm(Extended(s), VECTOR_LEN + 1) <= B
      ensures PredictInRange(Train(ZERO, ss), s)
      ensures WordPredict(s.input, Train(ZERO, ss)) == Activation(Score(Train(ZERO, ss), s))
    {
      TrainedPredictions(ss, B, s);
    }
  }

  lemma EnoughRoom(B: int, k: int, g: int, N: int)
    requires B >= 0 && g > 0 && k * (g * g) <= B * N
    requires B * (B * (B * N)) < SQUARE_LIMIT * (g * g)
    ensures B * (B * k) < SQUARE_LIMIT
  {
    var G, c := g * g, B * (B * k);
    MulMono(1, g, g);
    MulMono(k * G, B * N, B);
    MulMono((k * G) * B, (B * N) * B, B);
    assert ((k * G) * B) * B == c * G by {
      assert (k * G) * B == (B * k) * G;
    }
    if c >= SQUARE_LIMIT {
      MulMono(SQUARE_LIMIT, c, G);
    }
  }

  // ---------- Batches and passes ----------

  function Flatten(bs: seq<seq<Sample>>): seq<Sample> {
    if bs == [] then [] else Flatten(bs[..|bs| - 1]) + bs[|bs| - 1]
  }

  lemma {:induction false} TrainConcat(w: Weights, a: seq<Sample>, b: seq<Sample>)
    requires AllShaped(a) && AllShaped(b)
    ensures AllShaped(a + b)
    ensures Train(w, a + b) == Train(Train(w, a), b)
    ensures Mistakes(w, a + b) == Mistakes(w, a) + Mistakes(Train(w, a), b)
    decreases |b|
  {
    if b == [] {
      assert a + b == a;
    } else {
      TrainConcat(w, a, b[..|b| - 1]);
      assert (a + b)[..|a + b| - 1] == a + b[..|b| - 1];
    }
  }

  lemma {:induction false} WordTrainConcat(w: Weights, a: seq<Sample>, b: seq<Sample>)
    requires AllShaped(a) && AllShaped(b)
    ensures AllShaped(a + b)
    ensures WordTrain(w, a + b) == WordTrain(WordTrain(w, a), b)
    decreases |b|
  {
    if b == [] {
      assert a + b == a;
    } else {
      WordTrainConcat(w, a, b[..|b| - 1]);
      assert (a + b)[..|a + b| - 1] == a + b[..|b| - 1];
    }
  }

  function TrainPackets(w: Weights, bs: seq<seq<Sample>>): Weights
    requires forall i :: 0 <= i < |bs| ==> AllShaped(bs[i])
    decreases |bs|
  {
    if bs == [] then w else WordTrain(TrainPackets(w, bs[..|bs| - 1]), bs[|bs| - 1])
  }

  // Training packet by packet is training on all their samples in order.
  lemma {:induction false} PacketsAreOneRun(w: Weights, bs: seq<seq<Sample>>)
    requires forall i :: 0 <= i < |bs| ==> AllShaped(bs[i])
    ensures AllShaped(Flatten(bs)) && TrainPackets(w, bs) == WordTrain(w, Flatten(bs))
    decreases |bs|
  {
    if bs != [] {
      PacketsAreOneRun(w, bs[..|bs| - 1]);
      WordTrainConcat(w, Flatten(bs[..|bs| - 1]), bs[|bs| - 1]);
    }
  }

  // No wrong answer, no change.
  lemma {:induction false} NoMistakeNoChange(w: Weights, ss: seq<Sample>)
    requires AllShaped(ss) && Mistakes(w, ss) == 0
    ensures Train(w, ss) == w
    ensures forall i :: 0 <= i < |ss| ==> Error(w, ss[i]) == 0
    decreases |ss|
  {
    if ss != [] {
      NoMistakeNoChange(w, ss[..|ss| - 1]);
      assert Fit(w, ss[|ss| - 1]) == w;
    }
  }

  lemma {:induction false} AllRightNoMistake(w: Weights, ss: seq<Sample>)
    requires AllShaped(ss) && forall i :: 0 <= i < |ss| ==> Error(w, ss[i]) == 0
    ensures Mistakes(w, ss) == 0 && Train(w, ss) == w
    decreases |ss|
  {
    if ss != [] {
      AllRightNoMistake(w, ss[..|ss| - 1]);
      assert Fit(w, ss[|ss| - 1]) == w;
    }
  }

  // The same samples sent m times.
  function Repeat(ss: seq<Sample>, m: nat): seq<Sample>
    decreases m
  {
    if m == 0 then [] else Repeat(ss, m - 1) + ss
  }

  lemma {:induction false} RepeatKeeps(ss: seq<Sample>, m: nat)
    ensures forall i :: 0 <= i < |Repeat(ss, m)| ==> Repeat(ss, m)[i] in ss
    decreases m
  {
    if m > 0 {
      RepeatKeeps(ss, m - 1);
    }
  }

  lemma {:induction false} EachPassErrsOrAllRight(ss: seq<Sample>, m: nat)
    requires AllShaped(ss)
    ensures AllShaped(Repeat(ss, m))
    ensures var w := Train(ZERO, Repeat(ss, m));
      Mistakes(ZERO, Repeat(ss, m)) >= m || forall i :: 0 <= i < |ss| ==> Error(w, ss[i]) == 0
    decreases m
  {
    if m > 0 {
      EachPassErrsOrAllRight(ss, m - 1);
      var w := Train(ZERO, Repeat(ss, m - 1));
      TrainConcat(ZERO, Repeat(ss, m - 1), ss);
      if forall i :: 0 <= i < |ss| ==> Error(w, ss[i]) == 0 {
        AllRightNoMistake(w, ss);
      } else if Mistakes(w, ss) == 0 {
        NoMistakeNoChange(w, ss);
      }
    }
  }

  // Main result: after more passes than B |u|^2 / g^2 every sample is answered right.
  lemma TrainingConverges(ss: seq<Sample>, u: Weights, g: int, B: int, m: nat)
    requires AllShaped(ss) && Answered(ss) && Separates(u, g, ss) && WithinNorm(ss, B)
    requires g > 0 && B >= 0 && m * (g * g) > B * Norm(u, VECTOR_LEN + 1)
    ensures AllShaped(Repeat(ss, m))
    ensures forall i :: 0 <= i < |ss| ==> Activation(Score(Train(ZERO, Repeat(ss, m)), ss[i])) == ss[i].answer
  {
    EachPassErrsOrAllRight(ss, m);
    RepeatKeeps(ss, m);
    MistakeBound(Repeat(ss, m), u, g, B);
    if Mistakes(ZERO, Repeat(ss, m)) >= m {
      MulMono(1, g, g);
      MulMono(m, Mistakes(ZERO, Repeat(ss, m)), g * g);
    }
  }

  lemma RepeatIsAlike(ss: seq<Sample>, u: Weights, g: int, B: int, m: nat)
    requires AllShaped(ss) && Answered(ss) && Separates(u, g, ss) && WithinNorm(ss, B)
    ensures var r := Repeat(ss, m);
      AllShaped(r) && Answered(r) && Separates(u, g, r) && WithinNorm(r, B)
  {
    RepeatKeeps(ss, m);
    forall i | 0 <= i < |Repeat(ss, m)|
      ensures Shaped(Repeat(ss, m)[i])
    {
      assert Repeat(ss, m)[i] in ss;
    }
  }

  // The same of the 32-bit code: with room as above, its own predictions are all right
  // after that many passes.
  lemma WordTrainingConverges(ss: seq<Sample>, u: Weights, g: int, B: int, m: nat)
    requires AllShaped(ss) && Answered(ss) && Separates(u, g, ss) && WithinNorm(ss, B) && Roomy(u, g, B)
    requires m * (g * g) > B * Norm(u, VECTOR_LEN + 1)
    ensures AllShaped(Repeat(ss, m))
    ensures forall i :: 0 <= i < |ss| ==>
      WordPredict(ss[i].input, WordTrain(ZERO, Repeat(ss, m))) == ss[i].answer
  {
    RepeatIsAlike(ss, u, g, B, m);
    TrainingConverges(ss, u, g, B, m);
    SeparableTrainingNeverOverflows(Repeat(ss, m), u, g, B);
  }
}

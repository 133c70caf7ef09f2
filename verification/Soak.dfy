/** write_report: a checkpoint that records the total size of all checkpoints, its own included. */
module Soak {
  import opened Results

  const CHECKPOINT_BUDGET := 50000
  const EVIDENCE_BUDGET := 128 * 1024 * 1024
  const ENCODINGS := 5

  /** The decimal digits of the counter. */
  function Digits(n: nat): (d: nat)
    ensures d >= 1
  {
    if n < 10 then 1 else 1 + Digits(n / 10)
  }

  function Pow10(k: nat): (p: nat)
    ensures p > k
  {
    if k == 0 then 1 else 10 * Pow10(k - 1)
  }

  /** The length of the encoding: the other fields, and the counter's own field once it is there. */
  function Encoded(bare: nat, field: nat, evidence: Option<nat>): nat {
    match evidence
    case None => bare
    case Some(n) => bare + field + Digits(n)
  }

  function Sum(lengths: seq<nat>): nat {
    if lengths == [] then 0 else Sum(lengths[..|lengths| - 1]) + lengths[|lengths| - 1]
  }

  lemma SumAppend(lengths: seq<nat>, length: nat)
    ensures Sum([]) == 0 && Sum(lengths + [length]) == Sum(lengths) + length
  {
    assert (lengths + [length])[..|lengths|] == lengths;
  }

  // ----- digits

  lemma {:induction false} DigitsBound(n: nat)
    ensures n < Pow10(Digits(n)) && (Digits(n) > 1 ==> Pow10(Digits(n) - 1) <= n)
  {
    if n >= 10 { DigitsBound(n / 10); }
  }

  lemma {:induction false} PowersGrow(j: nat, k: nat)
    ensures j <= k ==> Pow10(j) <= Pow10(k)
    decreases k
  {
    if j < k { PowersGrow(j, k - 1); }
  }

  lemma {:induction false} DigitsGrow(a: nat, b: nat)
    requires a <= b
    ensures Digits(a) <= Digits(b)
  {
    DigitsBound(a);
    DigitsBound(b);
    var below: nat := Digits(a) - 1;
    PowersGrow(Digits(b), below);
  }

  lemma NextPower(m: nat)
    requires m >= 1
    ensures Pow10(m) + m <= Pow10(m + 1)
  {
  }

  /** Below the next power of ten plus its own digits, a number gains one digit at most. */
  lemma OneMoreDigit(a: nat, b: nat)
    requires a <= b < Pow10(Digits(a)) + Digits(a)
    ensures Digits(b) == if b >= Pow10(Digits(a)) then Digits(a) + 1 else Digits(a)
  {
    hide Digits, Pow10;
    var m := Digits(a);
    var below: nat := Digits(b) - 1;
    DigitsGrow(a, b);
    DigitsBound(b);
    NextPower(m);
    PowersGrow(m + 1, below);
    PowersGrow(m, below);
    PowersGrow(Digits(b), m);
  }

  /** From a number that does not exceed its successor, the successors settle after three more encodings. */
  lemma Settles(k: nat, x: nat)
    requires x <= k + Digits(x)
    ensures var y := k + Digits(x); var z := k + Digits(y); var w := k + Digits(z);
            k + Digits(w) == w
  {
    var y := k + Digits(x);
    var z := k + Digits(y);
    var w := k + Digits(z);
    DigitsGrow(x, y);
    DigitsBound(y);
    OneMoreDigit(y, z);
    hide Digits, Pow10;
    if z >= Pow10(Digits(y)) { OneMoreDigit(y, w); }
  }

  // ----- the report

  datatype Failure = CheckpointBudget | ByteAccounting | EvidenceBudget | NotStored

  /** The value that the loop reaches from a counter after n encodings. */
  function Counter(bare: nat, field: nat, prior: nat, evidence: Option<nat>, n: nat): Option<nat>
    decreases n
  {
    if n == 0 then evidence
    else Some(prior + Encoded(bare, field, Counter(bare, field, prior, evidence, n - 1)))
  }

  /** The counter is its own total after four encodings at the latest: the fifth one finds it unchanged. */
  lemma FixedPointByFive(bare: nat, field: nat, evidence: Option<nat>)
    ensures var prior := if evidence.Some? then evidence.value else 0;
            Counter(bare, field, prior, evidence, 5) == Counter(bare, field, prior, evidence, 4)
  {
    hide Digits, Counter;
    var prior := if evidence.Some? then evidence.value else 0;
    var k := prior + bare + field;
    FirstCounter(bare, field, prior, evidence);
    var c1 := Counter(bare, field, prior, evidence, 1).value;
    NextCounter(bare, field, prior, evidence, 1);
    NextCounter(bare, field, prior, evidence, 2);
    NextCounter(bare, field, prior, evidence, 3);
    NextCounter(bare, field, prior, evidence, 4);
    if evidence.Some? {
      Settles(k, prior);
    } else {
      Settles(k, c1);
    }
  }

  lemma FirstCounter(bare: nat, field: nat, prior: nat, evidence: Option<nat>)
    ensures Counter(bare, field, prior, evidence, 1)
            == Some(prior + if evidence.Some? then bare + field + Digits(evidence.value) else bare)
  {
    hide Digits;
  }

  lemma NextCounter(bare: nat, field: nat, prior: nat, evidence: Option<nat>, n: nat)
    requires n >= 1
    ensures Counter(bare, field, prior, evidence, n).Some? && Counter(bare, field, prior, evidence, n + 1).Some?
    ensures Counter(bare, field, prior, evidence, n + 1).value
            == prior + bare + field + Digits(Counter(bare, field, prior, evidence, n).value)
  {
    hide Digits;
  }

  /** Four encodings are not always enough for the first checkpoint, which has no counter yet. */
  lemma FourMayFail()
    ensures Counter(5, 93, 0, None, 4) != Counter(5, 93, 0, None, 3)
  {
    assert Counter(5, 93, 0, None, 1) == Some(5);
    assert Counter(5, 93, 0, None, 2) == Some(99);
    assert Counter(5, 93, 0, None, 3) == Some(100);
  }

  class SoakReport {
    var checkpoint: nat
    /** The evidence_bytes field of the report, absent before the first checkpoint. */
    var evidence: Option<nat>
    /** The lengths of the checkpoint files that were stored. */
    ghost var files: seq<nat>

    constructor ()
      ensures Sound() && files == [] && checkpoint == 0
    {
      checkpoint, evidence, files := 0, None, [];
    }

    /** The counter is the exact sum of the stored files. */
    ghost predicate Sound()
      reads this
    {
      checkpoint == |files| && match evidence case None => files == [] case Some(n) => n == Sum(files)
    }

    /** The self-counting loop: at most five encodings, and the last one has the counter that it holds. */
    method Settle(bare: nat, field: nat) returns (settled: bool, length: nat)
      modifies `evidence
      ensures settled && evidence == Some((if old(evidence).Some? then old(evidence).value else 0) + length)
      ensures length == Encoded(bare, field, evidence)
    {
      hide Encoded;
      var prior := if evidence.Some? then evidence.value else 0;
      length, settled := 0, false;
      var i := 0;
      while i < ENCODINGS && !settled
        invariant i <= ENCODINGS
        invariant !settled ==> evidence == Counter(bare, field, prior, old(evidence), i)
        invariant !settled && i == ENCODINGS ==>
                    Counter(bare, field, prior, old(evidence), 5) != Counter(bare, field, prior, old(evidence), 4)
        invariant settled ==> evidence == Some(prior + length) && length == Encoded(bare, field, evidence)
        decreases ENCODINGS - i, !settled
      {
        length := Encoded(bare, field, evidence);
        var total := prior + length;
        assert Counter(bare, field, prior, old(evidence), i + 1) == Some(total);
        if evidence == Some(total) {
          settled := true;
        } else {
          evidence := Some(total);
          i := i + 1;
        }
      }
      FixedPointByFive(bare, field, old(evidence));
    }

    /** bare and field are the lengths of the report's other fields and of the counter's own key; stored tells whether
        the file system kept the file. */
    method WriteReport(bare: nat, field: nat, stored: bool) returns (failure: Option<Failure>)
      requires Sound()
      modifies this
      ensures failure.None? ==>
                && Sound() && |files| == |old(files)| + 1 && files[..|old(files)|] == old(files)
                && evidence.Some? && files[|old(files)|] == Encoded(bare, field, evidence)
                && checkpoint == old(checkpoint) + 1 <= CHECKPOINT_BUDGET && evidence.value <= EVIDENCE_BUDGET
      ensures failure.Some? ==> files == old(files) && checkpoint == old(checkpoint)
      ensures failure == Some(CheckpointBudget) <==> old(checkpoint) >= CHECKPOINT_BUDGET
      ensures failure == Some(NotStored) ==> !stored
      ensures failure == Some(EvidenceBudget) ==> evidence.Some? && evidence.value > EVIDENCE_BUDGET
      ensures failure != Some(ByteAccounting)
    {
      hide Encoded, Sum, Digits;
      if checkpoint >= CHECKPOINT_BUDGET { return Some(CheckpointBudget); }
      var settled, length := Settle(bare, field);
      if !settled { return Some(ByteAccounting); }
      if evidence.value > EVIDENCE_BUDGET { return Some(EvidenceBudget); }
      if !stored { return Some(NotStored); }
      SumAppend(files, length);
      files := files + [length];
      checkpoint := checkpoint + 1;
      failure := None;
    }

    /** After n checkpoints in a row the recorded total is the exact sum of the n file lengths. */
    method WriteAll(reports: seq<(nat, nat)>) returns (failure: Option<Failure>)
      requires Sound() && files == [] && checkpoint == 0
      modifies this
      ensures failure.None? ==> |files| == |reports| == checkpoint <= CHECKPOINT_BUDGET
      ensures failure.None? && reports != [] ==> evidence == Some(Sum(files)) && Sum(files) <= EVIDENCE_BUDGET
    {
      for i := 0 to |reports|
        invariant Sound() && |files| == i == checkpoint && i <= CHECKPOINT_BUDGET
        invariant i > 0 ==> evidence.Some? && evidence.value <= EVIDENCE_BUDGET
      {
        failure := WriteReport(reports[i].0, reports[i].1, true);
        if failure.Some? { return; }
      }
      failure := None;
    }
  }
}

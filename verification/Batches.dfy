/** The depth of the pipeline: a batch of requests per write, and the writes a second that
    make up the rate. */
module Batches {
  import opened Options
  import opened Bytes
  import opened Requests
  import opened Sums

  function Repeat<T>(buf: seq<T>, n: nat): seq<T> {
    if n == 0 then [] else buf + Repeat(buf, n - 1)
  }

  lemma {:induction false} RepeatLength<T>(buf: seq<T>, n: nat)
    ensures |Repeat(buf, n)| == n * |buf|
  {
    if n > 0 {
      RepeatLength(buf, n - 1);
      Distribute(|buf|, n - 1, 1);
    }
  }

  /** batch writes of tick a second send exactly rate, in writes that fit. */
  ghost predicate ExactRate(buf: seq<byte>, rate: nat, buffer: seq<byte>, batch: nat, tick: nat) {
    && batch >= 1 && batch * tick == rate && (rate >= 1 ==> tick >= 1)
    && buffer == Repeat(buf, batch) && |buffer| == batch * |buf|
  }

  /** Of all batches that send the rate in whole writes, the largest that stays within maxLen;
      a request too long for it goes alone. */
  method BatchBuffers(buf: seq<byte>, rate: nat, maxLen: nat) returns (buffer: seq<byte>, batch: nat, tick: nat)
    requires |buf| > 0
    ensures ExactRate(buf, rate, buffer, batch, tick)
    ensures batch == 1 || batch * |buf| <= maxLen
    ensures forall d :: d >= 1 && rate % d == 0 && (d == 1 || d * |buf| <= maxLen) ==> d <= batch
  {
    batch := maxLen / |buf|;
    if batch < 1 { batch := 1; }
    forall d | d >= 1 && (d == 1 || d * |buf| <= maxLen)
      ensures d <= batch
    {
      Fits(|buf|, maxLen, d);
    }
    while batch > 1 && rate % batch != 0
      invariant batch == 1 || 1 <= batch <= maxLen / |buf|
      invariant forall d :: d >= 1 && rate % d == 0 && (d == 1 || d * |buf| <= maxLen) ==> d <= batch
    {
      batch := batch - 1;
    }
    buffer, tick := Repeat(buf, batch), rate / batch;
    RepeatLength(buf, batch);
    Fits(|buf|, maxLen, batch);
    Divides(rate, batch);
  }

  lemma Fits(len: nat, maxLen: nat, batch: nat)
    requires len > 0
    ensures batch * len <= maxLen <==> batch <= maxLen / len
  {
    assert maxLen == maxLen / len * len + maxLen % len;
    if batch <= maxLen / len {
      Monotone(batch, maxLen / len, len);
    } else {
      Monotone(maxLen / len + 1, batch, len);
      Distribute(len, maxLen / len, 1);
    }
  }

  lemma Divides(rate: nat, batch: nat)
    requires batch >= 1 && rate % batch == 0
    ensures batch * (rate / batch) == rate && (rate >= 1 ==> rate / batch >= 1)
  {
  }

  datatype Refusal = Accepted | Negative | NotADivisor

  /** Depth 0 leaves the choice to BatchBuffers; any other is refused unless whole batches
      make up the rate. */
  function ValidatePipeline(pipeline: int, rate: nat): Refusal {
    if pipeline < 0 then Negative
    else if pipeline > 0 && rate % pipeline != 0 then NotADivisor
    else Accepted
  }

  /** What a depth of the caller's choosing gives. */
  function PipelineBuffers(buf: seq<byte>, rate: nat, pipeline: nat): (seq<byte>, nat, nat)
    requires pipeline > 0
  {
    (Repeat(buf, pipeline), pipeline, rate / pipeline)
  }

  /** A depth of the caller's is accepted exactly when so many requests a write, a whole number
      of writes a second, send the rate, and then those are its buffers; 0 is not one, and a
      depth below it is refused as such. */
  lemma AcceptedIffExact(buf: seq<byte>, rate: nat, pipeline: int)
    ensures ValidatePipeline(pipeline, rate).Negative? <==> pipeline < 0
    ensures ValidatePipeline(pipeline, rate).Accepted? <==>
      pipeline == 0 || (pipeline > 0 && exists tick: nat :: pipeline * tick == rate)
    ensures pipeline > 0 && ValidatePipeline(pipeline, rate).Accepted? ==>
      var (buffer, batch, tick) := PipelineBuffers(buf, rate, pipeline);
      ExactRate(buf, rate, buffer, batch, tick) && batch == pipeline
  {
    if pipeline > 0 {
      RepeatLength(buf, pipeline);
      if rate % pipeline == 0 {
        Divides(rate, pipeline);
        assert pipeline * (rate / pipeline) == rate;
      }
      forall tick: nat | pipeline * tick == rate
        ensures rate % pipeline == 0
      {
        DivModIs(rate, tick, pipeline, 0);
      }
    }
  }

  lemma {:induction false} BatchIsRequests(r: Request, batch: nat)
    ensures EncodeAll(Repeat([r], batch)) == Repeat(Encode(r), batch)
    ensures AllReceivedAs(Repeat([r], batch)) == Repeat([ReceivedAs(r, false)], batch)
    ensures |Repeat([r], batch)| == batch
    ensures forall i :: 0 <= i < batch ==> Repeat([r], batch)[i] == r
  {
    if batch > 0 {
      assert Repeat([r], batch)[1..] == Repeat([r], batch - 1);
      BatchIsRequests(r, batch - 1);
    }
  }

  /** A batch is that many requests to the server, each with its own body. */
  lemma BatchDecodes(r: Request, batch: nat, t: seq<byte>)
    requires Plain(r) && |Payload(r)| < INT_LIMIT
    ensures DecodeAll(Repeat(Encode(r), batch) + t, batch) == Some(Parse(Repeat([ReceivedAs(r, false)], batch), t))
  {
    BatchIsRequests(r, batch);
    PipelinedBack(Repeat([r], batch), t);
  }
}

/** The batcher: it cuts the request list into batches through one reused buffer. */
module Batching {

  /** A request is known by the key of its position. */
  datatype Req = Req(id: string)

  /** The list cut every `limit` requests. */
  function Batches(reqs: seq<Req>, limit: nat): seq<seq<Req>>
    requires 0 < limit
    decreases |reqs|
  {
    if reqs == [] then []
    else if |reqs| <= limit then [reqs]
    else [reqs[..limit]] + Batches(reqs[limit..], limit)
  }

  function Flatten(batches: seq<seq<Req>>): seq<Req>
  {
    if batches == [] then [] else batches[0] + Flatten(batches[1..])
  }

  /** No batch is empty, and all but the last are full. */
  ghost predicate FullButLast(batches: seq<seq<Req>>, limit: nat)
  {
    && (forall k :: 0 <= k < |batches| ==> 0 < |batches[k]| <= limit)
    && (forall k :: 0 <= k < |batches| - 1 ==> |batches[k]| == limit)
  }

  /** The batches are the original list in order, none is empty, and all but the last are full. */
  lemma {:induction false} BatchesPartition(reqs: seq<Req>, limit: nat)
    requires 0 < limit
    ensures Flatten(Batches(reqs, limit)) == reqs
    ensures FullButLast(Batches(reqs, limit), limit)
    decreases |reqs|
  {
    hide Batches, Flatten, FullButLast;
    Unfold(reqs, limit);
    if |reqs| <= limit {
      OneBatch(reqs, limit);
    } else {
      BatchesPartition(reqs[limit..], limit);
      FirstBatch(reqs[..limit], Batches(reqs[limit..], limit), limit);
      assert reqs[..limit] + reqs[limit..] == reqs;
    }
  }

  lemma Unfold(reqs: seq<Req>, limit: nat)
    requires 0 < limit
    ensures reqs == [] ==> Batches(reqs, limit) == []
    ensures 0 < |reqs| <= limit ==> Batches(reqs, limit) == [reqs]
    ensures limit < |reqs| ==>
              && Batches(reqs, limit) == [reqs[..limit]] + Batches(reqs[limit..], limit)
              && Batches(reqs[limit..], limit) != []
  {
  }

  lemma OneBatch(reqs: seq<Req>, limit: nat)
    requires |reqs| <= limit
    ensures Flatten([]) == [] && FullButLast([], limit)
    ensures reqs != [] ==> Flatten([reqs]) == reqs && FullButLast([reqs], limit)
  {
    assert [reqs][1..] == [];
  }

  lemma FirstBatch(first: seq<Req>, rest: seq<seq<Req>>, limit: nat)
    requires 0 < |first| == limit && rest != [] && FullButLast(rest, limit)
    ensures FullButLast([first] + rest, limit)
    ensures Flatten([first] + rest) == first + Flatten(rest)
  {
    assert ([first] + rest)[1..] == rest;
  }

  /** `n` requests fill a whole number of batches. */
  ghost predicate Whole(n: nat, limit: nat)
    requires 0 < limit
  {
    n == 0 || (limit <= n && Whole(n - limit, limit))
  }

  /** Cutting the list after a whole number of full batches cuts the batch list. */
  lemma {:induction false} BatchesAppend(full: seq<Req>, rest: seq<Req>, limit: nat)
    requires 0 < limit && Whole(|full|, limit)
    ensures Batches(full + rest, limit) == Batches(full, limit) + Batches(rest, limit)
    decreases |full|
  {
    if full == [] {
      assert full + rest == rest;
    } else {
      var tail := full[limit..];
      assert (full + rest)[..limit] == full[..limit] && (full + rest)[limit..] == tail + rest;
      BatchesAppend(tail, rest, limit);
      if tail == [] {
        assert full[..limit] == full;
        if rest == [] {
          assert full + rest == full;
        }
      }
    }
  }

  /** One more full batch, or a last partial one, adds itself to the cut. */
  lemma NextBatch(full: seq<Req>, batch: seq<Req>, limit: nat)
    requires 0 < |batch| <= limit && Whole(|full|, limit)
    ensures Batches(full + batch, limit) == Batches(full, limit) + [batch]
    ensures |batch| == limit ==> Whole(|full + batch|, limit)
  {
    BatchesAppend(full, batch, limit);
  }

  /** Arrays that hold the given batches. */
  ghost predicate Hold(sent: seq<array<Req>>, batches: seq<seq<Req>>)
    reads sent
  {
    |sent| == |batches| && forall k :: 0 <= k < |sent| ==> sent[k][..] == batches[k]
  }

  /**
    The batcher loop. Every batch is copied out of the buffer before it is sent, so the arrays sent
    still hold their batches when the buffer has been reused.
   */
  method EmitBatches(reqs: seq<Req>, batchLimit: nat) returns (sent: seq<array<Req>>)
    requires 0 < batchLimit
    ensures fresh(sent)
    ensures Hold(sent, Batches(reqs, batchLimit))
  {
    var b := new Req[batchLimit];
    var x := 0;
    sent := [];
    ghost var full := [];
    assert Hold(sent, Batches(full, batchLimit)) && Whole(0, batchLimit);
    hide Batches, Whole, Hold;
    for i := 0 to |reqs|
      invariant x < batchLimit && full + b[..x] == reqs[..i] && Whole(|full|, batchLimit)
      invariant fresh(sent) && b !in sent
      invariant Hold(sent, Batches(full, batchLimit))
    {
      ghost var part := b[..x];
      b[x] := reqs[i];
      x := x + 1;
      assert b[..x] == part + [reqs[i]];
      assert full + (part + [reqs[i]]) == reqs[..i + 1];
      if x != batchLimit {
        continue;
      }
      NextBatch(full, b[..x], batchLimit);
      sent := Send(sent, b, batchLimit, Batches(full, batchLimit));
      x := 0;
      full := reqs[..i + 1];
    }
    assert reqs[..|reqs|] == reqs;
    if x > 0 {
      NextBatch(full, b[..x], batchLimit);
      sent := Send(sent, b, x, Batches(full, batchLimit));
    }
  }

  /** Copies the first `n` requests out of the buffer and sends the copy. */
  method Send(sent: seq<array<Req>>, b: array<Req>, n: nat, ghost batches: seq<seq<Req>>) returns (more: seq<array<Req>>)
    requires n <= b.Length && Hold(sent, batches)
    ensures Hold(more, batches + [b[..n]])
    ensures exists c :: fresh(c) && more == sent + [c]
  {
    var c := new Req[n];
    for i := 0 to n
      invariant c[..i] == b[..i]
    {
      c[i] := b[i];
    }
    more := sent + [c];
  }
}

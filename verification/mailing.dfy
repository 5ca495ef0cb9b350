/** send_mail: the main group's (email, name) pairs are cut into
    consecutive batches of at most 50, and each batch becomes one send whose
    recipients are the batch's addresses. */
module Mailing {
  import opened Records

  const BATCH_SIZE: nat := 50

  /** `[(user.email, user.name) for user in response.mainList]`. */
  function SelectedEmails(response: RandomizerResult): (r: seq<(string, string)>)
    ensures |r| == |response.mainList|
    ensures forall i :: 0 <= i < |r| ==>
      r[i] == (response.mainList[i].email, response.mainList[i].name)
  {
    var main := response.mainList;
    seq(|main|, i requires 0 <= i < |main| => (main[i].email, main[i].name))
  }

  function Min(a: int, b: int): int
  {
    if a < b then a else b
  }

  /** `[xs[i:i + 50] for i in range(0, len(xs), 50)]`. */
  function Batches<T>(xs: seq<T>): seq<seq<T>>
  {
    var count := (|xs| + BATCH_SIZE - 1) / BATCH_SIZE;
    seq(count, k requires 0 <= k < count => xs[BATCH_SIZE * k .. Min(BATCH_SIZE * k + BATCH_SIZE, |xs|)])
  }

  /** The concatenation of a list of lists. */
  function Flatten<T>(bs: seq<seq<T>>): seq<T>
  {
    if bs == [] then [] else bs[0] + Flatten(bs[1..])
  }

  /** Cutting off the first batch leaves the batches of the rest. */
  lemma BatchesUnfold<T>(xs: seq<T>)
    requires |xs| > BATCH_SIZE
    ensures Batches(xs) == [xs[..BATCH_SIZE]] + Batches(xs[BATCH_SIZE..])
  {
    var rest := xs[BATCH_SIZE..];
    var a, b := Batches(xs), Batches(rest);
    assert |a| == |b| + 1;
    forall k | 0 <= k < |b|
      ensures a[k + 1] == b[k]
    {
      var lo := BATCH_SIZE * k;
      var hi := Min(lo + BATCH_SIZE, |rest|);
      assert 0 <= lo <= hi <= |rest|;
      assert a[k + 1] == xs[lo + BATCH_SIZE .. hi + BATCH_SIZE];
      assert b[k] == rest[lo..hi];
      forall j | 0 <= j < hi - lo
        ensures rest[lo..hi][j] == xs[lo + BATCH_SIZE .. hi + BATCH_SIZE][j]
      {
      }
    }
  }

  /** Sending the batches in order sends every selected address exactly
      once, in the original order. */
  lemma {:induction false} BatchesConcatenate<T>(xs: seq<T>)
    ensures Flatten(Batches(xs)) == xs
    decreases |xs|
  {
    if |xs| == 0 {
      assert Batches(xs) == [];
    } else if |xs| <= BATCH_SIZE {
      assert xs[0..|xs|] == xs;
      assert Batches(xs) == [xs];
      assert Flatten([xs]) == xs + Flatten([xs][1..]);
    } else {
      BatchesUnfold(xs);
      BatchesConcatenate(xs[BATCH_SIZE..]);
      var bs := Batches(xs);
      assert bs[1..] == Batches(xs[BATCH_SIZE..]);
      assert xs == xs[..BATCH_SIZE] + xs[BATCH_SIZE..];
    }
  }

  /** ceil(n / 50) batches; every batch but the last holds exactly 50, the
      last between 1 and 50. */
  lemma BatchSizes<T>(xs: seq<T>)
    ensures var bs := Batches(xs);
      && (|xs| == 0 ==> bs == [])
      && (|xs| > 0 ==> (|bs| - 1) * BATCH_SIZE < |xs| <= |bs| * BATCH_SIZE)
      && (forall k :: 0 <= k < |bs| - 1 ==> |bs[k]| == BATCH_SIZE)
      && (|bs| > 0 ==> 1 <= |bs[|bs| - 1]| <= BATCH_SIZE)
  {
  }

  /** The recipients of one send_emails call: the first component of each
      pair. */
  function Recipients(batch: seq<(string, string)>): (to: seq<string>)
    ensures |to| == |batch|
    ensures forall i :: 0 <= i < |batch| ==> to[i] == batch[i].0
  {
    if batch == [] then [] else [batch[0].0] + Recipients(batch[1..])
  }

  /** The `to` lists of the send_emails calls send_mail makes, in order. */
  function SendPlan(response: RandomizerResult): seq<seq<string>>
  {
    var bs := Batches(SelectedEmails(response));
    seq(|bs|, k requires 0 <= k < |bs| => Recipients(bs[k]))
  }

  /** send_mail: one send_emails call per batch, in batch order; the model
      returns the `to` list of each call instead of performing it. */
  method SendMail(response: RandomizerResult) returns (sent: seq<seq<string>>)
    ensures sent == SendPlan(response)
  {
    var selectedEmails := SelectedEmails(response);
    var batches := Batches(selectedEmails);
    sent := [];
    for i := 0 to |batches|
      invariant sent == seq(i, k requires 0 <= k < i => Recipients(batches[k]))
    {
      sent := sent + [Recipients(batches[i])];
    }
  }

  lemma RecipientsAppend(a: seq<(string, string)>, b: seq<(string, string)>)
    ensures Recipients(a + b) == Recipients(a) + Recipients(b)
  {
    var l, r := Recipients(a + b), Recipients(a) + Recipients(b);
    forall i | 0 <= i < |l|
      ensures l[i] == r[i]
    {
      if i < |a| {
        assert (a + b)[i] == a[i];
      } else {
        assert (a + b)[i] == b[i - |a|];
      }
    }
  }

  lemma {:induction false} RecipientsDistribute(bs: seq<seq<(string, string)>>)
    ensures Recipients(Flatten(bs)) == Flatten(seq(|bs|, k requires 0 <= k < |bs| => Recipients(bs[k])))
  {
    if bs != [] {
      RecipientsDistribute(bs[1..]);
      var tail := seq(|bs| - 1, k requires 0 <= k < |bs| - 1 => Recipients(bs[1..][k]));
      var whole := seq(|bs|, k requires 0 <= k < |bs| => Recipients(bs[k]));
      assert whole[1..] == tail;
      assert Flatten(whole) == whole[0] + Flatten(tail);
      RecipientsAppend(bs[0], Flatten(bs[1..]));
    }
  }

  /** Every main-group member is mailed exactly once, in main-list order;
      no standby member is mailed. */
  lemma SendPlanMailsMainGroup(response: RandomizerResult)
    ensures Flatten(SendPlan(response)) == seq(|response.mainList|, i requires 0 <= i < |response.mainList| => response.mainList[i].email)
  {
    var selected := SelectedEmails(response);
    BatchesConcatenate(selected);
    RecipientsDistribute(Batches(selected));
  }
}

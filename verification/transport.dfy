/**
  The dispatch step of the contact endpoint (server.js, lines 164-165 and
  174-180): the mails are handed to the transport one after another, each
  call awaited, inside a single `try`. The first rejected call throws, so
  nothing after it is attempted, and the handler sees one failure whatever
  was delivered before it.

  The transport itself is not modelled; it is represented by a script of
  the answers it gives to successive calls.
 */
module Transport {

  datatype Delivery = Delivered | Failed

  /** The transport's answer to its `k`-th call. A script that has run out
      answers `Failed`: past the end nothing is known to be delivered. */
  function Answer(script: seq<Delivery>, k: nat): Delivery {
    if k < |script| then script[k] else Failed
  }

  /** The answers to the calls after the first one. */
  function Later(script: seq<Delivery>): (rest: seq<Delivery>)
    ensures forall k: nat :: Answer(rest, k) == Answer(script, k + 1)
  {
    if |script| == 0 then [] else script[1..]
  }

  /** What a run of awaited sends did: the messages handed to the transport,
      in order, and whether every one of them was delivered. */
  datatype Dispatched<M> = Dispatched(attempted: seq<M>, allDelivered: bool)

  /** Sends `mails` in order, stopping at the first call that fails. The
      attempts are a prefix of `mails`; every attempt but the last was
      delivered; the run succeeds exactly when all mails were sent and all
      were delivered, and otherwise its last attempt is the one that failed. */
  function SendInOrder<M>(mails: seq<M>, script: seq<Delivery>): (d: Dispatched<M>)
    ensures |d.attempted| <= |mails| && d.attempted == mails[..|d.attempted|]
    ensures forall k: nat :: k + 1 < |d.attempted| ==> Answer(script, k) == Delivered
    ensures d.allDelivered <==>
              |d.attempted| == |mails| && forall k: nat :: k < |mails| ==> Answer(script, k) == Delivered
    ensures !d.allDelivered ==> |d.attempted| > 0 && Answer(script, |d.attempted| - 1) == Failed
    decreases |mails|
  {
    if |mails| == 0 then
      Dispatched([], true)
    else if Answer(script, 0) == Failed then
      Dispatched([mails[0]], false)
    else
      var later := Later(script);
      var rest := SendInOrder(mails[1..], later);
      assert forall k: nat :: 0 < k ==> Answer(script, k) == Answer(later, k - 1);
      assert (forall k: nat :: k < |mails| ==> Answer(script, k) == Delivered)
         <==> (forall k: nat :: k < |mails| - 1 ==> Answer(later, k) == Delivered);
      assert forall k: nat :: k < |mails| - 1 ==> mails[1..][k] == mails[k + 1];
      Dispatched([mails[0]] + rest.attempted, rest.allDelivered)
  }
}

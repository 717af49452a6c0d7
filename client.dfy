/**
  The browser side: the click handler and wc_pdu_handle_ajax (product-dimension-update.php:88-122),
  a loop that asks for batch 1, 2, 3, ... until a reply says done or a request fails. The
  asynchronous round trips become a loop in which each request is answered before the next is
  sent; what becomes of each request is given as a list of fates.
 */
module Client {
  import opened Wrappers
  import opened Products
  import opened Batch

  /**
    What becomes of the request for one batch. A request that fails records how many products of
    its page the handler had got through before it stopped, counting those the gate skipped as
    well as those it saved: 0 when it never ran, the whole page when it ran to its end and only
    the reply went missing.
   */
  datatype Delivery =
    | Delivered          // the handler replies and the success reply reaches the success callback
    | Refused(saved: nat) // a response reaches the success callback but is not a success reply
    | Lost(saved: nat)    // the request ends in an error status or a transport failure; there is no error callback

  /**
    The fate of the request for batch b when the fates of the first requests are listed in
    `network` (batch 1 first); every later request is delivered.
   */
  function Fate(network: seq<Delivery>, b: nat): Delivery {
    if 1 <= b <= |network| then network[b - 1] else Delivered
  }

  /** What the result line shows once the button is clicked (line 91). */
  const StartingText: string := "Starting..."

  /** What the result line shows after a reply that is not a success (line 118). */
  const ErrorText: string := "An error occurred."

  /** How many products the batches 1..k fetch from a catalog of n products. */
  function Fetched(k: nat, n: nat): (f: nat)
    ensures f <= n
    ensures f == PageStart(k + 1, n)
    ensures k >= 1 ==> f == PageEnd(k, n)
  {
    Min(BatchSize * k, n)
  }

  /**
    Where a click stops: the batch of its last request, the batch whose reply's progress the
    progress line then shows (0 when no reply was delivered), and what the result line shows.
   */
  datatype Outcome = Outcome(batch: nat, shown: nat, result: string)

  /** The progress line once the reply to batch `shown` is the last one delivered (line 110); empty before any. */
  function ProgressLine(shown: nat, n: nat, total: nat): string {
    if shown == 0 then "" else Reply(shown, PageSize(shown, n), total).progress
  }

  /**
    How the loop of lines 101-122 ends once it is about to send batch b while the progress line
    shows the reply to batch `shown`: a lost request leaves the result line as it was, a refused
    one shows the error text, and a delivered reply either ends the run with its message or is
    shown and followed by a request for batch b + 1.
   */
  function Poll(network: seq<Delivery>, n: nat, total: nat, b: nat, shown: nat): (o: Outcome)
    requires b >= 1 && BatchSize * (b - 1) < total + BatchSize
    decreases total + BatchSize - BatchSize * (b - 1)
  {
    match Fate(network, b)
    case Lost(_) => Outcome(b, shown, StartingText)
    case Refused(_) => Outcome(b, shown, ErrorText)
    case Delivered =>
      // the reply is Reply(b, PageSize(b, n), total): done exactly when DoneAt holds, and then
      // carrying the completion message
      if DoneAt(b, n, total) then Outcome(b, b, CompletionMessage)
      else Poll(network, n, total, b + 1, b)
  }

  /** A click (lines 88-98): the progress line is cleared, the result line says "Starting...", batch 1 goes out. */
  function Run(network: seq<Delivery>, n: nat, total: nat): Outcome {
    Poll(network, n, total, 1, 0)
  }

  /**
    Where a run from batch b stops: every batch it sends before the last was delivered and not
    done; a delivered last batch is done and shows the completion message and its own progress,
    a refused one the error text, a lost one "Starting..."; after an undelivered last request the
    progress line still shows the previous batch (or what it showed when batch b went out).
   */
  lemma {:induction false} PollStops(network: seq<Delivery>, n: nat, total: nat, b: nat, shown: nat)
    requires b >= 1 && BatchSize * (b - 1) < total + BatchSize
    ensures var o := Poll(network, n, total, b, shown);
            o.batch >= b &&
            (forall k :: b <= k < o.batch ==> Fate(network, k).Delivered? && !DoneAt(k, n, total)) &&
            (Fate(network, o.batch).Delivered? ==>
               DoneAt(o.batch, n, total) && o.result == CompletionMessage && o.shown == o.batch) &&
            (Fate(network, o.batch).Refused? ==> o.result == ErrorText) &&
            (Fate(network, o.batch).Lost? ==> o.result == StartingText) &&
            (!Fate(network, o.batch).Delivered? ==> o.shown == if o.batch == b then shown else o.batch - 1)
    decreases total + BatchSize - BatchSize * (b - 1)
  {
    var o := Poll(network, n, total, b, shown);
    match Fate(network, b)
    case Lost(_) =>
      assert o == Outcome(b, shown, StartingText);
    case Refused(_) =>
      assert o == Outcome(b, shown, ErrorText);
    case Delivered =>
      if DoneAt(b, n, total) {
        assert o == Outcome(b, b, CompletionMessage);
      } else {
        PollStops(network, n, total, b + 1, b);
        assert o == Poll(network, n, total, b + 1, b);
      }
  }

  /** A whole click, from batch 1 with an empty progress line. */
  lemma RunEnds(network: seq<Delivery>, n: nat, total: nat)
    ensures var o := Run(network, n, total);
            o.batch >= 1 &&
            (forall k :: 1 <= k < o.batch ==> Fate(network, k).Delivered? && !DoneAt(k, n, total)) &&
            (Fate(network, o.batch).Delivered? ==>
               DoneAt(o.batch, n, total) && o.result == CompletionMessage && o.shown == o.batch) &&
            (Fate(network, o.batch).Refused? ==> o.result == ErrorText) &&
            (Fate(network, o.batch).Lost? ==> o.result == StartingText) &&
            (!Fate(network, o.batch).Delivered? ==> o.shown == o.batch - 1)
  {
    PollStops(network, n, total, 1, 0);
  }

  /**
    One click of the button and the loop it starts: it ends as Run says. The products of the
    batches whose replies were delivered have been through the update gate, and so have the
    products a failed last request had saved before it stopped; no other product has changed.
   */
  method RunUpdate(catalog: array<Product>, total: nat, network: seq<Delivery>)
    returns (batch: nat, progress: string, result: string)
    modifies catalog
    ensures var o := Run(network, catalog.Length, total);
            batch == o.batch && result == o.result && progress == ProgressLine(o.shown, catalog.Length, total)
    ensures batch >= 1
    ensures catalog[..] == Settled(old(catalog[..]), network, batch)
  {
    var n := catalog.Length;
    ghost var orig := catalog[..];
    ghost var shown: nat := 0;
    batch := 1;
    progress, result := "", StartingText;
    while true
      invariant batch >= 1 && BatchSize * (batch - 1) < total + BatchSize
      invariant Poll(network, n, total, batch, shown) == Run(network, n, total)
      invariant progress == ProgressLine(shown, n, total)
      invariant result == StartingText
      invariant catalog[..] == UpdateRange(orig, 0, Fetched(batch - 1, n))
      decreases total + BatchSize - BatchSize * (batch - 1)
    {
      if !Fate(network, batch).Delivered? {
        break;
      }
      var reply := DeliverBatch(catalog, network, batch, total, orig);
      progress, shown := reply.progress, batch;
      if reply.done {
        result := reply.message.value;
        break;
      }
      batch := batch + 1;
    }
    if !Fate(network, batch).Delivered? {
      // the request failed: a refused one shows the error text, a lost one leaves "Starting..."
      FailBatch(catalog, network, batch, orig);
      if Fate(network, batch).Refused? {
        result := ErrorText;
      }
    }
  }

  /**
    The catalog once a click has ended with the request for batch b: the pages of the batches
    before b updated, and of page b everything when its reply was delivered, or only what the
    handler had saved when the request failed.
   */
  function Settled(orig: seq<Product>, network: seq<Delivery>, b: nat): (s: seq<Product>)
    requires b >= 1
    ensures |s| == |orig|
    ensures Fate(network, b).Delivered? ==> s == UpdateRange(orig, 0, Fetched(b, |orig|))
    ensures !Fate(network, b).Delivered? ==>
              s == UpdateRange(orig, 0, Fetched(b - 1, |orig|) + SavedCount(b, |orig|, Fate(network, b).saved))
  {
    var n := |orig|;
    if Fate(network, b).Delivered? then UpdateRange(orig, 0, Fetched(b, n))
    else UpdateRange(orig, 0, Fetched(b - 1, n) + SavedCount(b, n, Fate(network, b).saved))
  }

  /** The request for batch b is answered; before it the batches 1..b-1 had been. */
  method DeliverBatch(catalog: array<Product>, network: seq<Delivery>, b: nat, total: nat, ghost orig: seq<Product>)
    returns (reply: BatchReply)
    requires b >= 1 && |orig| == catalog.Length && Fate(network, b).Delivered?
    requires catalog[..] == UpdateRange(orig, 0, Fetched(b - 1, catalog.Length))
    modifies catalog
    ensures catalog[..] == UpdateRange(orig, 0, Fetched(b, catalog.Length))
    ensures catalog[..] == Settled(orig, network, b)
    ensures reply == Reply(b, PageSize(b, catalog.Length), total)
  {
    reply := ProcessBatch(catalog, b, total);
    UpdateRangeConsecutive(orig, 0, Fetched(b - 1, catalog.Length), Fetched(b, catalog.Length));
  }

  /** The request for batch b fails once its handler has got through the products its fate records. */
  method FailBatch(catalog: array<Product>, network: seq<Delivery>, b: nat, ghost orig: seq<Product>)
    requires b >= 1 && |orig| == catalog.Length && !Fate(network, b).Delivered?
    requires catalog[..] == UpdateRange(orig, 0, Fetched(b - 1, catalog.Length))
    modifies catalog
    ensures catalog[..] == Settled(orig, network, b)
  {
    var lo, saved := Fetched(b - 1, catalog.Length), Fate(network, b).saved;
    ProcessBatchInterrupted(catalog, b, saved);
    UpdateRangeConsecutive(orig, 0, lo, lo + SavedCount(b, catalog.Length, saved));
  }

  /** A request for a batch whose offset has reached the total is always done, so a run ends. */
  lemma DoneOncePastTotal(b: nat, n: nat, total: nat)
    requires b >= 1 && BatchSize * (b - 1) >= total
    ensures DoneAt(b, n, total)
  {
  }

  /**
    When the total counts every product of the catalog (it also counts products the query does
    not page over, so it is never smaller), the reply that ends a run comes only once every
    product has been fetched.
   */
  lemma DoneMeansAllFetched(b: nat, n: nat, total: nat)
    requires b >= 1 && n <= total && DoneAt(b, n, total)
    ensures Fetched(b, n) == n
  {
  }

  /**
    When the total is exactly the catalog size, batch b is done exactly when its page reaches
    the end of the catalog: a fault-free run asks for the least such batch.
   */
  lemma DoneExactlyAtLastPage(b: nat, n: nat)
    requires b >= 1
    ensures DoneAt(b, n, n) <==> BatchSize * b >= n
  {
    if BatchSize * b >= n {
      if BatchSize * (b - 1) >= n {
        assert PageSize(b, n) == 0;
      } else {
        assert PageStart(b, n) == BatchSize * (b - 1);
        assert PageEnd(b, n) == n;
      }
    } else {
      assert PageStart(b, n) == BatchSize * (b - 1);
      assert PageEnd(b, n) == BatchSize * b;
    }
  }

  /**
    With every request delivered and the total equal to the catalog size, a click sends
    exactly one request per page of ten, rounding up, and one for an empty catalog.
   */
  lemma FaultFreeBatchCount(n: nat)
    ensures var o := Run([], n, n);
            o.batch >= 1 && BatchSize * o.batch >= n && (o.batch == 1 || BatchSize * (o.batch - 1) < n)
  {
    RunEnds([], n, n);
    var o := Run([], n, n);
    DoneExactlyAtLastPage(o.batch, n);
    if o.batch > 1 {
      DoneExactlyAtLastPage(o.batch - 1, n);
    }
  }

  /**
    Past the end of the catalog a request fetches nothing, yet its reply still counts a full
    batch for every earlier request: the run goes on over empty pages until the total is passed.
   */
  lemma PastCatalogEnd(b: nat, n: nat)
    requires b >= 1 && BatchSize * (b - 1) >= n
    ensures PageSize(b, n) == 0 && UpdatedCount(b, PageSize(b, n)) == BatchSize * (b - 1)
  {
  }

  /**
    A click on a catalog the total fully counts, with every request delivered, puts every
    product of the catalog through the update gate exactly once and ends showing the
    completion message.
   */
  method FaultFreeRun(catalog: array<Product>, total: nat) returns (batches: nat, result: string)
    requires catalog.Length <= total
    modifies catalog
    ensures catalog[..] == UpdateRange(old(catalog[..]), 0, catalog.Length)
    ensures result == CompletionMessage
    ensures batches >= 1 && BatchSize * (batches - 1) < total + BatchSize
  {
    var progress;
    batches, progress, result := RunUpdate(catalog, total, []);
    RunEnds([], catalog.Length, total);
    DoneMeansAllFetched(batches, catalog.Length, total);
    if batches >= 2 {
      assert !DoneAt(batches - 1, catalog.Length, total);
    }
  }
}

/**
  The server side of one round trip: wc_pdu_update_product_dimensions_ajax
  (product-dimension-update.php:130-185). The catalog the product query pages over is an array
  of products updated in place; the product total is a given number.
 */
module Batch {
  import opened Wrappers
  import opened Decimal
  import opened Products

  /** $batch_size (line 134): products fetched per request. */
  const BatchSize: nat := 10

  /** The message a finished run's reply carries (line 173). */
  const CompletionMessage: string := "Product dimensions updated successfully."

  function Min(a: int, b: int): int {
    if a <= b then a else b
  }

  /**
    Where page `batchNumber` of a catalog of n products begins when the query pages by BatchSize;
    the product query serves page 0 as page 1.
   */
  function PageStart(batchNumber: nat, n: nat): (lo: nat)
    ensures lo <= n
    ensures batchNumber >= 1 ==> lo == Min(BatchSize * (batchNumber - 1), n)
    ensures batchNumber == 0 ==> lo == 0
  {
    var page := if batchNumber == 0 then 1 else batchNumber;
    Min(BatchSize * (page - 1), n)
  }

  /** Where that page ends: it holds at most BatchSize products and never runs past the catalog. */
  function PageEnd(batchNumber: nat, n: nat): (hi: nat)
    ensures PageStart(batchNumber, n) <= hi <= n
    ensures hi - PageStart(batchNumber, n) <= BatchSize
    ensures batchNumber >= 1 ==> hi == Min(BatchSize * batchNumber, n)
    ensures batchNumber == 0 ==> hi == Min(BatchSize, n)
  {
    Min(PageStart(batchNumber, n) + BatchSize, n)
  }

  /** The product query serves page 0 as page 1, so a request for batch 0 fetches the first page. */
  lemma PageZeroIsPageOne(n: nat)
    ensures PageStart(0, n) == 0 && PageEnd(0, n) == Min(BatchSize, n)
    ensures PageStart(0, n) == PageStart(1, n) && PageEnd(0, n) == PageEnd(1, n)
  {
  }

  /** Consecutive pages tile the catalog: page b + 1 begins where page b ends. */
  lemma PagesAdjacent(b: nat, n: nat)
    requires b >= 1
    ensures PageStart(b + 1, n) == PageEnd(b, n)
  {
  }

  /** $updated_count (line 166); negative for batch 0, which only a hand-made request can send. */
  function UpdatedCount(batchNumber: nat, fetched: nat): int {
    BatchSize * (batchNumber - 1) + fetched
  }

  const ProgressPrefix: string := "Updated "
  const ProgressMiddle: string := " of "
  const ProgressSuffix: string := " products."

  /** $progress (line 169): "Updated X of Y products." with both numbers in decimal. */
  function ProgressText(count: int, total: int): string {
    ProgressPrefix + IntToString(count) + ProgressMiddle + IntToString(total) + ProgressSuffix
  }

  /** The position of the first space of s, or |s| when it has none. */
  function SpaceIndex(s: string): (i: nat)
    ensures i <= |s| && ' ' !in s[..i]
    ensures i < |s| ==> s[i] == ' '
  {
    if s == [] || s[0] == ' ' then 0
    else
      var i := SpaceIndex(s[1..]) + 1;
      assert s[..i] == [s[0]] + s[1..][..i - 1];
      i
  }

  /** The first space of a + b is the one b starts with when a holds none. */
  lemma {:induction false} SpaceIndexAt(a: string, b: string)
    requires ' ' !in a && b != [] && b[0] == ' '
    ensures SpaceIndex(a + b) == |a|
  {
    if a != [] {
      assert (a + b)[0] == a[0];
      assert (a + b)[1..] == a[1..] + b;
      SpaceIndexAt(a[1..], b);
    }
  }

  /** Reads the two numbers back out of a progress text; None for any other text. */
  function ParseProgress(text: string): Option<(int, int)> {
    var p := |ProgressPrefix|;
    if |text| < p || text[..p] != ProgressPrefix then None
    else
      var rest := text[p..];
      var i := SpaceIndex(rest);
      match ParseInt(rest[..i])
      case None => None
      case Some(count) =>
        match ParseTotal(rest[i..])
        case None => None
        case Some(total) => Some((count, total))
  }

  /** Reads " of Y products." for the total Y. */
  function ParseTotal(text: string): Option<int> {
    var m := |ProgressMiddle|;
    if |text| < m || text[..m] != ProgressMiddle then None
    else
      var tail := text[m..];
      var j := SpaceIndex(tail);
      if tail[j..] != ProgressSuffix then None else ParseInt(tail[..j])
  }

  lemma ParseTotalField(b: string, y: int)
    requires ' ' !in b && ParseInt(b) == Some(y)
    ensures ParseTotal(ProgressMiddle + b + ProgressSuffix) == Some(y)
  {
    var text := ProgressMiddle + b + ProgressSuffix;
    var tail := b + ProgressSuffix;
    assert text == ProgressMiddle + tail;
    assert text[..|ProgressMiddle|] == ProgressMiddle;
    assert text[|ProgressMiddle|..] == tail;
    SpaceIndexAt(b, ProgressSuffix);
    assert tail[..|b|] == b;
    assert tail[|b|..] == ProgressSuffix;
  }

  /** Reading back a text of the progress shape yields what its two space-free fields read as. */
  lemma ParseProgressFields(a: string, b: string, x: int, y: int)
    requires ' ' !in a && ' ' !in b
    requires ParseInt(a) == Some(x) && ParseInt(b) == Some(y)
    ensures ParseProgress(ProgressPrefix + a + ProgressMiddle + b + ProgressSuffix) == Some((x, y))
  {
    var text := ProgressPrefix + a + ProgressMiddle + b + ProgressSuffix;
    var after := ProgressMiddle + b + ProgressSuffix;
    var rest := a + after;
    assert text == ProgressPrefix + rest;
    assert text[..|ProgressPrefix|] == ProgressPrefix;
    assert text[|ProgressPrefix|..] == rest;
    SpaceIndexAt(a, after);
    assert rest[..|a|] == a;
    assert rest[|a|..] == after;
    ParseTotalField(b, y);
  }

  /** The progress text states its two numbers unambiguously: reading it back gives them. */
  lemma ProgressRoundTrip(count: int, total: int)
    ensures ParseProgress(ProgressText(count, total)) == Some((count, total))
  {
    IntRoundTrip(count);
    IntRoundTrip(total);
    ParseProgressFields(IntToString(count), IntToString(total), count, total);
  }

  /** The reply data of lines 171-184. The message is present only on the reply that ends the run. */
  datatype BatchReply = BatchReply(progress: string, done: bool, message: Option<string>)

  /**
    Lines 166-184: the reply to a request for batch `batchNumber` that fetched `fetched` products
    while the catalog counts `total`. It is done exactly when the running count has reached the
    total, and only a done reply carries the completion message.
   */
  function Reply(batchNumber: nat, fetched: nat, total: nat): (r: BatchReply)
    ensures r.done <==> UpdatedCount(batchNumber, fetched) >= total
    ensures r.message.Some? <==> r.done
    ensures r.done ==> r.message == Some(CompletionMessage)
  {
    var updatedCount := UpdatedCount(batchNumber, fetched);
    var progress := ProgressText(updatedCount, total);
    if updatedCount >= total then BatchReply(progress, true, Some(CompletionMessage))
    else BatchReply(progress, false, None)
  }

  /** Every reply's progress text reads back as the running count and the total. */
  lemma ReplyProgressReadsBack(batchNumber: nat, fetched: nat, total: nat)
    ensures ParseProgress(Reply(batchNumber, fetched, total).progress)
            == Some((UpdatedCount(batchNumber, fetched), total))
  {
    ProgressRoundTrip(UpdatedCount(batchNumber, fetched), total);
  }

  /**
    One request (lines 134-184): every product of page `batchNumber` goes through the gate of
    lines 157-163, in place and in order; no other product changes. A product the gate skips still counts as
    fetched in the reply.
   */
  method ProcessBatch(catalog: array<Product>, batchNumber: nat, total: nat) returns (reply: BatchReply)
    modifies catalog
    ensures catalog[..] == UpdateRange(old(catalog[..]), PageStart(batchNumber, catalog.Length), PageEnd(batchNumber, catalog.Length))
    ensures reply == Reply(batchNumber, PageSize(batchNumber, catalog.Length), total)
  {
    var lo, hi := PageStart(batchNumber, catalog.Length), PageEnd(batchNumber, catalog.Length);
    UpdatePage(catalog, lo, hi);
    reply := Reply(batchNumber, hi - lo, total);
  }

  /** The loop of lines 147-164 over the fetched products catalog[lo..hi], in order. */
  method UpdatePage(catalog: array<Product>, lo: nat, hi: nat)
    requires lo <= hi <= catalog.Length
    modifies catalog
    ensures catalog[..] == UpdateRange(old(catalog[..]), lo, hi)
  {
    ghost var before := catalog[..];
    var i := lo;
    while i < hi
      invariant lo <= i <= hi
      invariant catalog[..] == UpdateRange(before, lo, i)
    {
      assert catalog[i] == before[i];
      catalog[i] := UpdateProduct(catalog[i]);
      assert catalog[..] == UpdateRange(before, lo, i)[i := UpdateProduct(before[i])];
      i := i + 1;
    }
  }

  /**
    How many products of page `batchNumber` a handler that stops early has got through when it
    stopped after `saved` of them (skipped or saved alike): `saved` itself, capped at the page.
   */
  function SavedCount(batchNumber: nat, n: nat, saved: nat): (k: nat)
    ensures k <= PageSize(batchNumber, n)
    ensures k == saved || k == PageSize(batchNumber, n)
    ensures saved <= PageSize(batchNumber, n) ==> k == saved
  {
    if saved <= PageSize(batchNumber, n) then saved else PageSize(batchNumber, n)
  }

  /**
    A request whose handler stops before it replies (a time-out or a fatal error) once `saved`
    products of page `batchNumber` have gone through the gate of lines 157-163. The loop of lines
    147-164 has no transaction around it, so those products stay saved, in page order, and the
    rest of the page is untouched.
   */
  method ProcessBatchInterrupted(catalog: array<Product>, batchNumber: nat, saved: nat)
    modifies catalog
    ensures catalog[..] == UpdateRange(old(catalog[..]), PageStart(batchNumber, catalog.Length),
                                       PageStart(batchNumber, catalog.Length) + SavedCount(batchNumber, catalog.Length, saved))
  {
    var lo := PageStart(batchNumber, catalog.Length);
    UpdatePage(catalog, lo, lo + SavedCount(batchNumber, catalog.Length, saved));
  }

  /** How many products the request for batch b fetches from a catalog of n products. */
  function PageSize(b: nat, n: nat): (size: nat)
    ensures size <= BatchSize
  {
    PageEnd(b, n) - PageStart(b, n)
  }

  /** Whether the reply to a request for batch b is done, for a catalog of n products and the given total. */
  predicate DoneAt(b: nat, n: nat, total: nat) {
    UpdatedCount(b, PageSize(b, n)) >= total
  }

  /** A catalog of 25 products, counted as 25: batches 1, 2, 3 report 10, 20, 25, and only batch 3 is done. */
  lemma TwentyFiveProducts()
    ensures UpdatedCount(1, PageSize(1, 25)) == 10
    ensures UpdatedCount(2, PageSize(2, 25)) == 20
    ensures UpdatedCount(3, PageSize(3, 25)) == 25
    ensures !DoneAt(1, 25, 25) && !DoneAt(2, 25, 25) && DoneAt(3, 25, 25)
  {
  }
}

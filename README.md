# wc-pdu: a Dafny model of the product dimension update

This Dafny project models the WooCommerce plugin "Product Dimension Update". An administrator
clicks one button. The browser then asks the server for batch 1, 2, 3, ... of simple, published
products. For each fetched product the server:

- reads the `height`, `width` and `length` attributes;
- replaces each multi-valued height or width attribute (values separated by `|`) with its last
  value, trimmed;
- writes the three values into the product's dimension fields only when none of them is
  `empty()` in PHP's sense.

Each reply reports `Updated X of Y products.` and whether the run is done. The browser keeps
sending requests until a reply says done or a request fails.

The model is split into modules that follow that structure:

- `Text`: PHP's `trim()` with its default character list, `explode()` and `implode()` with a
  one-character delimiter, and `end(explode(...))`.
- `Decimal`: how PHP writes an integer inside a double-quoted string, plus a reader that
  parses it back.
- `Products`: a product, the derivation of its dimension values, the update gate, and that gate
  applied to a range of a catalog (`UpdateRange`).
- `Batch`: one AJAX request. The page arithmetic, the running count, the progress text and the
  reply. `ProcessBatch` updates an array of products in place.
- `Client`: the click handler and the request loop in the browser.
  - `Poll` and `Run` define how a click ends.
  - `RunUpdate` is that loop, written as a `while` loop over the array. It is proved to end as
    `Run` says. The delivered pages are updated, and so is whatever a failed last request had
    saved; nothing else changes.

The source writes the length field from the raw `length` attribute: line 155 splits the undefined
`$depth` instead of `$length`. The model does exactly that. `DerivedDimensions` and
`LengthWrittenRaw` state it. A length attribute such as `"10|12"` is therefore written unsplit.
A height or width without `|` is kept exactly as it is, untrimmed (`DeriveValue`).

Inputs that the request loop depends on are parameters of the model:

- The catalog the product query pages over is an array of products, in query order.
- The product total is a given number. In the plugin it counts published products plus
  published variations.
- The fate of each request is a given list of deliveries:
  - `Delivered`: the handler runs to its end and its success reply reaches the success callback.
  - `Refused(saved)`: a response reaches the success callback but is not a success reply, so
    the result line shows the error text. The handler never sends such a reply itself; it can
    come from the platform, for example a body that is not the handler's JSON.
  - `Lost(saved)`: the request ends in an error status (a failed nonce check, a fatal error,
    a time-out) or a transport failure. The page has no error callback, so the loop just stops.
  - `saved` is how many products of the page the handler had got through before it stopped,
    counting those the gate of line 157 skipped as well as those it saved. Each written product
    is saved on its own (line 161) and nothing rolls back, so those updates stay. `saved` can be
    0 (the handler never ran) or the whole page (only the reply was lost).

## Model

| member | source | states |
|---|---|---|
| Text.Trim | product-dimension-update.php:153-154 | no trim character is left at either end of the result |
| Text.TrimFactor | product-dimension-update.php:153-154 | trim(s) is the factor of s that starts after its leading trim characters; everything cut off before and after it is a trim character |
| Text.TrimLeft | product-dimension-update.php:153-154 | the result is a suffix of s; every dropped character is a trim character; the result does not start with one |
| Text.TrimRight | product-dimension-update.php:153-154 | the result is a prefix of s; every dropped character is a trim character; the result does not end with one |
| Text.TrimIdempotent | product-dimension-update.php:153-154 | trimming twice gives what trimming once gives |
| Text.Explode | product-dimension-update.php:153-154 | explode yields at least one piece, and no piece contains the delimiter |
| Text.ImplodeExplode | product-dimension-update.php:153-154 | joining the pieces with the delimiter gives back the original string |
| Text.LastDelimEnd | product-dimension-update.php:153-154 | the position just after the last delimiter: 0 exactly when there is none; otherwise the character before it is the delimiter and none follows it |
| Text.ExplodeSplits | product-dimension-update.php:153-154 | explode yields a single piece exactly when the string holds no delimiter |
| Text.LastPiece | product-dimension-update.php:153-154 | end(explode(d, s)) is the whole suffix of s after its last d |
| Decimal.IntToString | product-dimension-update.php:169 | the decimal text of an integer, as PHP interpolates it: never empty and never holding a space |
| Decimal.NatToString | product-dimension-update.php:169 | the digits PHP writes for a natural number: never empty, only decimal digits, and no leading zero except for 0 itself; NatRoundTrip states that they read back as the number |
| Decimal.NatRoundTrip | product-dimension-update.php:169 | the decimal digits of n read back as n |
| Decimal.IntRoundTrip | product-dimension-update.php:169 | PHP's decimal text of any integer, negative ones included, reads back as that integer |
| Products.GetAttribute | product-dimension-update.php:148-150 | definition: the attribute's value when the product has the attribute, and "" when it has not; WrittenHeightAndWidth and LengthWrittenRaw state what is written from it |
| Products.DeriveValue | product-dimension-update.php:153-154 | a value without the delimiter is kept as is, untrimmed; a value with one becomes the trimmed text after its last delimiter, which holds no delimiter |
| Products.DerivedDimensions | product-dimension-update.php:148-155 | the height and width derived hold no delimiter; the length is the raw length attribute, because line 155 derives $depth and not $length |
| Products.IsEmptyValue | product-dimension-update.php:157 | definition: PHP's empty() on a string is true exactly for "" and "0" |
| Products.IsComplete | product-dimension-update.php:157 | definition: the guard holds exactly when none of the three values is empty(); WrittenDimensionsComplete and UpdateProduct state what it lets through |
| Products.UpdateProduct | product-dimension-update.php:147-164 | a product gets the derived dimensions when none of them is empty ("" or "0") and is otherwise left unchanged; its id and attributes never change |
| Products.WrittenDimensionsComplete | product-dimension-update.php:157-160 | dimensions that change are never empty |
| Products.WrittenHeightAndWidth | product-dimension-update.php:148-149 | the height and width written are the attribute values, split and trimmed as line 153-154 does, whenever the delimiter is present |
| Products.LengthWrittenRaw | product-dimension-update.php:150-160 | the length written is the raw length attribute, because line 155 derives $depth and not $length |
| Products.DeriveAfterLastDelimiter | product-dimension-update.php:153-154 | a value ending in the delimiter followed by a piece without it derives to that piece trimmed, whatever comes before, as "10cm" then "12cm" joined by the delimiter gives "12cm" |
| Products.DeriveTrailingDelimiter | product-dimension-update.php:153-154 | a value ending in the delimiter, such as "10" followed by it, derives to "", so the gate of line 157 then skips the product |
| Products.UpdateIdempotent | product-dimension-update.php:147-164 | running the update a second time on a product changes nothing |
| Products.UpdateIgnoresStoredDimensions | product-dimension-update.php:148-160 | the dimensions written depend only on the attributes, never on what was stored before |
| Products.UpdateRange | product-dimension-update.php:147-164 | definition: the loop of lines 147-164 over positions lo..hi-1 in closed form, those positions updated and every other one kept; the length never changes; UpdatePage, ProcessBatch and ProcessBatchInterrupted are proved against it |
| Products.UpdateRangeConsecutive | product-dimension-update.php:147-164 | updating lo..mid and then mid..hi is the same as updating lo..hi |
| Products.UpdateRangeIdempotent | product-dimension-update.php:147-164 | updating a range again after it was updated changes nothing |
| Batch.PageStart | product-dimension-update.php:138-144 | page b begins at 10*(b-1), capped at the catalog size; a request for page 0 begins at 0 |
| Batch.PageEnd | product-dimension-update.php:138-144 | a page holds at most 10 products, ends at 10*b capped at the catalog size, and never runs past the catalog; page 0 ends where page 1 does |
| Batch.PageZeroIsPageOne | product-dimension-update.php:135-144 | a request for batch 0 fetches exactly the products of page 1 |
| Batch.PagesAdjacent | product-dimension-update.php:138-144 | page b+1 begins where page b ends |
| Batch.PageSize | product-dimension-update.php:140 | a request fetches at most 10 products |
| Batch.UpdatedCount | product-dimension-update.php:166 | definition: the running count is 10*(batch-1) plus the number of products fetched; PastCatalogEnd and TwentyFiveProducts state its values |
| Batch.DoneAt | product-dimension-update.php:167 | definition: a batch is done when its running count has reached the total; DoneOncePastTotal, DoneMeansAllFetched and DoneExactlyAtLastPage state when that happens |
| Batch.ProgressText | product-dimension-update.php:169 | definition: "Updated X of Y products." with both numbers in decimal; ProgressRoundTrip states that it reads back as X and Y |
| Batch.ParseProgressFields | product-dimension-update.php:169 | a text of the progress shape with two space-free number fields reads back as those numbers |
| Batch.ProgressRoundTrip | product-dimension-update.php:169 | "Updated X of Y products." reads back unambiguously as X and Y, for every pair of integers |
| Batch.Reply | product-dimension-update.php:166-184 | a reply is done exactly when 10*(batch-1) + fetched >= total; it carries the completion message exactly when done |
| Batch.ReplyProgressReadsBack | product-dimension-update.php:166-169 | every reply's progress text reads back as its running count and the total |
| Batch.UpdatePage | product-dimension-update.php:147-164 | the array afterwards is the old contents with positions lo..hi-1 updated, in order, and nothing else changed |
| Batch.ProcessBatch | product-dimension-update.php:134-184 | exactly page b of the catalog is updated in place, and the reply is Reply(b, size of page b, total) |
| Batch.SavedCount | product-dimension-update.php:147-161 | how far a handler stopped early got through its page: never past the page, and exactly the products it got through whenever they fit in the page |
| Batch.ProcessBatchInterrupted | product-dimension-update.php:147-161 | a handler that stops before replying leaves the first saved products of its page updated, in order, and the rest of the catalog unchanged |
| Batch.TwentyFiveProducts | product-dimension-update.php:166-167 | with 25 products counted as 25, batches 1, 2 and 3 report 10, 20 and 25, and only batch 3 is done |
| Client.Fate | product-dimension-update.php:101-122 | definition: the fate of each request, taken from the given list and Delivered past its end |
| Client.Fetched | product-dimension-update.php:138-144 | the batches 1..k fetch the catalog up to the end of page k, which is where page k+1 begins |
| Client.ProgressLine | product-dimension-update.php:110 | definition: the progress line shows the progress text of the last delivered reply, and is empty before any |
| Client.Poll | product-dimension-update.php:101-122 | definition of how the loop ends from a given batch: PollStops states its properties |
| Client.Run | product-dimension-update.php:88-98 | definition of a click: Poll from batch 1 with an empty progress line; RunEnds states its properties |
| Client.PollStops | product-dimension-update.php:101-122 | every batch before the last is delivered and not done. A delivered last batch is done, shows the completion message and its own progress. A refused one shows "An error occurred.". A lost one leaves "Starting...". After an undelivered last batch the progress line shows the batch before it |
| Client.RunEnds | product-dimension-update.php:88-122 | the same for a whole click, which starts at batch 1 with an empty progress line |
| Client.Settled | product-dimension-update.php:101-122 | definition: the catalog after a click that ends at batch b: pages 1..b-1 updated, then all of page b when its reply was delivered, or the products a failed request got through; RunUpdate ends in it, and FaultFreeRun relies on it through RunUpdate |
| Client.RunUpdate | product-dimension-update.php:88-122 | the loop ends with the batch, progress line and result line Run defines; the catalog is Settled: the delivered pages and what the failed last request saved are updated, every other product unchanged |
| Client.DeliverBatch | product-dimension-update.php:101-122 | a delivered request extends the updated prefix of the catalog by its page and returns Reply(b, page size, total) |
| Client.FailBatch | product-dimension-update.php:101-122 | a failed request extends the updated prefix of the catalog by the products it saved |
| Client.DoneOncePastTotal | product-dimension-update.php:166-167 | a batch whose offset 10*(b-1) has reached the total is always done, so a run ends |
| Client.DoneMeansAllFetched | product-dimension-update.php:166-167 | when the total is at least the catalog size, a done reply comes only once every product is fetched |
| Client.DoneExactlyAtLastPage | product-dimension-update.php:166-167 | when the total equals the catalog size, batch b is done exactly when 10*b reaches it |
| Client.FaultFreeBatchCount | product-dimension-update.php:101-122 | with every request delivered and total = n, a click sends ceil(n/10) requests, and one request when n is 0 |
| Client.PastCatalogEnd | product-dimension-update.php:166 | past the catalog's end a request fetches nothing, but still counts 10 for every earlier batch |
| Client.FaultFreeRun | product-dimension-update.php:88-184 | with every request delivered and a total that counts the whole catalog, every product is updated exactly once and the run shows the completion message |

## Left out

- The WordPress hooks: the admin menu, the settings page markup, and the notice that
  WooCommerce is missing (lines 1-86). Lines 21-47 only echo that notice; none of this is
  behaviour of the update.
- `check_ajax_referer` and the nonce (line 132). A failed check ends the request before any
  product is touched, which the model covers as a `Lost` fate with nothing saved.
- The product query `wc_get_products` and the counts from `wp_count_posts` (lines 138-145).
  - The catalog is an array of the published simple products in query order.
  - The total is a given number.
  - The plugin recomputes the total on every request. The model fixes it for a whole click, so
    a catalog that changes during a run is not modelled.
- `absint` on the posted batch number (line 135): it is `abs((int) $x)`, so `"-3"` becomes 3,
  `"5abc"` becomes 5, and text with no leading digits or a value below 1 such as `"0.5"`
  becomes 0. The model takes the batch number as a natural number. The
  browser always posts 1, 2, 3, ...; the default of 1 when none is posted is not modelled.
  For batch 0 the model serves page 1 (`PageZeroIsPageOne`) and the reply's count is then
  negative, as in the source.
- PHP's 64-bit integers. `absint` caps the batch number at PHP_INT_MAX, and above about
  9.2e17 the product `$batch_size * ($batch_number - 1)` on line 166 becomes a float, which
  line 169 prints as for example `9.2233720368548E+18`. The model's integers are unbounded,
  so `Batch.UpdatedCount`, `Batch.ProgressText` and `Decimal.IntToString` hold only for
  counts PHP keeps as integers. A run reaches such a batch only with a total that large.
- A second click while a run is still going (line 88 has no guard): it starts a second request
  loop whose requests interleave with the first. `Client.RunUpdate` models one click at a time.
- `get_attribute` internals: taxonomy attributes, the `pa_` prefix, and joining several terms
  with `, `. An attribute is modelled as a name mapped to a string, with `""` when absent.
- The setters' formatting (`wc_format_decimal`) and the hooks that `save()` fires. The model
  stores the derived strings as given.
- The debug log `$debugInfo` and the commented-out debug output. They influence nothing.
- The asynchronous AJAX transport, jQuery and the DOM. Requests are answered one after another,
  and the two page elements are two strings. Where a failed request stops inside its page is a
  given number (`saved`), not a model of time-outs.
- Bytes versus characters: strings are sequences of characters. `trim()` and the `|` split
  only involve ASCII characters, so UTF-8 text derives the same way.

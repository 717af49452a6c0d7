/**
  One product as the batch handler sees it (product-dimension-update.php:147-164): its attribute
  values, from which the dimensions are derived, and its stored height, width and length.
 */
module Products {
  import opened Text

  /** The three dimension fields of a product, as the strings the setters receive. */
  datatype Dimensions = Dimensions(height: string, width: string, length: string)

  /** A catalog product: its id, its attributes by name, and its stored dimensions. */
  datatype Product = Product(id: nat, attributes: map<string, string>, dims: Dimensions)

  /** get_attribute(name): the attribute's value, or "" when the product has no such attribute. */
  function GetAttribute(p: Product, name: string): (v: string)
    ensures name in p.attributes ==> v == p.attributes[name]
    ensures name !in p.attributes ==> v == ""
  {
    if name in p.attributes then p.attributes[name] else ""
  }

  /** The separator of multi-valued attributes. */
  const Delimiter: char := '|'

  /**
    Lines 153-154: a raw value holding a '|' is replaced by its last '|'-separated piece, trimmed;
    any other value is kept exactly as it is, untrimmed.
   */
  function DeriveValue(raw: string): (v: string)
    ensures Delimiter !in raw ==> v == raw
    ensures Delimiter in raw ==> v == Trim(raw[LastDelimEnd(raw, Delimiter)..]) && Delimiter !in v
  {
    if Delimiter in raw then
      var pieces := Explode(raw, Delimiter);
      var tail := raw[LastDelimEnd(raw, Delimiter)..];
      LastPiece(raw, Delimiter);
      assert pieces[|pieces| - 1] == tail;
      LastSegmentHasNoDelimiter(tail);
      Trim(pieces[|pieces| - 1])
    else raw
  }

  /** Trimming a string that holds no '|' leaves none. */
  lemma LastSegmentHasNoDelimiter(tail: string)
    requires Delimiter !in tail
    ensures Delimiter !in Trim(tail)
  {
    TrimFactor(tail);
    var i := |tail| - |TrimLeft(tail)|;
    NotInSlice(tail, i, i + |Trim(tail)|, Delimiter);
  }

  /** PHP's empty() on a string: true for "" and for "0". */
  predicate IsEmptyValue(v: string) {
    v == "" || v == "0"
  }

  /**
    The values lines 148-155 leave in $height, $width and $length. Line 155 derives the undefined
    $depth instead of $length, so the length is the raw "length" attribute, never split.
   */
  function DerivedDimensions(p: Product): (d: Dimensions)
    ensures Delimiter !in d.height && Delimiter !in d.width
    ensures d.length == GetAttribute(p, "length")
  {
    Dimensions(DeriveValue(GetAttribute(p, "height")),
               DeriveValue(GetAttribute(p, "width")),
               GetAttribute(p, "length"))
  }

  /** The guard of line 157: no value is empty(). */
  predicate IsComplete(d: Dimensions) {
    !IsEmptyValue(d.height) && !IsEmptyValue(d.width) && !IsEmptyValue(d.length)
  }

  /**
    One iteration of the loop of lines 147-164 on the product it visits, with the gate of lines
    157-163: the product gets the derived dimensions exactly when none of the three is empty();
    otherwise it is left as it was. Its id and attributes never change.
   */
  function UpdateProduct(p: Product): (r: Product)
    ensures r.id == p.id && r.attributes == p.attributes
    ensures IsComplete(DerivedDimensions(p)) ==> r.dims == DerivedDimensions(p)
    ensures !IsComplete(DerivedDimensions(p)) ==> r == p
  {
    var d := DerivedDimensions(p);
    if IsComplete(d) then p.(dims := d) else p
  }

  /** A product is only ever given dimensions none of which is empty(). */
  lemma WrittenDimensionsComplete(p: Product)
    ensures UpdateProduct(p).dims != p.dims ==> IsComplete(UpdateProduct(p).dims)
  {
  }

  /**
    What lands in the height and width fields: for a value with a '|', the trimmed part after its
    last '|'; for any other value, the value itself.
   */
  lemma WrittenHeightAndWidth(p: Product)
    requires IsComplete(DerivedDimensions(p))
    ensures var h, w := GetAttribute(p, "height"), GetAttribute(p, "width");
            var d := UpdateProduct(p).dims;
            (Delimiter in h ==> d.height == Trim(h[LastDelimEnd(h, Delimiter)..])) &&
            (Delimiter !in h ==> d.height == h) &&
            (Delimiter in w ==> d.width == Trim(w[LastDelimEnd(w, Delimiter)..])) &&
            (Delimiter !in w ==> d.width == w)
  {
  }

  /** Line 155's quirk: the length written is the raw attribute even when it holds a '|'. */
  lemma LengthWrittenRaw(p: Product)
    requires IsComplete(DerivedDimensions(p))
    ensures UpdateProduct(p).dims.length == GetAttribute(p, "length")
  {
  }

  /** Updating a product a second time changes nothing: the written values depend only on the attributes. */
  lemma UpdateIdempotent(p: Product)
    ensures UpdateProduct(UpdateProduct(p)) == UpdateProduct(p)
  {
    var r := UpdateProduct(p);
    assert GetAttribute(r, "height") == GetAttribute(p, "height");
    assert GetAttribute(r, "width") == GetAttribute(p, "width");
    assert GetAttribute(r, "length") == GetAttribute(p, "length");
  }

  /** Two products with the same attributes are given the same dimensions, whatever they stored before. */
  lemma UpdateIgnoresStoredDimensions(p: Product, q: Product)
    requires p.attributes == q.attributes
    requires IsComplete(DerivedDimensions(p))
    ensures UpdateProduct(p).dims == UpdateProduct(q).dims
  {
  }

  /** The products of s with those at positions lo to hi - 1 put through the gate, one by one. */
  function UpdateRange(s: seq<Product>, lo: nat, hi: nat): (r: seq<Product>)
    requires lo <= hi <= |s|
    ensures |r| == |s|
  {
    seq(|s|, i requires 0 <= i < |s| => if lo <= i < hi then UpdateProduct(s[i]) else s[i])
  }

  /** Updating lo..mid and then mid..hi is updating lo..hi. */
  lemma UpdateRangeConsecutive(s: seq<Product>, lo: nat, mid: nat, hi: nat)
    requires lo <= mid <= hi <= |s|
    ensures UpdateRange(UpdateRange(s, lo, mid), mid, hi) == UpdateRange(s, lo, hi)
  {
    var r, t := UpdateRange(UpdateRange(s, lo, mid), mid, hi), UpdateRange(s, lo, hi);
    assert forall i :: 0 <= i < |s| ==> r[i] == t[i];
  }

  /** Putting the same products through the gate again leaves them as the first pass did. */
  lemma UpdateRangeIdempotent(s: seq<Product>, lo: nat, hi: nat)
    requires lo <= hi <= |s|
    ensures UpdateRange(UpdateRange(s, lo, hi), lo, hi) == UpdateRange(s, lo, hi)
  {
    var r, t := UpdateRange(UpdateRange(s, lo, hi), lo, hi), UpdateRange(s, lo, hi);
    forall i | 0 <= i < |s| ensures r[i] == t[i] {
      UpdateIdempotent(s[i]);
    }
  }

  /**
    A value whose last '|' is followed by `last` derives to `last` trimmed, whatever comes before:
    "10cm|12cm" gives "12cm", and " a | 7 " gives "7".
   */
  lemma DeriveAfterLastDelimiter(head: string, last: string)
    requires Delimiter !in last
    ensures DeriveValue(head + [Delimiter] + last) == Trim(last)
  {
    var raw := head + [Delimiter] + last;
    assert raw[|head|] == Delimiter;
    assert raw[|head| + 1..] == last;
    LastDelimEndAt(raw, Delimiter, |head| + 1);
  }

  /** A value ending in '|' ("10|") derives to "", so a product with such a height or width is skipped. */
  lemma DeriveTrailingDelimiter(head: string)
    ensures DeriveValue(head + [Delimiter]) == ""
  {
    DeriveAfterLastDelimiter(head, "");
    assert head + [Delimiter] + "" == head + [Delimiter];
  }
}

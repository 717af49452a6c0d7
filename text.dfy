/**
  The two PHP string built-ins the attribute derivation relies on, on strings of characters:
  trim() with its default character list, and explode() with a one-character delimiter.
  The delimiter and the trimmed characters are all ASCII, so working on characters instead of
  bytes changes nothing for UTF-8 input.
 */
module Text {

  /** The characters trim() strips when no list is given: space, tab, newline, carriage return, NUL, vertical tab. */
  predicate IsTrimChar(c: char) {
    c == ' ' || c == '\t' || c == '\n' || c == '\r' || c as int == 0 || c as int == 11
  }

  /** ltrim(s): the suffix of s left after dropping its leading trim characters. */
  function TrimLeft(s: string): (r: string)
    ensures |r| <= |s| && r == s[|s| - |r|..]
    ensures forall k :: 0 <= k < |s| - |r| ==> IsTrimChar(s[k])
    ensures r == [] || !IsTrimChar(r[0])
  {
    if s != [] && IsTrimChar(s[0]) then TrimLeft(s[1..]) else s
  }

  /** rtrim(s): the prefix of s left after dropping its trailing trim characters. */
  function TrimRight(s: string): (r: string)
    ensures |r| <= |s| && r == s[..|r|]
    ensures forall k :: |r| <= k < |s| ==> IsTrimChar(s[k])
    ensures r == [] || !IsTrimChar(r[|r| - 1])
  {
    if s != [] && IsTrimChar(s[|s| - 1]) then TrimRight(s[..|s| - 1]) else s
  }

  /** Every character of t is a trim character. */
  predicate AllTrimChars(t: string) {
    forall k :: 0 <= k < |t| ==> IsTrimChar(t[k])
  }

  /** trim(s): s without its leading and its trailing trim characters. */
  function Trim(s: string): (r: string)
    ensures r == [] || (!IsTrimChar(r[0]) && !IsTrimChar(r[|r| - 1]))
  {
    var t := TrimLeft(s);
    var r := TrimRight(t);
    assert r != [] ==> r[0] == t[0];
    r
  }

  /** What ltrim() drops is a prefix of trim characters. */
  lemma TrimLeftDrops(s: string)
    ensures AllTrimChars(s[..|s| - |TrimLeft(s)|])
  {
    var lead := s[..|s| - |TrimLeft(s)|];
    forall k | 0 <= k < |lead| ensures IsTrimChar(lead[k]) {
      assert lead[k] == s[k];
    }
  }

  /** What rtrim() drops is a suffix of trim characters. */
  lemma TrimRightDrops(t: string)
    ensures AllTrimChars(t[|TrimRight(t)|..])
  {
    var tail := t[|TrimRight(t)|..];
    forall k | 0 <= k < |tail| ensures IsTrimChar(tail[k]) {
      assert tail[k] == t[|TrimRight(t)| + k];
    }
  }

  /**
    What trim() removes: the result is the factor of s that starts after its leading trim
    characters, and everything of s before and after that factor is a trim character.
   */
  lemma TrimFactor(s: string)
    ensures var r, i := Trim(s), |s| - |TrimLeft(s)|;
            i + |r| <= |s| && r == s[i..i + |r|] && AllTrimChars(s[..i]) && AllTrimChars(s[i + |r|..])
  {
    var t := TrimLeft(s);
    var r := TrimRight(t);
    var i := |s| - |t|;
    assert t == s[i..];
    assert r == s[i..i + |r|];
    TrimLeftDrops(s);
    TrimRightDrops(t);
    assert s[i + |r|..] == t[|r|..];
  }

  lemma TrimIdempotent(s: string)
    ensures Trim(Trim(s)) == Trim(s)
  {
    var r := Trim(s);
    assert TrimLeft(r) == r;
    assert TrimRight(r) == r;
  }

  /** explode(d, s): the pieces of s between occurrences of d, in order; there is always at least one. */
  function Explode(s: string, d: char): (pieces: seq<string>)
    ensures |pieces| >= 1
    ensures forall i :: 0 <= i < |pieces| ==> d !in pieces[i]
  {
    if s == [] then [[]]
    else
      var rest := Explode(s[1..], d);
      if s[0] == d then [[]] + rest
      else [[s[0]] + rest[0]] + rest[1..]
  }

  /** implode(d, pieces): the pieces joined with d between consecutive ones. */
  function Implode(pieces: seq<string>, d: char): string
  {
    if pieces == [] then []
    else if |pieces| == 1 then pieces[0]
    else pieces[0] + [d] + Implode(pieces[1..], d)
  }

  /** Joining the pieces of explode() with the same delimiter gives back the original string. */
  lemma {:induction false} ImplodeExplode(s: string, d: char)
    ensures Implode(Explode(s, d), d) == s
  {
    if s != [] {
      var rest := Explode(s[1..], d);
      var pieces := Explode(s, d);
      ImplodeExplode(s[1..], d);
      if s[0] == d {
        assert pieces[1..] == rest;
        assert pieces[0] == [];
        assert s == [d] + s[1..];
      } else if |rest| == 1 {
        assert pieces == [[s[0]] + rest[0]];
        assert s == [s[0]] + s[1..];
      } else {
        assert pieces[1..] == rest[1..];
        assert pieces[0] == [s[0]] + rest[0];
        assert Implode(rest, d) == rest[0] + [d] + Implode(rest[1..], d);
        assert s == [s[0]] + s[1..];
      }
    }
  }

  /** Where the part of s after its last d begins: one past the last d, or 0 when s holds no d. */
  function LastDelimEnd(s: string, d: char): (k: nat)
    ensures k <= |s|
    ensures k == 0 <==> d !in s
    ensures k > 0 ==> s[k - 1] == d
    ensures d !in s[k..]
  {
    if s == [] then 0
    else
      var k := LastDelimEnd(s[1..], d);
      assert s == [s[0]] + s[1..];
      if k > 0 then
        assert s[k + 1..] == s[1..][k..];
        k + 1
      else if s[0] == d then 1
      else 0
  }

  /** The position after the last d is determined by the two facts that describe it. */
  lemma LastDelimEndAt(s: string, d: char, k: nat)
    requires 0 < k <= |s| && s[k - 1] == d && d !in s[k..]
    ensures LastDelimEnd(s, d) == k
  {
  }

  /** A character missing from t is missing from every slice of t. */
  lemma NotInSlice(t: string, i: nat, j: nat, c: char)
    requires i <= j <= |t| && c !in t
    ensures c !in t[i..j]
  {
  }

  /** explode() yields more than one piece exactly when s holds a d. */
  lemma {:induction false} ExplodeSplits(s: string, d: char)
    ensures |Explode(s, d)| == 1 <==> d !in s
  {
    if s != [] {
      ExplodeSplits(s[1..], d);
      assert s == [s[0]] + s[1..];
    }
  }

  /**
    end(explode(d, s)): the last piece is the whole suffix after the last d (all of s when it holds
    no d), and there is more than one piece exactly when s holds a d.
   */
  lemma {:induction false} LastPiece(s: string, d: char)
    ensures Explode(s, d)[|Explode(s, d)| - 1] == s[LastDelimEnd(s, d)..]
    ensures |Explode(s, d)| == 1 <==> d !in s
  {
    ExplodeSplits(s, d);
    if s != [] {
      var pieces := Explode(s, d);
      var rest := Explode(s[1..], d);
      var k := LastDelimEnd(s[1..], d);
      LastPiece(s[1..], d);
      assert s[k + 1..] == s[1..][k..];
      if s[0] == d {
        assert pieces[|pieces| - 1] == rest[|rest| - 1];
      } else if |rest| == 1 {
        assert k == 0;
        assert pieces == [[s[0]] + rest[0]];
        assert s == [s[0]] + s[1..];
      } else {
        assert pieces[|pieces| - 1] == rest[|rest| - 1];
        assert LastDelimEnd(s, d) == k + 1;
      }
    }
  }
}

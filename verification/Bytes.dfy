/** Byte strings with the searching and trimming that Go's `bytes` package provides. */
module Bytes {
  newtype byte = x: int | 0 <= x < 256

  const NEWLINE: byte := 10
  const RETURN: byte := 13
  /** "echo " */
  const ECHO: seq<byte> := [101, 99, 104, 111, 32]

  /** The bytes of a literal. */
  function Ascii(text: string): (s: seq<byte>)
    requires forall i :: 0 <= i < |text| ==> text[i] as int < 128
    ensures |s| == |text| && forall i :: 0 <= i < |s| ==> s[i] as int == text[i] as int
  {
    seq(|text|, i requires 0 <= i < |text| => text[i] as int as byte)
  }

  predicate OccursAt(s: seq<byte>, p: seq<byte>, i: int) {
    0 <= i && i + |p| <= |s| && s[i..i + |p|] == p
  }

  /** The first occurrence of p in s at or after `from`, or -1. */
  function IndexFrom(s: seq<byte>, p: seq<byte>, from: nat): (i: int)
    requires from <= |s|
    ensures i == -1 || (from <= i && OccursAt(s, p, i))
    ensures forall j :: from <= j < (if i == -1 then |s| + 1 else i) ==> !OccursAt(s, p, j)
    decreases |s| - from
  {
    if OccursAt(s, p, from) then from
    else if from == |s| then -1
    else IndexFrom(s, p, from + 1)
  }

  /** `bytes.Index`. */
  function Index(s: seq<byte>, p: seq<byte>): (i: int)
    ensures i == -1 || OccursAt(s, p, i)
    ensures forall j :: 0 <= j < (if i == -1 then |s| + 1 else i) ==> !OccursAt(s, p, j)
  {
    IndexFrom(s, p, 0)
  }

  predicate IsLineEnd(b: byte) {
    b == NEWLINE || b == RETURN
  }

  /** `bytes.TrimRight(s, "\r\n")`. */
  function TrimRight(s: seq<byte>): (r: seq<byte>)
    ensures r <= s
    ensures r != [] ==> r[|r| - 1] != 10 && r[|r| - 1] != 13
    ensures forall i :: |r| <= i < |s| ==> s[i] == 10 || s[i] == 13
  {
    if s != [] && IsLineEnd(s[|s| - 1]) then TrimRight(s[..|s| - 1]) else s
  }

  /** An occurrence lies within any piece of the string that contains its span. */
  lemma OccursWithin(s: seq<byte>, p: seq<byte>, i: int, lo: int, hi: int)
    requires 0 <= lo <= hi <= |s|
    ensures lo <= i && i + |p| <= hi ==> (OccursAt(s, p, i) <==> OccursAt(s[lo..hi], p, i - lo))
  {
    if lo <= i && i + |p| <= hi {
      var whole, piece := s[i..i + |p|], s[lo..hi][i - lo..i - lo + |p|];
      assert |whole| == |piece| && forall k :: 0 <= k < |p| ==> whole[k] == s[i + k] == piece[k];
      assert whole == piece;
    }
  }

  /** The bytes of a sequence of chunks. */
  function Flat(chunks: seq<seq<byte>>): seq<byte>
    decreases |chunks|
  {
    if chunks == [] then [] else Flat(chunks[..|chunks| - 1]) + chunks[|chunks| - 1]
  }
}

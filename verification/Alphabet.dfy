/** Text as digits of an alphabet, given by the tables of its characters and their indexes. */
module Alphabet {
  import opened Bytes
  import opened Wrappers

  function Chars(letter: nat --> byte, ds: seq<nat>): (text: seq<byte>)
    requires forall i :: 0 <= i < |ds| ==> letter.requires(ds[i])
    ensures |text| == |ds| && forall i :: 0 <= i < |ds| ==> text[i] == letter(ds[i])
  {
    if ds == [] then [] else [letter(ds[0])] + Chars(letter, ds[1..])
  }

  predicate InAlphabet(index: byte -> Option<nat>, c: byte) {
    index(c).Some?
  }

  function Index(index: byte -> Option<nat>, c: byte): nat {
    if InAlphabet(index, c) then index(c).value else 0
  }

  /** The digits of text within the alphabet. */
  function Indexes(index: byte -> Option<nat>, text: seq<byte>): (ds: seq<nat>)
    ensures |ds| == |text| && forall i :: 0 <= i < |text| ==> ds[i] == Index(index, text[i])
  {
    if text == [] then [] else [Index(index, text[0])] + Indexes(index, text[1..])
  }

  /** The first character outside the alphabet. */
  function BadChar(index: byte -> Option<nat>, text: seq<byte>): Option<byte> {
    if text == [] then None else if InAlphabet(index, text[0]) then BadChar(index, text[1..]) else Some(text[0])
  }

  /** If the tables invert each other, so do these. */
  lemma IndexesOfChars(letter: nat --> byte, index: byte -> Option<nat>, ds: seq<nat>)
    requires forall i :: 0 <= i < |ds| ==> letter.requires(ds[i]) && index(letter(ds[i])) == Some(ds[i])
    ensures BadChar(index, Chars(letter, ds)).None? && Indexes(index, Chars(letter, ds)) == ds
  {
    NoBadChar(index, Chars(letter, ds));
  }

  lemma {:induction false} NoBadChar(index: byte -> Option<nat>, text: seq<byte>)
    ensures BadChar(index, text).None? <==> forall i :: 0 <= i < |text| ==> InAlphabet(index, text[i])
  {
    if text != [] {
      NoBadChar(index, text[1..]);
      assert forall i :: 1 <= i < |text| ==> text[i] == text[1..][i - 1];
    }
  }

  lemma {:induction false} BadCharAppend(index: byte -> Option<nat>, a: seq<byte>, b: seq<byte>)
    ensures BadChar(index, a + b) == if BadChar(index, a).Some? then BadChar(index, a) else BadChar(index, b)
  {
    if a == [] {
      assert a + b == b;
    } else {
      assert (a + b)[1..] == a[1..] + b;
      BadCharAppend(index, a[1..], b);
    }
  }

  lemma {:induction false} FirstBad(index: byte -> Option<nat>, text: seq<byte>, i: nat)
    requires i < |text| && !InAlphabet(index, text[i]) && forall k :: 0 <= k < i ==> InAlphabet(index, text[k])
    ensures BadChar(index, text) == Some(text[i])
  {
    if i > 0 {
      FirstBad(index, text[1..], i - 1);
    }
  }
}

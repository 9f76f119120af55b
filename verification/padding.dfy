/** `add_whitespace`: left-pads a string with spaces up to a fixed width.

    The width arithmetic is done on the string's UTF-8 byte length converted to
    `u32`, so the model works on bytes. */
module Padding {
  import opened Outcomes
  import opened RustInt

  type Byte = b: int | 0 <= b < 256

  const SPACE: Byte := 32

  /** `k` spaces. */
  function Spaces(k: nat): (r: seq<Byte>)
    ensures |r| == k
    ensures forall i :: 0 <= i < k ==> r[i] == SPACE
  {
    seq(k, _ => SPACE)
  }

  /** `add_whitespace(s, charsTot)`: the number of spaces is `charsTot` minus
      the byte length of `s` taken as a `u32`; that subtraction panics when the
      string is longer than the target width. */
  function AddWhitespace(s: seq<Byte>, charsTot: U32): (r: Outcome<seq<Byte>>)
    ensures r.Ok? <==> UsizeAsU32(|s|) <= charsTot
    ensures r.Panic? ==> r.cause == ArithmeticOverflow
    ensures r.Ok? ==> |r.value| == charsTot - UsizeAsU32(|s|) + |s|
    ensures r.Ok? ==> r.value[|r.value| - |s|..] == s
    ensures r.Ok? ==> forall i :: 0 <= i < |r.value| - |s| ==> r.value[i] == SPACE
    ensures |s| <= charsTot ==> r.Ok? && |r.value| == charsTot
  {
    var spaceNum :- SubUnsigned(charsTot, UsizeAsU32(|s|));
    Ok(Spaces(spaceNum) + s)
  }

  /** Drops every leading space. */
  function TrimStart(t: seq<Byte>): (r: seq<Byte>)
    ensures |r| <= |t|
  {
    if |t| > 0 && t[0] == SPACE then TrimStart(t[1..]) else t
  }

  lemma {:induction false} TrimSpaces(k: nat, s: seq<Byte>)
    requires |s| == 0 || s[0] != SPACE
    ensures TrimStart(Spaces(k) + s) == s
  {
    if k == 0 {
      assert Spaces(0) + s == s;
    } else {
      assert (Spaces(k) + s)[1..] == Spaces(k - 1) + s;
      TrimSpaces(k - 1, s);
    }
  }

  /** Padding is undone by trimming leading spaces, so it loses nothing of a
      string that does not itself start with a space. */
  lemma PadThenTrim(s: seq<Byte>, charsTot: U32)
    requires |s| <= charsTot
    requires |s| == 0 || s[0] != SPACE
    ensures AddWhitespace(s, charsTot).Ok?
    ensures TrimStart(AddWhitespace(s, charsTot).value) == s
  {
    TrimSpaces(charsTot - |s|, s);
  }

  /** A string longer than the width makes the `u32` subtraction underflow. */
  lemma TooLongPanics()
    ensures AddWhitespace([65, 66, 67], 2) == Panic(ArithmeticOverflow)
  {
  }

  /** `add_whitespace("42", 5)` is `"   42"`. */
  lemma PadExample()
    ensures AddWhitespace([52, 50], 5) == Ok([SPACE, SPACE, SPACE, 52, 50])
  {
    assert UsizeAsU32(2) == 2;
    assert SubUnsigned(5, 2) == Ok(3);
    assert Spaces(3) + [52, 50] == [SPACE, SPACE, SPACE, 52, 50];
  }
}

/** Byte offsets in Rust strings. A `&str` is UTF-8: `len()`, slicing and
    `char_indices` count bytes, and a slice whose bound falls inside a
    character panics. Characters here are Unicode scalar values. */
module Utf8 {
  import opened Wrappers

  /** `char::len_utf8`: the bytes one character takes. */
  function Width(c: char): (w: nat)
    ensures 1 <= w <= 4
    ensures w == 1 <==> c as int < 0x80
  {
    if c as int < 0x80 then 1
    else if c as int < 0x800 then 2
    else if c as int < 0x10000 then 3
    else 4
  }

  /** `str::len`: the bytes of the whole string. */
  function ByteLen(s: string): (n: nat)
    ensures |s| <= n <= 4 * |s|
  {
    if s == [] then 0 else Width(s[0]) + ByteLen(s[1..])
  }

  predicate Ascii(s: string) {
    forall i :: 0 <= i < |s| ==> s[i] as int < 0x80
  }

  /** The bytes of a prefix: the first character's, then the rest's. */
  lemma PrefixBytes(s: string)
    requires s != []
    ensures forall k :: 0 < k <= |s| ==> ByteLen(s[..k]) == Width(s[0]) + ByteLen(s[1..][..k - 1])
  {
    forall k | 0 < k <= |s| ensures ByteLen(s[..k]) == Width(s[0]) + ByteLen(s[1..][..k - 1]) {
      assert s[..k][1..] == s[1..][..k - 1];
    }
  }

  /** The character index at which byte offset `b` falls, when `b` is a
      character boundary; `None` where `&s[..b]` panics: inside a character
      or past the end. */
  function Boundary(s: string, b: nat): (r: Option<nat>)
    ensures r.Some? ==> r.value <= |s| && ByteLen(s[..r.value]) == b
    ensures r.None? ==> forall k :: 0 <= k <= |s| ==> ByteLen(s[..k]) != b
  {
    if b == 0 then
      assert s[..0] == [];
      Some(0)
    else if s == [] then
      assert forall k :: 0 <= k <= |s| ==> s[..k] == [];
      None
    else
      PrefixBytes(s);
      assert s[..0] == [];
      if b < Width(s[0]) then None
      else
        match Boundary(s[1..], b - Width(s[0]))
        case None => None
        case Some(k) => Some(k + 1)
  }

  /** In ASCII text every byte is one character. */
  lemma {:induction false} AsciiBytes(s: string)
    requires Ascii(s)
    ensures ByteLen(s) == |s|
  {
    if s != [] {
      assert Ascii(s[1..]) by {
        assert forall i :: 0 <= i < |s| - 1 ==> s[1..][i] == s[i + 1];
      }
      AsciiBytes(s[1..]);
    }
  }

  /** In ASCII text every byte offset up to the end is a boundary, at the same
      character index. */
  lemma AsciiBoundary(s: string, b: nat)
    requires Ascii(s) && b <= |s|
    ensures Boundary(s, b) == Some(b)
  {
    assert Ascii(s[..b]);
    AsciiBytes(s[..b]);
    var r := Boundary(s, b);
    if r.Some? {
      assert Ascii(s[..r.value]);
      AsciiBytes(s[..r.value]);
    }
  }
}

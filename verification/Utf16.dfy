/** UTF-16 code units and texts made of them. */
module Utf16 {

  type Text = seq<nat>

  function Units(s: string): (text: Text)
    ensures |text| == |s| && forall i :: 0 <= i < |s| ==> text[i] == s[i] as int
  {
    seq(|s|, i requires 0 <= i < |s| => s[i] as int)
  }

  /** The first half of a surrogate pair. */
  predicate High(u: nat) {
    0xD800 <= u < 0xDC00
  }

  /** The second half. */
  predicate Low(u: nat) {
    0xDC00 <= u < 0xE000
  }
}

/** Strict UTF-8 well-formedness, as `bytes.decode()` checks it before the title is shown:
    the well-formed byte sequences of table 3-7 of the Unicode Standard, section 3.9 (no
    overlong forms, no surrogates, nothing above U+10FFFF, no truncated sequences). */
module Utf8 {
  import opened Ascii

  /** A continuation byte, 0x80..0xBF. */
  predicate IsCont(b: byte) {
    0x80 <= b <= 0xBF
  }

  /** The range the second byte of a sequence must lie in, given its lead byte. */
  predicate SecondOk(lead: byte, b: byte) {
    if lead == 0xE0 then 0xA0 <= b <= 0xBF
    else if lead == 0xED then 0x80 <= b <= 0x9F
    else if lead == 0xF0 then 0x90 <= b <= 0xBF
    else if lead == 0xF4 then 0x80 <= b <= 0x8F
    else IsCont(b)
  }

  /** How many bytes the sequence led by `lead` has, or 0 if `lead` cannot start one. */
  function SeqLen(lead: byte): (n: nat)
    ensures n <= 4
    ensures n == 1 <==> lead < 0x80
    ensures n == 0 <==> (0x80 <= lead <= 0xC1 || lead >= 0xF5)
  {
    if lead < 0x80 then 1
    else if 0xC2 <= lead <= 0xDF then 2
    else if 0xE0 <= lead <= 0xEF then 3
    else if 0xF0 <= lead <= 0xF4 then 4
    else 0
  }

  /** `s` decodes as strict UTF-8. */
  predicate IsUtf8(s: seq<byte>): (ok: bool)
    ensures ok && |s| > 0 ==> SeqLen(s[0]) > 0
    ensures ok && |s| > 0 ==> s[|s| - 1] < 0x80 || IsCont(s[|s| - 1])
    decreases |s|
  {
    if |s| == 0 then true
    else
      var n := SeqLen(s[0]);
      && n > 0 && |s| >= n
      && (n >= 2 ==> SecondOk(s[0], s[1]))
      && (forall k :: 2 <= k < n ==> IsCont(s[k]))
      && IsUtf8(s[n..])
  }

  /** Plain ASCII text, such as a title like "MyPlotX\n", always decodes. */
  lemma {:induction false} AsciiIsUtf8(s: seq<byte>)
    requires forall i :: 0 <= i < |s| ==> s[i] < 0x80
    ensures IsUtf8(s)
    decreases |s|
  {
    if |s| > 0 {
      AsciiIsUtf8(s[1..]);
    }
  }

  /** A byte that can never occur in UTF-8 (0xC0, 0xC1, 0xF5..0xFF) anywhere in `s` makes
      the decode fail. */
  lemma {:induction false} InvalidByteRejected(s: seq<byte>, i: nat)
    requires i < |s| && SeqLen(s[i]) == 0 && !IsCont(s[i])
    ensures !IsUtf8(s)
    decreases |s|
  {
    if IsUtf8(s) {
      var n := SeqLen(s[0]);
      if i >= n {
        InvalidByteRejected(s[n..], i - n);
      }
    }
  }

  /** ASCII text that ends in the lead byte of a multi-byte character, cut off by the end
      of the field, makes the decode fail. */
  lemma {:induction false} TruncatedRejected(s: seq<byte>)
    requires |s| >= 1 && SeqLen(s[|s| - 1]) >= 2
    requires forall j :: 0 <= j < |s| - 1 ==> s[j] < 0x80
    ensures !IsUtf8(s)
    decreases |s|
  {
    if |s| > 1 {
      TruncatedRejected(s[1..]);
    }
  }
}

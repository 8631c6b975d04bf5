/**
  NUL-terminated character buffers: what a `char *` reads as a string, and
  what `snprintf` leaves in a fixed-size buffer.
*/
module CStr {
  const NUL: char := '\0'

  /** The C string at the front of `buf`: every character before the first NUL. */
  function CString(buf: seq<char>): (s: string)
    ensures |s| <= |buf| && s == buf[..|s|]
    ensures NUL !in s
    ensures |s| < |buf| ==> buf[|s|] == NUL
    decreases |buf|
  {
    if buf == [] || buf[0] == NUL then [] else [buf[0]] + CString(buf[1..])
  }

  /** A NUL-free text followed by a NUL reads back as exactly that text, whatever follows. */
  lemma {:induction false} CStringOfTerminated(text: string, rest: seq<char>)
    requires NUL !in text
    ensures CString(text + [NUL] + rest) == text
  {
    if text != [] {
      CStringOfTerminated(text[1..], rest);
      assert (text + [NUL] + rest)[1..] == text[1..] + [NUL] + rest;
    }
  }

  /** The longest prefix of `text` that fits, with its terminator, into `size` bytes. */
  function Truncate(text: string, size: nat): (t: string)
    requires size >= 1
    ensures |t| < size && |t| <= |text| && t == text[..|t|]
    ensures |text| < size ==> t == text
    ensures |text| >= size ==> |t| == size - 1
  {
    if |text| < size then text else text[..size - 1]
  }

  /**
    The contents of a buffer after `snprintf(buf, sizeof(buf), ...)` has
    formatted `text` into it: the text cut to fit, a NUL, and the bytes after
    the NUL as they were (C11 section 7.21.6.5 writes nothing beyond the
    terminator).
  */
  function Formatted(buf: seq<char>, text: string): (r: seq<char>)
    requires |buf| >= 1
    ensures |r| == |buf|
    ensures NUL !in text ==> CString(r) == Truncate(text, |buf|)
    ensures forall k :: |Truncate(text, |buf|)| < k < |buf| ==> r[k] == buf[k]
  {
    var t := Truncate(text, |buf|);
    var r := t + [NUL] + buf[|t| + 1..];
    assert NUL !in text ==> CString(r) == t by {
      if NUL !in text {
        assert forall c :: c in t ==> c in text;
        CStringOfTerminated(t, buf[|t| + 1..]);
      }
    }
    r
  }

  /** Formatting the same text twice leaves the buffer as formatting it once. */
  lemma FormattedIdempotent(buf: seq<char>, text: string)
    requires |buf| >= 1
    ensures Formatted(Formatted(buf, text), text) == Formatted(buf, text)
  {
  }

  /** `snprintf` into an array of `buf.Length` bytes, results as `Formatted` states. */
  method Snprintf(buf: array<char>, text: string)
    requires buf.Length >= 1
    modifies buf
    ensures buf[..] == Formatted(old(buf[..]), text)
  {
    var t := Truncate(text, buf.Length);
    forall k | 0 <= k < |t| {
      buf[k] := t[k];
    }
    buf[|t|] := NUL;
    assert buf[..] == t + [NUL] + old(buf[..])[|t| + 1..];
  }
}

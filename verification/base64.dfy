/**
  The standard base64 encoding with padding (section 4 of RFC 4648, padding
  per section 3.2), as Go's `base64.StdEncoding` encodes and decodes it.

  Decoding follows Go's decoder rather than the strictest reading of the
  RFC: carriage returns and line feeds anywhere in the input are skipped,
  unused trailing bits of the last quantum are ignored (the encoding is not
  "strict"), and on an error the bytes of every quantum decoded before the
  failing one are still returned, together with the error.
 */
module Base64 {
  import opened Wrappers
  import opened Numeric

  type sextet = x: int | 0 <= x < 64

  const Pad: char := '='

  /** Value of a character of the standard alphabet (RFC 4648, Table 1). */
  function ValueOf(c: char): Option<sextet> {
    if 'A' <= c <= 'Z' then Some(c as int - 'A' as int)
    else if 'a' <= c <= 'z' then Some(c as int - 'a' as int + 26)
    else if '0' <= c <= '9' then Some(c as int - '0' as int + 52)
    else if c == '+' then Some(62)
    else if c == '/' then Some(63)
    else None
  }

  predicate IsAlphabet(c: char) {
    ValueOf(c).Some?
  }

  /** Character of a 6-bit value in the standard alphabet. */
  function CharOf(v: sextet): (c: char)
    ensures ValueOf(c) == Some(v)
  {
    if v < 26 then ('A' as int + v) as char
    else if v < 52 then ('a' as int + (v - 26)) as char
    else if v < 62 then ('0' as int + (v - 52)) as char
    else if v == 62 then '+'
    else '/'
  }

  /** Every character of the alphabet is the image of its own value. */
  lemma CharOfValueOf(c: char)
    requires IsAlphabet(c)
    ensures CharOf(ValueOf(c).value) == c
  {
  }

  /** The four characters of one complete 3-byte group. */
  function EncodeTriple(b0: byte, b1: byte, b2: byte): string {
    [CharOf(b0 / 4), CharOf((b0 % 4) * 16 + b1 / 16), CharOf((b1 % 16) * 4 + b2 / 64), CharOf(b2 % 64)]
  }

  /** `StdEncoding.EncodeToString`. */
  function Encode(data: seq<byte>): (s: string)
    ensures |s| == 4 * ((|data| + 2) / 3)
    ensures forall i :: 0 <= i < |s| ==> IsAlphabet(s[i]) || s[i] == Pad
    decreases |data|
  {
    if |data| == 0 then []
    else if |data| == 1 then
      [CharOf(data[0] / 4), CharOf((data[0] % 4) * 16), Pad, Pad]
    else if |data| == 2 then
      [CharOf(data[0] / 4), CharOf((data[0] % 4) * 16 + data[1] / 16), CharOf((data[1] % 16) * 4), Pad]
    else
      EncodeTriple(data[0], data[1], data[2]) + Encode(data[3..])
  }

  /** What Go's `DecodeString` returns: the bytes written, and whether no error was reported. */
  datatype Decoded = Decoded(data: seq<byte>, ok: bool)

  predicate IsLineBreak(c: char) {
    c == '\n' || c == '\r'
  }

  /** The input with carriage returns and line feeds removed, which the decoder skips. */
  function StripLineBreaks(s: string): (t: string)
    ensures |t| <= |s|
    ensures forall i :: 0 <= i < |t| ==> !IsLineBreak(t[i])
  {
    if |s| == 0 then []
    else if IsLineBreak(s[0]) then StripLineBreaks(s[1..])
    else [s[0]] + StripLineBreaks(s[1..])
  }

  /** `StdEncoding.DecodeString`, error included. */
  function Decode(s: string): (r: Decoded)
    ensures |r.data| <= 3 * (|s| / 4)
  {
    DecodeQuanta(StripLineBreaks(s))
  }

  /**
    Go's quantum loop over input without line breaks. Running out of input
    inside a quantum, a character outside the alphabet, or misplaced padding
    fails that quantum with no bytes from it; a padded quantum followed by
    more input keeps its bytes but reports the trailing garbage.
   */
  function DecodeQuanta(t: string): (r: Decoded)
    ensures |r.data| <= 3 * (|t| / 4)
    decreases |t|
  {
    if |t| == 0 then Decoded([], true)
    else if |t| < 4 || !IsAlphabet(t[0]) || !IsAlphabet(t[1]) then Decoded([], false)
    else
      var v0, v1 := ValueOf(t[0]).value, ValueOf(t[1]).value;
      var b0: byte := v0 * 4 + v1 / 16;
      if t[2] == Pad then
        if t[3] == Pad then Decoded([b0], |t| == 4) else Decoded([], false)
      else if !IsAlphabet(t[2]) then Decoded([], false)
      else
        var v2 := ValueOf(t[2]).value;
        var b1: byte := (v1 % 16) * 16 + v2 / 4;
        if t[3] == Pad then Decoded([b0, b1], |t| == 4)
        else if !IsAlphabet(t[3]) then Decoded([], false)
        else
          var b2: byte := (v2 % 4) * 64 + ValueOf(t[3]).value;
          var rest := DecodeQuanta(t[4..]);
          Decoded([b0, b1, b2] + rest.data, rest.ok)
  }

  /**
    The input shapes the decoder accepts: whole quanta of alphabet
    characters, with one or two padding characters only at the very end.
   */
  predicate WellFormed(t: string) {
    && |t| % 4 == 0
    && forall i :: 0 <= i < |t| ==> IsAlphabet(t[i]) || (t[i] == Pad && |t| - 2 <= i && t[|t| - 1] == Pad)
  }

  lemma StripWithoutLineBreaks(s: string)
    requires forall i :: 0 <= i < |s| ==> !IsLineBreak(s[i])
    ensures StripLineBreaks(s) == s
  {
    if |s| > 0 {
      StripWithoutLineBreaks(s[1..]);
    }
  }

  /** The three bytes of a group come back from its four characters. */
  lemma DecodeTriple(b0: byte, b1: byte, b2: byte)
    ensures var q := EncodeTriple(b0, b1, b2);
            && (forall i :: 0 <= i < 4 ==> IsAlphabet(q[i]) && q[i] != Pad)
            && ValueOf(q[0]).value * 4 + ValueOf(q[1]).value / 16 == b0
            && (ValueOf(q[1]).value % 16) * 16 + ValueOf(q[2]).value / 4 == b1
            && (ValueOf(q[2]).value % 4) * 64 + ValueOf(q[3]).value == b2
  {
    var v0, v1, v2, v3 := b0 / 4, (b0 % 4) * 16 + b1 / 16, (b1 % 16) * 4 + b2 / 64, b2 % 64;
    assert v1 / 16 == b0 % 4 && v1 % 16 == b1 / 16;
    assert v2 / 4 == b1 % 16 && v2 % 4 == b2 / 64;
  }

  /** One complete quantum of alphabet characters contributes its three bytes and decoding goes on. */
  lemma FullQuantum(t: string, v0: sextet, v1: sextet, v2: sextet, v3: sextet)
    requires |t| >= 4
    requires ValueOf(t[0]) == Some(v0) && ValueOf(t[1]) == Some(v1)
    requires ValueOf(t[2]) == Some(v2) && ValueOf(t[3]) == Some(v3)
    ensures DecodeQuanta(t) == Decoded([v0 * 4 + v1 / 16, (v1 % 16) * 16 + v2 / 4, (v2 % 4) * 64 + v3] + DecodeQuanta(t[4..]).data, DecodeQuanta(t[4..]).ok)
  {
    assert t[2] != Pad && t[3] != Pad;
  }

  /** The quantum of a complete group, followed by anything, decodes to that group first. */
  lemma TripleQuantum(b0: byte, b1: byte, b2: byte, u: string)
    ensures DecodeQuanta(EncodeTriple(b0, b1, b2) + u) == Decoded([b0, b1, b2] + DecodeQuanta(u).data, DecodeQuanta(u).ok)
  {
    var q := EncodeTriple(b0, b1, b2);
    var w := q + u;
    assert w[4..] == u;
    DecodeTriple(b0, b1, b2);
    assert w[0] == q[0] && w[1] == q[1] && w[2] == q[2] && w[3] == q[3];
    FullQuantum(w, ValueOf(q[0]).value, ValueOf(q[1]).value, ValueOf(q[2]).value, ValueOf(q[3]).value);
  }

  /** A last group of one byte decodes from its doubly padded quantum. */
  lemma DecodeTail1(b0: byte)
    ensures DecodeQuanta(Encode([b0])) == Decoded([b0], true)
  {
    var v0, v1 := b0 / 4, (b0 % 4) * 16;
    var t := Encode([b0]);
    assert t == [CharOf(v0), CharOf(v1), Pad, Pad];
    assert v1 / 16 == b0 % 4;
    assert v0 * 4 + v1 / 16 == b0;
    assert ValueOf(t[0]) == Some(v0) && ValueOf(t[1]) == Some(v1);
  }

  /** A last group of two bytes decodes from its singly padded quantum. */
  lemma DecodeTail2(b0: byte, b1: byte)
    ensures DecodeQuanta(Encode([b0, b1])) == Decoded([b0, b1], true)
  {
    var v0, v1, v2 := b0 / 4, (b0 % 4) * 16 + b1 / 16, (b1 % 16) * 4;
    var t := Encode([b0, b1]);
    assert t == [CharOf(v0), CharOf(v1), CharOf(v2), Pad];
    assert v1 / 16 == b0 % 4 && v1 % 16 == b1 / 16;
    assert v2 / 4 == b1 % 16;
    assert v0 * 4 + v1 / 16 == b0;
    assert (v1 % 16) * 16 + v2 / 4 == b1;
    assert ValueOf(t[0]) == Some(v0) && ValueOf(t[1]) == Some(v1) && ValueOf(t[2]) == Some(v2);
    assert t[2] != Pad;
  }

  /** A last group of fewer than three bytes decodes from its padded quantum. */
  lemma DecodeTail(tail: seq<byte>)
    requires |tail| < 3
    ensures DecodeQuanta(Encode(tail)) == Decoded(tail, true)
  {
    if |tail| == 1 {
      assert tail == [tail[0]];
      DecodeTail1(tail[0]);
    } else if |tail| == 2 {
      assert tail == [tail[0], tail[1]];
      DecodeTail2(tail[0], tail[1]);
    }
  }

  /** The quantum loop undoes the encoder, one group at a time. */
  lemma {:induction false} QuantaEncode(data: seq<byte>)
    ensures DecodeQuanta(Encode(data)) == Decoded(data, true)
    decreases |data|
  {
    if |data| < 3 {
      DecodeTail(data);
    } else {
      var rest := Encode(data[3..]);
      assert Encode(data) == EncodeTriple(data[0], data[1], data[2]) + rest;
      TripleQuantum(data[0], data[1], data[2], rest);
      QuantaEncode(data[3..]);
      assert data == [data[0], data[1], data[2]] + data[3..];
    }
  }

  /** Round trip: decoding the encoding of any byte sequence, empty included, gives it back without error. */
  lemma DecodeEncode(data: seq<byte>)
    ensures Decode(Encode(data)) == Decoded(data, true)
  {
    StripWithoutLineBreaks(Encode(data));
    QuantaEncode(data);
  }

  /** Input whose first character is neither a line break nor in the alphabet decodes to nothing, with an error. */
  lemma DecodeRejectsLeadingJunk(s: string)
    requires |s| > 0 && !IsLineBreak(s[0]) && !IsAlphabet(s[0])
    ensures Decode(s) == Decoded([], false)
  {
    assert StripLineBreaks(s) == [s[0]] + StripLineBreaks(s[1..]);
  }

  /** The decoder reports no error exactly on well-formed input, line breaks aside. */
  lemma DecodeOkIffWellFormed(s: string)
    ensures Decode(s).ok <==> WellFormed(StripLineBreaks(s))
  {
    QuantaOkIffWellFormed(StripLineBreaks(s));
  }

  lemma {:induction false} QuantaOkIffWellFormed(t: string)
    ensures DecodeQuanta(t).ok <==> WellFormed(t)
    decreases |t|
  {
    if |t| == 0 {
    } else if |t| < 4 {
      assert !WellFormed(t);
    } else if !IsAlphabet(t[0]) {
      assert !(IsAlphabet(t[0]) || (t[0] == Pad && |t| - 2 <= 0));
    } else if !IsAlphabet(t[1]) {
      assert !(IsAlphabet(t[1]) || (t[1] == Pad && |t| - 2 <= 1));
    } else if t[2] == Pad && t[3] != Pad {
      assert !(IsAlphabet(t[2]) || (t[2] == Pad && |t| - 2 <= 2 && t[|t| - 1] == Pad)) by {
        if |t| - 2 <= 2 { assert t[|t| - 1] == t[3]; }
      }
    } else if t[2] == Pad {
      if |t| > 4 {
        assert !(IsAlphabet(t[2]) || (t[2] == Pad && |t| - 2 <= 2));
      }
    } else if !IsAlphabet(t[2]) {
      assert !(IsAlphabet(t[2]) || t[2] == Pad);
    } else if t[3] == Pad {
      if |t| > 4 && |t| % 4 == 0 {
        assert !(IsAlphabet(t[3]) || (t[3] == Pad && |t| - 2 <= 3));
      }
    } else if !IsAlphabet(t[3]) {
      assert !(IsAlphabet(t[3]) || t[3] == Pad);
    } else {
      QuantaOkIffWellFormed(t[4..]);
      WellFormedQuantum(t);
    }
  }

  /** A leading quantum of four alphabet characters does not change whether the input is well formed. */
  lemma WellFormedQuantum(t: string)
    requires |t| >= 4 && IsAlphabet(t[0]) && IsAlphabet(t[1]) && IsAlphabet(t[2]) && IsAlphabet(t[3])
    ensures WellFormed(t) <==> WellFormed(t[4..])
  {
    var u := t[4..];
    if WellFormed(t) {
      forall i | 0 <= i < |u|
        ensures IsAlphabet(u[i]) || (u[i] == Pad && |u| - 2 <= i && u[|u| - 1] == Pad)
      {
        assert u[i] == t[i + 4];
        assert u[|u| - 1] == t[|t| - 1];
      }
    }
    if WellFormed(u) {
      forall i | 0 <= i < |t|
        ensures IsAlphabet(t[i]) || (t[i] == Pad && |t| - 2 <= i && t[|t| - 1] == Pad)
      {
        if i >= 4 {
          assert t[i] == u[i - 4];
          assert u[|u| - 1] == t[|t| - 1];
        }
      }
    }
  }
}

/**
  Hardware addresses as the controller shows and reads them: six bytes
  printed with `%02X:%02X:%02X:%02X:%02X:%02X` and read back with
  `fmt.Sscanf` on the same format.
 */
module Mac {
  import opened Wrappers
  import opened Numeric

  const MacLength: nat := 6

  /** Upper-case hexadecimal digit of a value below 16, as `%X` prints it. */
  function HexDigit(v: nat): (c: char)
    requires v < 16
    ensures HexValue(c) == Some(v)
  {
    if v < 10 then ('0' as int + v) as char else ('A' as int + (v - 10)) as char
  }

  /** Value of a hexadecimal digit of either case. */
  function HexValue(c: char): Option<nat> {
    if '0' <= c <= '9' then Some(c as int - '0' as int)
    else if 'a' <= c <= 'f' then Some(c as int - 'a' as int + 10)
    else if 'A' <= c <= 'F' then Some(c as int - 'A' as int + 10)
    else None
  }

  /** `%02X` of one byte. */
  function FormatByte(b: byte): (s: string)
    ensures |s| == 2 && HexValue(s[0]).Some? && HexValue(s[1]).Some?
    ensures HexValue(s[0]).value * 16 + HexValue(s[1]).value == b
  {
    [HexDigit(b / 16), HexDigit(b % 16)]
  }

  /** Bytes `k..5` of `m`, formatted and joined by colons. */
  function FormatFrom(m: seq<byte>, k: nat): (s: string)
    requires MacLength <= |m| && k < MacLength
    ensures |s| == 3 * (MacLength - k) - 1
    decreases MacLength - k
  {
    if k == MacLength - 1 then FormatByte(m[k])
    else FormatByte(m[k]) + ":" + FormatFrom(m, k + 1)
  }

  /** The address text; only the first six bytes are printed (fewer would panic before this point). */
  function FormatMac(m: seq<byte>): (s: string)
    requires MacLength <= |m|
    ensures |s| == 17
    ensures forall i :: 0 <= i < |s| ==> (i % 3 == 2 <==> s[i] == ':')
  {
    var s := FormatFrom(m, 0);
    FormatShape(m, 0);
    s
  }

  lemma {:induction false} FormatShape(m: seq<byte>, k: nat)
    requires MacLength <= |m| && k < MacLength
    ensures forall i :: 0 <= i < |FormatFrom(m, k)| ==> (i % 3 == 2 <==> FormatFrom(m, k)[i] == ':')
    decreases MacLength - k
  {
    var s := FormatFrom(m, k);
    var b := FormatByte(m[k]);
    assert b[0] != ':' && b[1] != ':' by {
      assert HexValue(b[0]).Some? && HexValue(b[1]).Some?;
    }
    if k < MacLength - 1 {
      FormatShape(m, k + 1);
      var rest := FormatFrom(m, k + 1);
      forall i | 0 <= i < |s| ensures (i % 3 == 2 <==> s[i] == ':') {
        if i >= 3 {
          assert s[i] == rest[i - 3];
        }
      }
    }
  }

  /**
    The characters `fmt`'s scanner skips as space before a number. A line
    feed is not among them: `Sscanf` reports it as an error.
   */
  predicate IsScanSpace(c: char) {
    || c == '\t' || c == '\r' || c == ' '
    || c as int == 0x0B || c as int == 0x0C || c as int == 0x85 || c as int == 0xA0
    || c as int == 0x1680 || (0x2000 <= c as int <= 0x200A)
    || c as int == 0x2028 || c as int == 0x2029 || c as int == 0x202F
    || c as int == 0x205F || c as int == 0x3000
  }

  /** Leading space skipped; `None` when a line feed is met first. */
  function SkipSpace(s: string): (r: Option<string>)
    ensures r.Some? ==> |r.value| <= |s|
    ensures r.Some? && |r.value| > 0 ==> !IsScanSpace(r.value[0]) && r.value[0] != '\n'
    ensures r.Some? ==> r.value == s[|s| - |r.value|..]
    decreases |s|
  {
    if |s| == 0 then Some(s)
    else if s[0] == '\n' then None
    else if IsScanSpace(s[0]) then SkipSpace(s[1..])
    else Some(s)
  }

  /** Characters the scanner accepts into a `%X` token; the underscore is accepted and then rejected by `ParseUint`. */
  predicate IsTokenChar(c: char) {
    HexValue(c).Some? || c == '_'
  }

  /** Length of the token a width-2 `%X` verb takes from `t`. */
  function TokenLength(t: string): (n: nat)
    ensures n <= 2 && n <= |t|
    ensures forall i :: 0 <= i < n ==> IsTokenChar(t[i])
    ensures n < 2 && n < |t| ==> !IsTokenChar(t[n])
  {
    if |t| == 0 || !IsTokenChar(t[0]) then 0
    else if |t| == 1 || !IsTokenChar(t[1]) then 1
    else 2
  }

  /** One `%02X` verb into a byte: the value and the rest of the input, or `None` on any scan error. */
  function ScanByte(s: string): (r: Option<(byte, string)>)
    ensures r.Some? ==> |r.value.1| < |s|
  {
    var t :- SkipSpace(s);
    var n := TokenLength(t);
    if n == 0 then None
    else if n == 1 then
      if t[0] == '_' then None else Some((HexValue(t[0]).value, t[1..]))
    else if t[0] == '_' || t[1] == '_' then None
    else Some((HexValue(t[0]).value * 16 + HexValue(t[1]).value, t[2..]))
  }

  /**
    `Sscanf` from the `k`-th verb on: every byte scanned is stored at once,
    and scanning stops at the first error (a bad number, or input that does
    not match the next `:`), leaving the remaining bytes as they were.
   */
  function ScanFrom(s: string, k: nat, acc: seq<byte>): (r: seq<byte>)
    requires |acc| == MacLength && k < MacLength
    ensures |r| == MacLength
    decreases MacLength - k
  {
    var scanned := ScanByte(s);
    if scanned.None? then acc
    else
      var acc' := acc[k := scanned.value.0];
      var rest := scanned.value.1;
      if k == MacLength - 1 then acc'
      else if |rest| > 0 && rest[0] == ':' then
        var r := ScanFrom(rest[1..], k + 1, acc');
        r
      else acc'
  }

  /** The bytes `FactoryChange` sends for the address text `s`; bytes never scanned stay 0. */
  function ScanMac(s: string): (r: seq<byte>)
    ensures |r| == MacLength
  {
    ScanFrom(s, 0, [0, 0, 0, 0, 0, 0])
  }

  /** A formatted byte followed by a colon or the end scans back to itself. */
  lemma ScanFormattedByte(b: byte, rest: string)
    requires |rest| == 0 || rest[0] == ':'
    ensures ScanByte(FormatByte(b) + rest) == Some((b, rest))
  {
    var s := FormatByte(b) + rest;
    assert !IsScanSpace(s[0]) && s[0] != '\n' by { assert HexValue(s[0]).Some?; }
    assert SkipSpace(s) == Some(s);
    assert s[0] == FormatByte(b)[0] && s[1] == FormatByte(b)[1];
    assert s[2..] == rest;
  }

  /** A byte scanned and followed by a colon: scanning goes on with the next verb. */
  lemma ScanFromStep(s: string, k: nat, acc: seq<byte>, b: byte, rest: string)
    requires |acc| == MacLength && k < MacLength - 1
    requires ScanByte(s) == Some((b, ":" + rest))
    ensures ScanFrom(s, k, acc) == ScanFrom(rest, k + 1, acc[k := b])
  {
    assert (":" + rest)[1..] == rest;
  }

  /** Storing byte `k` extends the stored prefix by one. */
  lemma UpdatePrefix(acc: seq<byte>, m: seq<byte>, k: nat)
    requires k < MacLength - 1 && |acc| == MacLength && MacLength <= |m|
    ensures acc[k := m[k]][..k + 1] + m[k + 1..MacLength] == acc[..k] + m[k..MacLength]
  {
    var l := acc[k := m[k]][..k + 1] + m[k + 1..MacLength];
    var r := acc[..k] + m[k..MacLength];
    assert |l| == |r|;
    forall i | 0 <= i < |l| ensures l[i] == r[i] {
      if i < k { assert l[i] == acc[i]; } else if i == k { assert l[i] == m[k]; } else { assert l[i] == m[i]; }
    }
  }

  lemma {:induction false} ScanFormatFrom(m: seq<byte>, k: nat, acc: seq<byte>)
    requires MacLength <= |m| && k < MacLength && |acc| == MacLength
    ensures ScanFrom(FormatFrom(m, k), k, acc) == acc[..k] + m[k..MacLength]
    decreases MacLength - k
  {
    if k == MacLength - 1 {
      ScanFormatLast(m, acc);
    } else {
      var rest := FormatFrom(m, k + 1);
      ScanFormatStep(m, k, acc);
      ScanFormatFrom(m, k + 1, acc[k := m[k]]);
      UpdatePrefix(acc, m, k);
    }
  }

  /** The last byte of the address text scans back into the last place. */
  lemma ScanFormatLast(m: seq<byte>, acc: seq<byte>)
    requires MacLength <= |m| && |acc| == MacLength
    ensures ScanFrom(FormatFrom(m, MacLength - 1), MacLength - 1, acc) == acc[..MacLength - 1] + m[MacLength - 1..MacLength]
  {
    var b := m[MacLength - 1];
    assert FormatFrom(m, MacLength - 1) == FormatByte(b);
    ScanLastByte(b, acc);
    SetLast(acc, b);
    assert m[MacLength - 1..MacLength] == [b];
  }

  /** The last verb stores its byte and ends the scan. */
  lemma ScanLastByte(b: byte, acc: seq<byte>)
    requires |acc| == MacLength
    ensures ScanFrom(FormatByte(b), MacLength - 1, acc) == acc[MacLength - 1 := b]
  {
    var s := FormatByte(b);
    assert ScanByte(s) == Some((b, "")) by {
      ScanFormattedByte(b, "");
      assert s + "" == s;
    }
  }

  lemma SetLast(acc: seq<byte>, b: byte)
    requires |acc| == MacLength
    ensures acc[MacLength - 1 := b] == acc[..MacLength - 1] + [b]
  {
    var l, r := acc[MacLength - 1 := b], acc[..MacLength - 1] + [b];
    assert |l| == |r|;
    forall i | 0 <= i < |l| ensures l[i] == r[i] {
      if i < MacLength - 1 { assert r[i] == acc[i]; }
    }
  }

  /** A byte of the address text before a colon is stored, and scanning goes on after the colon. */
  lemma ScanFormatStep(m: seq<byte>, k: nat, acc: seq<byte>)
    requires MacLength <= |m| && k < MacLength - 1 && |acc| == MacLength
    ensures ScanFrom(FormatFrom(m, k), k, acc) == ScanFrom(FormatFrom(m, k + 1), k + 1, acc[k := m[k]])
  {
    var rest := FormatFrom(m, k + 1);
    ScanFormattedByte(m[k], ":" + rest);
    assert FormatFrom(m, k) == FormatByte(m[k]) + (":" + rest);
    ScanFromStep(FormatFrom(m, k), k, acc, m[k], rest);
  }

  /** Round trip: the shown address text reads back as the address. */
  lemma ScanFormatMac(m: seq<byte>)
    requires MacLength <= |m|
    ensures ScanMac(FormatMac(m)) == m[..MacLength]
  {
    ScanFormatFrom(m, 0, [0, 0, 0, 0, 0, 0]);
  }

  /** Text that is not an address leaves every byte 0 rather than failing the command. */
  lemma ScanMacGarbage(s: string)
    requires |s| > 0 && !IsScanSpace(s[0]) && s[0] != '\n' && !IsTokenChar(s[0])
    ensures ScanMac(s) == [0, 0, 0, 0, 0, 0]
  {
  }

  /** Scanning stops at the first separator that is not a colon, keeping the bytes read so far. */
  lemma ScanMacStopsAtSeparator(m: seq<byte>)
    requires |m| == 2
    ensures ScanMac(FormatByte(m[0]) + "-" + FormatByte(m[1])) == [m[0], 0, 0, 0, 0, 0]
  {
    var s := FormatByte(m[0]) + "-" + FormatByte(m[1]);
    assert s == FormatByte(m[0]) + ("-" + FormatByte(m[1]));
    assert !IsScanSpace(s[0]) && s[0] != '\n' by { assert HexValue(s[0]).Some?; }
    assert SkipSpace(s) == Some(s);
    assert s[0] == FormatByte(m[0])[0] && s[1] == FormatByte(m[0])[1] && s[2] == '-';
    assert ScanByte(s) == Some((m[0], s[2..]));
  }
}

/** Lines, chunk-size lines and header names: the lexical level of httprequest.cpp. */
module HttpSyntax {
  import opened Lists

  const CRLF := "\r\n"

  // ----- lines

  predicate CrlfAt(s: string, i: nat) { i + 2 <= |s| && s[i] == '\r' && s[i + 1] == '\n' }

  /** Index of the first CRLF, or the length of the buffer when there is none. */
  function FindCRLF(s: string): (n: nat)
    ensures n <= |s|
    ensures n < |s| ==> CrlfAt(s, n)
    ensures forall i | 0 <= i < n :: !CrlfAt(s, i)
  {
    if |s| < 2 then |s|
    else if CrlfAt(s, 0) then 0
    else
      assert forall i | 0 < i < |s| :: CrlfAt(s, i) <==> CrlfAt(s[1..], i - 1);
      1 + FindCRLF(s[1..])
  }

  /** `GetNextLine`: the first line with its CRLF, or nothing, and what stays in the buffer. */
  function NextLine(buffer: string): (r: (string, string))
    ensures r.0 + r.1 == buffer
    ensures r.0 == "" || |r.0| >= 2
    ensures r.0 == "" <==> forall i | 0 <= i < |buffer| :: !CrlfAt(buffer, i)
    ensures r.0 != "" ==> CrlfAt(r.0, |r.0| - 2) && forall i | 0 <= i < |r.0| - 2 :: !CrlfAt(buffer, i)
  {
    var n := FindCRLF(buffer);
    if n < |buffer| then (buffer[..n + 2], buffer[n + 2..]) else ("", buffer)
  }

  predicate IsLine(s: string) { |s| >= 2 && FindCRLF(s) == |s| - 2 }

  lemma FindUnique(s: string, n: nat)
    requires CrlfAt(s, n) && forall i | 0 <= i < n :: !CrlfAt(s, i)
    ensures FindCRLF(s) == n
  {}

  /** A line that is there stays the first line whatever follows. */
  lemma NextLineStable(buffer: string, more: string)
    requires NextLine(buffer).0 != ""
    ensures NextLine(buffer + more) == (NextLine(buffer).0, NextLine(buffer).1 + more)
  {
    var n := FindCRLF(buffer);
    var all := buffer + more;
    assert forall i | 0 <= i <= n :: CrlfAt(all, i) == CrlfAt(buffer, i);
    FindUnique(all, n);
    assert all[..n + 2] == buffer[..n + 2];
    assert all[n + 2..] == buffer[n + 2..] + more;
  }

  lemma NextLineOf(line: string, rest: string)
    requires IsLine(line)
    ensures NextLine(line + rest) == (line, rest)
  {
    assert NextLine(line).0 == line && NextLine(line).1 == "";
    NextLineStable(line, rest);
    assert "" + rest == rest;
  }

  /** A CRLF in the buffer means that there is a line to take. */
  lemma NextLineFinds(buffer: string, n: nat)
    requires CrlfAt(buffer, n)
    ensures NextLine(buffer).0 != ""
  {}

  // ----- chunk-size lines (section 3.6.1 of RFC 2616)

  const SIZE_MAX: nat := 0xFFFF_FFFF_FFFF_FFFF

  predicate IsHex(c: char) { '0' <= c <= '9' || 'A' <= c <= 'F' || 'a' <= c <= 'f' }

  function HexDigit(c: char): (d: nat)
    requires IsHex(c)
    ensures d < 16
  {
    if '0' <= c <= '9' then c as nat - '0' as nat
    else if 'A' <= c <= 'F' then c as nat - 'A' as nat + 10
    else c as nat - 'a' as nat + 10
  }

  /** Length of the leading run of hexadecimal digits. */
  function HexRun(s: string): (n: nat)
    ensures n <= |s| && (n < |s| ==> !IsHex(s[n]))
    ensures forall i | 0 <= i < n :: IsHex(s[i])
  {
    if s == "" || !IsHex(s[0]) then 0 else 1 + HexRun(s[1..])
  }

  function HexValue(s: string): nat
    requires forall i | 0 <= i < |s| :: IsHex(s[i])
  {
    if s == "" then 0 else 16 * HexValue(s[..|s| - 1]) + HexDigit(s[|s| - 1])
  }

  /**
   * The chunk length on a line: the regular expression asks for hexadecimal digits, then anything but
   * carriage returns up to the CRLF; `strtoul` saturates at the largest `unsigned long`.
   */
  function ChunkSize(line: string): Option<nat> {
    var n := HexRun(line);
    if 0 < n && n + 2 <= |line| && line[|line| - 2..] == CRLF && '\r' !in line[n..|line| - 2] then
      var v := HexValue(line[..n]);
      Some(if v <= SIZE_MAX then v else SIZE_MAX)
    else None
  }

  function HexChar(d: nat): (c: char)
    requires d < 16
    ensures IsHex(c) && HexDigit(c) == d
  {
    "0123456789abcdef"[d]
  }

  /** The usual spelling of a length. */
  function Hex(n: nat): (s: string)
    ensures s != "" && forall i | 0 <= i < |s| :: IsHex(s[i])
  {
    if n < 16 then [HexChar(n)] else Hex(n / 16) + [HexChar(n % 16)]
  }

  lemma {:induction false} HexRoundTrip(n: nat)
    ensures HexValue(Hex(n)) == n
  {
    if n < 16 {
      assert HexValue([]) == 0;
    } else {
      HexRoundTrip(n / 16);
      assert Hex(n)[..|Hex(n)| - 1] == Hex(n / 16);
    }
  }

  lemma {:induction false} HexRunAll(s: string, tail: string)
    requires (forall i | 0 <= i < |s| :: IsHex(s[i])) && tail != "" && !IsHex(tail[0])
    ensures HexRun(s + tail) == |s|
  {
    if s == "" {
      assert s + tail == tail;
    } else {
      assert (s + tail)[1..] == s[1..] + tail;
      HexRunAll(s[1..], tail);
    }
  }

  // Any spelling: digits with leading zeros, each in either case.

  /** The number that digits stand for. */
  function Numeral(ds: seq<nat>): nat {
    if ds == [] then 0 else 16 * Numeral(ds[..|ds| - 1]) + ds[|ds| - 1]
  }

  predicate Digits(ds: seq<nat>, upper: seq<bool>) { |ds| == |upper| && forall i | 0 <= i < |ds| :: ds[i] < 16 }

  /** The digits, written. */
  function Spelled(ds: seq<nat>, upper: seq<bool>): (s: string)
    requires Digits(ds, upper)
    ensures |s| == |ds|
  {
    seq(|ds|, i requires 0 <= i < |ds| => (if upper[i] then "0123456789ABCDEF" else "0123456789abcdef")[ds[i]])
  }

  lemma SpelledDigit(d: nat)
    requires d < 16
    ensures IsHex("0123456789abcdef"[d]) && HexDigit("0123456789abcdef"[d]) == d
    ensures IsHex("0123456789ABCDEF"[d]) && HexDigit("0123456789ABCDEF"[d]) == d
  {}

  lemma {:induction false} SpelledValue(ds: seq<nat>, upper: seq<bool>)
    requires Digits(ds, upper)
    ensures (forall i | 0 <= i < |ds| :: IsHex(Spelled(ds, upper)[i])) && HexValue(Spelled(ds, upper)) == Numeral(ds)
    decreases |ds|
  {
    hide IsHex, HexDigit;
    if ds != [] {
      var n := |ds| - 1;
      SpelledValue(ds[..n], upper[..n]);
      SpelledDigit(ds[n]);
      var s := Spelled(ds, upper);
      assert s[..n] == Spelled(ds[..n], upper[..n]);
      assert forall i | 0 <= i < n :: s[i] == s[..n][i];
    }
  }

  /**
   * The length on a chunk-size line, in whatever case it is spelled and with or without an extension: the number,
   * or the largest `unsigned long` if that is smaller.
   */
  lemma ChunkSizeSays(ds: seq<nat>, upper: seq<bool>, extension: string)
    requires ds != [] && Digits(ds, upper)
    requires '\r' !in extension && (extension == "" || !IsHex(extension[0]))
    ensures ChunkSize(Spelled(ds, upper) + extension + CRLF)
            == Some(if Numeral(ds) <= 0xFFFF_FFFF_FFFF_FFFF then Numeral(ds) else 0xFFFF_FFFF_FFFF_FFFF)
  {
    hide HexDigit, Spelled;
    SpelledValue(ds, upper);
    LineOfRun(Spelled(ds, upper), extension);
  }

  lemma LineOfRun(h: string, extension: string)
    requires h != "" && forall i | 0 <= i < |h| :: IsHex(h[i])
    requires '\r' !in extension && (extension == "" || !IsHex(extension[0]))
    ensures ChunkSize(h + extension + CRLF) == Some(if HexValue(h) <= SIZE_MAX then HexValue(h) else SIZE_MAX)
  {
    hide HexValue, HexRun, IsHex;
    var tail := extension + CRLF;
    assert h + extension + CRLF == h + tail;
    assert !IsHex(tail[0]) by { ReturnIsForeign(); }
    HexRunAll(h, tail);
    LineParts(h, extension);
  }

  lemma LineParts(h: string, extension: string)
    ensures var line, k := h + extension + CRLF, |h|;
            line[..k] == h && line[k..|line| - 2] == extension && line[|line| - 2..] == CRLF
  {}

  lemma ReturnIsForeign()
    ensures !IsHex('\r')
  {}

  /** A line with a chunk length is such a line. */
  lemma ChunkSizeOnly(line: string) returns (ds: seq<nat>, upper: seq<bool>, extension: string)
    requires ChunkSize(line).Some?
    ensures ds != [] && Digits(ds, upper) && line == Spelled(ds, upper) + extension + CRLF
    ensures '\r' !in extension && (extension == "" || !IsHex(extension[0]))
  {
    var n := HexRun(line);
    extension := line[n..|line| - 2];
    ds := seq(n, i requires 0 <= i < n => HexDigit(line[i]));
    upper := seq(n, i requires 0 <= i < n => 'A' <= line[i] <= 'F');
    forall i | 0 <= i < n ensures Spelled(ds, upper)[i] == line[i] {
      DigitIsSpelled(line[i]);
    }
    assert line[..n] == Spelled(ds, upper);
    assert line == line[..n] + extension + line[|line| - 2..];
  }

  lemma DigitIsSpelled(c: char)
    requires IsHex(c)
    ensures (if 'A' <= c <= 'F' then "0123456789ABCDEF" else "0123456789abcdef")[HexDigit(c)] == c
  {}

  /** Every length that fits `size_t` is read back from its hexadecimal line, also with an extension. */
  lemma ChunkSizeRoundTrip(n: nat, extension: string)
    requires n <= SIZE_MAX && '\r' !in extension && (extension == "" || !IsHex(extension[0]))
    ensures ChunkSize(Hex(n) + extension + CRLF) == Some(n)
  {
    HexRoundTrip(n);
    LineOfRun(Hex(n), extension);
  }

  // ----- names

  function LowerChar(c: char): char {
    if 'A' <= c <= 'Z' then (c as int + 32) as char else c
  }

  /** Header names are compared without regard to case. */
  function Lower(s: string): string {
    seq(|s|, i requires 0 <= i < |s| => LowerChar(s[i]))
  }

  /** `GetRequestMethodFromString`: whether the method is one the server knows. */
  predicate KnownMethod(m: string) {
    m in ["OPTIONS", "GET", "HEAD", "POST", "PUT", "DELETE", "TRACE", "CONNECT"]
  }

  /** `IsMultivalHeader`. */
  predicate IsMultivalHeader(name: string) {
    Lower(name) in
    ["accept-charset", "accept-encoding", "accept-language", "cache-control", "connection", "expect",
     "if-match", "if-none-match", "pragma", "sec-websocket-extensions", "sec-websocket-protocol",
     "sec-websocket-version", "trailer", "transfer-encoding", "upgrade", "via"]
  }
}

/**
 * The application/x-www-form-urlencoded serializer of the WHATWG URL Standard, which
 * `URLSearchParams.toString()` applies to each name and value: ASCII letters, digits and
 * `*-._` are kept, a space becomes `+`, and every other code point is written as the
 * `%XX` escapes of its UTF-8 bytes (upper-case hexadecimal).
 */
module Url {

  predicate IsUnreserved(c: char) {
    ('a' <= c <= 'z') || ('A' <= c <= 'Z') || ('0' <= c <= '9')
    || c == '*' || c == '-' || c == '.' || c == '_'
  }

  /** The UTF-8 encoding of one code point. */
  function Utf8(c: char): (bytes: seq<int>)
    ensures 1 <= |bytes| <= 4
    ensures forall i :: 0 <= i < |bytes| ==> 0 <= bytes[i] < 256
    ensures (c as int < 0x80) <==> |bytes| == 1
    ensures c as int < 0x80 ==> bytes == [c as int]
  {
    var cp := c as int;
    if cp < 0x80 then [cp]
    else if cp < 0x800 then [0xC0 + cp / 64, 0x80 + cp % 64]
    else if cp < 0x10000 then [0xE0 + cp / 4096, 0x80 + (cp / 64) % 64, 0x80 + cp % 64]
    else [0xF0 + cp / 262144, 0x80 + (cp / 4096) % 64, 0x80 + (cp / 64) % 64, 0x80 + cp % 64]
  }

  function HexDigit(n: int): (c: char)
    requires 0 <= n < 16
    ensures ('0' <= c <= '9') || ('A' <= c <= 'F')
  {
    if n < 10 then ('0' as int + n) as char else ('A' as int + n - 10) as char
  }

  function PercentBytes(bytes: seq<int>): (s: string)
    requires forall i :: 0 <= i < |bytes| ==> 0 <= bytes[i] < 256
    ensures |s| == 3 * |bytes|
    ensures forall i :: 0 <= i < |s| ==> s[i] == '%' || IsUnreserved(s[i])
  {
    if bytes == [] then []
    else ['%', HexDigit(bytes[0] / 16), HexDigit(bytes[0] % 16)] + PercentBytes(bytes[1..])
  }

  function EncodeChar(c: char): (s: string)
    ensures s != []
    ensures forall i :: 0 <= i < |s| ==> s[i] == '%' || s[i] == '+' || IsUnreserved(s[i])
  {
    if c == ' ' then "+"
    else if IsUnreserved(c) then [c]
    else PercentBytes(Utf8(c))
  }

  /** The serialized form of one value. */
  function FormEncode(s: string): (r: string)
    ensures |r| >= |s|
    ensures forall i :: 0 <= i < |r| ==> r[i] == '%' || r[i] == '+' || IsUnreserved(r[i])
  {
    if s == [] then [] else EncodeChar(s[0]) + FormEncode(s[1..])
  }

  /** A value made only of unreserved characters is serialized unchanged. */
  lemma {:induction false} FormEncodeUnreserved(s: string)
    requires forall i :: 0 <= i < |s| ==> IsUnreserved(s[i])
    ensures FormEncode(s) == s
  {
    if s != [] {
      FormEncodeUnreserved(s[1..]);
      assert [s[0]] + s[1..] == s;
    }
  }

  /**
   * A serialized value never contains `&`, `=`, `#`, `?` or `/`, so whatever the value, the
   * query it ends has exactly one parameter.
   */
  lemma SerializedValueIsInert(s: string)
    ensures forall c :: c in FormEncode(s) ==> c !in "&=#?/"
  {
  }
}

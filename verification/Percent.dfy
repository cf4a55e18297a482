/**
 Percent escapes in URL paths: what url.URL.String prints for a decoded path, and
 url.PathUnescape.  A char is a byte here.
 */
module Percent {
  import opened Collections
  import opened Segments

  predicate IsByte(c: char) {
    c < '\U{100}'
  }

  predicate Unreserved(c: char) {
    'a' <= c <= 'z' || 'A' <= c <= 'Z' || '0' <= c <= '9' || c == '-' || c == '_' || c == '.' || c == '~'
  }

  /** What url.URL.String leaves alone in a path. */
  predicate Unescaped(c: char) {
    || Unreserved(c) || c == '$' || c == '&' || c == '+' || c == ',' || c == '/' || c == ':' || c == ';'
    || c == '=' || c == '@'
  }

  function HexDigit(d: nat): char
    requires d < 16
  {
    if d < 10 then ('0' as int + d) as char else ('A' as int + d - 10) as char
  }

  predicate IsHex(c: char) {
    '0' <= c <= '9' || 'A' <= c <= 'F' || 'a' <= c <= 'f'
  }

  function HexValue(c: char): (d: nat)
    requires IsHex(c)
    ensures d < 16
  {
    if c <= '9' then c as int - '0' as int
    else if c <= 'F' then c as int - 'A' as int + 10
    else c as int - 'a' as int + 10
  }

  function EscapeChar(c: char): string {
    if Unescaped(c) then [c] else ['%', HexDigit(c as int / 16 % 16), HexDigit(c as int % 16)]
  }

  function Escape(s: string): string {
    if s == "" then "" else EscapeChar(s[0]) + Escape(s[1..])
  }

  /** url.PathUnescape, None for a malformed escape. */
  function Unescape(s: string): Option<string> {
    if s == "" then Some("")
    else if s[0] != '%' then Before(s[0], Unescape(s[1..]))
    else if |s| < 3 || !IsHex(s[1]) || !IsHex(s[2]) then None
    else Before((HexValue(s[1]) * 16 + HexValue(s[2])) as char, Unescape(s[3..]))
  }

  function Before(c: char, r: Option<string>): Option<string> {
    if r.None? then None else Some([c] + r.value)
  }

  predicate AllBytes(s: string) {
    forall i :: 0 <= i < |s| ==> IsByte(s[i])
  }

  lemma EscapeCharRoundTrip(c: char, rest: string)
    requires IsByte(c)
    ensures Unescape(EscapeChar(c) + rest) == Before(c, Unescape(rest))
  {
    var e := EscapeChar(c);
    if Unescaped(c) {
      assert (e + rest)[1..] == rest;
    } else {
      var n := c as int;
      assert n / 16 < 16 && n == n / 16 * 16 + n % 16;
      assert (e + rest)[3..] == rest;
    }
  }

  /** Unescaping undoes escaping, also after a prefix without escapes. */
  lemma {:induction false} UnescapeEscape(s: string)
    requires AllBytes(s)
    ensures Unescape(Escape(s)) == Some(s)
  {
    if s != "" {
      UnescapeEscape(s[1..]);
      EscapeCharRoundTrip(s[0], Escape(s[1..]));
      assert [s[0]] + s[1..] == s;
    }
  }

  lemma {:induction false} UnescapeAfter(a: string, b: string)
    requires '%' !in a && Unescape(b).Some?
    ensures Unescape(a + b) == Some(a + Unescape(b).value)
  {
    if a == "" {
      assert a + b == b && a + Unescape(b).value == Unescape(b).value;
    } else {
      UnescapeAfter(a[1..], b);
      assert (a + b)[1..] == a[1..] + b;
      assert [a[0]] + (a[1..] + Unescape(b).value) == a + Unescape(b).value;
    }
  }

  lemma {:induction false} EscapeConcat(a: string, b: string)
    ensures Escape(a + b) == Escape(a) + Escape(b)
  {
    hide EscapeChar;
    if a == "" {
      assert a + b == b;
    } else {
      EscapeConcat(a[1..], b);
      assert (a + b)[1..] == a[1..] + b && (a + b)[0] == a[0];
      assert Escape(a + b) == EscapeChar(a[0]) + (Escape(a[1..]) + Escape(b));
    }
  }

  /** What escaping does to one segment. */
  lemma {:induction false} EscapeSegment(s: string)
    ensures '/' in Escape(s) <==> '/' in s
    ensures Escape(s) == "" <==> s == ""
    ensures Escape(s) == s <==> '%' !in Escape(s)
    ensures |Escape(s)| >= |s|
    ensures Escape(s) != s ==> |Escape(s)| > |s|
  {
    if s != "" {
      EscapeSegment(s[1..]);
      var e, rest := EscapeChar(s[0]), Escape(s[1..]);
      assert s == [s[0]] + s[1..];
      assert '/' in e <==> s[0] == '/';
      assert '%' in e <==> !Unescaped(s[0]);
      assert forall c :: c in e + rest <==> c in e || c in rest;
    }
  }

  lemma {:induction false} UnreservedUnchanged(s: string)
    requires forall i :: 0 <= i < |s| ==> Unescaped(s[i])
    ensures Escape(s) == s
  {
    if s != "" {
      UnreservedUnchanged(s[1..]);
      assert s == [s[0]] + s[1..];
    }
  }

  function EscapeAll(segs: seq<string>): (r: seq<string>)
    ensures |r| == |segs| && forall i :: 0 <= i < |segs| ==> r[i] == Escape(segs[i])
  {
    seq(|segs|, i requires 0 <= i < |segs| => Escape(segs[i]))
  }

  lemma {:induction false} EscapeJoin(segs: seq<string>)
    ensures Escape(Join(segs)) == Join(EscapeAll(segs))
  {
    hide EscapeChar;
    if |segs| > 1 {
      EscapeJoin(segs[1..]);
      assert EscapeAll(segs)[1..] == EscapeAll(segs[1..]);
      EscapeConcat(segs[0] + "/", Join(segs[1..]));
      EscapeConcat(segs[0], "/");
      UnreservedUnchanged("/");
    }
  }

  // ---------- the tables ----------

  predicate Between(c: char, low: int, high: int) {
    low <= c as int <= high
  }

  /** A path prints a character as itself exactly if it is a digit, a letter or one of these marks: the unreserved
      characters of section 2.3 of RFC 3986, and of its reserved ones those that url.URL leaves alone. */
  lemma UnescapedIff(c: char)
    ensures Escape([c]) == [c] <==>
      || Between(c, 0x30, 0x39) || Between(c, 0x41, 0x5A) || Between(c, 0x61, 0x7A)
      || c in ['-', '_', '.', '~', '$', '&', '+', ',', '/', ':', ';', '=', '@']
  {
    assert [c][1..] == "" && Escape([c]) == EscapeChar(c) + "" == EscapeChar(c);
  }

  /** A hexadecimal digit as it may be written in an escape, in either case. */
  function AnyHexDigit(d: nat, lower: bool): char
    requires d < 16
  {
    if d < 10 then (0x30 + d) as char else if lower then (0x61 + d - 10) as char else (0x41 + d - 10) as char
  }

  /** Every escape is decoded, whatever the case of its digits, and with the rest of the text. */
  lemma EscapeDecodes(d: nat, e: nat, lowerD: bool, lowerE: bool, rest: string)
    requires d < 16 && e < 16
    ensures Unescape(['%', AnyHexDigit(d, lowerD), AnyHexDigit(e, lowerE)] + rest) ==
      Before((16 * d + e) as char, Unescape(rest))
  {
    var s := ['%', AnyHexDigit(d, lowerD), AnyHexDigit(e, lowerE)] + rest;
    assert s[1] == AnyHexDigit(d, lowerD) && s[2] == AnyHexDigit(e, lowerE) && s[3..] == rest;
    assert IsHex(s[1]) && IsHex(s[2]) && HexValue(s[1]) == d && HexValue(s[2]) == e;
  }

  /** Two hexadecimal digits in front. */
  ghost predicate StartsWithPair(s: string) {
    exists d: nat, e: nat, lowerD, lowerE :: d < 16 && e < 16 && [AnyHexDigit(d, lowerD), AnyHexDigit(e, lowerE)] <= s
  }

  lemma PairInFront(s: string)
    requires |s| >= 2 && IsHex(s[0]) && IsHex(s[1])
    ensures StartsWithPair(s)
  {
    var d, e, lowerD, lowerE := HexValue(s[0]), HexValue(s[1]), s[0] >= 'a', s[1] >= 'a';
    var x := [AnyHexDigit(d, lowerD), AnyHexDigit(e, lowerE)];
    assert x[0] == s[0] && x[1] == s[1] && x <= s;
  }

  /** A percent sign without two such digits after it makes the text malformed. */
  lemma Malformed(rest: string)
    requires !StartsWithPair(rest)
    ensures Unescape("%" + rest) == None
  {
    hide StartsWithPair;
    assert !(|rest| >= 2 && IsHex(rest[0]) && IsHex(rest[1])) by {
      if |rest| >= 2 && IsHex(rest[0]) && IsHex(rest[1]) {
        PairInFront(rest);
      }
    }
    var s := "%" + rest;
    assert s[0] == '%' && s[1..] == rest;
  }
}

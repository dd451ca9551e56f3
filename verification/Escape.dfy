/** Percent-encoding of RFC 3986, section 2.1, in the form-encoding variant that writes a space as '+'. */
module Escape {
  import opened Text

  predicate Unreserved(c: Byte)
  {
    'a' <= c <= 'z' || 'A' <= c <= 'Z' || '0' <= c <= '9' || c == '-' || c == '_' || c == '.' || c == '~'
  }

  function HexDigit(d: int): Byte
    requires 0 <= d < 16
  {
    if d < 10 then (d + '0' as int) as char else (d - 10 + 'A' as int) as char
  }

  function HexValue(c: Byte): Option<int>
  {
    if '0' <= c <= '9' then Some(c as int - '0' as int)
    else if 'a' <= c <= 'f' then Some(c as int - 'a' as int + 10)
    else if 'A' <= c <= 'F' then Some(c as int - 'A' as int + 10)
    else None
  }

  function EscapeByte(c: Byte): Str
  {
    if Unreserved(c) then [c]
    else if c == ' ' then ['+']
    else ['%', HexDigit(c as int / 16), HexDigit(c as int % 16)]
  }

  function QueryEscape(s: Str): Str
  {
    if s == [] then [] else EscapeByte(s[0]) + QueryEscape(s[1..])
  }

  /** Decoding; plus says whether '+' stands for a space. None is a malformed escape. */
  function Unescape(s: Str, plus: bool): Option<Str>
    decreases |s|
  {
    if s == [] then Some([])
    else if s[0] == '%' then
      if |s| < 3 || HexValue(s[1]).None? || HexValue(s[2]).None? then None
      else
        match Unescape(s[3..], plus)
        case None => None
        case Some(rest) => Some([(16 * HexValue(s[1]).value + HexValue(s[2]).value) as char] + rest)
    else
      match Unescape(s[1..], plus)
      case None => None
      case Some(rest) => Some([if plus && s[0] == '+' then ' ' else s[0]] + rest)
  }

  /** Decoding undoes encoding, for every byte string. */
  lemma {:induction false} UnescapeEscape(s: Str)
    ensures Unescape(QueryEscape(s), true) == Some(s)
  {
    if s != [] {
      UnescapeEscape(s[1..]);
      assert [s[0]] + s[1..] == s;
    }
  }

  /** An encoded name is one path segment, empty only for the empty name, and it starts with a dot only if
      the name does. */
  lemma {:induction false} EscapedIsOneSegment(s: Str)
    ensures NoSlash(QueryEscape(s))
    ensures QueryEscape(s) == [] <==> s == []
    ensures s != [] ==> (QueryEscape(s)[0] == '.' <==> s[0] == '.')
  {
    if s != [] {
      EscapedIsOneSegment(s[1..]);
      assert NoSlash(EscapeByte(s[0])) by { HexIsNotSlash(s[0]); }
    }
  }

  lemma HexIsNotSlash(c: Byte)
    ensures NoSlash(EscapeByte(c))
  {
  }

  lemma EscapeInjective(s: Str, t: Str)
    requires QueryEscape(s) == QueryEscape(t)
    ensures s == t
  {
    UnescapeEscape(s);
    UnescapeEscape(t);
  }

  // ---- The encoding, exactly ----

  /** ALPHA, DIGIT and the four marks of section 2.3 of RFC 3986. */
  predicate Mark(c: Byte)
  {
    'A' <= c <= 'Z' || 'a' <= c <= 'z' || '0' <= c <= '9' || c in ['-', '.', '_', '~']
  }

  predicate UpperHex(c: Byte)
  {
    '0' <= c <= '9' || 'A' <= c <= 'F'
  }

  function Digit(c: Byte): int
    requires UpperHex(c)
  {
    if c <= '9' then c as int - 0x30 else c as int - 0x37
  }

  /** Text in which only unreserved bytes stand for themselves, '+' for a space and two upper-case digits behind
      '%' for any other byte. */
  predicate Canonical(t: Str)
    decreases |t|
  {
    if t == [] then true
    else if t[0] == '%' then
      && |t| >= 3 && UpperHex(t[1]) && UpperHex(t[2])
      && var c := 16 * Digit(t[1]) + Digit(t[2]);
         c != 0x20 && !Mark(c as char) && Canonical(t[3..])
    else (Mark(t[0]) || t[0] == '+') && Canonical(t[1..])
  }

  lemma EscapedByte(c: Byte, rest: Str)
    requires Canonical(rest)
    ensures Canonical(EscapeByte(c) + rest)
  {
    var t := EscapeByte(c) + rest;
    if Unreserved(c) || c == ' ' {
      assert t[1..] == rest;
    } else {
      assert t[3..] == rest;
      assert Digit(t[1]) == c as int / 16 && Digit(t[2]) == c as int % 16;
    }
  }

  lemma {:induction false} EscapedIsCanonical(s: Str)
    ensures Canonical(QueryEscape(s))
  {
    if s != [] {
      EscapedIsCanonical(s[1..]);
      EscapedByte(s[0], QueryEscape(s[1..]));
    }
  }

  lemma PercentByte(t: Str)
    requires Canonical(t) && t != [] && t[0] == '%'
    ensures HexValue(t[1]) == Some(Digit(t[1])) && HexValue(t[2]) == Some(Digit(t[2]))
    ensures EscapeByte((16 * Digit(t[1]) + Digit(t[2])) as char) == t[..3]
  {
    var hi, lo := Digit(t[1]), Digit(t[2]);
    assert (16 * hi + lo) / 16 == hi && (16 * hi + lo) % 16 == lo;
    assert HexDigit(hi) == t[1] && HexDigit(lo) == t[2];
  }

  lemma {:induction false} CanonicalIsEscaped(t: Str, s: Str)
    requires Canonical(t) && Unescape(t, true) == Some(s)
    ensures t == QueryEscape(s)
    decreases |t|
  {
    if t != [] {
      assert s == [s[0]] + s[1..];
      if t[0] == '%' {
        PercentByte(t);
        CanonicalIsEscaped(t[3..], s[1..]);
        assert t == t[..3] + t[3..];
      } else {
        CanonicalIsEscaped(t[1..], s[1..]);
        assert t == [t[0]] + t[1..];
      }
    }
  }

  /** Decoding reads hexadecimal digits of either case, by their ASCII codes. */
  lemma HexValuesExactly(c: Byte, v: int)
    ensures HexValue(c) == Some(v) <==>
      (0 <= v < 10 && c as int == 0x30 + v) || (10 <= v < 16 && c as int in {0x41 + v - 10, 0x61 + v - 10})
  {
  }

  /** A name's encoding is the one canonical text that decodes to it. */
  lemma EscapedExactly(s: Str, t: Str)
    ensures t == QueryEscape(s) <==> Canonical(t) && Unescape(t, true) == Some(s)
  {
    UnescapeEscape(s);
    EscapedIsCanonical(s);
    if Canonical(t) && Unescape(t, true) == Some(s) {
      CanonicalIsEscaped(t, s);
    }
  }
}

/**
 Percent-escaping as Go's net/url performs it, byte by byte (section 2.1 of RFC 3986),
 in the two modes the client reaches: a query component (keys and values of
 `url.Values.Encode`) and a whole path (`URL.EscapedPath` inside `URL.String`).
 The unescaper is the inverse reading used by `url.ParseQuery` and `url.PathUnescape`.
 */
module Escaping {
  import opened Wrappers
  import opened Strings

  datatype Mode = Path | QueryComponent

  /** Letters, digits and `-` `_` `.` `~` (section 2.3 of RFC 3986): never escaped. */
  predicate Unreserved(c: char) {
    || 'a' <= c <= 'z' || 'A' <= c <= 'Z' || '0' <= c <= '9'
    || c == '-' || c == '_' || c == '.' || c == '~'
  }

  /** The reserved characters net/url treats mode by mode. */
  predicate Reserved(c: char) {
    c == '$' || c == '&' || c == '+' || c == ',' || c == '/'
    || c == ':' || c == ';' || c == '=' || c == '?' || c == '@'
  }

  /**
   Whether a byte is written as `%XX`. A path keeps every reserved character but `?`;
   a query component escapes all of them. Everything else that is not unreserved is
   escaped, including space, `%`, `#` and every byte from 0x80 up.
   */
  predicate ShouldEscape(c: char, mode: Mode) {
    if Unreserved(c) then false
    else if Reserved(c) then
      match mode
      case Path => c == '?'
      case QueryComponent => true
    else true
  }

  /** An upper-case hexadecimal digit. */
  function HexDigit(d: nat): (c: char)
    requires d < 16
  {
    if d < 10 then ('0' as int + d) as char else ('A' as int + d - 10) as char
  }

  predicate IsHex(c: char) {
    '0' <= c <= '9' || 'a' <= c <= 'f' || 'A' <= c <= 'F'
  }

  function HexValue(c: char): (v: nat)
    requires IsHex(c)
    ensures v < 16
  {
    if '0' <= c <= '9' then c as int - '0' as int
    else if 'a' <= c <= 'f' then c as int - 'a' as int + 10
    else c as int - 'A' as int + 10
  }

  /** The escaped form of one byte: `+` for a space in a query component, `%XX` or the byte itself. */
  function EscapeByte(c: char, mode: Mode): (r: GoString)
  {
    if c == ' ' && mode == QueryComponent then "+"
    else if ShouldEscape(c, mode) then ['%', HexDigit(c as int / 16 % 16), HexDigit(c as int % 16)]
    else [c]
  }

  /** The characters an escaped string is made of. */
  predicate Emitted(c: char, mode: Mode) {
    Unreserved(c) || c == '%'
    || match mode
       case Path => Reserved(c) && c != '?'
       case QueryComponent => c == '+'
  }

  /**
   `url.QueryEscape` (mode QueryComponent) and the path escaping of `URL.String` (mode Path).
   The output is made only of unreserved characters, `%` and the mode's kept characters,
   and a string that needs no escaping comes out unchanged.
   */
  function Escape(s: GoString, mode: Mode): (r: GoString)
    ensures forall i | 0 <= i < |r| :: Emitted(r[i], mode)
    ensures (forall i | 0 <= i < |s| :: !ShouldEscape(s[i], mode)) ==> r == s
    ensures |r| >= |s|
  {
    if s == [] then ""
    else
      assert forall i | 0 <= i < |s| - 1 :: s[1..][i] == s[i + 1];
      EscapeByte(s[0], mode) + Escape(s[1..], mode)
  }

  /** A query component never contains the separators `&`, `=`, `?` or `#` once escaped. */
  lemma QueryEscapeHasNoSeparator(s: GoString)
    ensures '&' !in Escape(s, QueryComponent)
    ensures '=' !in Escape(s, QueryComponent)
    ensures '?' !in Escape(s, QueryComponent)
    ensures '#' !in Escape(s, QueryComponent)
  {
  }

  /** An escaped path never contains `?` or `#`, so it cannot run into a query or a fragment. */
  lemma PathEscapeHasNoQueryMark(s: GoString)
    ensures '?' !in Escape(s, Path)
    ensures '#' !in Escape(s, Path)
  {
  }


  /**
   Reading an escaped string back: `%XX` (either case) is one byte, `+` is a space in a
   query component, anything else stands for itself. A `%` not followed by two hex
   digits makes the whole string invalid.
   */
  function Unescape(s: GoString, mode: Mode): Option<GoString>
    decreases |s|
  {
    if s == [] then Some("")
    else if s[0] == '%' then
      if |s| >= 3 && IsHex(s[1]) && IsHex(s[2]) then
        Prepend((HexValue(s[1]) * 16 + HexValue(s[2])) as char, Unescape(s[3..], mode))
      else None
    else if s[0] == '+' && mode == QueryComponent then Prepend(' ', Unescape(s[1..], mode))
    else Prepend(s[0], Unescape(s[1..], mode))
  }

  lemma HexRoundTrip(d: nat)
    requires d < 16
    ensures IsHex(HexDigit(d)) && HexValue(HexDigit(d)) == d
  {
  }

  /** Unescaping one escaped byte in front of anything gives that byte in front. */
  lemma UnescapeStep(c: char, rest: GoString, mode: Mode)
    requires IsByte(c)
    ensures Unescape(EscapeByte(c, mode) + rest, mode) == Prepend(c, Unescape(rest, mode))
  {
    if c == ' ' && mode == QueryComponent {
      UnescapeAfterOne('+', rest, mode);
    } else if ShouldEscape(c, mode) {
      UnescapeHexStep(c, rest, mode);
    } else {
      UnescapeAfterOne(c, rest, mode);
    }
  }

  lemma UnescapeAfterOne(c: char, rest: GoString, mode: Mode)
    requires c != '%'
    ensures Unescape([c] + rest, mode)
         == Prepend(if c == '+' && mode == QueryComponent then ' ' else c, Unescape(rest, mode))
  {
    assert ([c] + rest)[1..] == rest;
  }

  lemma UnescapeHexStep(c: char, rest: GoString, mode: Mode)
    requires IsByte(c)
    ensures Unescape(['%', HexDigit(c as int / 16 % 16), HexDigit(c as int % 16)] + rest, mode)
         == Prepend(c, Unescape(rest, mode))
  {
    var s := ['%', HexDigit(c as int / 16 % 16), HexDigit(c as int % 16)] + rest;
    HexRoundTrip(c as int / 16);
    HexRoundTrip(c as int % 16);
    assert s[3..] == rest;
    assert (c as int / 16 * 16 + c as int % 16) as char == c;
  }

  /** Escaping loses nothing: the unescaper recovers every byte string exactly. */
  lemma {:induction false} UnescapeEscape(s: GoString, mode: Mode)
    requires IsBytes(s)
    ensures Unescape(Escape(s, mode), mode) == Some(s)
    decreases |s|
  {
    if s != [] {
      UnescapeStep(s[0], Escape(s[1..], mode), mode);
      UnescapeEscape(s[1..], mode);
      assert s == [s[0]] + s[1..];
    }
  }
}

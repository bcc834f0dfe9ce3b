/** The two pieces of Rust's `std::fmt` the dialects and `dove build` rely on: the `{:?}`
    (Debug) rendering of a `&str`, used to name offending literals in error
    messages, and the `{}` (Display) rendering of a `usize`, used in artifact
    file names. Each comes with a parser that inverts it. */
module Fmt {
  import opened Wrappers

  /** Debug escape of one character. Only the escapes that apply to ASCII
      input are modelled (see the README). */
  function EscapeChar(c: char): string
  {
    match c
    case '"' => "\\\""
    case '\\' => "\\\\"
    case '\n' => "\\n"
    case '\r' => "\\r"
    case '\t' => "\\t"
    case '\0' => "\\0"
    case _ => [c]
  }

  function Escape(s: string): string
  {
    if s == [] then [] else EscapeChar(s[0]) + Escape(s[1..])
  }

  /** `format!("{:?}", s)` for a string slice: the escaped text in double quotes. */
  function DebugStr(s: string): (r: string)
    ensures |r| >= 2 && r[0] == '"' && r[|r| - 1] == '"'
  {
    "\"" + Escape(s) + "\""
  }

  /** The character a backslash escape stands for. */
  function Unescaped(c: char): Option<char>
  {
    match c
    case '"' => Some('"')
    case '\\' => Some('\\')
    case 'n' => Some('\n')
    case 'r' => Some('\r')
    case 't' => Some('\t')
    case '0' => Some('\0')
    case _ => None
  }

  /** Inverse of `Escape`: undoes the escapes, rejecting a lone backslash,
      an unknown escape or an unescaped double quote. */
  function Unescape(t: string): Option<string>
    decreases |t|
  {
    if t == [] then Some([])
    else if t[0] == '\\' then
      if |t| < 2 then None
      else match (Unescaped(t[1]), Unescape(t[2..]))
        case (Some(c), Some(rest)) => Some([c] + rest)
        case _ => None
    else if t[0] == '"' then None
    else match Unescape(t[1..])
      case Some(rest) => Some([t[0]] + rest)
      case None => None
  }

  /** Reads back a `{:?}`-rendered string. */
  function ParseDebugStr(m: string): Option<string>
  {
    if |m| >= 2 && m[0] == '"' && m[|m| - 1] == '"' then Unescape(m[1..|m| - 1]) else None
  }

  lemma UnescapeEscapeChar(c: char, rest: string)
    ensures Unescape(EscapeChar(c) + rest) == match Unescape(rest) case Some(r) => Some([c] + r) case None => None
  {
    var e := EscapeChar(c) + rest;
    if |EscapeChar(c)| == 2 {
      assert e[2..] == rest;
    } else {
      assert e[1..] == rest;
    }
  }

  lemma {:induction false} UnescapeEscape(s: string)
    ensures Unescape(Escape(s)) == Some(s)
  {
    if s != [] {
      UnescapeEscape(s[1..]);
      UnescapeEscapeChar(s[0], Escape(s[1..]));
      assert [s[0]] + s[1..] == s;
    }
  }

  /** The Debug rendering of a string determines the string: an error message
      that embeds `{:?}` of a literal names exactly that literal. */
  lemma DebugStrRoundTrip(s: string)
    ensures ParseDebugStr(DebugStr(s)) == Some(s)
  {
    var m := DebugStr(s);
    assert m[1..|m| - 1] == Escape(s);
    UnescapeEscape(s);
  }

  lemma DebugStrInjective(s: string, t: string)
    ensures DebugStr(s) == DebugStr(t) ==> s == t
  {
    DebugStrRoundTrip(s);
    DebugStrRoundTrip(t);
  }

  /** Recovers the literal from a message of the form
      `prefix + {:?} of the literal + suffix`. */
  function QuotedBetween(prefix: string, suffix: string, m: string): Option<string>
  {
    if |prefix| + |suffix| <= |m| && m[..|prefix|] == prefix && m[|m| - |suffix|..] == suffix
    then ParseDebugStr(m[|prefix|..|m| - |suffix|])
    else None
  }

  lemma QuotedBetweenRoundTrip(prefix: string, s: string, suffix: string)
    ensures QuotedBetween(prefix, suffix, prefix + DebugStr(s) + suffix) == Some(s)
  {
    var m := prefix + DebugStr(s) + suffix;
    assert m[..|prefix|] == prefix;
    assert m[|m| - |suffix|..] == suffix;
    assert m[|prefix|..|m| - |suffix|] == DebugStr(s);
    DebugStrRoundTrip(s);
  }

  // ----- `{}` of an unsigned integer -----

  function DigitChar(d: nat): char
    requires d < 10
  {
    "0123456789"[d]
  }

  predicate IsDigit(c: char) { '0' <= c <= '9' }

  /** Decimal rendering without leading zeros. */
  function NatToString(n: nat): (s: string)
    ensures |s| >= 1
    ensures forall i :: 0 <= i < |s| ==> IsDigit(s[i])
  {
    if n < 10 then [DigitChar(n)] else NatToString(n / 10) + [DigitChar(n % 10)]
  }

  function ParseNat(s: string): nat
  {
    if s == [] then 0
    else
      var c := s[|s| - 1];
      ParseNat(s[..|s| - 1]) * 10 + (if IsDigit(c) then (c as int - '0' as int) else 0)
  }

  lemma {:induction false} NatToStringRoundTrip(n: nat)
    ensures ParseNat(NatToString(n)) == n
  {
    var s := NatToString(n);
    if n < 10 {
      assert s[..0] == [];
    } else {
      assert s[..|s| - 1] == NatToString(n / 10);
      NatToStringRoundTrip(n / 10);
    }
  }

  /** Distinct numbers render to distinct strings. */
  lemma NatToStringInjective(a: nat, b: nat)
    ensures NatToString(a) == NatToString(b) ==> a == b
  {
    NatToStringRoundTrip(a);
    NatToStringRoundTrip(b);
  }
}

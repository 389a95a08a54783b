/** Python's repr() of a str, which OSError's message uses for the file
    name (`[Errno 2] No such file or directory: <repr of the name>`). */
module PyRepr {
  import opened Common

  /** The quote repr() puts around `s`: a single quote, unless `s`
      contains a single quote and no double quote. */
  function QuoteFor(s: string): (q: char)
    ensures q == '\'' || q == '"'
    ensures q == '"' <==> ('\'' in s && '"' !in s)
  {
    if '\'' in s && '"' !in s then '"' else '\''
  }

  function HexDigit(d: nat): char
    requires d < 16
  {
    "0123456789abcdef"[d]
  }

  function HexValue(c: char): Option<nat>
  {
    if '0' <= c <= '9' then Some(c as int - '0' as int)
    else if 'a' <= c <= 'f' then Some(c as int - 'a' as int + 10)
    else None
  }

  /** An ASCII control character that repr() writes as `\xhh`. */
  predicate IsControl(c: char)
  {
    c as int < 0x20 || c as int == 0x7F
  }

  /** How repr() writes one character inside the quotes `q`. */
  function EscapeChar(c: char, q: char): (r: string)
    ensures |r| >= 1
  {
    if c == q || c == '\\' then ['\\', c]
    else if c == '\t' then "\\t"
    else if c == '\n' then "\\n"
    else if c == '\r' then "\\r"
    else if IsControl(c) then "\\x" + [HexDigit(c as int / 16), HexDigit(c as int % 16)]
    else [c]
  }

  function Escape(s: string, q: char): string
  {
    if s == [] then [] else EscapeChar(s[0], q) + Escape(s[1..], q)
  }

  /** repr(s): the escaped characters between the chosen quotes. */
  function Repr(s: string): (r: string)
    ensures |r| >= 2 && r[0] == QuoteFor(s) && r[|r| - 1] == QuoteFor(s)
  {
    var q := QuoteFor(s);
    [q] + Escape(s, q) + [q]
  }

  function Prepend(c: char, r: Option<string>): Option<string>
  {
    match r
    case None => None
    case Some(s) => Some([c] + s)
  }

  /** Reads back the characters between the quotes: the inverse of Escape. */
  function Unescape(t: string): Option<string>
    decreases |t|
  {
    if t == [] then Some([])
    else if t[0] != '\\' then Prepend(t[0], Unescape(t[1..]))
    else if |t| < 2 then None
    else if t[1] == 't' then Prepend('\t', Unescape(t[2..]))
    else if t[1] == 'n' then Prepend('\n', Unescape(t[2..]))
    else if t[1] == 'r' then Prepend('\r', Unescape(t[2..]))
    else if t[1] == 'x' then
      if |t| < 4 then None
      else
        match (HexValue(t[2]), HexValue(t[3]))
        case (Some(hi), Some(lo)) =>
          if hi < 16 && lo < 16 then Prepend((16 * hi + lo) as char, Unescape(t[4..])) else None
        case _ => None
    else Prepend(t[1], Unescape(t[2..]))
  }

  /** Reads a repr() back: the inverse of Repr. */
  function Unquote(r: string): Option<string>
  {
    if |r| < 2 then None else Unescape(r[1..|r| - 1])
  }

  lemma HexRoundTrip(d: nat)
    requires d < 16
    ensures HexValue(HexDigit(d)) == Some(d)
  {
  }

  /** One escaped character reads back as itself. */
  lemma UnescapeChar(c: char, q: char, rest: string)
    requires q == '\'' || q == '"'
    ensures Unescape(EscapeChar(c, q) + rest) == Prepend(c, Unescape(rest))
  {
    var t := EscapeChar(c, q) + rest;
    if c == q || c == '\\' {
      assert t[..2] == ['\\', c] && t[2..] == rest;
    } else if c == '\t' || c == '\n' || c == '\r' {
      assert t[2..] == rest;
    } else if IsControl(c) {
      var hi, lo := c as int / 16, c as int % 16;
      HexRoundTrip(hi);
      HexRoundTrip(lo);
      assert t[1] == 'x' && t[2] == HexDigit(hi) && t[3] == HexDigit(lo);
      assert t[4..] == rest;
      assert (16 * hi + lo) as char == c;
    } else {
      assert t[1..] == rest;
    }
  }

  /** Escape loses nothing: every character reads back, in order. */
  lemma {:induction false} UnescapeEscape(s: string, q: char)
    requires q == '\'' || q == '"'
    ensures Unescape(Escape(s, q)) == Some(s)
    decreases |s|
  {
    if s != [] {
      UnescapeEscape(s[1..], q);
      UnescapeChar(s[0], q, Escape(s[1..], q));
      assert [s[0]] + s[1..] == s;
    }
  }

  /** repr() is invertible: a logged file name identifies the file. */
  lemma ReprRoundTrip(s: string)
    ensures Unquote(Repr(s)) == Some(s)
  {
    var q := QuoteFor(s);
    assert Repr(s)[1..|Repr(s)| - 1] == Escape(s, q);
    UnescapeEscape(s, q);
  }

  /** A name with no quote, backslash or control character is written
      as-is between single quotes. */
  lemma {:induction false} EscapePlain(s: string, q: char)
    requires forall i :: 0 <= i < |s| ==> s[i] != q && s[i] != '\\' && !IsControl(s[i])
    ensures Escape(s, q) == s
    decreases |s|
  {
    if s != [] {
      EscapePlain(s[1..], q);
      assert [s[0]] + s[1..] == s;
    }
  }

  lemma ReprPlain(s: string)
    requires forall i :: 0 <= i < |s| ==> s[i] != '\'' && s[i] != '\\' && !IsControl(s[i])
    ensures Repr(s) == "'" + s + "'"
  {
    assert '\'' !in s;
    EscapePlain(s, '\'');
  }

  /** A name holding an apostrophe and no double quote is written between
      double quotes, the apostrophe unescaped: `"it's.txt"`. */
  lemma ReprApostrophe(s: string)
    requires '\'' in s
    requires forall i :: 0 <= i < |s| ==> s[i] != '"' && s[i] != '\\' && !IsControl(s[i])
    ensures Repr(s) == "\"" + s + "\""
  {
    EscapePlain(s, '"');
  }
}

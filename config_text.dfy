/*
  The Lua literals the configuration writer produces for string values
  (ConfVarString::Write) and for table keys (the key quoting inside
  ConfVarTable::Write), both in engine/config/ConfigBase.cpp, together with
  a reader for those literals that follows the Lua 5.1 lexer: a key is
  either a bare name that is not a reserved word or a bracketed,
  double-quoted string, and a double-quoted string may hold neither a raw
  quote nor a raw line break.
*/
module ConfigText {
  import opened Wrappers

  /** What the writer emits for one character of a string value. */
  function EscapeChar(c: char): string
  {
    match c
    case '\\' => "\\\\"
    case '\r' => "\\r"
    case '\n' => "\\n"
    case '"' => "\\\""
    case '\t' => "\\t"
    case _ => [c]
  }

  /** The characters the writer replaces by an escape sequence. */
  predicate IsSpecial(c: char)
  {
    c == '\\' || c == '\r' || c == '\n' || c == '"' || c == '\t'
  }

  function Escaped(s: string): string
    decreases |s|
  {
    if s == [] then [] else EscapeChar(s[0]) + Escaped(s[1..])
  }

  /** ConfVarString::Write: the text between double quotes, escaped. */
  function Quoted(s: string): (r: string)
    ensures |r| >= 2 && r[0] == '"' && r[|r| - 1] == '"'
  {
    "\"" + Escaped(s) + "\""
  }

  // ---------------------------------------------------------------------
  // Reading the literals back

  function Cons(c: char, rest: Option<string>): Option<string>
  {
    if rest.None? then None else Some([c] + rest.value)
  }

  /** The character a one-letter Lua escape `\e` stands for (decimal escapes
      are not needed to read what the writer produces and are rejected). */
  function EscapeMeaning(e: char): Option<char>
  {
    match e
    case '\\' => Some('\\')
    case '"' => Some('"')
    case '\'' => Some('\'')
    case 'n' => Some('\n')
    case 'r' => Some('\r')
    case 't' => Some('\t')
    case 'a' => Some(7 as char)
    case 'b' => Some(8 as char)
    case 'f' => Some(12 as char)
    case 'v' => Some(11 as char)
    case _ => None
  }

  /** The text of the body of a double-quoted Lua string; `None` when the
      body is not one (a raw quote ends the string early, a raw line break
      is "unfinished string"). */
  function Unescape(t: string): Option<string>
    decreases |t|
  {
    if t == [] then Some([])
    else if t[0] == '\\' then
      if |t| < 2 then None
      else
        var c := EscapeMeaning(t[1]);
        if c.None? then None else Cons(c.value, Unescape(t[2..]))
    else if t[0] == '"' || t[0] == '\n' || t[0] == '\r' then None
    else Cons(t[0], Unescape(t[1..]))
  }

  function Unquote(t: string): Option<string>
  {
    if |t| >= 2 && t[0] == '"' && t[|t| - 1] == '"' then Unescape(t[1..|t| - 1]) else None
  }

  lemma UnescapeEscapeChar(c: char, rest: string)
    ensures Unescape(EscapeChar(c) + rest) == Cons(c, Unescape(rest))
  {
    var t := EscapeChar(c) + rest;
    if IsSpecial(c) {
      assert t[0] == '\\' && t[2..] == rest;
    } else {
      assert t[0] == c && t[1..] == rest;
    }
  }

  /** Reading back the escaped text of any string yields that string. */
  lemma {:induction false} EscapedRoundTrip(s: string)
    ensures Unescape(Escaped(s)) == Some(s)
    decreases |s|
  {
    if s != [] {
      EscapedRoundTrip(s[1..]);
      UnescapeEscapeChar(s[0], Escaped(s[1..]));
      assert [s[0]] + s[1..] == s;
    }
  }

  /** A string value written by the configuration writer reads back as itself. */
  lemma QuotedRoundTrip(s: string)
    ensures Unquote(Quoted(s)) == Some(s)
  {
    var q := Quoted(s);
    assert q[1..|q| - 1] == Escaped(s);
    EscapedRoundTrip(s);
  }

  /** Every character other than the five special ones is copied verbatim. */
  lemma {:induction false} EscapedPlain(s: string)
    requires forall i :: 0 <= i < |s| ==> !IsSpecial(s[i])
    ensures Escaped(s) == s
    decreases |s|
  {
    if s != [] {
      EscapedPlain(s[1..]);
      assert [s[0]] + s[1..] == s;
    }
  }

  // ---------------------------------------------------------------------
  // Table keys

  predicate IsAlpha(c: char) { 'a' <= c <= 'z' || 'A' <= c <= 'Z' }

  predicate IsDigit(c: char) { '0' <= c <= '9' }

  /** The `safe` test of ConfVarTable::Write: letters and underscores
      anywhere, digits anywhere but in front. */
  predicate BareAsWritten(k: string)
  {
    forall i :: 0 <= i < |k| ==> IsAlpha(k[i]) || k[i] == '_' || (0 < i && IsDigit(k[i]))
  }

  /** The escapes ConfVarTable::Write uses inside a quoted key: those of
      string values except the carriage return, which is copied raw. */
  function KeyEscapeCharAsWritten(c: char): string
  {
    match c
    case '\\' => "\\\\"
    case '\n' => "\\n"
    case '"' => "\\\""
    case '\t' => "\\t"
    case _ => [c]
  }

  function KeyEscapedAsWritten(s: string): string
    decreases |s|
  {
    if s == [] then [] else KeyEscapeCharAsWritten(s[0]) + KeyEscapedAsWritten(s[1..])
  }

  /** A key as ConfVarTable::Write emits it: bare when `safe`, otherwise
      `["…"]` with the key escapes. */
  function KeyLiteralAsWritten(k: string): string
  {
    if BareAsWritten(k) then k else "[\"" + KeyEscapedAsWritten(k) + "\"]"
  }

  /** The reserved words of Lua 5.1, which cannot be used as bare names. */
  const RESERVED: set<string> := {"and", "break", "do", "else", "elseif", "end", "false",
    "for", "function", "if", "in", "local", "nil", "not", "or", "repeat", "return",
    "then", "true", "until", "while"}

  /** A Lua name: a non-empty identifier that is not a reserved word. */
  predicate IsName(t: string)
  {
    |t| > 0 && BareAsWritten(t) && t !in RESERVED
  }

  /** The key a Lua table-constructor field key denotes, if it is one. */
  function ParseKey(t: string): Option<string>
  {
    if IsName(t) then Some(t)
    else if |t| >= 4 && t[..2] == "[\"" && t[|t| - 2..] == "\"]" then Unescape(t[2..|t| - 2])
    else None
  }

  /** The corrected key quoting: bare only for a Lua name, and quoted keys
      use the full string escapes. */
  function KeyLiteral(k: string): (r: string)
    ensures r == k || (|r| >= 4 && r[0] == '[')
  {
    if IsName(k) then k else "[\"" + Escaped(k) + "\"]"
  }

  /** Every key written with the corrected quoting reads back as itself. */
  lemma KeyRoundTrip(k: string)
    ensures ParseKey(KeyLiteral(k)) == Some(k)
  {
    if !IsName(k) {
      var t := KeyLiteral(k);
      assert !BareAsWritten(t) by {
        assert t[0] == '[';
      }
      assert t[..2] == "[\"" && t[|t| - 2..] == "\"]";
      assert t[2..|t| - 2] == Escaped(k);
      EscapedRoundTrip(k);
    }
  }

  /** The keys the written quoting cannot express: an empty key is written as
      nothing, and a reserved word is written bare. */
  lemma EmptyOrReservedKeyUnreadable(k: string)
    requires k == [] || k in RESERVED
    ensures KeyLiteralAsWritten(k) == k
    ensures ParseKey(KeyLiteralAsWritten(k)) == None
  {
    assert forall i :: 0 <= i < |k| ==> IsAlpha(k[i]);
  }

  lemma {:induction false} RawCarriageReturnRejected(s: string, i: nat)
    requires i < |s| && s[i] == '\r'
    ensures Unescape(KeyEscapedAsWritten(s)) == None
    decreases |s|
  {
    var t := KeyEscapedAsWritten(s);
    if s[0] == '\r' {
      assert t[0] == '\r';
    } else {
      RawCarriageReturnRejected(s[1..], i - 1);
      UnescapeEscapeChar(s[0], KeyEscapedAsWritten(s[1..]));
      assert KeyEscapeCharAsWritten(s[0]) == EscapeChar(s[0]);
    }
  }

  /** A key holding a carriage return is written with the raw character
      inside the quotes, which a Lua reader rejects. */
  lemma CarriageReturnKeyUnreadable(k: string, i: nat)
    requires i < |k| && k[i] == '\r'
    ensures ParseKey(KeyLiteralAsWritten(k)) == None
  {
    assert !BareAsWritten(k) by {
      assert !IsAlpha(k[i]) && !IsDigit(k[i]);
    }
    var t := KeyLiteralAsWritten(k);
    assert !BareAsWritten(t) by {
      assert t[0] == '[';
    }
    assert t[..2] == "[\"" && t[|t| - 2..] == "\"]";
    assert t[2..|t| - 2] == KeyEscapedAsWritten(k);
    RawCarriageReturnRejected(k, i);
  }
}

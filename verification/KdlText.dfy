/** Quoting as the layout writer does it, and reading as KDL 1.0 does it. */
module KdlText {
  import opened Wrappers

  // ----- Writing: json.dumps(value, ensure_ascii=False) --------------------------------------

  function HexDigit(n: nat): char
    requires n < 16
  {
    "0123456789abcdef"[n]
  }

  function EscapeChar(c: char): string {
    if c == '\"' then "\\\""
    else if c == '\\' then "\\\\"
    else if c == '\n' then "\\n"
    else if c == '\r' then "\\r"
    else if c == '\t' then "\\t"
    else if c as int == 8 then "\\b"
    else if c as int == 12 then "\\f"
    else if c < ' ' then "\\u00" + [HexDigit(c as int / 16), HexDigit(c as int % 16)]
    else [c]
  }

  function Escape(value: string): string {
    if value == "" then "" else EscapeChar(value[0]) + Escape(value[1..])
  }

  function Quote(value: string): string {
    "\"" + Escape(value) + "\""
  }

  // ----- Reading a KDL 1.0 string ------------------------------------------------------------

  function HexValue(c: char): Option<nat> {
    if '0' <= c <= '9' then Some(c as int - '0' as int)
    else if 'a' <= c <= 'f' then Some(c as int - 'a' as int + 10)
    else if 'A' <= c <= 'F' then Some(c as int - 'A' as int + 10)
    else None
  }

  /** One to six hexadecimal digits and a closing brace, as in `\u{1F}`. */
  function ReadCodePoint(s: string, digits: nat, value: nat): (r: Option<(char, string)>)
    ensures r.Some? ==> |r.value.1| < |s|
  {
    if s == "" then None
    else if s[0] == '}' then
      if 1 <= digits <= 6
          && (value < 0xD800 || 0xE000 <= value < 0x11_0000) then Some((value as char, s[1..])) else None
    else
      match HexValue(s[0])
      case None => None
      case Some(d) => ReadCodePoint(s[1..], digits + 1, 16 * value + d)
  }

  /** The character an escape stands for, after its backslash. */
  function ReadEscape(s: string): (r: Option<(char, string)>)
    ensures r.Some? ==> |r.value.1| < |s|
  {
    if s == "" then None
    else if s[0] == 'n' then Some(('\n', s[1..]))
    else if s[0] == 'r' then Some(('\r', s[1..]))
    else if s[0] == 't' then Some(('\t', s[1..]))
    else if s[0] == 'b' then Some((8 as char, s[1..]))
    else if s[0] == 'f' then Some((12 as char, s[1..]))
    else if s[0] == '\\' || s[0] == '/' || s[0] == '\"' then Some((s[0], s[1..]))
    else if s[0] == 'u' && |s| > 1 && s[1] == '{' then ReadCodePoint(s[2..], 0, 0)
    else None
  }

  /** The value up to the closing quote, and the text after it. */
  function ReadString(s: string): (r: Option<(string, string)>)
    ensures r.Some? ==> |r.value.1| < |s|
    decreases |s|
  {
    if s == "" then None
    else if s[0] == '\"' then Some(("", s[1..]))
    else
      var head := if s[0] == '\\' then ReadEscape(s[1..]) else Some((s[0], s[1..]));
      match head
      case None => None
      case Some((c, rest)) =>
        match ReadString(rest)
        case None => None
        case Some((value, after)) => Some(([c] + value, after))
  }

  /** The control characters both notations spell the same way. */
  predicate CleanChar(c: char) {
    c >= ' ' || c as int in {8, 9, 10, 12, 13}
  }

  predicate Clean(value: string) {
    forall i :: 0 <= i < |value| ==> CleanChar(value[i])
  }

  /** A quoted value is read back, unless it holds a control character only JSON can spell. */
  lemma {:induction false} ReadQuoted(value: string, s: string)
    ensures ReadString(Escape(value) + "\"" + s) == if Clean(value) then Some((value, s)) else None
  {
    if value == "" {
      assert (Escape(value) + "\"" + s)[1..] == s;
    } else {
      var c, tail := value[0], value[1..];
      var rest := Escape(tail) + "\"" + s;
      assert Escape(value) + "\"" + s == EscapeChar(c) + rest;
      assert value == [c] + tail;
      ReadQuoted(tail, s);
      CleanSplit(value);
      ReadEscaped(c, rest);
    }
  }

  lemma CleanSplit(value: string)
    requires value != ""
    ensures Clean(value) <==> CleanChar(value[0]) && Clean(value[1..])
  {
    if CleanChar(value[0]) && Clean(value[1..]) {
      forall i | 0 <= i < |value|
        ensures CleanChar(value[i])
      {
        assert i > 0 ==> value[i] == value[1..][i - 1];
      }
    }
  }

  /** The reading of `c` followed by whatever `rest` reads as. */
  function Cons(c: char, r: Option<(string, string)>): Option<(string, string)> {
    if r.None? then None else Some(([c] + r.value.0, r.value.1))
  }

  lemma ReadEscaped(c: char, rest: string)
    ensures ReadString(EscapeChar(c) + rest) == if CleanChar(c) then Cons(c, ReadString(rest)) else None
  {
    if |EscapeChar(c)| == 1 {
      assert ([c] + rest)[1..] == rest;
    } else if |EscapeChar(c)| == 2 {
      ReadPair(EscapeChar(c)[1], c, rest);
      assert EscapeChar(c) == ['\\', EscapeChar(c)[1]];
    } else {
      ReadNumeric(EscapeChar(c), rest);
    }
  }

  lemma ReadPair(k: char, c: char, rest: string)
    requires k != 'u' && ReadEscape([k] + rest) == Some((c, rest))
    ensures ReadString(['\\', k] + rest) == Cons(c, ReadString(rest))
  {
    assert (['\\', k] + rest)[1..] == [k] + rest;
  }

  lemma ReadNumeric(text: string, rest: string)
    requires |text| > 2 && text[0] == '\\' && text[1] == 'u' && text[2] == '0'
    ensures ReadString(text + rest).None?
  {
    var after := (text + rest)[1..];
    assert after[0] == 'u' && after[1] == '0';
  }

  // ----- Reading the same text as JSON ----------------------------------------------------------

  /** The character of a JSON escape, after its backslash: a letter, or `u` and four hexadecimal digits. */
  function ReadJsonEscape(s: string): (r: Option<(char, string)>)
    ensures r.Some? ==> |r.value.1| < |s|
  {
    if s == "" then None
    else if s[0] == 'u' then
      if |s| < 5 || s[1] != '0' || s[2] != '0' then None
      else
        var high, low := HexValue(s[3]), HexValue(s[4]);
        if high.None? || low.None? then None else Some(((16 * high.value + low.value) as char, s[5..]))
    else ReadEscape(s)
  }

  function ReadJson(s: string): (r: Option<(string, string)>)
    ensures r.Some? ==> |r.value.1| < |s|
    decreases |s|
  {
    if s == "" then None
    else if s[0] == '\"' then Some(("", s[1..]))
    else
      var head := if s[0] == '\\' then ReadJsonEscape(s[1..])
                  else if s[0] < ' ' then None
                  else Some((s[0], s[1..]));
      match head
      case None => None
      case Some((c, rest)) =>
        match ReadJson(rest)
        case None => None
        case Some((value, after)) => Some(([c] + value, after))
  }

  lemma ReadJsonPair(k: char, c: char, rest: string)
    requires k != 'u' && ReadEscape([k] + rest) == Some((c, rest))
    ensures ReadJson(['\\', k] + rest) == Cons(c, ReadJson(rest))
  {
    assert (['\\', k] + rest)[1..] == [k] + rest;
  }

  lemma HexReadsBack(n: nat)
    requires n < 16
    ensures HexValue(HexDigit(n)) == Some(n)
  {
  }

  lemma ReadJsonNumeric(c: char, rest: string)
    requires c < ' '
    ensures ReadJson("\\u00" + [HexDigit(c as int / 16), HexDigit(c as int % 16)] + rest) == Cons(c, ReadJson(rest))
  {
    var high, low := c as int / 16, c as int % 16;
    HexReadsBack(high);
    HexReadsBack(low);
    var after := "u00" + [HexDigit(high), HexDigit(low)] + rest;
    assert after[3] == HexDigit(high) && after[4] == HexDigit(low) && after[5..] == rest;
    assert ReadJsonEscape(after) == Some((c, rest));
    assert ("\\u00" + [HexDigit(high), HexDigit(low)] + rest)[1..] == after;
  }

  lemma ReadJsonEscaped(c: char, rest: string)
    ensures ReadJson(EscapeChar(c) + rest) == Cons(c, ReadJson(rest))
  {
    if |EscapeChar(c)| == 1 {
      assert ([c] + rest)[1..] == rest;
    } else if |EscapeChar(c)| == 2 {
      ReadJsonPair(EscapeChar(c)[1], c, rest);
      assert EscapeChar(c) == ['\\', EscapeChar(c)[1]];
    } else {
      ReadJsonNumeric(c, rest);
    }
  }

  /** As JSON every string is read back, and what is written holds no raw control character. */
  lemma {:induction false} JsonReadsBack(value: string, s: string)
    ensures ReadJson(Escape(value) + "\"" + s) == Some((value, s))
  {
    if value == "" {
      assert (Escape(value) + "\"" + s)[1..] == s;
    } else {
      var rest := Escape(value[1..]) + "\"" + s;
      assert Escape(value) + "\"" + s == EscapeChar(value[0]) + rest;
      JsonReadsBack(value[1..], s);
      ReadJsonEscaped(value[0], rest);
      assert value == [value[0]] + value[1..];
    }
  }

  // ----- Tokens --------------------------------------------------------------------------------

  datatype Token = Word(text: string) | Str(value: string) | LBrace | RBrace | Newline

  predicate IsWordChar(c: char) {
    'a' <= c <= 'z' || c == '_' || c == '='
  }

  predicate IsWord(w: string) {
    w != "" && forall i :: 0 <= i < |w| ==> IsWordChar(w[i])
  }

  /** The length of the run of word characters at the front. */
  function WordLength(s: string): (n: nat)
    ensures n <= |s|
  {
    if s == "" || !IsWordChar(s[0]) then 0 else 1 + WordLength(s[1..])
  }

  function Then(head: Option<seq<Token>>, tail: Option<seq<Token>>): Option<seq<Token>> {
    if head.Some? && tail.Some? then Some(head.value + tail.value) else None
  }

  function Lex(s: string): Option<seq<Token>>
    decreases |s|
  {
    if s == "" then Some([])
    else if s[0] == ' ' then Lex(s[1..])
    else if s[0] == '\n' then Then(Some([Newline]), Lex(s[1..]))
    else if s[0] == '{' then Then(Some([LBrace]), Lex(s[1..]))
    else if s[0] == '}' then Then(Some([RBrace]), Lex(s[1..]))
    else if s[0] == '\"' then
      match ReadString(s[1..])
      case None => None
      case Some((value, after)) => Then(Some([Str(value)]), Lex(after))
    else
      var n := WordLength(s);
      if n == 0 then None else Then(Some([Word(s[..n])]), Lex(s[n..]))
  }

  /** `text` contributes `tokens` in front of `s`; `None` stands for text no reader accepts. */
  ghost predicate Lexes(text: string, tokens: Option<seq<Token>>, s: string) {
    Lex(text + s) == Then(tokens, Lex(s))
  }

  lemma LexesThen(a: string, ta: Option<seq<Token>>, b: string, tb: Option<seq<Token>>, s: string)
    requires Lexes(a, ta, b + s) && Lexes(b, tb, s)
    ensures Lexes(a + b, Then(ta, tb), s)
  {
    assert a + b + s == a + (b + s);
    if ta.Some? && tb.Some? && Lex(s).Some? {
      assert ta.value + tb.value + Lex(s).value == ta.value + (tb.value + Lex(s).value);
    }
  }

  predicate Separated(s: string) {
    s == "" || !IsWordChar(s[0])
  }

  lemma {:induction false} WordLengthOf(w: string, s: string)
    requires (forall i :: 0 <= i < |w| ==> IsWordChar(w[i])) && Separated(s)
    ensures WordLength(w + s) == |w|
  {
    if w == "" {
      assert w + s == s;
    } else {
      assert (w + s)[1..] == w[1..] + s;
      WordLengthOf(w[1..], s);
    }
  }

  lemma LexWord(w: string, s: string)
    requires IsWord(w) && Separated(s)
    ensures Lexes(w, Some([Word(w)]), s)
  {
    WordLengthOf(w, s);
    assert (w + s)[..|w|] == w && (w + s)[|w|..] == s;
    assert IsWordChar((w + s)[0]);
  }

  function Spaces(n: nat): string {
    seq(n, i => ' ')
  }

  lemma {:induction false} LexSpaces(n: nat, s: string)
    ensures Lexes(Spaces(n), Some([]), s)
  {
    if n > 0 {
      LexSpaces(n - 1, s);
      assert (Spaces(n) + s)[1..] == Spaces(n - 1) + s;
    } else {
      assert Spaces(0) + s == s;
    }
    assert Lex(s).Some? ==> [] + Lex(s).value == Lex(s).value;
  }

  function PunctuationToken(c: char): seq<Token> {
    if c == '\n' then [Newline] else if c == '{' then [LBrace] else if c == '}' then [RBrace] else []
  }

  lemma LexPunctuation(c: char, s: string)
    requires c in {' ', '\n', '{', '}'}
    ensures Lexes([c], Some(PunctuationToken(c)), s)
  {
    assert ([c] + s)[1..] == s;
    assert Lex(s).Some? ==> [] + Lex(s).value == Lex(s).value;
  }

  function QuoteTokens(value: string): Option<seq<Token>> {
    if Clean(value) then Some([Str(value)]) else None
  }

  lemma LexQuoted(value: string, s: string)
    ensures Lexes(Quote(value), QuoteTokens(value), s)
  {
    ReadQuoted(value, s);
    assert (Quote(value) + s)[1..] == Escape(value) + "\"" + s;
  }

  /** A blank in front of a text changes nothing. */
  lemma LexGap(text: string, tokens: Option<seq<Token>>, s: string)
    requires Lexes(text, tokens, s)
    ensures Lexes(" " + text, tokens, s)
  {
    assert (" " + text + s)[1..] == text + s;
  }

  lemma LexesGap(a: string, ta: Option<seq<Token>>, b: string, tb: Option<seq<Token>>, s: string)
    requires Lexes(a, ta, " " + b + s) && Lexes(b, tb, s)
    ensures Lexes(a + (" " + b), Then(ta, tb), s)
  {
    LexGap(b, tb, s);
    LexesThen(a, ta, " " + b, tb, s);
  }

  function Keyed(key: string, value: string): Option<seq<Token>> {
    Then(Some([Word(key)]), QuoteTokens(value))
  }

  lemma LexKeyed(key: string, value: string, s: string)
    requires IsWord(key)
    ensures Lexes(key + Quote(value), Keyed(key, value), s)
  {
    LexQuoted(value, s);
    LexWord(key, Quote(value) + s);
    LexesThen(key, Some([Word(key)]), Quote(value), QuoteTokens(value), s);
  }

  // ----- Lines ---------------------------------------------------------------------------------

  function Text(lines: seq<string>): string {
    if lines == [] then "" else lines[0] + "\n" + Text(lines[1..])
  }

  /** `"\n".join(lines)` */
  function JoinLines(lines: seq<string>): string
    requires lines != []
  {
    if |lines| == 1 then lines[0] else lines[0] + "\n" + JoinLines(lines[1..])
  }

  lemma {:induction false} JoinIsText(lines: seq<string>)
    ensures JoinLines(lines + [""]) == Text(lines)
  {
    if lines != [] {
      JoinIsText(lines[1..]);
      assert (lines + [""])[1..] == lines[1..] + [""];
    }
  }

  lemma {:induction false} TextAppend(a: seq<string>, b: seq<string>)
    ensures Text(a + b) == Text(a) + Text(b)
  {
    if a == [] {
      assert a + b == b;
    } else {
      TextAppend(a[1..], b);
      assert (a + b)[1..] == a[1..] + b;
      assert Text(a + b) == a[0] + "\n" + (Text(a[1..]) + Text(b));
    }
  }

  function Line(tokens: Option<seq<Token>>): Option<seq<Token>> {
    Then(tokens, Some([Newline]))
  }

  lemma LexLine(indent: nat, text: string, tokens: Option<seq<Token>>, s: string)
    requires Lexes(text, tokens, "\n" + s)
    ensures Lexes(Text([Spaces(indent) + text]), Line(tokens), s)
  {
    LexSpaces(indent, text + ("\n" + s));
    assert Spaces(indent) + (text + ("\n" + s)) == Spaces(indent) + text + ("\n" + s);
    assert Lexes(Spaces(indent) + text, tokens, "\n" + s) by {
      var tail := Lex(text + ("\n" + s));
      assert tail.Some? ==> [] + tail.value == tail.value;
    }
    LexPunctuation('\n', s);
    LexesThen(Spaces(indent) + text, tokens, "\n", Some([Newline]), s);
    assert Text([Spaces(indent) + text]) == Spaces(indent) + text + "\n" by {
      var none: seq<string> := [Spaces(indent) + text][1..];
      assert none == [];
    }
  }

  lemma LexesTwo(a: seq<string>, ta: Option<seq<Token>>, b: seq<string>, tb: Option<seq<Token>>, s: string)
    requires Lexes(Text(a), ta, Text(b) + s) && Lexes(Text(b), tb, s)
    ensures Lexes(Text(a + b), Then(ta, tb), s)
  {
    TextAppend(a, b);
    LexesThen(Text(a), ta, Text(b), tb, s);
  }
}

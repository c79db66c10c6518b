/** The lexical rules behind the SQL statement splitter of odps/utils.py, stated on the text
    that is still to be read: where quotes and comments end, where a statement stops, and what
    comes before its first code. */
module SqlLexing {
  import opened Text

  // ----- quotes and comments -----

  predicate IsQuote(c: char)
  {
    c == '"' || c == '\'' || c == '`'
  }

  /** The text after the closing quote; a backslash hides the character after it. */
  function QuoteRest(z: string, q: char): Option<string>
  {
    if z == [] then None
    else if z[0] == q then Some(z[1..])
    else if z[0] == '\\' then (if |z| == 1 then None else QuoteRest(z[2..], q))
    else QuoteRest(z[1..], q)
  }

  /** The text from the line end that closes a line comment. */
  function LineRest(z: string): (r: string)
    ensures |r| <= |z|
  {
    if z == [] || z[0] == '\n' then z else LineRest(z[1..])
  }

  /** The text after the end of a block comment. */
  function BlockRest(z: string): Option<string>
  {
    if z == [] then None
    else if Starts(z, '*', '/') then Some(z[2..])
    else BlockRest(z[1..])
  }

  predicate Starts(z: string, a: char, b: char)
  {
    |z| >= 2 && z[0] == a && z[1] == b
  }

  predicate StartsComment(z: string)
  {
    Starts(z, '-', '-') || Starts(z, '/', '*')
  }

  lemma {:induction false} QuoteRestShrinks(z: string, q: char)
    ensures QuoteRest(z, q).Some? ==> |QuoteRest(z, q).value| < |z|
  {
    if z != [] && z[0] != q {
      if z[0] == '\\' {
        if |z| > 1 {
          QuoteRestShrinks(z[2..], q);
        }
      } else {
        QuoteRestShrinks(z[1..], q);
      }
    }
  }

  lemma {:induction false} BlockRestShrinks(z: string)
    ensures BlockRest(z).Some? ==> |BlockRest(z).value| < |z|
  {
    if z != [] && !Starts(z, '*', '/') {
      BlockRestShrinks(z[1..]);
    }
  }

  // ----- statements -----

  predicate IsOpen(c: char)
  {
    c == '{' || c == '[' || c == '('
  }

  predicate IsClose(c: char)
  {
    c == '}' || c == ']' || c == ')'
  }

  function Opener(c: char): char
  {
    if c == '}' then '{' else if c == ']' then '[' else '('
  }

  /** The closing bracket c when `brackets` are open: an IndexError when none is, an
      AssertionError when the innermost one does not match. */
  function Close(brackets: string, c: char): Outcome<string>
  {
    if brackets == "" then Raise(IndexError)
    else if brackets[|brackets| - 1] != Opener(c) then Raise(AssertionError)
    else Ok(brackets[..|brackets| - 1])
  }

  /** The text and the open brackets after one token; None when a quote or block comment never ends. */
  function AfterToken(z: string, brackets: string): Outcome<Option<(string, string)>>
    requires z != []
  {
    if IsOpen(z[0]) then Ok(Some((z[1..], brackets + [z[0]])))
    else if IsClose(z[0]) then
      match Close(brackets, z[0])
      case Raise(e) => Raise(e)
      case Ok(b) => Ok(Some((z[1..], b)))
    else if IsQuote(z[0]) then
      match QuoteRest(z[1..], z[0])
      case None => Ok(None)
      case Some(rest) => Ok(Some((rest, brackets)))
    else if Starts(z, '-', '-') then Ok(Some((LineRest(z[2..]), brackets)))
    else if Starts(z, '/', '*') then
      match BlockRest(z[2..])
      case None => Ok(None)
      case Some(rest) => Ok(Some((rest, brackets)))
    else Ok(Some((z[1..], brackets)))
  }

  lemma TokenShrinks(z: string, brackets: string)
    requires z != [] && AfterToken(z, brackets).Ok? && AfterToken(z, brackets).value.Some?
    ensures |AfterToken(z, brackets).value.value.0| < |z|
  {
    QuoteRestShrinks(z[1..], z[0]);
    if |z| >= 2 {
      BlockRestShrinks(z[2..]);
    }
  }

  predicate StopsHere(z: string, brackets: string)
  {
    z != [] && z[0] == ';' && brackets == ""
  }

  /** The text after the first semicolon outside brackets, quotes and comments; None when there is none. */
  function FirstStop(z: string, brackets: string): (r: Outcome<Option<string>>)
    ensures r.Ok? && r.value.Some? ==> |r.value.value| < |z|
    decreases |z|
  {
    if z == [] then Ok(None)
    else if StopsHere(z, brackets) then Ok(Some(z[1..]))
    else
      match AfterToken(z, brackets)
      case Raise(e) => Raise(e)
      case Ok(None) => Ok(None)
      case Ok(Some(next)) =>
        TokenShrinks(z, brackets);
        FirstStop(next.0, next.1)
  }

  /** The text from the first code: blanks and whole comments before it are gone. A block
      comment that never ends is code. */
  function DropLead(z: string): (r: string)
    ensures |r| <= |z|
    decreases |z|
  {
    if z == [] then z
    else if IsBlank(z[0]) then DropLead(z[1..])
    else if Starts(z, '-', '-') then DropLead(LineRest(z[2..]))
    else if Starts(z, '/', '*') then
      BlockRestShrinks(z[2..]);
      match BlockRest(z[2..])
      case None => z
      case Some(rest) => DropLead(rest)
    else z
  }

  /** Nothing to drop in front. */
  predicate CodeFirst(z: string)
  {
    z != [] ==>
      && !IsBlank(z[0])
      && !Starts(z, '-', '-')
      && (Starts(z, '/', '*') ==> BlockRest(z[2..]).None?)
  }

  lemma {:induction false} DropLeadIsCodeFirst(z: string)
    ensures CodeFirst(DropLead(z))
    decreases |z|
  {
    if z != [] {
      if IsBlank(z[0]) {
        DropLeadIsCodeFirst(z[1..]);
      } else if Starts(z, '-', '-') {
        DropLeadIsCodeFirst(LineRest(z[2..]));
      } else if Starts(z, '/', '*') && BlockRest(z[2..]).Some? {
        BlockRestShrinks(z[2..]);
        DropLeadIsCodeFirst(BlockRest(z[2..]).value);
      }
    }
  }

  lemma CodeFirstIsKept(z: string)
    requires CodeFirst(z)
    ensures DropLead(z) == z
  {
  }

  // ----- tidying -----

  /** The separators of `str.splitlines` other than carriage return, which the splitter removes first. */
  predicate IsLineEnd(c: char)
  {
    || '\n' <= c <= '\U{0c}'
    || '\U{1c}' <= c <= '\U{1e}'
    || c == '\U{85}' || c == '\U{2028}' || c == '\U{2029}'
  }

  function SplitLines(s: string): seq<string>
    decreases |s|
  {
    if s == [] then []
    else
      var n := LineLength(s);
      if n == |s| then [s] else [s[..n]] + SplitLines(s[n + 1..])
  }

  function LineLength(s: string): (n: nat)
    ensures n <= |s|
    ensures forall i | 0 <= i < n :: !IsLineEnd(s[i])
    ensures n < |s| ==> IsLineEnd(s[n])
  {
    if s == [] || IsLineEnd(s[0]) then 0 else 1 + LineLength(s[1..])
  }

  function JoinLines(lines: seq<string>): string
  {
    if lines == [] then ""
    else if |lines| == 1 then RStrip(lines[0])
    else RStrip(lines[0]) + "\n" + JoinLines(lines[1..])
  }

  /** Every line without trailing blanks, the whole without blank ends. */
  function Tidy(s: string): string
  {
    Strip(JoinLines(SplitLines(s)))
  }

  /** The blank at the front is followed by nothing but blanks on its line. */
  predicate Trailing(z: string)
  {
    z != [] && z[0] != '\n' && IsBlank(z[0]) && (|z| == 1 || z[1] == '\n' || Trailing(z[1..]))
  }

  /** The text without the blanks that end its lines, when `\n` is the only line end. */
  function Trim(z: string): (r: string)
    ensures |r| <= |z|
  {
    if z == [] then [] else if Trailing(z) then Trim(z[1..]) else [z[0]] + Trim(z[1..])
  }

  predicate OnlyNewlines(s: string)
  {
    forall c | c in s :: IsLineEnd(c) ==> c == '\n'
  }
}

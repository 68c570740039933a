/** Character-level helpers of the lexer (tokenizer.c): character classes,
    the word reader and the quoted-string reader. Both readers take the C
    string that starts at the current input position and write a
    NUL-terminated copy into a caller-supplied buffer. */
module Tokenizer {
  import opened CStrings

  /** `is_special_char`: the one-character operators. */
  predicate IsSpecial(c: char)
  {
    c == '(' || c == ')' || c == '<' || c == '>' || c == ';' || c == '|'
  }

  /** `is_space_char`: blanks, which the lexer skips. The comment above it
      in the source says "space or tab"; the code also accepts a newline. */
  predicate IsSpace(c: char)
  {
    c == ' ' || c == '\t' || c == '\n'
  }

  /** A character `read_word` copies: anything but the terminator, a
      blank, an operator or a double quote. */
  predicate IsWordChar(c: char)
  {
    c != NUL && !IsSpace(c) && !IsSpecial(c) && c != '"'
  }

  /** The classes the lexer branches on are exactly the listed characters,
      and no character belongs to two of them. */
  lemma {:induction false} CharClasses()
    ensures forall c :: IsSpecial(c) <==> c in "()<>;|"
    ensures forall c :: IsSpace(c) <==> c in " \t\n"
    ensures forall c :: !(IsSpecial(c) && IsSpace(c))
    ensures !IsSpecial(NUL) && !IsSpace(NUL) && !IsSpecial('"') && !IsSpace('"')
  {
  }

  /** Length of the longest prefix of `s` made of word characters. */
  function WordLen(s: seq<char>): (n: nat)
    ensures n <= |s|
  {
    if |s| == 0 || !IsWordChar(s[0]) then 0 else 1 + WordLen(s[1..])
  }

  /** The word is the maximal run of word characters. */
  lemma {:induction false} WordLenMaximal(s: seq<char>)
    ensures forall k :: 0 <= k < WordLen(s) ==> IsWordChar(s[k])
    ensures WordLen(s) == |s| || !IsWordChar(s[WordLen(s)])
  {
    if |s| > 0 && IsWordChar(s[0]) {
      WordLenMaximal(s[1..]);
    }
  }

  /** A word never runs past the terminating NUL. */
  lemma {:induction false} WordStopsBeforeNul(s: seq<char>)
    requires NUL in s
    ensures WordLen(s) < |s| && WordLen(s) <= |CStr(s)|
  {
    WordLenMaximal(s);
    var m :| 0 <= m < |s| && s[m] == NUL;
    assert !IsWordChar(s[m]);
  }

  /** `read_word`: copies the maximal run of word characters at the start
      of `input` into `output`, terminates it, and returns its length. */
  method ReadWord(input: seq<char>, output: array<char>) returns (n: nat)
    requires NUL in input
    requires WordLen(input) < output.Length
    modifies output
    ensures n == WordLen(input)
    ensures output[..n] == input[..n] && output[n] == NUL
    ensures forall k :: n < k < output.Length ==> output[k] == old(output[k])
  {
    WordStopsBeforeNul(input);
    WordLenMaximal(input);
    n := 0;
    while input[n] != NUL && !IsSpace(input[n]) && !IsSpecial(input[n]) && input[n] != '"'
      invariant n <= WordLen(input)
      invariant output[..n] == input[..n]
      invariant forall k :: n <= k < output.Length ==> output[k] == old(output[k])
      decreases WordLen(input) - n
    {
      output[n] := input[n];
      n := n + 1;
    }
    output[n] := NUL;
  }

  /** Length of the longest prefix of `s` holding neither a double quote
      nor a NUL: the body of a quoted string. */
  function QuoteBodyLen(s: seq<char>): (n: nat)
    ensures n <= |s|
  {
    if |s| == 0 || s[0] == '"' || s[0] == NUL then 0 else 1 + QuoteBodyLen(s[1..])
  }

  /** The body is the maximal run holding neither a quote nor a NUL. */
  lemma {:induction false} QuoteBodyMaximal(s: seq<char>)
    ensures forall k :: 0 <= k < QuoteBodyLen(s) ==> s[k] != '"' && s[k] != NUL
    ensures QuoteBodyLen(s) == |s| || s[QuoteBodyLen(s)] == '"' || s[QuoteBodyLen(s)] == NUL
  {
    if |s| > 0 && s[0] != '"' && s[0] != NUL {
      QuoteBodyMaximal(s[1..]);
    }
  }

  /** Index of the first double quote or NUL after the opening character. */
  function QuoteStop(s: seq<char>): nat
    requires |s| >= 1
  {
    1 + QuoteBodyLen(s[1..])
  }

  /** Whether the quoted string that starts `s` has its closing quote. */
  predicate Closed(s: seq<char>)
    requires |s| >= 1
  {
    QuoteStop(s) < |s| && s[QuoteStop(s)] == '"'
  }

  /** The characters between the opening quote and the stop. */
  function QuotedText(s: seq<char>): string
    requires |s| >= 1
  {
    s[1..QuoteStop(s)]
  }

  /** What `read_quoted_string` returns: the characters consumed, the
      closing quote included when present. */
  function QuoteLen(s: seq<char>): nat
    requires |s| >= 1
  {
    if Closed(s) then QuoteStop(s) + 1 else QuoteStop(s)
  }

  /** The reader consumes the opening character, the text and the closing
      quote when there is one, and nothing else; the text holds neither a
      quote nor a NUL, so the reader never passes the terminator. */
  lemma {:induction false} QuotedRoundTrip(s: seq<char>)
    requires |s| >= 1
    ensures 1 <= QuoteLen(s) <= |s|
    ensures s[..QuoteLen(s)] == [s[0]] + QuotedText(s) + (if Closed(s) then ['"'] else [])
    ensures '"' !in QuotedText(s) && NUL !in QuotedText(s)
    ensures NUL in s[1..] ==> !Closed(s) ==> s[QuoteLen(s)] == NUL
    ensures s[0] != NUL ==> NUL !in s[..QuoteLen(s)]
  {
    var k := QuoteStop(s);
    QuoteBodyMaximal(s[1..]);
    assert forall c :: c in QuotedText(s) ==> c != '"' && c != NUL by {
      forall c | c in QuotedText(s) ensures c != '"' && c != NUL {
        var m :| 0 <= m < |QuotedText(s)| && QuotedText(s)[m] == c;
        assert QuotedText(s)[m] == s[1..][m];
      }
    }
    if Closed(s) {
      assert s[..k + 1] == [s[0]] + s[1..k] + [s[k]];
    } else {
      assert s[..k] == [s[0]] + s[1..k];
      if NUL in s[1..] {
        var m :| 0 <= m < |s[1..]| && s[1..][m] == NUL;
        assert m >= QuoteBodyLen(s[1..]);
      }
    }
  }

  /** `read_quoted_string`: copies the text after the opening character up
      to the first double quote or NUL into `output`, terminates it, and
      returns the number of characters consumed. A missing closing quote is
      tolerated: the text then runs to the end of the line. */
  method ReadQuotedString(input: seq<char>, output: array<char>) returns (len: nat)
    requires |input| >= 1 && NUL in input[1..]
    requires QuoteBodyLen(input[1..]) < output.Length
    modifies output
    ensures len == QuoteLen(input)
    ensures output[..|QuotedText(input)|] == QuotedText(input)
    ensures output[|QuotedText(input)|] == NUL
    ensures forall k :: |QuotedText(input)| < k < output.Length ==> output[k] == old(output[k])
  {
    ghost var stop := QuoteStop(input);
    QuoteBodyMaximal(input[1..]);
    assert stop < |input| by {
      var m :| 0 <= m < |input[1..]| && input[1..][m] == NUL;
    }
    var i, j := 1, 0;
    while input[i] != NUL && input[i] != '"'
      invariant 1 <= i <= stop && j == i - 1
      invariant output[..j] == input[1..i]
      invariant forall k :: j <= k < output.Length ==> output[k] == old(output[k])
      decreases stop - i
    {
      assert input[i] == input[1..][i - 1];
      output[j] := input[i];
      i, j := i + 1, j + 1;
    }
    output[j] := NUL;
    len := if input[i] == '"' then i + 1 else i;
  }
}

/** The tokenize loop of `read_input` (shell.c): turns the line held in
    the input buffer into a NULL-terminated array of tokens. Words and
    quoted strings are copied into fresh buffers; an operator token is a
    pointer into the input buffer itself, so its text is the whole rest of
    the line from the operator on (only its first character is ever
    inspected downstream). */
module Lexer {
  import opened CStrings
  import opened Tokenizer

  /** The C string that starts at index `i` of the buffer `s`. */
  function CStrAt(s: seq<char>, i: nat): (r: string)
    ensures |r| <= |s| - i || i >= |s|
    decreases |s| - i
  {
    if i < |s| && s[i] != NUL then [s[i]] + CStrAt(s, i + 1) else []
  }

  /** The run of word characters that starts at index `i`. */
  function WordAt(s: seq<char>, i: nat): (w: string)
    ensures |w| <= |s| - i || i >= |s|
    decreases |s| - i
  {
    if i < |s| && IsWordChar(s[i]) then [s[i]] + WordAt(s, i + 1) else []
  }

  /** The run of characters that starts at index `i` and holds neither a
      double quote nor a NUL: the body of a quoted string. */
  function QuoteBodyAt(s: seq<char>, i: nat): (w: string)
    ensures |w| <= |s| - i || i >= |s|
    decreases |s| - i
  {
    if i < |s| && s[i] != '"' && s[i] != NUL then [s[i]] + QuoteBodyAt(s, i + 1) else []
  }

  /** The token that starts at index `i`, which holds neither a blank nor
      the terminator: the body of a quoted string, the rest of the line for
      an operator, or a word. */
  function TokenAt(s: seq<char>, i: nat): (tok: string)
    requires i < |s|
    ensures s[i] != '"' && s[i] != NUL && !IsSpace(s[i]) ==> |tok| > 0 && tok[0] == s[i]
  {
    if s[i] == '"' then QuoteBodyAt(s, i + 1)
    else if IsSpecial(s[i]) then CStrAt(s, i)
    else WordAt(s, i)
  }

  /** The number of characters that token consumes: a quoted string
      consumes its opening quote, its body and its closing quote when there
      is one. */
  function TokenLen(s: seq<char>, i: nat): (n: nat)
    requires i < |s| && s[i] != NUL && !IsSpace(s[i])
    ensures 1 <= n <= |s| - i
  {
    if s[i] == '"' then
      var stop := i + 1 + |QuoteBodyAt(s, i + 1)|;
      if stop < |s| && s[stop] == '"' then stop + 1 - i else stop - i
    else if IsSpecial(s[i]) then 1
    else |WordAt(s, i)|
  }

  /** The tokens of the C string that starts at index `i` of the buffer
      `s`, left to right. */
  function LexFrom(s: seq<char>, i: nat): (toks: seq<string>)
    ensures |toks| <= |s| - i || i >= |s|
    decreases |s| - i
  {
    if i >= |s| || s[i] == NUL then []
    else if IsSpace(s[i]) then LexFrom(s, i + 1)
    else [TokenAt(s, i)] + LexFrom(s, i + TokenLen(s, i))
  }

  /** The tokens of a whole line buffer. */
  function Lex(s: seq<char>): seq<string>
  {
    LexFrom(s, 0)
  }

  /** A step that emits a token. */
  lemma {:induction false} UnfoldToken(s: seq<char>, i: nat)
    requires i < |s| && s[i] != NUL && !IsSpace(s[i])
    ensures LexFrom(s, i) == [TokenAt(s, i)] + LexFrom(s, i + TokenLen(s, i))
  {
  }

  /** A blank emits nothing. */
  lemma {:induction false} UnfoldBlank(s: seq<char>, i: nat)
    requires i < |s| && IsSpace(s[i])
    ensures LexFrom(s, i) == LexFrom(s, i + 1)
  {
  }

  /** `CStrAt` is the C string of the suffix. */
  lemma {:induction false} CStrAtSuffix(s: seq<char>, i: nat)
    requires i <= |s|
    ensures CStrAt(s, i) == CStr(s[i..])
    decreases |s| - i
  {
    if i < |s| && s[i] != NUL {
      CStrAtSuffix(s, i + 1);
      assert s[i..][1..] == s[i + 1..];
    }
  }

  /** `WordAt` is the word `read_word` copies from the suffix. */
  lemma {:induction false} WordAtSuffix(s: seq<char>, i: nat)
    requires i <= |s|
    ensures |WordAt(s, i)| == WordLen(s[i..])
    ensures WordAt(s, i) == s[i..i + WordLen(s[i..])]
    decreases |s| - i
  {
    if i < |s| && IsWordChar(s[i]) {
      WordAtSuffix(s, i + 1);
      assert s[i..][1..] == s[i + 1..];
    }
  }

  /** `QuoteBodyAt` is the text `read_quoted_string` copies. */
  lemma {:induction false} QuoteBodyAtSuffix(s: seq<char>, i: nat)
    requires i <= |s|
    ensures |QuoteBodyAt(s, i)| == QuoteBodyLen(s[i..])
    ensures QuoteBodyAt(s, i) == s[i..i + QuoteBodyLen(s[i..])]
    decreases |s| - i
  {
    if i < |s| && s[i] != '"' && s[i] != NUL {
      QuoteBodyAtSuffix(s, i + 1);
      assert s[i..][1..] == s[i + 1..];
    }
  }

  /** The token and its length, stated on the suffix that the readers of
      tokenizer.c receive. */
  lemma {:induction false} TokenAtSuffix(s: seq<char>, i: nat)
    requires i < |s| && s[i] != NUL && !IsSpace(s[i])
    ensures s[i] == '"' ==> TokenAt(s, i) == QuotedText(s[i..]) && TokenLen(s, i) == QuoteLen(s[i..])
    ensures s[i] != '"' && IsSpecial(s[i]) ==> TokenAt(s, i) == CStr(s[i..]) && TokenLen(s, i) == 1
    ensures s[i] != '"' && !IsSpecial(s[i]) ==>
              TokenAt(s, i) == s[i..i + WordLen(s[i..])] && TokenLen(s, i) == WordLen(s[i..])
  {
    if s[i] == '"' {
      QuoteBodyAtSuffix(s, i + 1);
      assert s[i..][1..] == s[i + 1..];
    } else if IsSpecial(s[i]) {
      CStrAtSuffix(s, i);
    } else {
      WordAtSuffix(s, i);
    }
  }

  /** What every token satisfies: it holds no NUL (so `strcmp` and
      `strcpy` see all of it), and it either starts with an operator
      character or holds no double quote. */
  predicate WellFormed(tok: string)
  {
    NUL !in tok && ((|tok| > 0 && IsSpecial(tok[0])) || '"' !in tok)
  }

  /** The token at a non-blank position is well formed; an operator's
      token is the rest of the line from the operator on, and a word is a
      non-empty run of word characters. */
  lemma {:induction false} TokenWellFormed(s: seq<char>, i: nat)
    requires i < |s| && s[i] != NUL && !IsSpace(s[i])
    ensures WellFormed(TokenAt(s, i))
    ensures IsSpecial(s[i]) ==> TokenAt(s, i) == CStr(s[i..]) && Head(TokenAt(s, i)) == s[i]
    ensures s[i] != '"' && !IsSpecial(s[i]) ==>
              |TokenAt(s, i)| > 0 && forall k :: 0 <= k < |TokenAt(s, i)| ==> IsWordChar(TokenAt(s, i)[k])
  {
    TokenAtSuffix(s, i);
    assert s[i..][0] == s[i];
    if s[i] == '"' {
      QuotedRoundTrip(s[i..]);
    } else if !IsSpecial(s[i]) {
      WordLenMaximal(s[i..]);
      assert forall k :: 0 <= k < |TokenAt(s, i)| ==> TokenAt(s, i)[k] == s[i..][k];
    }
  }

  /** Every token the lexer emits is well formed. */
  lemma {:induction false} LexWellFormed(s: seq<char>, i: nat)
    ensures forall k :: 0 <= k < |LexFrom(s, i)| ==> WellFormed(LexFrom(s, i)[k])
    decreases |s| - i
  {
    if i < |s| && s[i] != NUL {
      if IsSpace(s[i]) {
        UnfoldBlank(s, i);
        LexWellFormed(s, i + 1);
      } else {
        UnfoldToken(s, i);
        TokenWellFormed(s, i);
        LexWellFormed(s, i + TokenLen(s, i));
        WellFormedCons(TokenAt(s, i), LexFrom(s, i + TokenLen(s, i)));
      }
    }
  }

  /** A well-formed token in front of well-formed tokens. */
  lemma {:induction false} WellFormedCons(tok: string, rest: seq<string>)
    requires WellFormed(tok) && forall k :: 0 <= k < |rest| ==> WellFormed(rest[k])
    ensures forall k :: 0 <= k < |[tok] + rest| ==> WellFormed(([tok] + rest)[k])
  {
    forall k | 0 <= k < |[tok] + rest|
      ensures WellFormed(([tok] + rest)[k])
    {
      if k > 0 {
        assert ([tok] + rest)[k] == rest[k - 1];
      }
    }
  }

  /** Every token takes at least one character of the line. */
  lemma {:induction false} LexLength(s: seq<char>, i: nat)
    ensures |LexFrom(s, i)| <= |CStrAt(s, i)|
    decreases |s| - i
  {
    if i < |s| && s[i] != NUL {
      if IsSpace(s[i]) {
        LexLength(s, i + 1);
      } else {
        LexLength(s, i + TokenLen(s, i));
        CStrAtSkip(s, i);
      }
    }
  }

  /** A word lies inside the C string. */
  lemma {:induction false} CStrAtWord(s: seq<char>, i: nat)
    ensures |CStrAt(s, i)| == |WordAt(s, i)| + |CStrAt(s, i + |WordAt(s, i)|)|
    decreases |s| - i
  {
    if i < |s| && IsWordChar(s[i]) {
      CStrAtWord(s, i + 1);
    }
  }

  /** The body of a quoted string lies inside the C string. */
  lemma {:induction false} CStrAtQuoteBody(s: seq<char>, i: nat)
    ensures |CStrAt(s, i)| == |QuoteBodyAt(s, i)| + |CStrAt(s, i + |QuoteBodyAt(s, i)|)|
    decreases |s| - i
  {
    if i < |s| && s[i] != '"' && s[i] != NUL {
      CStrAtQuoteBody(s, i + 1);
    }
  }

  /** A token consumes only characters of the C string. */
  lemma {:induction false} CStrAtSkip(s: seq<char>, i: nat)
    requires i < |s| && s[i] != NUL && !IsSpace(s[i])
    ensures |CStrAt(s, i + TokenLen(s, i))| + TokenLen(s, i) == |CStrAt(s, i)|
  {
    if s[i] == '"' {
      var stop := i + 1 + |QuoteBodyAt(s, i + 1)|;
      CStrAtQuoteBody(s, i + 1);
      assert |CStrAt(s, i)| == 1 + |CStrAt(s, i + 1)|;
      if stop < |s| && s[stop] == '"' {
        assert |CStrAt(s, stop)| == 1 + |CStrAt(s, stop + 1)|;
      }
    } else if IsSpecial(s[i]) {
      assert |CStrAt(s, i)| == 1 + |CStrAt(s, i + 1)|;
    } else {
      CStrAtWord(s, i);
    }
  }

  /** Splitting on runs of blanks, one character at a time, with `cur` the
      word being gathered: the reference for a line without quotes or
      operators. */
  function SplitBlanks(s: seq<char>, i: nat, cur: string): seq<string>
    decreases |s| - i
  {
    if i >= |s| || s[i] == NUL then (if cur == [] then [] else [cur])
    else if IsSpace(s[i]) then (if cur == [] then [] else [cur]) + SplitBlanks(s, i + 1, [])
    else SplitBlanks(s, i + 1, cur + [s[i]])
  }

  /** The C string that starts at `i` holds no double quote and no
      operator character (what follows its NUL does not matter). */
  predicate PlainFrom(s: seq<char>, i: nat)
  {
    forall k :: i <= k < i + |CStrAt(s, i)| ==> s[k] != '"' && !IsSpecial(s[k])
  }

  /** A plain C string starts with a plain character and goes on plain. */
  lemma {:induction false} PlainStep(s: seq<char>, i: nat)
    requires i < |s| && s[i] != NUL && PlainFrom(s, i)
    ensures s[i] != '"' && !IsSpecial(s[i]) && PlainFrom(s, i + 1)
  {
    assert CStrAt(s, i) == [s[i]] + CStrAt(s, i + 1);
  }

  /** On a line with no quotes and no operators the lexer splits on runs of
      blanks. */
  lemma {:induction false} LexPlainLine(s: seq<char>, i: nat)
    requires PlainFrom(s, i)
    ensures SplitBlanks(s, i, []) == LexFrom(s, i)
    decreases |s| - i, 3
  {
    if i < |s| && s[i] != NUL {
      PlainStep(s, i);
      if IsSpace(s[i]) {
        LexPlainLine(s, i + 1);
        UnfoldBlank(s, i);
      } else {
        PlainWord(s, i);
      }
    }
  }

  /** `LexPlainLine` at the first character of a word. */
  lemma {:induction false} PlainWord(s: seq<char>, i: nat)
    requires i < |s| && IsWordChar(s[i]) && PlainFrom(s, i + 1)
    ensures SplitBlanks(s, i, []) == LexFrom(s, i)
    decreases |s| - i, 2
  {
    assert SplitBlanks(s, i, []) == SplitBlanks(s, i + 1, [s[i]]) by {
      assert [] + [s[i]] == [s[i]];
    }
    GatherWord(s, i + 1, [s[i]]);
    WordStart(s, i);
    UnfoldToken(s, i);
  }

  /** The token at a word character is that character followed by the
      word after it. */
  lemma {:induction false} WordStart(s: seq<char>, i: nat)
    requires i < |s| && IsWordChar(s[i])
    ensures TokenAt(s, i) == [s[i]] + WordAt(s, i + 1)
    ensures TokenLen(s, i) == 1 + |WordAt(s, i + 1)|
  {
  }

  /** With the word `cur` gathered so far, the split emits `cur` extended
      by the word at `i`, then splits what follows it. */
  lemma {:induction false} GatherWord(s: seq<char>, i: nat, cur: string)
    requires PlainFrom(s, i)
    requires cur != []
    ensures SplitBlanks(s, i, cur) == [cur + WordAt(s, i)] + LexFrom(s, i + |WordAt(s, i)|)
    decreases |s| - i, 1
  {
    if i >= |s| || s[i] == NUL {
      assert cur + WordAt(s, i) == cur;
    } else if IsSpace(s[i]) {
      GatherBlank(s, i, cur);
    } else {
      GatherChar(s, i, cur);
    }
  }

  /** `GatherWord` at a blank: the gathered word is emitted. */
  lemma {:induction false} GatherBlank(s: seq<char>, i: nat, cur: string)
    requires i < |s| && IsSpace(s[i]) && PlainFrom(s, i)
    requires cur != []
    ensures SplitBlanks(s, i, cur) == [cur + WordAt(s, i)] + LexFrom(s, i + |WordAt(s, i)|)
    decreases |s| - i, 0
  {
    PlainStep(s, i);
    LexPlainLine(s, i + 1);
    assert cur + WordAt(s, i) == cur;
    UnfoldBlank(s, i);
  }

  /** `GatherWord` at a word character: the character joins the word. */
  lemma {:induction false} GatherChar(s: seq<char>, i: nat, cur: string)
    requires i < |s| && s[i] != NUL && !IsSpace(s[i]) && PlainFrom(s, i)
    requires cur != []
    ensures SplitBlanks(s, i, cur) == [cur + WordAt(s, i)] + LexFrom(s, i + |WordAt(s, i)|)
    decreases |s| - i, 0
  {
    PlainStep(s, i);
    GatherWord(s, i + 1, cur + [s[i]]);
    WordStep(s, i, cur);
  }

  /** A word character at `i` starts the word at `i`: gathering it onto
      `cur` and then the word after it gathers the word at `i`. */
  lemma {:induction false} WordStep(s: seq<char>, i: nat, cur: string)
    requires i < |s| && IsWordChar(s[i])
    ensures WordAt(s, i) == [s[i]] + WordAt(s, i + 1)
    ensures (cur + [s[i]]) + WordAt(s, i + 1) == cur + WordAt(s, i)
    ensures i + 1 + |WordAt(s, i + 1)| == i + |WordAt(s, i)|
  {
  }

  /** The quoted-string branch of the tokenize loop: the body is read
      into a fresh buffer of MAX_INPUT_SIZE characters. */
  method CopyQuoted(input: seq<char>, i: nat) returns (tok: string, n: nat)
    requires NUL in input && i < |CStr(input)| < MAX_INPUT_SIZE
    requires input[i] == '"'
    ensures tok == TokenAt(input, i) && n == TokenLen(input, i)
    ensures n <= |CStr(input)| - i
  {
    ghost var len := |CStr(input)|;
    CStrSuffix(input, i);
    ghost var rest := input[i..];
    assert rest[0] == input[i] && rest[len - i] == NUL;
    var buf := new char[MAX_INPUT_SIZE];
    QuotedRoundTrip(rest);
    assert NUL in rest[1..] by { assert rest[1..][len - i - 1] == NUL; }
    n := ReadQuotedString(input[i..], buf);
    tok := CStr(buf[..]);
    CStrOfTerminated(buf[..], |QuotedText(rest)|);
    NulFreePrefix(rest, n);
    TokenAtSuffix(input, i);
  }

  /** The word branch of the tokenize loop: the word is read into a fresh
      buffer of MAX_INPUT_SIZE characters. */
  method CopyWord(input: seq<char>, i: nat) returns (tok: string, n: nat)
    requires NUL in input && i < |CStr(input)| < MAX_INPUT_SIZE
    requires IsWordChar(input[i])
    ensures tok == TokenAt(input, i) && n == TokenLen(input, i)
    ensures n <= |CStr(input)| - i
  {
    WordFits(input, i);
    var buf := new char[MAX_INPUT_SIZE];
    n := ReadWord(input[i..], buf);
    CopiedWord(input, i, buf[..], n);
    tok := CStr(buf[..]);
  }

  /** The word at `i` of a line lies inside the line's C string. */
  lemma {:induction false} WordFits(input: seq<char>, i: nat)
    requires NUL in input && i < |CStr(input)|
    ensures NUL in input[i..] && WordLen(input[i..]) <= |CStr(input)| - i
  {
    CStrSuffix(input, i);
    assert input[i..][|CStr(input)| - i] == NUL;
    WordStopsBeforeNul(input[i..]);
  }

  /** A buffer holding the word at `i` followed by a NUL denotes that
      token. */
  lemma {:induction false} CopiedWord(input: seq<char>, i: nat, buf: seq<char>, n: nat)
    requires NUL in input && i < |CStr(input)| && IsWordChar(input[i])
    requires n == WordLen(input[i..]) < |buf| && buf[..n] == input[i..][..n] && buf[n] == NUL
    ensures CStr(buf) == TokenAt(input, i) && n == TokenLen(input, i)
    ensures n <= |CStr(input)| - i
  {
    WordFits(input, i);
    WordNulFree(input[i..], buf, n);
    CStrOfTerminated(buf, n);
    TokenAtSuffix(input, i);
  }

  /** A copy of a word holds no NUL. */
  lemma {:induction false} WordNulFree(rest: seq<char>, buf: seq<char>, n: nat)
    requires n == WordLen(rest) <= |buf| && buf[..n] == rest[..n]
    ensures NUL !in buf[..n]
  {
    WordLenMaximal(rest);
    forall k | 0 <= k < n
      ensures buf[..n][k] != NUL
    {
      assert IsWordChar(rest[k]);
    }
  }

  /** The three token-producing branches of the tokenize loop (a quoted
      string, an operator, a word) at a position that holds neither a blank
      nor the terminator: the token and the number of characters it
      consumes. An operator token is not a copy but the rest of the line. */
  method NextToken(input: seq<char>, i: nat) returns (tok: string, n: nat)
    requires NUL in input && i < |CStr(input)| < MAX_INPUT_SIZE
    requires !IsSpace(input[i])
    ensures tok == TokenAt(input, i) && n == TokenLen(input, i)
    ensures n <= |CStr(input)| - i
  {
    if input[i] == '"' {
      tok, n := CopyQuoted(input, i);
    } else if IsSpecial(input[i]) {
      tok, n := CStr(input[i..]), 1;
      CStrAtSuffix(input, i);
    } else {
      assert input[i] != NUL by { assert input[..|CStr(input)|][i] == input[i]; }
      tok, n := CopyWord(input, i);
    }
  }

  /** The tokenize loop of `read_input`, after the token array has been
      cleared. `input` is the line buffer after the trailing newline has
      been removed. */
  method Tokenize(input: seq<char>, tokens: array<Option<string>>) returns (t: nat)
    requires NUL in input && |CStr(input)| < MAX_INPUT_SIZE
    requires tokens.Length == MAX_INPUT_SIZE
    requires forall k :: 0 <= k < tokens.Length ==> tokens[k] == None
    modifies tokens
    ensures t == |Lex(input)| && t <= |CStr(input)| && t < tokens.Length
    ensures forall k :: 0 <= k < t ==> tokens[k] == Some(Lex(input)[k])
    ensures forall k :: t <= k < tokens.Length ==> tokens[k] == None
  {
    ghost var len := |CStr(input)|;
    var i: nat := 0;
    t := 0;
    while input[i] != NUL
      invariant i <= len && t <= i
      invariant t <= |Lex(input)| && Lex(input)[t..] == LexFrom(input, i)
      invariant forall k :: 0 <= k < t ==> tokens[k] == Some(Lex(input)[k])
      invariant forall k :: t <= k < tokens.Length ==> tokens[k] == None
      decreases len - i
    {
      assert i < len by { if i == len { CStrSuffix(input, i); } }
      if IsSpace(input[i]) {
        // blanks are skipped and emit no token
        UnfoldBlank(input, i);
        i := i + 1;
      } else {
        var tok, n := NextToken(input, i);
        UnfoldToken(input, i);
        tokens[t] := Some(tok);
        assert Lex(input)[t..][1..] == Lex(input)[t + 1..];
        t := t + 1;
        i := i + n;
      }
    }
    tokens[t] := None;
  }

  /** The first loop of `read_input`: every slot of the token array is set
      to NULL. */
  method ClearTokens(tokens: array<Option<string>>)
    modifies tokens
    ensures forall k :: 0 <= k < tokens.Length ==> tokens[k] == None
  {
    var i := 0;
    while i < tokens.Length
      invariant i <= tokens.Length
      invariant forall k :: 0 <= k < i ==> tokens[k] == None
    {
      tokens[i] := None;
      i := i + 1;
    }
  }

  /** `read_input`: clears the token array, then tokenizes the line `fgets`
      produced, or returns -1 when `fgets` reported end of input (`None`).
      The line is taken after its trailing newline has been removed. */
  method ReadInput(line: Option<seq<char>>, tokens: array<Option<string>>) returns (t: int)
    requires line.Some? ==> NUL in line.value && |CStr(line.value)| < MAX_INPUT_SIZE
    requires tokens.Length == MAX_INPUT_SIZE
    modifies tokens
    ensures line.None? ==> t == -1
    ensures line.Some? ==> t == |Lex(line.value)| && t < tokens.Length
    ensures forall k :: 0 <= k < tokens.Length ==>
              tokens[k] == if line.Some? && k < t then Some(Lex(line.value)[k]) else None
  {
    ClearTokens(tokens);
    if line.None? {
      return -1;
    }
    var n := Tokenize(line.value, tokens);
    t := n;
  }
}

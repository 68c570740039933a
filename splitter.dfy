/** Splitting a token list at a delimiter token (`tokens_to_command` and
    `tokens_to_commands` in shell.c). A token is a delimiter when its first
    character is the delimiter: the shell never compares whole strings, so
    a quoted token such as `";x"` splits a line as well, and an operator
    token, whose text runs to the end of the line, is recognised by its
    first character alone. */
module Splitter {
  import opened CStrings

  /** Index of the first delimiter token at or after `i`, or the end. */
  function GroupEnd(w: seq<string>, i: nat, d: char): (e: nat)
    ensures i <= e && (i <= |w| ==> e <= |w|)
    decreases |w| - i
  {
    if i >= |w| || Head(w[i]) == d then i else GroupEnd(w, i + 1, d)
  }

  /** The tokens from `i` up to the first delimiter token. */
  function Group(w: seq<string>, i: nat, d: char): (g: seq<string>)
    ensures |g| == GroupEnd(w, i, d) - i
    decreases |w| - i
  {
    if i >= |w| || Head(w[i]) == d then [] else [w[i]] + Group(w, i + 1, d)
  }

  /** The `k`-th token of the group at `i` is `w[i + k]`, and it is not a
      delimiter token. */
  lemma {:induction false} GroupAt(w: seq<string>, i: nat, d: char, k: nat)
    requires k < |Group(w, i, d)|
    ensures Group(w, i, d)[k] == w[i + k] && Head(w[i + k]) != d
    decreases k
  {
    assert i < |w| && Head(w[i]) != d;
    assert Group(w, i, d) == [w[i]] + Group(w, i + 1, d);
    if k > 0 {
      GroupAt(w, i + 1, d, k - 1);
      assert i + 1 + (k - 1) == i + k;
    }
  }

  /** The group ends at a delimiter token unless the tokens ran out. */
  lemma {:induction false} GroupEndDelimiter(w: seq<string>, i: nat, d: char)
    requires i <= |w|
    ensures GroupEnd(w, i, d) < |w| ==> Head(w[GroupEnd(w, i, d)]) == d
    decreases |w| - i
  {
    if i < |w| && Head(w[i]) != d {
      GroupEndDelimiter(w, i + 1, d);
    }
  }

  /** The group holds exactly the tokens before the first delimiter, and
      a delimiter ends it unless the tokens ran out. */
  lemma {:induction false} GroupFirst(w: seq<string>, i: nat, d: char)
    requires i <= |w|
    ensures forall k :: 0 <= k < |Group(w, i, d)| ==> Group(w, i, d)[k] == w[i + k] && Head(w[i + k]) != d
    ensures GroupEnd(w, i, d) < |w| ==> Head(w[GroupEnd(w, i, d)]) == d
  {
    forall k | 0 <= k < |Group(w, i, d)|
      ensures Group(w, i, d)[k] == w[i + k] && Head(w[i + k]) != d
    {
      GroupAt(w, i, d, k);
    }
    GroupEndDelimiter(w, i, d);
  }

  /** The groups of the tokens from `i` on: each group runs up to the next
      delimiter token, which is dropped. A delimiter in last position opens
      no final group, so a trailing delimiter is lost. */
  function SplitFrom(w: seq<string>, i: nat, d: char): (groups: seq<seq<string>>)
    ensures |groups| > 0 <==> i < |w|
    ensures |groups| > 0 ==> groups[0] == Group(w, i, d)
    decreases |w| - i
  {
    if i >= |w| then []
    else
      var e := GroupEnd(w, i, d);
      [Group(w, i, d)] + (if e < |w| then SplitFrom(w, e + 1, d) else [])
  }

  /** The groups joined back with a bare delimiter token between each two. */
  function Join(groups: seq<seq<string>>, d: char): seq<string>
  {
    if |groups| == 0 then []
    else if |groups| == 1 then groups[0]
    else groups[0] + [[d]] + Join(groups[1..], d)
  }

  /** The tokens from `i` on, each delimiter token read as the bare
      delimiter (an operator token's text is the rest of the line). */
  function Normalize(w: seq<string>, i: nat, d: char): (r: seq<string>)
    ensures i <= |w| ==> |r| == |w| - i
    decreases |w| - i
  {
    if i >= |w| then [] else [if Head(w[i]) == d then [d] else w[i]] + Normalize(w, i + 1, d)
  }

  /** The groups of a whole token list. */
  function Split(w: seq<string>, d: char): seq<seq<string>>
  {
    SplitFrom(w, 0, d)
  }

  /** Each group takes at least one token or a delimiter, so there are at
      most as many groups as tokens, and at least one when a token is left. */
  lemma {:induction false} SplitCount(w: seq<string>, i: nat, d: char)
    requires i <= |w|
    ensures |SplitFrom(w, i, d)| <= |w| - i
    ensures i < |w| ==> |SplitFrom(w, i, d)| >= 1
    decreases |w| - i
  {
    if i < |w| {
      SplitStep(w, i, d);
      SplitCount(w, Next(w, i, d), d);
    }
  }

  /** A token list holding no delimiter token. */
  predicate NoDelimiter(g: seq<string>, d: char)
  {
    forall k :: 0 <= k < |g| ==> Head(g[k]) != d
  }

  /** No group holds a delimiter token. */
  lemma {:induction false} SplitNoDelimiter(w: seq<string>, i: nat, d: char)
    requires i <= |w|
    ensures forall j :: 0 <= j < |SplitFrom(w, i, d)| ==> NoDelimiter(SplitFrom(w, i, d)[j], d)
    decreases |w| - i
  {
    if i < |w| {
      var e := GroupEnd(w, i, d);
      var rest: seq<seq<string>> := if e < |w| then SplitFrom(w, e + 1, d) else [];
      assert SplitFrom(w, i, d) == [Group(w, i, d)] + rest;
      assert NoDelimiter(Group(w, i, d), d) by {
        GroupFirst(w, i, d);
      }
      if e < |w| {
        SplitNoDelimiter(w, e + 1, d);
      }
      forall j | 0 <= j < |SplitFrom(w, i, d)|
        ensures NoDelimiter(SplitFrom(w, i, d)[j], d)
      {
        if j > 0 {
          assert SplitFrom(w, i, d)[j] == rest[j - 1];
        }
      }
    }
  }

  lemma {:induction false} AppendAssoc<T>(a: seq<T>, b: seq<T>, c: seq<T>)
    ensures (a + b) + c == a + (b + c)
  {
  }

  /** Prepending the same element to both sides of `n == g + after`. */
  lemma {:induction false} ConsStep<T>(x: T, n: seq<T>, g: seq<T>, after: seq<T>, n': seq<T>, g': seq<T>)
    requires n == g + after && n' == [x] + n && g' == [x] + g
    ensures n' == g' + after
  {
    AppendAssoc([x], g, after);
  }

  lemma {:induction false} JoinCons(g: seq<string>, rest: seq<seq<string>>, d: char)
    requires |rest| > 0
    ensures Join([g] + rest, d) == g + [[d]] + Join(rest, d)
  {
    assert ([g] + rest)[1..] == rest;
  }

  /** What follows a group ending at `e`: the delimiter and the rest. */
  function After(w: seq<string>, e: nat, d: char): seq<string>
  {
    if e < |w| then [[d]] + Normalize(w, e + 1, d) else []
  }

  lemma {:induction false} NormalizeStep(w: seq<string>, i: nat, d: char)
    requires i <= |w|
    ensures Normalize(w, i, d) == Group(w, i, d) + After(w, GroupEnd(w, i, d), d)
    decreases |w| - i
  {
    if i < |w| && Head(w[i]) != d {
      NormalizeStep(w, i + 1, d);
      assert GroupEnd(w, i, d) == GroupEnd(w, i + 1, d);
      ConsStep(w[i], Normalize(w, i + 1, d), Group(w, i + 1, d), After(w, GroupEnd(w, i, d), d),
               Normalize(w, i, d), Group(w, i, d));
    }
  }

  /** The delimiter token a line ends with, which splitting drops. */
  function Trail(w: seq<string>, i: nat, d: char): seq<string>
  {
    if i < |w| && Head(w[|w| - 1]) == d then [[d]] else []
  }

  /** Joining groups that go on after the first one's delimiter. */
  lemma {:induction false} JoinStep(w: seq<string>, i: nat, d: char)
    requires i < |w| && GroupEnd(w, i, d) + 1 < |w|
    ensures Join(SplitFrom(w, i, d), d) == Group(w, i, d) + [[d]] + Join(SplitFrom(w, GroupEnd(w, i, d) + 1, d), d)
  {
    var rest := SplitFrom(w, GroupEnd(w, i, d) + 1, d);
    assert SplitFrom(w, i, d) == [Group(w, i, d)] + rest;
    JoinCons(Group(w, i, d), rest, d);
  }

  /** Equational glue for `SplitJoinStep`. */
  lemma {:induction false} Chain<T>(joined: seq<T>, trail: seq<T>, g: seq<T>, sep: seq<T>, joinedRest: seq<T>, trailRest: seq<T>,
                 rest: seq<T>, after: seq<T>, all: seq<T>)
    requires joined == g + sep + joinedRest && trail == trailRest
    requires joinedRest + trailRest == rest && after == sep + rest && all == g + after
    ensures joined + trail == all
  {
    AppendAssoc(g + sep, joinedRest, trail);
    AppendAssoc(g, sep, rest);
  }

  /** The pieces after a group that a delimiter ends, with tokens after it. */
  lemma {:induction false} AfterDelimiter(w: seq<string>, i: nat, d: char)
    requires i < |w| && GroupEnd(w, i, d) + 1 < |w|
    ensures Trail(w, i, d) == Trail(w, GroupEnd(w, i, d) + 1, d)
    ensures After(w, GroupEnd(w, i, d), d) == [[d]] + Normalize(w, GroupEnd(w, i, d) + 1, d)
  {
  }

  /** One step of `SplitJoin` for a group followed by a delimiter and
      further tokens, given the claim for the tokens after the delimiter. */
  lemma {:induction false} SplitJoinStep(w: seq<string>, i: nat, d: char)
    requires i < |w| && GroupEnd(w, i, d) + 1 < |w|
    requires Join(SplitFrom(w, GroupEnd(w, i, d) + 1, d), d) + Trail(w, GroupEnd(w, i, d) + 1, d)
             == Normalize(w, GroupEnd(w, i, d) + 1, d)
    ensures Join(SplitFrom(w, i, d), d) + Trail(w, i, d) == Normalize(w, i, d)
  {
    var e := GroupEnd(w, i, d);
    NormalizeStep(w, i, d);
    JoinStep(w, i, d);
    AfterDelimiter(w, i, d);
    Chain(Join(SplitFrom(w, i, d), d), Trail(w, i, d), Group(w, i, d), [[d]], Join(SplitFrom(w, e + 1, d), d),
          Trail(w, e + 1, d), Normalize(w, e + 1, d), After(w, e, d), Normalize(w, i, d));
  }

  /** `SplitJoin` for a last group, ended by the end of the tokens or by
      a final delimiter token. */
  lemma {:induction false} SplitJoinLast(w: seq<string>, i: nat, d: char)
    requires i < |w| && GroupEnd(w, i, d) + 1 >= |w|
    ensures Join(SplitFrom(w, i, d), d) + Trail(w, i, d) == Normalize(w, i, d)
  {
    var e := GroupEnd(w, i, d);
    var g := Group(w, i, d);
    NormalizeStep(w, i, d);
    assert SplitFrom(w, i, d) == [g];
    if e == |w| {
      GroupAt(w, i, d, |w| - 1 - i);
      assert Trail(w, i, d) == [] && After(w, e, d) == [];
    } else {
      GroupEndDelimiter(w, i, d);
      assert Trail(w, i, d) == [[d]] && After(w, e, d) == [[d]];
    }
  }

  /** Splitting drops the delimiter tokens and nothing else: joining the
      groups back with the delimiter, plus the dropped final delimiter,
      gives the tokens with each delimiter token read as the bare
      delimiter. */
  lemma {:induction false} SplitJoin(w: seq<string>, i: nat, d: char)
    requires i <= |w|
    ensures Join(SplitFrom(w, i, d), d) + Trail(w, i, d) == Normalize(w, i, d)
    decreases |w| - i
  {
    if i < |w| {
      var e := GroupEnd(w, i, d);
      if e + 1 < |w| {
        SplitJoin(w, e + 1, d);
        SplitJoinStep(w, i, d);
      } else {
        SplitJoinLast(w, i, d);
      }
    } else {
      SplitJoinEnd(w, d);
    }
  }

  /** `SplitJoin` once the tokens are used up: nothing on either side. */
  lemma {:induction false} SplitJoinEnd(w: seq<string>, d: char)
    ensures Join(SplitFrom(w, |w|, d), d) + Trail(w, |w|, d) == Normalize(w, |w|, d)
  {
    assert SplitFrom(w, |w|, d) == [] && Normalize(w, |w|, d) == [] && Trail(w, |w|, d) == [];
  }

  /** Where the next group starts: after the delimiter that ended the group
      at `i`, or at the end when none did. */
  function Next(w: seq<string>, i: nat, d: char): (n: nat)
    ensures i <= |w| ==> i <= n <= |w|
  {
    if GroupEnd(w, i, d) < |w| then GroupEnd(w, i, d) + 1 else |w|
  }

  /** One group off the front: the first group is the one at `i`, and the
      rest start at `Next(w, i, d)`. */
  lemma {:induction false} SplitStep(w: seq<string>, i: nat, d: char)
    requires i < |w|
    ensures |SplitFrom(w, i, d)| >= 1 && SplitFrom(w, i, d)[0] == Group(w, i, d)
    ensures SplitFrom(w, i, d)[1..] == SplitFrom(w, Next(w, i, d), d)
  {
  }

  /** `SplitStep` seen from the whole list, once `count` groups are done. */
  lemma {:induction false} SplitAdvance(groups: seq<seq<string>>, count: nat, w: seq<string>, i: nat, d: char)
    requires i < |w| && count <= |groups| && groups[count..] == SplitFrom(w, i, d)
    ensures count < |groups| && groups[count] == Group(w, i, d)
    ensures groups[count + 1..] == SplitFrom(w, Next(w, i, d), d)
  {
    SplitStep(w, i, d);
    assert groups[count + 1..] == groups[count..][1..];
  }

  /** `tokens_to_command`: from slot `start`, counts the tokens up to the
      first delimiter token or slot `t`, copying them into `firstCmd`
      unless it is NULL. Returns -1 when `start >= t`. The separator comes
      back changed only when a delimiter ended the group. The source reads
      `tokens[i][0]` before testing for NULL, so the slots it scans must
      hold tokens. */
  method TokensToCommand(start: int, t: int, tokens: array<Option<string>>, firstCmd: array?<Option<string>>,
                         sep: char, d: char, ghost w: seq<string>)
    returns (c: int, sepOut: char)
    requires 0 <= start && t <= tokens.Length && (0 <= t ==> w == Values(tokens[..t]))
    requires forall k :: start <= k < t ==> tokens[k].Some?
    requires firstCmd != null ==> firstCmd != tokens
    requires firstCmd != null && start < t ==> GroupEnd(w, start, d) - start <= firstCmd.Length
    modifies firstCmd
    ensures c == -1 <==> start >= t
    ensures start < t ==> c == GroupEnd(w, start, d) - start
    ensures sepOut == if start < t && GroupEnd(w, start, d) < t then d else sep
    ensures firstCmd != null ==> forall k :: 0 <= k < firstCmd.Length ==>
              firstCmd[k] == if k < c then Some(Group(w, start, d)[k]) else old(firstCmd[k])
  {
    if start >= t {
      return -1, sep;
    }
    GroupFirst(w, start, d);
    c, sepOut := 0, sep;
    var i := start;
    while i < t
      invariant start <= i <= t && c == i - start
      invariant GroupEnd(w, i, d) == GroupEnd(w, start, d)
      invariant firstCmd != null ==> forall k :: 0 <= k < firstCmd.Length ==>
                  firstCmd[k] == if k < c then Some(w[start + k]) else old(firstCmd[k])
    {
      assert tokens[..t][i] == Some(w[i]);
      if tokens[i] == None || Head(tokens[i].value) == d {
        sepOut := Head(tokens[i].value);
        return;
      }
      if firstCmd != null {
        firstCmd[c] := Some(tokens[i].value);
      }
      c, i := c + 1, i + 1;
    }
  }

  /** A NULL-terminated `char **` array holding exactly the strings `g`. */
  predicate NullTerminated(row: array?<Option<string>>, g: seq<string>)
    reads row
  {
    row != null && row[..] == Slots(g) + [None]
  }

  /** The counting and allocation steps of one round of
      `tokens_to_commands`: counts the group at `i`, and when it is not
      empty stores it in slot `count` as a fresh array of its length plus
      one, filled by `tokens_to_command` and NULL-terminated. */
  method StoreGroup(i: int, t: int, tokens: array<Option<string>>, commands: array<array?<Option<string>>>,
                    count: int, d: char, ghost w: seq<string>, ghost groups: seq<seq<string>>)
    returns (result: int, sep: char)
    requires 0 <= i <= t <= tokens.Length && w == Values(tokens[..t])
    requires forall k :: i <= k < t ==> tokens[k].Some?
    requires d != ' '
    requires 0 <= count <= |groups| <= commands.Length && groups[count..] == SplitFrom(w, i, d)
    modifies commands
    ensures result == -1 <==> i >= t
    ensures result == -1 ==> sep == ' '
    ensures result != -1 ==> count < |groups| && result == |groups[count]|
    ensures result != -1 ==> groups[count + 1..] == SplitFrom(w, Next(w, i, d), d)
    ensures result != -1 ==> i < Next(w, i, d) == i + result + (if sep != ' ' then 1 else 0) <= t
    ensures result > 0 ==> fresh(commands[count]) && NullTerminated(commands[count], groups[count])
    ensures result > 0 ==> forall k :: 0 <= k < commands.Length ==> commands[count] != old(commands[k])
    ensures forall k :: 0 <= k < commands.Length && (k != count || result <= 0) ==> commands[k] == old(commands[k])
  {
    sep := ' ';
    result, sep := TokensToCommand(i, t, tokens, null, sep, d, w);
    if result != -1 {
      SplitAdvance(groups, count, w, i, d);
    }
    if result > 0 {
      var row := new Option<string>[result + 1];
      commands[count] := row;
      var _, s := TokensToCommand(i, t, tokens, row, sep, d, w);
      sep := s;
      row[result] := None;
    }
  }

  /** `tokens_to_commands`: splits `tokens[0..t)` at the delimiter and
      stores each group in a fresh NULL-terminated array. An empty group
      is counted but its slot is left as it was: the source allocates only
      for a non-empty group. A delimiter that is a blank would make the
      loop spin on a token starting with a blank, so it is excluded. */
  method TokensToCommands(t: int, tokens: array<Option<string>>, commands: array<array?<Option<string>>>, d: char,
                          ghost groups: seq<seq<string>>)
    returns (count: int)
    requires 0 <= t <= tokens.Length
    requires forall k :: 0 <= k < t ==> tokens[k].Some?
    requires d != ' '
    requires groups == Split(Values(tokens[..t]), d) && |groups| <= commands.Length
    modifies commands
    ensures count == |groups|
    ensures forall k :: 0 <= k < count && |groups[k]| > 0 ==> fresh(commands[k]) && NullTerminated(commands[k], groups[k])
    ensures forall j, k :: 0 <= j < k < count && |groups[j]| > 0 && |groups[k]| > 0 ==> commands[j] != commands[k]
    ensures forall k :: 0 <= k < commands.Length && (k >= count || |groups[k]| == 0) ==> commands[k] == old(commands[k])
  {
    ghost var w := Values(tokens[..t]);
    ghost var owner: map<array?<Option<string>>, nat> := map[];
    count := 0;
    var i := 0;
    var result := 0;
    while result != -1
      invariant 0 <= i <= t && 0 <= count <= |groups|
      invariant groups[count..] == SplitFrom(w, i, d)
      invariant result == -1 ==> i == t
      invariant forall k :: 0 <= k < commands.Length ==>
                  if k < count && |groups[k]| > 0
                  then fresh(commands[k]) && NullTerminated(commands[k], groups[k]) &&
                       commands[k] in owner && owner[commands[k]] == k
                  else commands[k] == old(commands[k])
      decreases if result == -1 then 0 else t - i + 1
    {
      var sep;
      ghost var next := Next(w, i, d);
      result, sep := StoreGroup(i, t, tokens, commands, count, d, w, groups);
      if result > 0 {
        owner := owner[commands[count] := count];
      }
      if result != -1 {
        i := i + result;
        count := count + 1;
      }
      if sep != ' ' {
        i := i + 1;
      }
      assert result != -1 ==> i == next;
    }
  }
}

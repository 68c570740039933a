/** The `;` loop of the shell's `main` (shell.c): the tokens of one input
    line are cut into groups at `;` and each group is processed in turn as
    a command, through one reused token array `cmd_tokens`. The loop ends
    at the end of the line, at the first empty group (so `a ; ; b` never
    runs `b`), or when a command asks the shell to exit. */
module Sequencer {
  import opened CStrings
  import opened Splitter
  import opened Shell

  /** The token array after a group `g` is copied to its front and the slot
      after it set to NULL; the slots after that keep what they held. */
  function Load(cmd: seq<Option<string>>, g: seq<string>): (r: seq<Option<string>>)
    requires |g| < |cmd|
    ensures |r| == |cmd| && NullIndex(r) == |g|
    ensures forall k :: 0 <= k < |cmd| ==> r[k] == if k < |g| then Some(g[k]) else if k == |g| then None else cmd[k]
  {
    var r := Slots(g) + [None] + cmd[|g| + 1..];
    NullIndexOf(r, |g|);
    r
  }

  /** What a line does: whether a command made the shell exit, the actions
      of the commands run, in order, and the cache afterwards. */
  datatype LineOutcome = LineOutcome(exited: bool, actions: seq<Action>, prev: seq<Option<string>>)

  /** `o` preceded by the actions `acts`. */
  function Prepend(acts: seq<Action>, o: LineOutcome): LineOutcome
  {
    LineOutcome(o.exited, acts + o.actions, o.prev)
  }

  /** Every group fits in the token array with its terminating NULL. */
  predicate Fits(groups: seq<seq<string>>)
  {
    forall k :: 0 <= k < |groups| ==> |groups[k]| < MAX_INPUT_SIZE
  }

  /** The groups of a line run in turn through the token array `cmd`, up
      to the first empty group or the first command that exits. */
  function RunGroups(groups: seq<seq<string>>, cmd: seq<Option<string>>, prev: seq<Option<string>>): (r: LineOutcome)
    requires |cmd| == MAX_INPUT_SIZE && |prev| == MAX_INPUT_SIZE
    requires Fits(groups)
    ensures |r.actions| <= |groups|
    decreases |groups|
  {
    if |groups| == 0 || |groups[0]| == 0 then LineOutcome(false, [], prev)
    else
      var o := Process(Load(cmd, groups[0]), |groups[0]|, prev);
      if o.status == 0 then LineOutcome(true, [o.action], o.prev)
      else Prepend([o.action], RunGroups(groups[1..], o.tokens, o.prev))
  }

  /** Index of the first empty group, or the number of groups. */
  function FirstEmpty(groups: seq<seq<string>>): (n: nat)
    ensures n <= |groups|
    ensures forall k :: 0 <= k < n ==> |groups[k]| > 0
    ensures n < |groups| ==> |groups[n]| == 0
  {
    if |groups| == 0 || |groups[0]| == 0 then 0 else 1 + FirstEmpty(groups[1..])
  }

  /** A line runs one command per group before its first empty group,
      unless a command exits first. */
  lemma {:induction false} RunCount(groups: seq<seq<string>>, cmd: seq<Option<string>>, prev: seq<Option<string>>)
    requires |cmd| == MAX_INPUT_SIZE && |prev| == MAX_INPUT_SIZE && Fits(groups)
    ensures |RunGroups(groups, cmd, prev).actions| <= FirstEmpty(groups)
    ensures !RunGroups(groups, cmd, prev).exited ==> |RunGroups(groups, cmd, prev).actions| == FirstEmpty(groups)
    decreases |groups|
  {
    if |groups| > 0 && |groups[0]| > 0 {
      var o := Process(Load(cmd, groups[0]), |groups[0]|, prev);
      if o.status != 0 {
        RunCount(groups[1..], o.tokens, o.prev);
        assert FirstEmpty(groups) == 1 + FirstEmpty(groups[1..]);
      }
    }
  }

  /** The line made the shell exit exactly when its last action is `Exit`,
      and no earlier action is `Exit`. */
  predicate ExitsLast(r: LineOutcome)
  {
    (r.exited <==> |r.actions| > 0 && r.actions[|r.actions| - 1] == Exit) &&
    forall k :: 0 <= k < |r.actions| - 1 ==> r.actions[k] != Exit
  }

  /** A command that does not exit, put before a line that exits last,
      keeps it exiting last. */
  lemma {:induction false} ExitsLastPrepend(a: Action, r: LineOutcome)
    requires a != Exit && ExitsLast(r)
    ensures ExitsLast(Prepend([a], r))
  {
    var acts := [a] + r.actions;
    assert forall k :: 1 <= k < |acts| ==> acts[k] == r.actions[k - 1];
  }

  /** A line makes the shell exit exactly when its last action is `Exit`,
      and no earlier action is `Exit`. */
  lemma {:induction false} RunExits(groups: seq<seq<string>>, cmd: seq<Option<string>>, prev: seq<Option<string>>)
    requires |cmd| == MAX_INPUT_SIZE && |prev| == MAX_INPUT_SIZE && Fits(groups)
    ensures ExitsLast(RunGroups(groups, cmd, prev))
    decreases |groups|
  {
    if |groups| > 0 && |groups[0]| > 0 {
      var l := Load(cmd, groups[0]);
      var o := Process(l, |groups[0]|, prev);
      ExitStatus(l, |groups[0]|, prev);
      if o.status != 0 {
        RunExits(groups[1..], o.tokens, o.prev);
        ExitsLastPrepend(o.action, RunGroups(groups[1..], o.tokens, o.prev));
      }
    }
  }

  /** Running a line keeps the cache valid. */
  lemma {:induction false} RunKeepsCache(groups: seq<seq<string>>, cmd: seq<Option<string>>, prev: seq<Option<string>>)
    requires |cmd| == MAX_INPUT_SIZE && |prev| == MAX_INPUT_SIZE
    requires Fits(groups)
    requires CacheValid(prev)
    ensures CacheValid(RunGroups(groups, cmd, prev).prev)
    decreases |groups|
  {
    if |groups| > 0 && |groups[0]| > 0 {
      var l := Load(cmd, groups[0]);
      var o := Process(l, |groups[0]|, prev);
      CacheStaysValid(l, |groups[0]|, prev);
      if o.status != 0 {
        RunKeepsCache(groups[1..], o.tokens, o.prev);
      }
    }
  }

  /** No group of a line is longer than the line. */
  lemma {:induction false} SplitBounded(w: seq<string>, i: nat, d: char)
    requires i <= |w|
    ensures forall k :: 0 <= k < |SplitFrom(w, i, d)| ==> |SplitFrom(w, i, d)[k]| <= |w|
    decreases |w| - i
  {
    if i < |w| {
      SplitStep(w, i, d);
      SplitBounded(w, Next(w, i, d), d);
      forall k | 0 < k < |SplitFrom(w, i, d)|
        ensures |SplitFrom(w, i, d)[k]| <= |w|
      {
        assert SplitFrom(w, i, d)[k] == SplitFrom(w, i, d)[1..][k - 1];
      }
    }
  }

  /** The groups of a line that fits the token array fit it too. */
  lemma {:induction false} SplitFits(w: seq<string>, i: nat)
    requires i <= |w| < MAX_INPUT_SIZE
    ensures Fits(SplitFrom(w, i, ';'))
  {
    SplitBounded(w, i, ';');
  }

  /** The loop's view of a line: `whole` is what the line does, `actions`
      the actions so far and the groups from `i` on what is left to run. A
      non-empty group at `i` whose processing gave `o` moves the loop on to
      `Next(w, i, ';')`, or ends the line when `o` is an exit. */
  lemma {:induction false} Advance(w: seq<string>, i: nat, cmd: seq<Option<string>>, prev: seq<Option<string>>,
                                   o: Outcome, actions: seq<Action>, whole: LineOutcome)
    requires i < |w| < MAX_INPUT_SIZE && |cmd| == MAX_INPUT_SIZE && |prev| == MAX_INPUT_SIZE
    requires Fits(SplitFrom(w, i, ';'))
    requires whole == Prepend(actions, RunGroups(SplitFrom(w, i, ';'), cmd, prev))
    requires |Group(w, i, ';')| > 0
    requires o == Process(Load(cmd, Group(w, i, ';')), |Group(w, i, ';')|, prev)
    ensures Fits(SplitFrom(w, Next(w, i, ';'), ';'))
    ensures |o.tokens| == MAX_INPUT_SIZE && |o.prev| == MAX_INPUT_SIZE
    ensures o.status == 0 ==> whole == LineOutcome(true, actions + [o.action], o.prev)
    ensures o.status != 0 ==>
              whole == Prepend(actions + [o.action], RunGroups(SplitFrom(w, Next(w, i, ';'), ';'), o.tokens, o.prev))
  {
    SplitFits(w, Next(w, i, ';'));
    SplitStep(w, i, ';');
    var rest := SplitFrom(w, Next(w, i, ';'), ';');
    if o.status != 0 {
      PrependTwice(actions, [o.action], RunGroups(rest, o.tokens, o.prev));
    }
  }

  /** The line ends with the groups from `i` on when the line is used up
      or the group at `i` is empty. */
  lemma {:induction false} Finish(w: seq<string>, i: nat, cmd: seq<Option<string>>, prev: seq<Option<string>>,
                                  actions: seq<Action>, whole: LineOutcome)
    requires |cmd| == MAX_INPUT_SIZE && |prev| == MAX_INPUT_SIZE
    requires Fits(SplitFrom(w, i, ';'))
    requires whole == Prepend(actions, RunGroups(SplitFrom(w, i, ';'), cmd, prev))
    requires i >= |w| || |Group(w, i, ';')| == 0
    ensures whole == LineOutcome(false, actions, prev)
  {
    if i < |w| {
      SplitStep(w, i, ';');
    }
    assert actions + [] == actions;
  }

  /** Actions prepended twice are prepended once, concatenated. */
  lemma {:induction false} PrependTwice(a: seq<Action>, b: seq<Action>, o: LineOutcome)
    ensures Prepend(a, Prepend(b, o)) == Prepend(a + b, o)
  {
    assert a + (b + o.actions) == (a + b) + o.actions;
  }

  /** The slots of the token array the loop stores NULL into, for the
      groups from `i` on, when no command exits: the length of each group,
      up to and including the first empty one. */
  function Stores(w: seq<string>, i: nat): (s: seq<int>)
    ensures forall k :: 0 <= k < |s| ==> 0 <= s[k] <= |w|
    decreases |w| - i
  {
    if i >= |w| then []
    else if GroupEnd(w, i, ';') == i then [0]
    else [GroupEnd(w, i, ';') - i] + Stores(w, Next(w, i, ';'))
  }

  /** The same stores as the loop is written: once the line is used up,
      `tokens_to_command` returns -1 and the loop still stores NULL at that
      index, before the start of the array. */
  function StoresAsWritten(w: seq<string>, i: nat): seq<int>
    decreases |w| - i
  {
    if i >= |w| then [-1]
    else if GroupEnd(w, i, ';') == i then [0]
    else [GroupEnd(w, i, ';') - i] + StoresAsWritten(w, Next(w, i, ';'))
  }

  /** A line with no empty group (every non-empty line without `;;`, a
      leading `;` or a trailing `; ;`) makes the loop as written store NULL
      at index -1 of the token array; for `ls` the stores are 1 and -1. */
  lemma {:induction false} StoresOutOfBounds(w: seq<string>, i: nat)
    requires i <= |w|
    requires forall k :: 0 <= k < |SplitFrom(w, i, ';')| ==> |SplitFrom(w, i, ';')[k]| > 0
    ensures StoresAsWritten(w, i) == Stores(w, i) + [-1]
    ensures StoresAsWritten(["ls"], 0) == [1, -1]
    decreases |w| - i
  {
    if i < |w| {
      SplitStep(w, i, ';');
      assert |Group(w, i, ';')| > 0;
      forall k | 0 <= k < |SplitFrom(w, Next(w, i, ';'), ';')|
        ensures |SplitFrom(w, Next(w, i, ';'), ';')[k]| > 0
      {
        assert SplitFrom(w, Next(w, i, ';'), ';')[k] == SplitFrom(w, i, ';')[k + 1];
      }
      StoresOutOfBounds(w, Next(w, i, ';'));
    }
    assert GroupEnd(["ls"], 1, ';') == 1;
    assert GroupEnd(["ls"], 0, ';') == 1;
  }

  /** The extra call the loop as written makes once the line is used up
      (`process_command` with -1 tokens, on the array the last group left)
      changes nothing: the array then names `prev` only if the cache is
      empty. So the stores are the only difference the correction makes. */
  lemma {:induction false} TrailingCallHarmless(tokens: seq<Option<string>>, t: int, prev: seq<Option<string>>)
    requires |tokens| == MAX_INPUT_SIZE && |prev| == MAX_INPUT_SIZE
    requires tokens[0].Some? && (t <= 0 || t == NullIndex(tokens))
    requires CacheValid(prev)
    ensures var o := Process(tokens, t, prev);
            Process(o.tokens, -1, o.prev) == Outcome(1, o.tokens, o.prev, Nothing)
  {
    var o := Process(tokens, t, prev);
    CacheStaysValid(tokens, t, prev);
    EmptyCallIsNoOp(o.tokens, -1, o.prev);
  }

  /** `tokens_to_command` on the group at `i` followed by the NULL stored
      after it; the store is skipped when the line is used up (-1). */
  method LoadGroup(tokens: array<Option<string>>, t: int, i: nat, cmd: array<Option<string>>, ghost w: seq<string>)
    returns (c: int, sep: char)
    requires tokens.Length == MAX_INPUT_SIZE && cmd.Length == MAX_INPUT_SIZE && cmd != tokens
    requires i <= t < MAX_INPUT_SIZE && w == Values(tokens[..t])
    requires forall k :: 0 <= k < t ==> tokens[k].Some?
    modifies cmd
    ensures c >= -1 && (c == -1 <==> i >= t)
    ensures c == -1 ==> cmd[..] == old(cmd[..])
    ensures c >= 0 ==> c == GroupEnd(w, i, ';') - i == |Group(w, i, ';')|
    ensures c >= 0 ==> cmd[..] == Load(old(cmd[..]), Group(w, i, ';'))
    ensures c >= 0 ==> (sep == ';' <==> GroupEnd(w, i, ';') < t)
    ensures c == -1 ==> Stores(w, i) == []
    ensures c >= 0 ==> |Stores(w, i)| > 0 && Stores(w, i)[0] == c
  {
    c, sep := TokensToCommand(i, t, tokens, cmd, ' ', ';', w);
    if c != -1 {
      cmd[c] := None;
      assert cmd[..] == Load(old(cmd[..]), Group(w, i, ';'));
    }
  }

  /** The processing of the non-empty group at `start`, already loaded
      into `cmd`, with the loop's account of the line carried over. */
  method ProcessGroup(cmd: array<Option<string>>, c: int, prev: array<Option<string>>,
                      ghost w: seq<string>, ghost start: nat, ghost before: seq<Option<string>>,
                      ghost actions: seq<Action>, ghost whole: LineOutcome)
    returns (r: int, act: Action)
    requires cmd.Length == MAX_INPUT_SIZE && prev.Length == MAX_INPUT_SIZE && cmd != prev
    requires start < |w| < MAX_INPUT_SIZE && |before| == MAX_INPUT_SIZE
    requires Fits(SplitFrom(w, start, ';'))
    requires whole == Prepend(actions, RunGroups(SplitFrom(w, start, ';'), before, prev[..]))
    requires c == |Group(w, start, ';')| > 0
    requires cmd[..] == Load(before, Group(w, start, ';'))
    modifies cmd, prev
    ensures Fits(SplitFrom(w, Next(w, start, ';'), ';'))
    ensures r == 0 ==> whole == LineOutcome(true, actions + [act], prev[..])
    ensures r != 0 ==> whole == Prepend(actions + [act], RunGroups(SplitFrom(w, Next(w, start, ';'), ';'), cmd[..], prev[..]))
  {
    ghost var prevBefore := prev[..];
    r, act := ProcessCommand(cmd, c, prev);
    Advance(w, start, before, prevBefore, Outcome(r, cmd[..], prev[..], act), actions, whole);
  }

  /** One round of the `;` loop: loads the group at `i` into `cmd` and,
      when it is not empty, processes it. `c` is what `tokens_to_command`
      returned, `next` where the following group starts, `r` the status
      of the command run (1 when none ran). */
  method RunGroup(tokens: array<Option<string>>, t: int, i: nat, cmd: array<Option<string>>,
                  prev: array<Option<string>>, ghost w: seq<string>, ghost actions: seq<Action>,
                  ghost whole: LineOutcome)
    returns (c: int, next: nat, r: int, act: Action)
    requires tokens.Length == MAX_INPUT_SIZE && cmd.Length == MAX_INPUT_SIZE && prev.Length == MAX_INPUT_SIZE
    requires cmd != tokens && cmd != prev
    requires i <= t < MAX_INPUT_SIZE && w == Values(tokens[..t])
    requires forall k :: 0 <= k < t ==> tokens[k].Some?
    requires Fits(SplitFrom(w, i, ';'))
    requires whole == Prepend(actions, RunGroups(SplitFrom(w, i, ';'), cmd[..], prev[..]))
    modifies cmd, prev
    ensures c >= -1 && (c == -1 <==> i >= t)
    ensures c <= 0 ==> whole == LineOutcome(false, actions, prev[..]) && r == 1
    ensures c > 0 ==> next == Next(w, i, ';')
    ensures c > 0 ==> Fits(SplitFrom(w, next, ';')) && i < next <= t
    ensures c > 0 && r == 0 ==> whole == LineOutcome(true, actions + [act], prev[..])
    ensures c > 0 && r != 0 ==> whole == Prepend(actions + [act], RunGroups(SplitFrom(w, next, ';'), cmd[..], prev[..]))
  {
    ghost var before := cmd[..];
    var sep;
    r, act, next := 1, Nothing, i;
    c, sep := LoadGroup(tokens, t, i, cmd, w);
    if c <= 0 {
      Finish(w, i, before, prev[..], actions, whole);
      return;
    }
    next := i + c;
    if sep == ';' {
      next := next + 1;
    }
    r, act := ProcessGroup(cmd, c, prev, w, i, before, actions, whole);
  }

  /** The `;` loop of `main` on a line of `t` tokens, stopping as soon as
      `tokens_to_command` reports that the line is used up (the loop as
      written goes on to store NULL at index -1 and to call
      `process_command` once more; see `StoresAsWritten`). */
  method RunLine(tokens: array<Option<string>>, t: int, prev: array<Option<string>>)
    returns (exited: bool, actions: seq<Action>)
    requires tokens.Length == MAX_INPUT_SIZE && prev.Length == MAX_INPUT_SIZE && tokens != prev
    requires 0 < t < MAX_INPUT_SIZE
    requires forall k :: 0 <= k < t ==> tokens[k].Some?
    modifies prev
    ensures Fits(Split(Values(tokens[..t]), ';')) &&
            LineOutcome(exited, actions, prev[..]) ==
              RunGroups(Split(Values(tokens[..t]), ';'), seq(MAX_INPUT_SIZE, _ => None), old(prev[..]))
  {
    ghost var w := Values(tokens[..t]);
    var cmd := new Option<string>[MAX_INPUT_SIZE](_ => None);
    SplitFits(w, 0);
    assert cmd[..] == seq(MAX_INPUT_SIZE, _ => None);
    ghost var whole := RunGroups(Split(w, ';'), cmd[..], prev[..]);
    exited, actions := false, [];
    var i := 0;
    var c := 0;
    while c >= 0
      invariant 0 <= i <= t && c >= 0
      invariant Fits(SplitFrom(w, i, ';'))
      invariant whole == Prepend(actions, RunGroups(SplitFrom(w, i, ';'), cmd[..], prev[..]))
      decreases t - i
    {
      var next, r, act;
      c, next, r, act := RunGroup(tokens, t, i, cmd, prev, w, actions, whole);
      if c == -1 {
        break;
      }
      if c == 0 {
        break;
      }
      i := next;
      actions := actions + [act];
      if r == 0 {
        exited := true;
        break;
      }
    }
  }
}

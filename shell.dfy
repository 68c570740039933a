/** The command dispatcher of the shell (`set_prev_command` and
    `process_command` in shell.c). A command arrives as a NULL-terminated
    token array and its count. The built-in `prev` first replaces it with
    the cached previous command; then, for a non-empty command, the cache
    is refreshed with a copy of the command and the command is dispatched:
    `exit`, `help`, `cd` and `source` are built in, anything else is run as
    a pipeline. The effects of the built-ins and of the pipeline are
    recorded as an `Action` rather than performed. */
module Shell {
  import opened CStrings
  import opened Splitter
  import opened Pipeline

  /** What a command does once dispatched. */
  datatype Action =
    | Nothing                        // no command, or `prev` with an empty cache
    | Exit                           // `exit`: the shell stops
    | Help                           // `help`: the help page is printed
    | ChangeDir(dir: Option<string>) // `cd`: `chdir` on the second token, NULL when absent
    | Source(file: string)           // `source` with a file name: the script is run
    | SourceMissing                  // `source` alone: an error message
    | Run(stages: seq<Stage>)        // anything else: the pipeline is started

  /** The result of processing one command: the status returned (0 to
      leave the shell), the token array and the cache afterwards, and what
      the command does. */
  datatype Outcome = Outcome(status: int, tokens: seq<Option<string>>, prev: seq<Option<string>>, action: Action)

  /** `strcmp(tok, name) == 0` on a non-NULL token. */
  predicate Named(tok: Option<string>, name: string)
  {
    tok.Some? && CStr(tok.value) == name
  }

  /** A `char **` array of `size` slots holding `w` and NULL after it. */
  function Padded(w: seq<string>, size: nat): (r: seq<Option<string>>)
    requires |w| <= size
    ensures |r| == size
    ensures forall k :: 0 <= k < size ==> r[k] == if k < |w| then Some(w[k]) else None
  {
    Slots(w) + seq(size - |w|, _ => None)
  }

  /** An array read up to its first NULL, with NULL in every later slot:
      what both copying loops of the dispatcher leave behind. */
  function Trimmed(p: seq<Option<string>>): (r: seq<Option<string>>)
    ensures |r| == |p|
    ensures forall k :: 0 <= k < |p| ==> r[k] == if k < NullIndex(p) then p[k] else None
  {
    Padded(Values(p[..NullIndex(p)]), |p|)
  }

  /** Every slot after the first NULL is NULL too. */
  predicate Compact(p: seq<Option<string>>)
  {
    forall k :: NullIndex(p) <= k < |p| ==> p[k] == None
  }

  /** Trimming keeps the command, leaves a compact array, and changes
      nothing in an array that is already compact. */
  lemma {:induction false} TrimmedCompact(p: seq<Option<string>>)
    ensures NullIndex(Trimmed(p)) == NullIndex(p)
    ensures Compact(Trimmed(p))
    ensures Compact(p) ==> Trimmed(p) == p
  {
    if NullIndex(p) < |p| {
      NullIndexOf(Trimmed(p), NullIndex(p));
    } else {
      assert Trimmed(p) == p;
    }
  }

  /** The cache as the dispatcher keeps it: compact, and never holding
      `prev` as its command name. */
  predicate CacheValid(prev: seq<Option<string>>)
  {
    |prev| > 0 && Compact(prev) && !Named(prev[0], "prev")
  }

  /** The dispatch of a non-empty command of `t` tokens. */
  function Command(tokens: seq<Option<string>>, t: int): (a: Action)
    requires 0 < t <= |tokens| && |tokens| >= 2
    requires forall k :: 0 <= k < t ==> tokens[k].Some?
    ensures a.Run? <==> !(Named(tokens[0], "exit") || Named(tokens[0], "help") ||
                          Named(tokens[0], "cd") || Named(tokens[0], "source"))
    ensures a.Source? ==> t >= 2 && a.file == tokens[1].value
    ensures a.Run? ==> a.stages == PipelineOf(Values(tokens[..t]))
  {
    if Named(tokens[0], "exit") then Exit
    else if Named(tokens[0], "help") then Help
    else if Named(tokens[0], "cd") then ChangeDir(tokens[1])
    else if Named(tokens[0], "source") then (if t >= 2 then Source(tokens[1].value) else SourceMissing)
    else Run(PipelineOf(Values(tokens[..t])))
  }

  /** `process_command` on the token array `tokens` holding `t` tokens
      (`t` is at most 0 or the index of the first NULL) and the cache `prev`. */
  function Process(tokens: seq<Option<string>>, t: int, prev: seq<Option<string>>): (o: Outcome)
    requires |tokens| == MAX_INPUT_SIZE && |prev| == MAX_INPUT_SIZE
    requires tokens[0].Some?
    requires t <= 0 || t == NullIndex(tokens)
    ensures |o.tokens| == MAX_INPUT_SIZE && |o.prev| == MAX_INPUT_SIZE && o.tokens[0].Some?
    ensures o.status == 0 || o.status == 1
  {
    if Named(tokens[0], "prev") && prev[0] == None then Outcome(1, tokens, prev, Nothing)
    else
      var cmd := if Named(tokens[0], "prev") then Trimmed(prev) else tokens;
      var n := if Named(tokens[0], "prev") then NullIndex(prev) else t;
      if n <= 0 then Outcome(1, cmd, prev, Nothing)
      else Outcome(if Named(cmd[0], "exit") then 0 else 1, cmd, Trimmed(cmd), Command(cmd, n))
  }

  /** `prev` with an empty cache reports failure and changes nothing. */
  lemma {:induction false} RecallEmptyCache(tokens: seq<Option<string>>, t: int, prev: seq<Option<string>>)
    requires |tokens| == MAX_INPUT_SIZE && |prev| == MAX_INPUT_SIZE
    requires tokens[0].Some? && (t <= 0 || t == NullIndex(tokens))
    requires Named(tokens[0], "prev") && prev[0] == None
    ensures Process(tokens, t, prev) == Outcome(1, tokens, prev, Nothing)
  {
  }

  /** `prev` with a cached command runs that command and leaves the cache
      as it was. */
  lemma {:induction false} RecallKeepsCache(tokens: seq<Option<string>>, t: int, prev: seq<Option<string>>)
    requires |tokens| == MAX_INPUT_SIZE && |prev| == MAX_INPUT_SIZE
    requires tokens[0].Some? && (t <= 0 || t == NullIndex(tokens))
    requires Named(tokens[0], "prev") && prev[0].Some? && Compact(prev)
    ensures Process(tokens, t, prev).tokens == prev
    ensures Process(tokens, t, prev).prev == prev
    ensures Process(tokens, t, prev).action == Command(prev, NullIndex(prev))
  {
    TrimmedCompact(prev);
  }

  /** Any other non-empty command becomes the cache: its tokens up to the
      first NULL, NULL in every later slot. */
  lemma {:induction false} RecordsCommand(tokens: seq<Option<string>>, t: int, prev: seq<Option<string>>)
    requires |tokens| == MAX_INPUT_SIZE && |prev| == MAX_INPUT_SIZE
    requires tokens[0].Some? && t > 0 && t == NullIndex(tokens)
    requires !Named(tokens[0], "prev")
    ensures Process(tokens, t, prev).prev[..t] == tokens[..t]
    ensures forall k :: t <= k < MAX_INPUT_SIZE ==> Process(tokens, t, prev).prev[k] == None
    ensures Process(tokens, t, prev).tokens == tokens
  {
    var p := Process(tokens, t, prev).prev;
    assert p == Trimmed(tokens);
    assert forall k :: 0 <= k < t ==> p[k] == tokens[k];
  }

  /** The status is 0 exactly when the command, after the `prev`
      substitution, is `exit`; otherwise it is 1. */
  lemma {:induction false} ExitStatus(tokens: seq<Option<string>>, t: int, prev: seq<Option<string>>)
    requires |tokens| == MAX_INPUT_SIZE && |prev| == MAX_INPUT_SIZE
    requires tokens[0].Some? && (t <= 0 || t == NullIndex(tokens))
    ensures Process(tokens, t, prev).status == 0 <==> Process(tokens, t, prev).action == Exit
    ensures Process(tokens, t, prev).action == Exit ==> Named(Process(tokens, t, prev).tokens[0], "exit")
  {
    var o := Process(tokens, t, prev);
    var recall := Named(tokens[0], "prev");
    if !(recall && prev[0] == None) {
      var cmd := if recall then Trimmed(prev) else tokens;
      var n := if recall then NullIndex(prev) else t;
      if n > 0 {
        DispatchExit(cmd, n);
        assert o == Outcome(if Named(cmd[0], "exit") then 0 else 1, cmd, Trimmed(cmd), Command(cmd, n));
      }
    }
  }

  /** Only `exit` dispatches to `Exit`. */
  lemma {:induction false} DispatchExit(tokens: seq<Option<string>>, t: int)
    requires 0 < t <= |tokens| && |tokens| >= 2
    requires forall k :: 0 <= k < t ==> tokens[k].Some?
    ensures Command(tokens, t) == Exit <==> Named(tokens[0], "exit")
  {
    if !Named(tokens[0], "exit") {
      assert Command(tokens, t) != Exit;
    }
  }

  /** Processing keeps the cache valid; and when the token array still
      names `prev` afterwards, the cache is empty (the substitution failed). */
  lemma {:induction false} CacheStaysValid(tokens: seq<Option<string>>, t: int, prev: seq<Option<string>>)
    requires |tokens| == MAX_INPUT_SIZE && |prev| == MAX_INPUT_SIZE
    requires tokens[0].Some? && (t <= 0 || t == NullIndex(tokens))
    requires CacheValid(prev)
    ensures CacheValid(Process(tokens, t, prev).prev)
    ensures Named(Process(tokens, t, prev).tokens[0], "prev") ==> Process(tokens, t, prev).prev[0] == None
  {
    var o := Process(tokens, t, prev);
    TrimmedCompact(prev);
    if !Named(tokens[0], "prev") && t > 0 {
      TrimmedCompact(tokens);
      assert o.prev == Trimmed(tokens);
      assert o.prev[0] == tokens[0];
    }
  }

  /** A call with no tokens left changes nothing, provided the token
      array names `prev` only when the cache is empty. */
  lemma {:induction false} EmptyCallIsNoOp(tokens: seq<Option<string>>, t: int, prev: seq<Option<string>>)
    requires |tokens| == MAX_INPUT_SIZE && |prev| == MAX_INPUT_SIZE
    requires tokens[0].Some? && t <= 0
    requires Named(tokens[0], "prev") ==> prev[0] == None
    ensures Process(tokens, t, prev) == Outcome(1, tokens, prev, Nothing)
  {
  }

  /** `set_prev_command`: with an empty cache returns -1 and leaves the
      tokens alone; otherwise clears the tokens, copies the cache into them
      up to its first NULL and returns the number of tokens copied. */
  method SetPrevCommand(tokens: array<Option<string>>, prev: array<Option<string>>) returns (t: int)
    requires tokens.Length == MAX_INPUT_SIZE && prev.Length == MAX_INPUT_SIZE && tokens != prev
    modifies tokens
    ensures prev[0] == None ==> t == -1 && tokens[..] == old(tokens[..])
    ensures prev[0] != None ==> t == NullIndex(prev[..]) && tokens[..] == Trimmed(prev[..])
  {
    if prev[0] == None {
      return -1;
    }
    var i := 0;
    while i < MAX_INPUT_SIZE
      invariant 0 <= i <= MAX_INPUT_SIZE
      invariant forall k :: 0 <= k < i ==> tokens[k] == None
    {
      tokens[i] := None;
      i := i + 1;
    }
    ghost var n := NullIndex(prev[..]);
    t := 0;
    i := 0;
    while i < MAX_INPUT_SIZE
      invariant 0 <= i <= n && t == i
      invariant forall k :: 0 <= k < MAX_INPUT_SIZE ==> tokens[k] == if k < i then prev[k] else None
    {
      if prev[i] != None {
        tokens[i] := prev[i];
        t := t + 1;
      } else {
        tokens[i] := None;
        break;
      }
      i := i + 1;
    }
    assert tokens[..] == Trimmed(prev[..]);
  }

  /** The cache refresh of `process_command`: every slot of `prev` up to
      the first NULL of `tokens` gets a copy of that token, every later
      slot NULL. */
  method RecordCommand(tokens: array<Option<string>>, prev: array<Option<string>>)
    requires tokens.Length == MAX_INPUT_SIZE && prev.Length == MAX_INPUT_SIZE && tokens != prev
    modifies prev
    ensures prev[..] == Trimmed(tokens[..])
  {
    ghost var n := NullIndex(tokens[..]);
    var remaining := true;
    var i := 0;
    while i < MAX_INPUT_SIZE
      invariant 0 <= i <= MAX_INPUT_SIZE
      invariant remaining <==> i <= n
      invariant forall k :: 0 <= k < i ==> prev[k] == if k < n then tokens[k] else None
    {
      if tokens[i] == None {
        remaining := false;
      }
      if remaining {
        prev[i] := tokens[i];
      } else {
        prev[i] := None;
      }
      i := i + 1;
    }
    assert prev[..] == Trimmed(tokens[..]);
  }

  /** `process_command`: the `prev` substitution, the cache refresh and the
      dispatch. Returns 0 when the shell is to exit and 1 otherwise. */
  method ProcessCommand(tokens: array<Option<string>>, t: int, prev: array<Option<string>>)
    returns (r: int, act: Action)
    requires tokens.Length == MAX_INPUT_SIZE && prev.Length == MAX_INPUT_SIZE && tokens != prev
    requires tokens[0].Some?
    requires t <= 0 || t == NullIndex(tokens[..])
    modifies tokens, prev
    ensures Outcome(r, tokens[..], prev[..], act) == Process(old(tokens[..]), t, old(prev[..]))
  {
    var n := t;
    if Named(tokens[0], "prev") {
      n := SetPrevCommand(tokens, prev);
      if n == -1 {
        return 1, Nothing;
      }
    }
    if n <= 0 {
      return 1, Nothing;
    }
    RecordCommand(tokens, prev);
    r := 1;
    if Named(tokens[0], "exit") {
      return 0, Exit;
    } else if Named(tokens[0], "help") {
      act := Help;
    } else if Named(tokens[0], "cd") {
      act := ChangeDir(tokens[1]);
    } else if Named(tokens[0], "source") {
      act := if n >= 2 then Source(tokens[1].value) else SourceMissing;
    } else {
      var stages := RunPipeline(tokens, n);
      act := Run(stages);
    }
  }

  /** The pipeline branch of `process_command`: cuts the command into
      argument vectors at `|` and plans each stage. */
  method RunPipeline(tokens: array<Option<string>>, t: int) returns (stages: seq<Stage>)
    requires tokens.Length == MAX_INPUT_SIZE && 0 < t <= tokens.Length
    requires forall k :: 0 <= k < t ==> tokens[k].Some?
    ensures stages == PipelineOf(Values(tokens[..t]))
  {
    ghost var groups := Split(Values(tokens[..t]), '|');
    SplitCount(Values(tokens[..t]), 0, '|');
    var commands := new array?<Option<string>>[MAX_INPUT_SIZE](_ => null);
    var count := TokensToCommands(t, tokens, commands, '|', groups);
    stages := PlanPipeline(commands, count, groups);
  }
}

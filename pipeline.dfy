/** The pipeline set-up of `process_command` (shell.c): the command is cut
    into stages at `|`, each stage is scanned for a redirection, and each
    stage's standard input and output are chosen from its redirection and
    its position among the stages. The processes, the pipes and the files
    themselves are not modelled: a stage records which file it opens and
    which entry of the `pipefds` array (pipe `j` occupies entries `2j`, its
    read end, and `2j + 1`, its write end) ends up as its stdin or stdout. */
module Pipeline {
  import opened CStrings
  import opened Redirect
  import opened Splitter

  /** Where a standard stream of a stage comes from or goes to. */
  datatype Endpoint =
    | Inherited               // the shell's own stream
    | ReadFile(path: string)  // opened read-only
    | WriteFile(path: string) // created or truncated, opened write-only
    | PipeFd(index: nat)      // the entry `pipefds[index]`

  /** One child process: the argument vector it executes, the file its
      redirection opens (`Inherited` when there is none), and its final
      stdin and stdout. A stage cut from an empty group has no argument
      vector allocated at all; it is `Undefined`. */
  datatype Stage =
    | Stage(argv: seq<string>, opens: Endpoint, stdin: Endpoint, stdout: Endpoint)
    | Undefined

  /** The child's set-up for stage `i` of `n`, given what `parse_redirect`
      returned: the redirection takes effect first, then a pipe from the
      previous stage replaces stdin and a pipe to the next replaces stdout. */
  function Wire(i: nat, n: nat, op: char, path: string, argv: seq<string>): (s: Stage)
    ensures s.Stage? && s.argv == argv
    ensures s.stdin.PipeFd? <==> i > 0
    ensures s.stdout.PipeFd? <==> i + 1 < n
    ensures s.stdin == ReadFile(path) <==> i == 0 && op == '<'
    ensures s.stdout == WriteFile(path) <==> i + 1 >= n && op == '>'
  {
    var opens := if op == '>' then WriteFile(path) else if op == '<' then ReadFile(path) else Inherited;
    Stage(argv, opens,
          if i > 0 then PipeFd(2 * (i - 1)) else if op == '<' then opens else Inherited,
          if i + 1 < n then PipeFd(2 * i + 1) else if op == '>' then opens else Inherited)
  }

  /** The stage built from group `g`, at position `i` of `n`. */
  function StagePlan(g: seq<string>, i: nat, n: nat): (s: Stage)
    ensures s.Undefined? <==> |g| == 0
    ensures s.Stage? ==> |s.argv| < |g| || Binding(g, 0).None?
    ensures s.Stage? ==> (s.opens == Inherited <==> Binding(g, 0).None?)
  {
    if |g| == 0 then Undefined
    else match Binding(g, 0)
      case None => Wire(i, n, NO_REDIRECT, [], g)
      case Some(b) => Wire(i, n, Head(g[b - 1]), g[b], g[..b - 1])
  }

  /** The stages of a pipeline whose groups are `groups`. */
  function Plan(groups: seq<seq<string>>): (p: seq<Stage>)
    ensures |p| == |groups|
  {
    seq(|groups|, i requires 0 <= i < |groups| => StagePlan(groups[i], i, |groups|))
  }

  /** The pipeline a command line runs: its groups between `|` tokens. */
  function PipelineOf(w: seq<string>): seq<Stage>
  {
    Plan(Split(w, '|'))
  }

  /** The entries of `pipefds` a stage uses. */
  function PipeEnds(s: Stage): set<nat>
  {
    match s
    case Undefined => {}
    case Stage(_, _, stdin, stdout) =>
      (if stdin.PipeFd? then {stdin.index} else {}) + (if stdout.PipeFd? then {stdout.index} else {})
  }

  /** The argument vector of every stage is the group up to its bound
      redirection operator, and the file it opens is the one bound. */
  lemma {:induction false} StageArguments(g: seq<string>, i: nat, n: nat)
    requires |g| > 0
    ensures StagePlan(g, i, n).Stage?
    ensures StagePlan(g, i, n).argv == Argv(g)
    ensures Binding(g, 0).None? ==> StagePlan(g, i, n).opens == Inherited
    ensures Binding(g, 0).Some? && Head(g[Binding(g, 0).value - 1]) == '<' ==>
              StagePlan(g, i, n).opens == ReadFile(g[Binding(g, 0).value])
    ensures Binding(g, 0).Some? && Head(g[Binding(g, 0).value - 1]) == '>' ==>
              StagePlan(g, i, n).opens == WriteFile(g[Binding(g, 0).value])
  {
    ArgvDropsRedirect(g);
  }

  /** Pipe `j` joins stage `j` to stage `j + 1`: the first writes into
      entry `2j + 1`, the second reads from entry `2j`. */
  lemma {:induction false} PipesConnect(groups: seq<seq<string>>, j: nat)
    requires j + 1 < |groups| && |groups[j]| > 0 && |groups[j + 1]| > 0
    ensures Plan(groups)[j].stdout == PipeFd(2 * j + 1)
    ensures Plan(groups)[j + 1].stdin == PipeFd(2 * j)
  {
    assert Plan(groups)[j] == StagePlan(groups[j], j, |groups|);
    assert Plan(groups)[j + 1] == StagePlan(groups[j + 1], j + 1, |groups|);
  }

  /** Every stage but the first reads from the previous pipe and every
      stage but the last writes to the next one, whatever redirection its
      group names: a pipe takes precedence over a redirection. A file named
      by such an overridden redirection is opened all the same. */
  lemma {:induction false} PipeOverridesRedirect(groups: seq<seq<string>>, i: nat)
    requires i < |groups| && |groups[i]| > 0
    ensures i > 0 ==> Plan(groups)[i].stdin == PipeFd(2 * (i - 1))
    ensures i + 1 < |groups| ==> Plan(groups)[i].stdout == PipeFd(2 * i + 1)
    ensures Plan(groups)[i].opens == StagePlan(groups[i], 0, 1).opens
  {
    assert Plan(groups)[i] == StagePlan(groups[i], i, |groups|);
  }

  /** A redirection is in effect only at the ends of the pipeline: the
      first stage reads the file of a `<`, the last writes the file of a
      `>`; a single stage can do both in turn but binds only one. Without
      a redirection the ends keep the shell's streams. */
  lemma {:induction false} RedirectAtEnds(groups: seq<seq<string>>, i: nat)
    requires i < |groups| && |groups[i]| > 0
    ensures var s := Plan(groups)[i];
            (i == 0 ==> s.stdin == (if s.opens.ReadFile? then s.opens else Inherited)) &&
            (i + 1 == |groups| ==> s.stdout == (if s.opens.WriteFile? then s.opens else Inherited))
  {
    assert Plan(groups)[i] == StagePlan(groups[i], i, |groups|);
  }

  /** Each of the `2(n - 1)` pipe entries is used by at most one stage, in
      exactly one role, and no stage uses an entry outside that range. */
  lemma {:induction false} PipeEndsExclusive(groups: seq<seq<string>>)
    ensures forall i, f :: 0 <= i < |groups| && f in PipeEnds(Plan(groups)[i]) ==>
              f < 2 * (|groups| - 1) && (f % 2 == 0 ==> f / 2 + 1 == i) && (f % 2 == 1 ==> f / 2 == i)
    ensures forall i, j :: 0 <= i < j < |groups| ==> PipeEnds(Plan(groups)[i]) !! PipeEnds(Plan(groups)[j])
  {
    var p := Plan(groups);
    forall i, f | 0 <= i < |groups| && f in PipeEnds(p[i])
      ensures f < 2 * (|groups| - 1) && (f % 2 == 0 ==> f / 2 + 1 == i) && (f % 2 == 1 ==> f / 2 == i)
    {
      assert p[i] == StagePlan(groups[i], i, |groups|);
    }
    forall i, j | 0 <= i < j < |groups|
      ensures PipeEnds(p[i]) !! PipeEnds(p[j])
    {
    }
  }

  /** An argument vector after `parse_redirect`: the group's slots with the
      bound operator's slot overwritten with NULL. */
  function Cut(g: seq<string>): seq<Option<string>>
  {
    match Binding(g, 0)
    case None => Slots(g) + [None]
    case Some(b) => (Slots(g) + [None])[b - 1 := None]
  }

  /** One iteration of the stage loop: scans the stage's argument vector
      for a redirection and records the stage's set-up. */
  method PlanStage(row: array<Option<string>>, ghost g: seq<string>, i: nat, n: nat) returns (stage: Stage)
    requires |g| > 0 && row[..] == Slots(g) + [None]
    modifies row
    ensures stage == StagePlan(g, i, n)
    ensures row[..] == Cut(g)
  {
    TerminatedSlots(g);
    var op, path := ParseRedirect(row, []);
    if Binding(g, 0).Some? {
      CutSlots(g, Binding(g, 0).value - 1);
    }
    stage := Wire(i, n, op, path, Values(row[..NullIndex(row[..])]));
  }

  /** The stage loop of `process_command`: for each of the `n` argument
      vectors in `commands`, the redirection scan and the choice of stdin
      and stdout. An empty group left its slot unallocated (null). */
  method PlanPipeline(commands: array<array?<Option<string>>>, n: nat, ghost groups: seq<seq<string>>)
    returns (plan: seq<Stage>)
    requires n == |groups| <= commands.Length
    requires forall k :: 0 <= k < n ==> (commands[k] == null <==> |groups[k]| == 0)
    requires forall k :: 0 <= k < n && |groups[k]| > 0 ==> NullTerminated(commands[k], groups[k])
    requires forall j, k :: 0 <= j < k < n && |groups[j]| > 0 && |groups[k]| > 0 ==> commands[j] != commands[k]
    modifies set k | 0 <= k < n && commands[k] != null :: commands[k]
    ensures plan == Plan(groups)
    ensures forall k :: 0 <= k < n && |groups[k]| > 0 ==> commands[k] != null && commands[k][..] == Cut(groups[k])
  {
    plan := [];
    var i := 0;
    while i < n
      invariant 0 <= i <= n
      invariant plan == Plan(groups)[..i]
      invariant forall k :: i <= k < n && |groups[k]| > 0 ==> NullTerminated(commands[k], groups[k])
      invariant forall k :: 0 <= k < i && |groups[k]| > 0 ==> commands[k] != null && commands[k][..] == Cut(groups[k])
    {
      var stage;
      var row := commands[i];
      if row == null {
        stage := Undefined;
      } else {
        stage := PlanStage(row, groups[i], i, n);
      }
      assert stage == Plan(groups)[i];
      plan := plan + [stage];
      i := i + 1;
    }
  }
}

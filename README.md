# MiniatureShell core, modelled in Dafny

This project models the core of MiniatureShell, a small interactive Unix
shell written in C. One input line goes through these steps:

1. **Lexer.** `read_input`, with `read_word` and `read_quoted_string`,
   breaks the line into tokens. A token is a word, a quoted string or a
   one-character operator: `(`, `)`, `<`, `>`, `;` or `|`.
2. **Sequencer.** `main` cuts the tokens into command groups at `;` with
   `tokens_to_command`. It processes the groups in order.
3. **Dispatcher.** `process_command` first replaces the built-in `prev`
   with the cached previous command. It then refreshes that cache and
   dispatches. `exit`, `help`, `cd` and `source` are built-ins. Any other
   command is a pipeline.
4. **Pipeline.** `tokens_to_commands` cuts the pipeline into stages at `|`.
   `parse_redirect` scans each stage for a redirection. Each stage's stdin
   and stdout are then chosen from its redirection and its position.

The modules:

- `CStrings`: the C conventions the code relies on.
  - A character buffer denotes its prefix up to the first NUL.
  - A `char **` slot is `Option<string>`, where `None` is NULL.
  - `MAX_INPUT_SIZE` is 255.
- `Tokenizer` (tokenizer.c):
  - the character classes;
  - the two readers, as methods over output arrays.
- `Lexer` (the tokenize loop of `read_input`):
  - a reference lexer `Lex` on the line buffer;
  - the loop, as methods proved equal to it.
- `Redirect` (`parse_redirect`):
  - the binding of a redirection operator to its file, as a function;
  - the scan, as a method over the argument vector.
- `Splitter` (`tokens_to_command`, `tokens_to_commands`):
  - the split at a delimiter token, as functions with their round trip;
  - the two C functions, as methods over the token arrays.
- `Pipeline`: the stage loop of `process_command`, as a plan.
  - Each stage records its argument vector and the file it opens.
  - It also records which `pipefds` entry or file ends up as its stdin and stdout.
- `Shell` (`set_prev_command`, `process_command`):
  - the `prev` substitution, the cache refresh and the dispatch;
  - a function `Process`, and the methods proved equal to it.
- `Sequencer` (the `;` loop of `main`):
  - a function `RunGroups` giving what a line does;
  - the loop, as methods proved equal to it.

Effects that leave the process are recorded as an `Action` value and not
performed. These are running a pipeline, changing directory, printing the
help page and sourcing a file.

Three C-string notions are defined twice: `CStrings.CStr` and
`Lexer.CStrAt`, `Tokenizer.WordLen` and `Lexer.WordAt`,
`Tokenizer.QuoteBodyLen` and `Lexer.QuoteBodyAt`. The first of each pair
works on a buffer's suffix, as the C functions see `&input[i]`. The second
works on the whole buffer and a position, as the tokenize loop indexes it.
Lemmas in `Lexer` connect each pair. Proofs over positions avoid building
suffix sequences, and that keeps them within the solver's budget. The
generic sequence lemmas in `Splitter` (`AppendAssoc`, `ConsStep`, `Chain`)
serve the same purpose for the split's round trip. They model nothing in
the shell.

### Where the code and its specification differ

This model follows the code.

- **Which redirection binds.** `parse_redirect` binds the first operator
  that is followed by an ordinary token, and returns at once.
  - The argument vector is cut at that operator. Every later token is
    dropped, other redirections included. `Redirect.BindingFirst` and
    `Redirect.ArgvDropsRedirect` state this.
  - The specification says the last pair wins, and that only the
    operator and its file are removed.
- **Pipes against redirections.** The pipe `dup2` calls come after the
  redirection's `open`.
  - So an inner pipe end overrides a redirection on the same side
    (`Pipeline.PipeOverridesRedirect`).
  - The specification says the redirection takes precedence.
- **A trailing delimiter.** A trailing `|` (or `;`) is dropped without an
  empty last group (`Splitter.SplitJoin`).
  - An empty group in the middle of a pipeline is counted, but its slot of
    `commands` is never allocated. Its stage is `Undefined`.
  - The code never rejects it.
- **Quoted operators.** A quoted token is a copy of the text between the
  quotes. Every operator test downstream (shell.c:21, 49) inspects only a
  token's first character.
  - So a quoted token that starts with `;`, `|`, `<` or `>` acts as that
    operator.
  - An operator token is not a copy. It points into the input buffer, so
    its text is the rest of the line (`Lexer.TokenWellFormed`).
- **An empty `;` group.** The `;` loop of `main` stops at the first empty
  group, so nothing after `;;` runs (`Sequencer.FirstEmpty`,
  `Sequencer.RunCount`). The specification has an empty group skipped
  while the rest of the line goes on.
- **The newline class.** `is_space_char` also accepts `'\n'`. After
  `read_input` strips the newline, this makes no difference.

## Model

| member | source | states |
|---|---|---|
| CStrings.CStr | tokenizer.c:29 | the string a buffer denotes is its prefix before the first NUL and holds no NUL |
| CStrings.NullIndex | shell.c:215-234 | the index where a `char **` scan stops: every earlier slot is non-NULL and the slot there is NULL |
| Tokenizer.CharClasses | tokenizer.c:11-18 | the operator characters are exactly `()<>;\|` and the blanks are exactly space, tab and newline; the two classes are disjoint and contain neither NUL nor the quote |
| Tokenizer.WordLenMaximal | tokenizer.c:25-28 | a word is the longest prefix of word characters: every character in it is one, and the one after it is not |
| Tokenizer.WordStopsBeforeNul | tokenizer.c:25 | in a NUL-terminated buffer a word ends inside the C string |
| Tokenizer.ReadWord | tokenizer.c:22-31 | returns the word's length, copies exactly the word to the output, terminates it with NUL, and leaves the rest of the output alone |
| Tokenizer.QuoteBodyMaximal | tokenizer.c:40-42 | the quoted body is the longest run holding neither a quote nor a NUL |
| Tokenizer.QuotedRoundTrip | tokenizer.c:35-47 | the consumed characters are the opening quote, the body and the closing quote when there is one; the body holds no quote or NUL; an unclosed string stops at the NUL |
| Tokenizer.ReadQuotedString | tokenizer.c:35-47 | returns the characters consumed, quotes included, and copies exactly the body, NUL-terminated |
| Lexer.TokenLen | shell.c:136-156 | every token consumes at least one character and stays inside the buffer, so the tokenize loop advances |
| Lexer.TokenAtSuffix | shell.c:136-156 | the token at a position is what `read_quoted_string` or `read_word` produces on the rest of the line, or the rest of the line itself for an operator, with the matching length |
| Lexer.TokenAt | shell.c:136-156 | an unquoted token starts with the character at its position: the operator itself, or the first character of the word |
| Lexer.LexFrom | shell.c:127-157 | the reference lexer emits no more tokens than characters remain in the buffer |
| Lexer.TokenWellFormed | shell.c:136-156 | each token holds no NUL and either starts with an operator character or holds no quote; an operator's token is the whole rest of the line and starts with the operator; a word is a non-empty run of word characters |
| Lexer.LexWellFormed | shell.c:127-157 | every token of a line holds no NUL, and starts with an operator character or holds no quote |
| Lexer.LexLength | shell.c:127-160 | a line yields no more tokens than it has characters, so the terminating NULL store stays in the array |
| Lexer.LexPlainLine | shell.c:127-157 | on a line whose C string holds no quotes and no operators the tokens are the line split at runs of blanks, whatever the buffer holds after its NUL |
| Lexer.CopyQuoted | shell.c:137-143 | the quoted branch yields the reference token and its length |
| Lexer.CopyWord | shell.c:154-156 | the word branch yields the reference token and its length |
| Lexer.NextToken | shell.c:136-156 | each token-producing branch yields the reference token and the characters it consumes |
| Lexer.Tokenize | shell.c:123-160 | the loop stores exactly the reference tokens in order, returns their count and leaves every later slot NULL |
| Lexer.ClearTokens | shell.c:108-112 | every slot of the token array becomes NULL |
| Lexer.ReadInput | shell.c:106-161 | end of input returns -1 with all slots NULL; otherwise it returns the reference tokens of the line, NULL-terminated |
| Redirect.Binding | shell.c:19-34 | a binding found is at or after the start, on an operator directly followed by an ordinary token |
| Redirect.BindingFirst | shell.c:19-34 | the binding is the first slot where an operator is followed by an ordinary token, and there is none exactly when no slot binds |
| Redirect.BindingAfterOperators | shell.c:21-30 | the bound file follows an operator, and every operator before the binding is followed by another operator |
| Redirect.Argv | shell.c:29 | the argument vector never grows |
| Redirect.ArgvDropsRedirect | shell.c:29 | without a binding the vector is whole; with one it stops just before the operator, so neither operator nor file is an argument |
| Redirect.ParseRedirect | shell.c:14-37 | returns 1 and changes nothing when nothing binds; otherwise returns the operator character, yields the file token and sets the operator's slot to NULL, changing nothing else |
| Splitter.GroupEnd | shell.c:47-53 | the end of a group lies between its start and the end of the tokens |
| Splitter.Group | shell.c:47-62 | a group's length is the distance from its start to its end |
| Splitter.SplitFrom | shell.c:69-104 | there is a group exactly when tokens remain, and the first group is the one at the current index |
| Splitter.GroupFirst | shell.c:47-53 | a group holds exactly the tokens before the first delimiter token, and ends at a delimiter unless the tokens run out |
| Splitter.SplitCount | shell.c:69-104 | a non-empty token list has at least one group and never more groups than tokens |
| Splitter.SplitNoDelimiter | shell.c:47-53 | no group holds a delimiter token |
| Splitter.SplitJoin | shell.c:69-104 | the groups joined with a bare delimiter between each two, plus a dropped trailing delimiter, give back the original tokens with each delimiter token read as its delimiter |
| Splitter.SplitStep | shell.c:90-99 | the first group is the one at the current index and the rest are the groups after the delimiter that ends it |
| Splitter.TokensToCommand | shell.c:39-67 | returns -1 exactly when `start >= t`, else the number of tokens before the next delimiter; sets the separator to the delimiter only when one ended the group; fills the copy with exactly those tokens |
| Splitter.StoreGroup | shell.c:76-99 | one round: -1 exactly at the end; otherwise the group's length, the next start, and for a non-empty group a fresh row holding exactly the group, NULL-terminated |
| Splitter.TokensToCommands | shell.c:69-104 | returns the number of groups; each non-empty group gets its own fresh NULL-terminated row holding exactly its tokens; rows of empty groups and beyond the count are untouched |
| Pipeline.Wire | shell.c:339-380 | the argument vector passes through; stdin is a pipe exactly for a stage after the first and stdout exactly for a stage before the last; the file is stdin only on the first stage after `<`, and stdout only on the last stage after `>` |
| Pipeline.StagePlan | shell.c:330-385 | a stage is undefined exactly for an empty group; it opens a file exactly when a redirection binds, and then its argument vector is shorter than the group |
| Pipeline.Plan | shell.c:328-392 | one stage per group |
| Pipeline.StageArguments | shell.c:332-368 | a non-empty stage executes the group cut at its redirection, and opens the bound file for writing after `>` and for reading after `<` |
| Pipeline.PipesConnect | shell.c:370-380 | pipe `j` joins stage `j` to stage `j + 1`: the first writes into entry `2j + 1`, the second reads from entry `2j` |
| Pipeline.PipeOverridesRedirect | shell.c:339-380 | every stage but the first reads from the previous pipe and every stage but the last writes into its own, whatever its redirection |
| Pipeline.RedirectAtEnds | shell.c:339-380 | a redirection replaces stdin only on the first stage and stdout only on the last; otherwise the shell's stream is inherited |
| Pipeline.PipeEndsExclusive | shell.c:315-385 | every pipe entry a stage uses exists, and no entry is used by two stages |
| Pipeline.PlanStage | shell.c:330-385 | one stage's plan, and its argument vector left cut at the redirection |
| Pipeline.PlanPipeline | shell.c:328-392 | the stage loop yields the plan of the groups and leaves each allocated row cut at its redirection |
| Shell.TrimmedCompact | shell.c:257-276 | the refreshed cache keeps the command up to its first NULL, is NULL after it, and a compact array is its own refresh |
| Shell.Command | shell.c:278-313 | a command runs a pipeline exactly when its first token is none of `exit`, `help`, `cd` and `source`; `source` takes its file from the second token, which must exist; the pipeline run is the one of the command's tokens |
| Shell.Process | shell.c:241-418 | the status is always 0 or 1, and the token array keeps a first token |
| Shell.RecallEmptyCache | shell.c:244-252 | `prev` with an empty cache returns 1 and changes neither the tokens nor the cache |
| Shell.RecallKeepsCache | shell.c:244-276 | `prev` with a cached command runs exactly that command and leaves the cache as it was |
| Shell.RecordsCommand | shell.c:254-276 | any other non-empty command becomes the cache: its tokens up to the first NULL, NULL after |
| Shell.ExitStatus | shell.c:278-282 | the status is 0 exactly when the command dispatched is `exit`, after the `prev` substitution |
| Shell.CacheStaysValid | shell.c:241-276 | the cache stays compact and never holds `prev` as its command; tokens still naming `prev` mean the cache is empty |
| Shell.EmptyCallIsNoOp | shell.c:241-254 | a call with no tokens returns 1 and changes nothing, unless it names `prev` with a cached command |
| Shell.SetPrevCommand | shell.c:199-237 | an empty cache returns -1 and leaves the tokens alone; otherwise the tokens become the cache up to its first NULL and the count is returned |
| Shell.RecordCommand | shell.c:257-276 | the cache becomes the tokens up to their first NULL, NULL after |
| Shell.ProcessCommand | shell.c:241-418 | the status, the new token array, the new cache and the action are those `Process` gives |
| Shell.RunPipeline | shell.c:309-392 | the stages planned are the pipeline of the command's tokens |
| Sequencer.Load | shell.c:504-506 | after loading a group the array holds the group, then NULL, then what it held before |
| Sequencer.RunGroups | shell.c:500-534 | a line runs no more commands than it has groups |
| Sequencer.FirstEmpty | shell.c:508-511 | the index of the first empty group: every group before it is non-empty |
| Sequencer.RunCount | shell.c:500-534 | a line runs one command per group before its first empty group, unless one exits earlier |
| Sequencer.RunExits | shell.c:519-533 | the shell exits exactly when the last command run is `exit`, and no earlier one is |
| Sequencer.RunKeepsCache | shell.c:500-534 | running a line keeps the cache valid |
| Sequencer.SplitFits | shell.c:495-506 | every group of a line fits the command array with its NULL |
| Sequencer.Stores | shell.c:504-506 | every store of the corrected loop is an index from 0 to the line length, so it lies inside the command array |
| Sequencer.StoresOutOfBounds | shell.c:500-506 | with no empty group the loop as written makes the corrected stores plus a store at index -1; for `ls` these are 1 and -1 |
| Sequencer.TrailingCallHarmless | shell.c:519 | the extra `process_command` call with -1 tokens changes nothing |
| Sequencer.LoadGroup | shell.c:504-506 | -1 exactly when the line is used up, and then the array is untouched; otherwise the group is loaded with its NULL, and the store is the corrected one |
| Sequencer.ProcessGroup | shell.c:514-521 | processing a loaded non-empty group advances the loop's account of the line by one step of `RunGroups`, and records the exit when the status is 0 |
| Sequencer.RunGroup | shell.c:502-533 | one round of the loop, carrying what the line does |
| Sequencer.RunLine | shell.c:495-534 | the commands run, whether the shell exits, and the final cache are those `RunGroups` gives for the line's groups |

## Left out

- **Processes and file descriptors.** `fork`, `execvp`, `waitpid`, `pipe`,
  `dup2`, `open` and `close` are not modelled.
  - A pipeline is a plan of stages, and running it is the action `Run`.
  - The `perror` and `exit(1)` paths are not modelled.
  - Neither is the `assert` on the opened descriptor.
  - The pipes the parent closes are not modelled either.
- **A child after a failed `execvp`.** Such a child prints "command not
  found" and goes on running the shell's loop. The model has no processes,
  so it does not capture this.
- **A stage from an empty group.** Its row of `commands` was never
  allocated. Scanning and executing it is undefined in C, so its stage is
  `Undefined`.
- **Things that become actions.** `print_help`, `change_directory`
  (`chdir`) and `source_file` are not modelled. They become the actions
  `Help`, `ChangeDir` and `Source`.
  - Any change a sourced script makes to the cache is not modelled.
- **The rest of `main`.** `fgets`, the prompt, `exit_graceful` and the
  end-of-input path are not modelled. `ReadInput` takes the line `fgets`
  produced, or `None` at end of input.
  - At end of input, `main` writes `tokens[-1]`. The model does not cover
    that path.
- **tokenize.c.** It is a separate demonstration program and is not part of
  this model.
- **Memory.** `malloc` and `free` are not modelled. Copies are values.
  - So the model does not capture that `set_prev_command` frees the cache's
    strings before the refresh replaces them.
  - It also does not capture that the buffer allocated for an operator
    token is leaked.
- **`strcmp` and `strcpy`.** They are taken on tokens as stored. Every
  token the lexer emits is NUL-free (`Lexer.LexWellFormed`), so the tokens
  equal their C strings.
- Splitter.TokensToCommands: requires a delimiter other than a blank. Its
  only caller passes `|`. With a blank as delimiter, the separator could
  not tell a delimiter from the end.
- Shell.Process: requires `t` to be at most 0 or the index of the first
  NULL. Every caller in the shell passes such a count.
- Lexer.ReadInput: requires the line's C string to be shorter than
  `MAX_INPUT_SIZE`. That is the guarantee `fgets` gives.
- Sequencer.RunLine: models the corrected loop, which stops when
  `tokens_to_command` returns -1.
  - The loop as written is `Sequencer.StoresAsWritten`; see Findings.
  - `RunLine` requires at least one token, as `main` only enters the loop
    when `t > 0`.

## Findings

| source | as written | input that shows it | evidently intended | confidence | as-written member | corrected member |
|---|---|---|---|---|---|---|
| shell.c:500-506 | when the line is used up, `tokens_to_command` returns -1, and the loop still executes `cmd_tokens[cmd_t] = NULL`, writing before the start of the array; it then calls `process_command` with -1 tokens | the line `ls`: the stores are at index 1 and then at index -1 | leave the loop as soon as -1 is returned, before any store | not executed | Sequencer.StoresAsWritten | Sequencer.LoadGroup |

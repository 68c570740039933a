/** The redirection scanner of the shell (`parse_redirect` in shell.c). It
    walks a NULL-terminated argument vector, remembers the last operator
    token (one whose first character is `<` or `>`), and binds it to the
    first ordinary token that follows: that token is the file, and the
    operator's slot is overwritten with NULL, which ends the argument
    vector there. Only the first such pair is used; whatever follows it,
    other redirections included, is dropped with the rest of the vector. */
module Redirect {
  import opened CStrings

  /** What `parse_redirect` returns when nothing was bound. */
  const NO_REDIRECT: char := 1 as char

  /** A token that the scanner takes for a redirection operator. */
  predicate IsRedirect(tok: string)
  {
    Head(tok) == '<' || Head(tok) == '>'
  }

  /** An operator token directly followed by an ordinary one at slot `k`. */
  predicate BindsAt(w: seq<string>, k: nat)
  {
    1 <= k < |w| && IsRedirect(w[k - 1]) && !IsRedirect(w[k])
  }

  /** The first slot at or after `k` where an operator is bound to a file. */
  function Binding(w: seq<string>, k: nat): (r: Option<nat>)
    ensures r.Some? ==> k <= r.value && BindsAt(w, r.value)
    decreases |w| - k
  {
    if k >= |w| then None
    else if BindsAt(w, k) then Some(k)
    else Binding(w, k + 1)
  }

  /** `Binding` finds the first binding slot, and finds one whenever there
      is one. */
  lemma {:induction false} BindingFirst(w: seq<string>, k: nat)
    ensures Binding(w, k).Some? ==>
              var b := Binding(w, k).value;
              forall j :: k <= j < b ==> !BindsAt(w, j)
    ensures Binding(w, k).None? ==> forall j :: k <= j ==> !BindsAt(w, j)
    decreases |w| - k
  {
    if k < |w| && !BindsAt(w, k) {
      BindingFirst(w, k + 1);
      forall j | k <= j
        ensures Binding(w, k).None? ==> !BindsAt(w, j)
      {
        if j > k {
          assert Binding(w, k) == Binding(w, k + 1);
        }
      }
    }
  }

  /** A bound file is preceded by an unbroken run of operators that starts
      after the last ordinary token before it: so the operator the scanner
      returns is the last one it saw. */
  lemma {:induction false} BindingAfterOperators(w: seq<string>, b: nat)
    requires Binding(w, 0) == Some(b)
    ensures 1 <= b < |w| && IsRedirect(w[b - 1]) && !IsRedirect(w[b])
    ensures forall j :: 0 <= j < b - 1 && IsRedirect(w[j]) ==> IsRedirect(w[j + 1])
  {
    BindingFirst(w, 0);
    forall j | 0 <= j < b - 1 && IsRedirect(w[j])
      ensures IsRedirect(w[j + 1])
    {
      assert !BindsAt(w, j + 1);
    }
  }

  /** The argument vector left after the scan: everything before the bound
      operator, or all of it when nothing was bound. */
  function Argv(w: seq<string>): (r: seq<string>)
    ensures |r| <= |w|
  {
    match Binding(w, 0)
    case Some(b) => w[..b - 1]
    case None => w
  }

  /** Without a binding the vector is whole; with one it stops before the
      operator, so neither the operator nor the file is an argument. */
  lemma {:induction false} ArgvDropsRedirect(w: seq<string>)
    ensures Binding(w, 0).None? ==> Argv(w) == w
    ensures Binding(w, 0).Some? ==>
              var b := Binding(w, 0).value;
              |Argv(w)| == b - 1 && Argv(w) == w[..b - 1] && IsRedirect(w[b - 1]) && !IsRedirect(w[b])
  {
    BindingFirst(w, 0);
  }

  /** `parse_redirect`: scans `tokens` up to its first NULL. At the first
      ordinary token that follows an operator it copies that token into
      the file path, overwrites the operator's slot with NULL and returns
      the operator's first character. Otherwise it returns 1 and changes
      neither the tokens nor the path. */
  method ParseRedirect(tokens: array<Option<string>>, filepath: string) returns (op: char, path: string)
    requires NullIndex(tokens[..]) < tokens.Length
    modifies tokens
    ensures
      var w := Values(old(tokens[..])[..NullIndex(old(tokens[..]))]);
      match Binding(w, 0)
      case None => op == NO_REDIRECT && path == filepath && tokens[..] == old(tokens[..])
      case Some(b) =>
        op == Head(w[b - 1]) && path == w[b] && tokens[..] == old(tokens[..])[b - 1 := None]
  {
    ghost var n := NullIndex(tokens[..]);
    ghost var w := Values(tokens[..][..n]);
    BindingFirst(w, 0);
    var i := 0;
    var redirectChar := 0 as char;
    while tokens[i] != None
      invariant 0 <= i <= n
      invariant Binding(w, 0) == Binding(w, i)
      invariant redirectChar == if 1 <= i && IsRedirect(w[i - 1]) then Head(w[i - 1]) else 0 as char
      invariant tokens[..] == old(tokens[..])
      decreases n - i
    {
      assert tokens[..][..n][i] == Some(w[i]);
      if Head(tokens[i].value) == '>' || Head(tokens[i].value) == '<' {
        redirectChar := Head(tokens[i].value);
      } else if redirectChar != 0 as char {
        assert BindsAt(w, i);
        path := tokens[i].value;
        tokens[i - 1] := None;
        return redirectChar, path;
      }
      i := i + 1;
    }
    return NO_REDIRECT, filepath;
  }
}

/** C-string conventions shared by the tokenizer and the shell.
    A read-only `const char *` is a `seq<char>` that holds a NUL somewhere;
    the string it denotes is the prefix before that NUL. A `char *` slot of a
    NULL-terminated `char **` array is an `Option<string>`, `None` being NULL. */
module CStrings {

  /** The terminating byte of a C string. */
  const NUL: char := 0 as char

  /** Size of every fixed buffer of the shell: the input line, the token
      arrays and the per-token string buffers (tokenizer.h:1). */
  const MAX_INPUT_SIZE: nat := 255

  datatype Option<+T> = None | Some(value: T)

  /** The C string that starts at the beginning of `s`: everything before
      the first NUL (or all of `s` if it holds none). */
  function CStr(s: seq<char>): (r: string)
    ensures |r| <= |s| && r == s[..|r|]
    ensures NUL !in r
    ensures |r| < |s| ==> s[|r|] == NUL
  {
    if |s| == 0 || s[0] == NUL then [] else [s[0]] + CStr(s[1..])
  }

  /** `tok[0]` in C: the first character, which is the terminating NUL when
      the string is empty. */
  function Head(tok: string): char
  {
    if |tok| == 0 then NUL else tok[0]
  }

  /** Index of the first NULL slot of a `char **` array, or its length when
      it holds none. */
  function NullIndex(slots: seq<Option<string>>): (n: nat)
    ensures n <= |slots|
    ensures forall k :: 0 <= k < n ==> slots[k].Some?
    ensures n < |slots| ==> slots[n] == None
  {
    if |slots| == 0 || slots[0] == None then 0 else 1 + NullIndex(slots[1..])
  }

  /** The C string that starts `i` characters into a C string is the rest
      of that string. */
  lemma {:induction false} CStrSuffix(s: seq<char>, i: nat)
    requires i <= |CStr(s)|
    ensures CStr(s[i..]) == CStr(s)[i..]
  {
    if i > 0 {
      assert s[1..][i - 1..] == s[i..];
      CStrSuffix(s[1..], i - 1);
    }
  }

  /** A prefix free of NUL lies inside the C string. */
  lemma {:induction false} NulFreePrefix(s: seq<char>, n: nat)
    requires n <= |s| && NUL !in s[..n]
    ensures n <= |CStr(s)|
  {
  }

  /** A buffer holding `n` non-NUL characters and then a NUL denotes
      exactly those characters. */
  lemma {:induction false} CStrOfTerminated(s: seq<char>, n: nat)
    requires n < |s| && s[n] == NUL && NUL !in s[..n]
    ensures CStr(s) == s[..n]
  {
    NulFreePrefix(s, n);
  }

  /** The strings held by the slots of a `char **` array, a NULL slot
      read as the empty string. */
  function Values(slots: seq<Option<string>>): (r: seq<string>)
    ensures |r| == |slots|
    ensures forall k :: 0 <= k < |slots| && slots[k].Some? ==> slots[k] == Some(r[k])
  {
    seq(|slots|, k requires 0 <= k < |slots| => if slots[k].Some? then slots[k].value else [])
  }

  /** The slots of a NULL-terminated array that holds the strings `w`. */
  function Slots(w: seq<string>): (r: seq<Option<string>>)
    ensures |r| == |w|
    ensures forall k :: 0 <= k < |w| ==> r[k] == Some(w[k])
    ensures Values(r) == w
  {
    seq(|w|, k requires 0 <= k < |w| => Some(w[k]))
  }

  /** A NULL-terminated array holding `g` ends at `|g|` and holds `g`. */
  lemma {:induction false} TerminatedSlots(g: seq<string>)
    ensures NullIndex(Slots(g) + [None]) == |g|
    ensures Values((Slots(g) + [None])[..|g|]) == g
  {
    NullIndexOf(Slots(g) + [None], |g|);
    assert (Slots(g) + [None])[..|g|] == Slots(g);
  }

  /** Overwriting slot `b` of that array with NULL ends it at `b`. */
  lemma {:induction false} CutSlots(g: seq<string>, b: nat)
    requires b < |g|
    ensures NullIndex((Slots(g) + [None])[b := None]) == b
    ensures Values((Slots(g) + [None])[b := None][..b]) == g[..b]
  {
    NullIndexOf((Slots(g) + [None])[b := None], b);
    assert (Slots(g) + [None])[b := None][..b] == Slots(g[..b]);
  }

  /** The first NULL of `slots` is at `n` when the slots before it are set
      and slot `n` is NULL. */
  lemma {:induction false} NullIndexOf(slots: seq<Option<string>>, n: nat)
    requires n < |slots| && slots[n] == None
    requires forall k :: 0 <= k < n ==> slots[k].Some?
    ensures NullIndex(slots) == n
    decreases n
  {
    if n > 0 {
      NullIndexOf(slots[1..], n - 1);
    }
  }
}

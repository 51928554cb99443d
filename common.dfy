/** Option and Result, the two wrappers the model uses for Python's `None`
    returns and for exceptions that escape a function. */
module Common {

  datatype Option<T> = None | Some(value: T)

  datatype Result<T, E> = Ok(value: T) | Err(error: E)

  /** A non-empty sequence is its prefix followed by its last element. */
  lemma LastSplit<T>(s: seq<T>)
    requires s != []
    ensures s == s[..|s| - 1] + [s[|s| - 1]]
  {
  }

  /** The prefix of length `i + 1` is the prefix of length `i` and element `i`. */
  lemma PrefixSnoc<T>(s: seq<T>, i: nat)
    requires i < |s|
    ensures s[..i + 1] == s[..i] + [s[i]]
  {
  }

  /** Dropping the last element of `a + b`, for a non-empty `b`. */
  lemma AppendInit<T>(a: seq<T>, b: seq<T>)
    requires b != []
    ensures (a + b)[..|a + b| - 1] == a + b[..|b| - 1]
    ensures (a + b)[|a + b| - 1] == b[|b| - 1]
  {
  }

  /** The parts of `init + [x]`. */
  lemma SnocParts<T>(init: seq<T>, x: T)
    ensures (init + [x])[..|init + [x]| - 1] == init && (init + [x])[|init + [x]| - 1] == x
  {
  }

  /** A sequence is the part before index `j`, element `j`, and the rest. */
  lemma SplitAround<T>(s: seq<T>, j: nat)
    requires j < |s|
    ensures s == s[..j] + [s[j]] + s[j + 1..]
  {
  }

  /** The multiset of a non-empty sequence, its last element apart. */
  lemma MultisetOfLast<T>(s: seq<T>)
    requires s != []
    ensures multiset(s) == multiset(s[..|s| - 1]) + multiset{s[|s| - 1]}
  {
    LastSplit(s);
  }

  /** The prefix as long as the sequence is the sequence. */
  lemma WholePrefix<T>(s: seq<T>)
    ensures s[..|s|] == s
  {
  }

  /** Two sequences that are equal once the same element is appended are equal. */
  lemma SnocCancel<T>(p: seq<T>, q: seq<T>, x: T)
    requires p + [x] == q + [x]
    ensures p == q
  {
    assert p == (p + [x])[..|p|];
    assert q == (q + [x])[..|q|];
  }
}

/** Failure-carrying results shared by the three services, and a few facts
    about sequences. A Java method that returns a value or throws becomes a
    `Result`; a `void` method that may throw becomes an `Outcome`. */
module Common {

  datatype Option<+T> = None | Some(value: T)

  datatype Result<+T, +E> = Success(value: T) | Failure(error: E)

  datatype Outcome<+E> = Pass | Fail(error: E)

  /** The Java exception classes the services throw or let escape. */
  datatype ExceptionClass =
    | IllegalArgumentException
    | RuntimeException
    | NullPointerException
    | InvalidPathException
    | IOException

  /** A sequence is its prefix followed by the rest. */
  lemma SplitAt<T>(s: seq<T>, i: nat)
    requires i <= |s|
    ensures s[..i] + s[i..] == s
  {
  }

  /** A prefix followed by the next element is the longer prefix. */
  lemma PrefixSnoc<T>(s: seq<T>, i: nat)
    requires i < |s|
    ensures s[..i] + [s[i]] == s[..i + 1]
  {
  }

  /** A prefix one longer than a prefix of the tail. */
  lemma PrefixCons<T>(s: seq<T>, n: nat)
    requires n < |s|
    ensures s[..n + 1] == [s[0]] + s[1..][..n]
  {
  }

  /** A sequence is its longest prefix. */
  lemma WholePrefix<T>(s: seq<T>)
    ensures s[..|s|] == s
  {
  }
}

// Shared vocabulary: options, bytes, sequences without repetitions, and the
// answers an environment can give to one effect.
module Basics {
  datatype Option<+T> = None | Some(value: T)

  datatype Result<+T, +E> = Ok(value: T) | Err(error: E)

  newtype byte = x: int | 0 <= x < 256
  type Bytes = seq<byte>

  /** The answer to one operating-system effect. `Crashed` means that the process
      died before the effect took place; the caller must return at once. */
  datatype Io = Performed | Failed | Crashed

  /** Ask the environment whether the next effect takes place. A reliable
      environment never injects a fault. */
  method Attempt(reliable: bool) returns (io: Io)
    ensures reliable ==> io.Performed?
  {
    if reliable {
      io := Performed;
    } else {
      io := *;
    }
  }

  /** Whether the process dies between two effects. */
  method Dies(reliable: bool) returns (dead: bool)
    ensures reliable ==> !dead
  {
    dead := *;
    dead := dead && !reliable;
  }

  predicate NoDup<T(==)>(s: seq<T>) {
    forall i, j :: 0 <= i < j < |s| ==> s[i] != s[j]
  }

  function Elems<T(==)>(s: seq<T>): set<T> {
    set x | x in s
  }

  lemma {:induction false} NoDupCardinality<T>(s: seq<T>)
    requires NoDup(s)
    ensures |Elems(s)| == |s|
  {
    if s == [] {
      assert Elems(s) == {};
    } else {
      var rest, last := s[..|s| - 1], s[|s| - 1];
      NoDupPrefix(s, |s| - 1);
      NoDupCardinality(rest);
      assert s == rest + [last];
      assert Elems(s) == Elems(rest) + {last};
    }
  }

  lemma NoDupPrefix<T>(s: seq<T>, n: nat)
    requires NoDup(s) && n < |s|
    ensures NoDup(s[..n]) && s[n] !in s[..n]
  {
  }

  lemma SubsetCardinality<T>(a: set<T>, b: set<T>)
    requires a <= b
    ensures |a| <= |b|
  {
    assert b == a + (b - a);
  }

  /** The pigeonhole step behind every work bound in this project. */
  lemma NoDupBound<T>(s: seq<T>, t: set<T>)
    requires NoDup(s)
    requires forall x :: x in s ==> x in t
    ensures |s| <= |t|
  {
    NoDupCardinality(s);
    SubsetCardinality(Elems(s), t);
  }
}

/** Vocabulary shared by the models: fallible results, bytes, machine integers and 256-bit hashes. */
module Common {
  datatype Option<+T> = None | Some(value: T)

  datatype Result<+T, +E> = Ok(value: T) | Err(error: E) {
    predicate IsFailure() {
      Err?
    }

    function PropagateFailure<U>(): Result<U, E>
      requires Err?
    {
      Err(error)
    }

    function Extract(): T
      requires Ok?
    {
      value
    }
  }

  const U64_MAX: nat := 0xFFFF_FFFF_FFFF_FFFF

  type byte = x: nat | x < 256
  type u64 = x: nat | x <= U64_MAX

  /** The value a 64-bit unsigned expression keeps of a mathematical result. */
  function Wrap64(x: nat): (r: u64)
    ensures x <= U64_MAX ==> r == x
  {
    x % (U64_MAX + 1)
  }

  function Repeat<T>(n: nat, x: T): (r: seq<T>)
    ensures |r| == n
    ensures forall i | 0 <= i < n :: r[i] == x
  {
    seq(n, _ => x)
  }

  lemma RepeatTail<T>(n: nat, x: T)
    requires n > 0
    ensures Repeat(n, x)[1..] == Repeat(n - 1, x)
  {
  }

  predicate Increasing(s: seq<nat>) {
    forall i, j | 0 <= i < j < |s| :: s[i] < s[j]
  }

  /** `std::sort` followed by `std::unique`. */
  function SortUnique(s: seq<nat>): (r: seq<nat>)
    ensures Increasing(r)
    ensures forall x :: x in r <==> x in s
  {
    if s == [] then []
    else
      assert s == [s[0]] + s[1..];
      InsertUnique(s[0], SortUnique(s[1..]))
  }

  function InsertUnique(x: nat, s: seq<nat>): (r: seq<nat>)
    requires Increasing(s)
    ensures Increasing(r)
    ensures forall y :: y in r <==> y == x || y in s
  {
    if s == [] || x < s[0] then [x] + s
    else if x == s[0] then s
    else
      assert s == [s[0]] + s[1..];
      var rest := InsertUnique(x, s[1..]);
      assert forall i | 0 <= i < |rest| :: rest[i] in rest;
      [s[0]] + rest
  }

  /** The sorted list depends only on which numbers there are. */
  lemma {:induction false} SameMembersSortAlike(a: seq<nat>, b: seq<nat>)
    requires Increasing(a) && Increasing(b) && forall x :: x in a <==> x in b
    ensures a == b
  {
    assert b != [] ==> b[0] in a;
    if a != [] {
      assert a[0] in b;
      assert a[0] == b[0];
      TailMembers(a);
      TailMembers(b);
      SameMembersSortAlike(a[1..], b[1..]);
    }
  }

  lemma TailMembers(s: seq<nat>)
    requires Increasing(s) && s != []
    ensures Increasing(s[1..]) && forall x :: x in s[1..] <==> x in s && x != s[0]
  {
    assert s == [s[0]] + s[1..];
    forall x | x in s[1..] ensures x != s[0] {
      var i :| 1 <= i < |s| && s[i] == x;
    }
  }
}

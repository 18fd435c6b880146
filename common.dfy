/** Shared vocabulary: Java's null as Option, thrown exceptions as failure
    values, and the two list operations of java.util.List the core relies on
    (indexOf and remove(Object)). */
module Common {

  /** A possibly-null Java reference: None stands for null. */
  datatype Option<+T> = None | Some(value: T) {
    function GetOr(default: T): T {
      match this
      case Some(v) => v
      case None => default
    }
  }

  /** The exceptions the core throws or lets escape. */
  datatype Exception =
    | NullArgument       // CheckUtils.isNotNull, or unboxing a null
    | IllegalArgument    // IllegalArgumentException
    | NumberFormat       // Integer.parseInt / Long.parseLong on bad text
    | LicenseFetch       // SynchronizerLicenseException from the licence server

  /** The outcome of a call that returns a value or throws. */
  datatype Result<+T> = Success(value: T) | Failure(error: Exception)

  /** The outcome of a void call that may throw. */
  datatype Outcome = Ok | Thrown(error: Exception)

  /** The change type a ListChangeEvent carries: an int in Java, of which
      the core distinguishes VALUE_ADDED and VALUE_REMOVED. */
  datatype ChangeType = VALUE_ADDED | VALUE_REMOVED | OtherChange(code: int)

  /** java.util.List.indexOf: the first position of x, or -1. */
  function IndexOf<T(==)>(s: seq<T>, x: T): (r: int)
    ensures -1 <= r < |s|
    ensures r == -1 <==> x !in s
    ensures 0 <= r ==> s[r] == x && x !in s[..r]
  {
    if s == [] then -1
    else if s[0] == x then 0
    else
      var k := IndexOf(s[1..], x);
      assert s[1..][..if k < 0 then 0 else k] == s[1..1 + if k < 0 then 0 else k];
      if k < 0 then -1 else k + 1
  }

  /** indexOf finds the first occurrence. */
  lemma IndexOfAt<T>(s: seq<T>, x: T, p: int)
    requires 0 <= p < |s| && s[p] == x && x !in s[..p]
    ensures IndexOf(s, x) == p
  {
    var r := IndexOf(s, x);
    assert forall i :: 0 <= i < p ==> s[..p][i] == s[i];
    assert r >= p;
    assert s[..r + 1][p] == x;
    assert r <= p;
  }

  /** An element of a prefix has the same first position in the whole. */
  lemma IndexOfInPrefix<T>(s: seq<T>, n: nat, x: T)
    requires n <= |s| && x in s[..n]
    ensures IndexOf(s, x) == IndexOf(s[..n], x) < n
  {
    var p := IndexOf(s[..n], x);
    assert s[..p] == s[..n][..p];
    IndexOfAt(s, x, p);
  }

  /** java.util.List.remove(Object): drops the first occurrence of x, if any. */
  function RemoveFirst<T(==)>(s: seq<T>, x: T): (r: seq<T>)
    ensures x !in s ==> r == s
    ensures x in s ==> r == s[..IndexOf(s, x)] + s[IndexOf(s, x) + 1..]
    ensures multiset(r) == multiset(s) - multiset{x}
  {
    var k := IndexOf(s, x);
    if k < 0 then s
    else
      assert s == s[..k] + [s[k]] + s[k + 1..];
      s[..k] + s[k + 1..]
  }

  /** After remove(Object), y is still present exactly when it was present and
      is not x, or it is x and x occurred more than once. */
  lemma RemoveFirstMembership<T>(s: seq<T>, x: T, y: T)
    ensures y in RemoveFirst(s, x) <==> (y != x && y in s) || (y == x && multiset(s)[x] > 1)
  {
    var r := RemoveFirst(s, x);
    assert y in r <==> multiset(r)[y] > 0;
    assert y in s <==> multiset(s)[y] > 0;
  }

  /** remove(Object) of an element whose first occurrence follows a. */
  lemma RemoveFirstAt<T>(a: seq<T>, x: T, b: seq<T>)
    requires x !in a
    ensures RemoveFirst(a + [x] + b, x) == a + b
  {
    var s := a + [x] + b;
    assert s[..|a|] == a;
    IndexOfAt(s, x, |a|);
    assert s[..|a|] + s[|a| + 1..] == a + b;
  }

  /** No element occurs twice. */
  predicate NoDuplicates<T(==)>(s: seq<T>) {
    forall i, j :: 0 <= i < j < |s| ==> s[i] != s[j]
  }

  /** Adds x at the end unless it is already present (the listener lists). */
  function AddIfAbsent<T(==)>(s: seq<T>, x: T): (r: seq<T>)
    ensures x in r
    ensures forall i :: 0 <= i < |s| ==> s[i] in r
    ensures forall i :: 0 <= i < |r| ==> r[i] in s || r[i] == x
    ensures x in s ==> r == s
    ensures x !in s ==> r == s + [x]
    ensures NoDuplicates(s) ==> NoDuplicates(r)
  {
    if x in s then s else s + [x]
  }

  /** Removing an element keeps a duplicate-free list duplicate-free. */
  lemma {:induction false} RemoveFirstKeepsNoDuplicates<T>(s: seq<T>, x: T)
    requires NoDuplicates(s)
    ensures NoDuplicates(RemoveFirst(s, x))
    ensures x !in RemoveFirst(s, x)
  {
    if x in s {
      var k := IndexOf(s, x);
      var r := RemoveFirst(s, x);
      assert r == s[..k] + s[k + 1..];
      forall i, j | 0 <= i < j < |r| ensures r[i] != r[j] {
        var i' := if i < k then i else i + 1;
        var j' := if j < k then j else j + 1;
        assert r[i] == s[i'] && r[j] == s[j'];
      }
      forall i | 0 <= i < |r| ensures r[i] != x {
        var i' := if i < k then i else i + 1;
        assert r[i] == s[i'] && s[k] == x;
      }
    }
  }
}

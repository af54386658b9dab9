/// Vocabulary shared by every app: identifiers, optional values and results,
/// the error kinds a handler reports, Python's `str.strip`, and the
/// "newest first" ordering that the ORM's `-created_at` ordering produces.
module Common {

  /** Users are identified by their primary key. */
  type UserId = nat

  datatype Option<T> = None | Some(value: T)

  datatype Result<T, E> = Ok(value: T) | Err(error: E)

  /** The kinds of failure a handler reports, by HTTP status class. */
  datatype Error =
    | BadRequest    // 400: a validator rejected the input, or the action does not apply
    | Forbidden     // 403: authenticated, but not the owner of the row
    | NotFound      // 404: no such row, or the row is soft-deleted
    | ServerError   // 500: an exception the handler does not catch

  function Min(a: nat, b: nat): nat
  {
    if a <= b then a else b
  }

  // ---------------------------------------------------------------------
  // Strings
  // ---------------------------------------------------------------------

  /** The characters Python's `str.isspace` (and so `str.strip()`) treats as whitespace. */
  predicate IsSpace(c: char)
  {
    || c == ' ' || c == '\t' || c == '\n' || c == '\r' || c == '\U{000B}' || c == '\U{000C}'
    || ('\U{001C}' <= c <= '\U{001F}') || c == '\U{0085}' || c == '\U{00A0}' || c == '\U{1680}'
    || ('\U{2000}' <= c <= '\U{200A}') || c == '\U{2028}' || c == '\U{2029}' || c == '\U{202F}'
    || c == '\U{205F}' || c == '\U{3000}'
  }

  predicate IsBlank(s: string)
  {
    forall i :: 0 <= i < |s| ==> IsSpace(s[i])
  }

  /** Length of the longest all-whitespace prefix. */
  function LeadingSpaces(s: string): (k: nat)
    ensures k <= |s|
    ensures forall i :: 0 <= i < k ==> IsSpace(s[i])
    ensures k < |s| ==> !IsSpace(s[k])
  {
    if |s| > 0 && IsSpace(s[0]) then 1 + LeadingSpaces(s[1..]) else 0
  }

  /** Length of the longest all-whitespace suffix. */
  function TrailingSpaces(s: string): (k: nat)
    ensures k <= |s|
    ensures forall i :: |s| - k <= i < |s| ==> IsSpace(s[i])
    ensures k < |s| ==> !IsSpace(s[|s| - 1 - k])
  {
    if |s| > 0 && IsSpace(s[|s| - 1]) then 1 + TrailingSpaces(s[..|s| - 1]) else 0
  }

  /** Python's `s.strip()`: the maximal slice of `s` that neither starts nor ends with whitespace. */
  function Strip(s: string): (r: string)
    ensures LeadingSpaces(s) + |r| <= |s|
    ensures r == s[LeadingSpaces(s)..LeadingSpaces(s) + |r|]
    ensures forall i :: 0 <= i < |s| && !(LeadingSpaces(s) <= i < LeadingSpaces(s) + |r|) ==> IsSpace(s[i])
    ensures r != [] ==> !IsSpace(r[0]) && !IsSpace(r[|r| - 1])
    ensures r == [] <==> IsBlank(s)
  {
    var t := s[LeadingSpaces(s)..];
    t[..|t| - TrailingSpaces(t)]
  }

  predicate StartsWith(s: string, prefix: string)
  {
    |prefix| <= |s| && s[..|prefix|] == prefix
  }

  // ---------------------------------------------------------------------
  // Sets and orderings
  // ---------------------------------------------------------------------

  lemma SubsetCard<T>(a: set<T>, b: set<T>)
    requires a <= b
    ensures |a| <= |b|
  {
    assert b == a + (b - a);
  }

  lemma SingletonIs<T>(s: set<T>)
    requires |s| == 1
    ensures exists x :: s == {x}
  {
    var x :| x in s;
    assert |s - {x}| == 0;
    assert s == {x};
  }

  /**
   * What a `.get(...)` query finds among the matching keys: nothing (it
   * raises DoesNotExist), exactly one row, or several (it raises
   * MultipleObjectsReturned).
   */
  datatype Lookup = Absent | Unique(id: nat) | Ambiguous

  function Classify(ids: set<nat>): (r: Lookup)
    ensures r.Absent? <==> ids == {}
    ensures r.Unique? ==> ids == {r.id}
    ensures r.Ambiguous? <==> exists i, j :: i in ids && j in ids && i != j
  {
    if ids == {} then Absent
    else if |ids| == 1 then
      SingletonIs(ids);
      var id :| ids == {id};
      Unique(id)
    else
      var i :| i in ids;
      assert |ids - {i}| > 0;
      var j :| j in ids - {i};
      Ambiguous
  }

  /** Ids listed newest first: creation order is id order, so strictly decreasing. */
  predicate Descending(s: seq<nat>)
  {
    forall i, j :: 0 <= i < j < |s| ==> s[i] > s[j]
  }

  function Elements(s: seq<nat>): set<nat>
  {
    set x | x in s
  }

  /** A strictly decreasing sequence has no repeats, so it is as long as its set of elements. */
  lemma {:induction false} DescendingCard(s: seq<nat>)
    requires Descending(s)
    ensures |Elements(s)| == |s|
  {
    if s != [] {
      DescendingCard(s[1..]);
      assert Elements(s) == {s[0]} + Elements(s[1..]);
      assert s[0] !in Elements(s[1..]);
    }
  }

  /**
   * The ids of `ids` in `-created_at` order. Ids are handed out in creation
   * order, so the newest row has the largest id.
   */
  method NewestFirst(ids: set<nat>) returns (s: seq<nat>)
    ensures forall x :: x in s <==> x in ids
    ensures Descending(s)
    ensures |s| == |ids|
  {
    var bound := 0;
    var rest := ids;
    while rest != {}
      invariant rest <= ids
      invariant forall x :: x in ids && x !in rest ==> x < bound
      decreases rest
    {
      var x :| x in rest;
      if bound <= x {
        bound := x + 1;
      }
      rest := rest - {x};
    }
    s := [];
    var i := bound;
    while i > 0
      invariant i <= bound
      invariant forall x :: x in s <==> x in ids && i <= x
      invariant Descending(s)
      invariant forall k :: 0 <= k < |s| ==> i <= s[k]
    {
      i := i - 1;
      if i in ids {
        s := s + [i];
      }
    }
    DescendingCard(s);
    assert Elements(s) == ids;
  }

  /**
   * Up to `limit` distinct elements of `all`, in no particular order (a
   * `distinct()` queryset without an ordering, sliced with `[:limit]`).
   */
  method PickUpTo<T>(all: set<T>, limit: nat) returns (s: seq<T>)
    ensures |s| == Min(limit, |all|)
    ensures forall i, j :: 0 <= i < j < |s| ==> s[i] != s[j]
    ensures forall i :: 0 <= i < |s| ==> s[i] in all
  {
    var pool := all;
    s := [];
    while |s| < limit && pool != {}
      invariant pool <= all
      invariant forall i :: 0 <= i < |s| ==> s[i] in all && s[i] !in pool
      invariant forall i, j :: 0 <= i < j < |s| ==> s[i] != s[j]
      invariant |s| + |pool| == |all|
      invariant |s| <= limit
      decreases pool
    {
      var w :| w in pool;
      s := s + [w];
      pool := pool - {w};
    }
  }

  /** The first `n` elements of `s` (Python's `s[:n]`). */
  function Take<T>(s: seq<T>, n: nat): (r: seq<T>)
    ensures |r| == Min(n, |s|)
    ensures r == s[..|r|]
  {
    if |s| <= n then s else s[..n]
  }

  /**
   * The `n` newest of `ids`, newest first (a queryset ordered by
   * `-created_at` and sliced with `[:n]`).
   */
  method NewestN(ids: set<nat>, n: nat) returns (s: seq<nat>)
    ensures Descending(s)
    ensures |s| == Min(n, |ids|)
    ensures forall x :: x in s ==> x in ids
    ensures forall x :: x in ids && x !in s ==> forall k :: 0 <= k < |s| ==> x < s[k]
  {
    var all := NewestFirst(ids);
    s := Take(all, n);
    forall x | x in ids && x !in s
      ensures forall k :: 0 <= k < |s| ==> x < s[k]
    {
      var j :| 0 <= j < |all| && all[j] == x;
      assert j >= |s|;
    }
  }
}

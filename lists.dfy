/** The List<T> operations the licence roster uses, over sequences. */
module Lists {

  /** No element occurs twice. */
  predicate NoDuplicates<T(==)>(s: seq<T>) {
    forall i, j | 0 <= i < j < |s| :: s[i] != s[j]
  }

  /** List<T>.IndexOf: the first index holding x, or -1 when there is none. */
  function IndexOf<T(==)>(s: seq<T>, x: T): (r: int)
    ensures -1 <= r < |s|
    ensures r == -1 <==> x !in s
    ensures 0 <= r ==> s[r] == x && x !in s[..r]
  {
    if s == [] then -1
    else if s[0] == x then 0
    else
      var k := IndexOf(s[1..], x);
      if k == -1 then -1 else k + 1
  }

  /** Dropping the head of a duplicate-free sequence leaves one, without
      the head. */
  lemma TailUnique<T>(s: seq<T>)
    requires s != [] && NoDuplicates(s)
    ensures NoDuplicates(s[1..]) && s[0] !in s[1..]
  {
    var t := s[1..];
    forall i, j | 0 <= i < j < |t| ensures t[i] != t[j] {
      assert t[i] == s[i + 1] && t[j] == s[j + 1];
    }
  }

  /** The first index of an element past the head is one more than its
      first index in the tail. */
  lemma IndexOfTail<T>(s: seq<T>, x: T)
    requires s != [] && s[0] != x && x in s
    ensures IndexOf(s, x) == IndexOf(s[1..], x) + 1
  {
    assert x in s[1..];
  }

  /** A sequence has at most as many distinct elements as entries, and
      exactly as many when no element occurs twice. */
  lemma {:induction false} DistinctCount<T>(s: seq<T>)
    ensures |set x | x in s| <= |s|
    ensures NoDuplicates(s) ==> |set x | x in s| == |s|
  {
    if s != [] {
      var t := s[1..];
      DistinctCount(t);
      assert (set x | x in s) == {s[0]} + (set x | x in t);
      if NoDuplicates(s) {
        TailUnique(s);
      }
    }
  }

  /** List<T>.Remove: drops the first occurrence of x, if there is one. */
  function RemoveFirst<T(==)>(s: seq<T>, x: T): (r: seq<T>)
    ensures x !in s ==> r == s
    ensures x in s ==> |r| == |s| - 1
    ensures x in s ==> exists i | 0 <= i < |s| && s[i] == x && x !in s[..i] :: r == s[..i] + s[i + 1..]
  {
    var i := IndexOf(s, x);
    if i < 0 then s else s[..i] + s[i + 1..]
  }

  /** Removing x from a duplicate-free sequence leaves a duplicate-free
      sequence without x that keeps every other element, in order. */
  lemma RemoveFirstFromUnique<T>(s: seq<T>, x: T)
    requires NoDuplicates(s)
    requires x in s
    ensures var r := RemoveFirst(s, x);
      && NoDuplicates(r)
      && x !in r
      && (forall y | y != x :: y in r <==> y in s)
  {
    var i := IndexOf(s, x);
    var r := RemoveFirst(s, x);
    assert r == s[..i] + s[i + 1..];
    forall a, b | 0 <= a < b < |r| ensures r[a] != r[b] {
      var a' := if a < i then a else a + 1;
      var b' := if b < i then b else b + 1;
      assert r[a] == s[a'] && r[b] == s[b'];
    }
    forall k | 0 <= k < |r| ensures r[k] != x {
      var k' := if k < i then k else k + 1;
      assert r[k] == s[k'];
    }
    forall y | y != x ensures y in r <==> y in s {
      if y in s {
        var k :| 0 <= k < |s| && s[k] == y;
        assert k != i;
        assert r[if k < i then k else k - 1] == y;
      }
    }
  }

  /** Appending a new element and then removing it gives back the sequence. */
  lemma RemoveFirstOfAppended<T>(s: seq<T>, x: T)
    requires x !in s
    ensures RemoveFirst(s + [x], x) == s
  {
    var t := s + [x];
    assert x in t && t[|s|] == x;
    assert t[..|s|] == s;
  }

  /** Appending an element not yet present keeps a sequence duplicate-free. */
  lemma AppendFreshKeepsUnique<T>(s: seq<T>, x: T)
    requires NoDuplicates(s) && x !in s
    ensures NoDuplicates(s + [x])
  {
    var s' := s + [x];
    forall i, j | 0 <= i < j < |s'| ensures s'[i] != s'[j] {
      if j == |s| {
        assert s'[i] == s[i];
      }
    }
  }
}

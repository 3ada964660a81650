/** Small vocabulary shared by every part of the model: bytes, UUIDs, optional
    values and a few sequence operations. */
module Prelude {

  datatype Option<+T> = None | Some(value: T)

  /** One octet of the wire format. */
  newtype byte = x: int | 0 <= x < 256

  const UUID_SIZE := 16

  /** A QUuid in its RFC 4122 form: sixteen octets. */
  type Uuid = s: seq<byte> | |s| == UUID_SIZE witness [0, 0, 0, 0, 0, 0, 0, 0, 0, 0, 0, 0, 0, 0, 0, 0]

  /** The null UUID, `QUuid()`. */
  const NULL_UUID: Uuid := [0, 0, 0, 0, 0, 0, 0, 0, 0, 0, 0, 0, 0, 0, 0, 0]

  /** What both ends say about a username that breaks the rule. */
  const BAD_USERNAME :=
    "Username must be 2-20 characters and contain only lowercase latin letters, numbers, and underscores"

  ghost predicate NoDuplicates<T>(s: seq<T>) {
    forall i, j :: 0 <= i < j < |s| ==> s[i] != s[j]
  }

  /** `s` lists every element of `keys` exactly once. This is all that is known about the
      order in which a QHash or a QSet is walked. */
  ghost predicate Enumerates<T(!new)>(s: seq<T>, keys: set<T>) {
    && NoDuplicates(s)
    && forall x :: x in s <==> x in keys
  }

  lemma {:induction false} EnumerationLength<T(!new)>(s: seq<T>, keys: set<T>)
    requires Enumerates(s, keys)
    ensures |s| == |keys|
  {
    if s == [] {
      assert keys == {};
    } else {
      var n := |s| - 1;
      SplitLast(s);
      EnumerationLength(s[..n], keys - {s[n]});
    }
  }

  function Flatten<T>(parts: seq<seq<T>>): seq<T> {
    if parts == [] then [] else Flatten(parts[..|parts| - 1]) + parts[|parts| - 1]
  }

  lemma SplitLast<T>(s: seq<T>)
    requires s != []
    ensures s == s[..|s| - 1] + [s[|s| - 1]]
  {
  }

  lemma ConcatAssociative<T>(a: seq<T>, b: seq<T>, c: seq<T>)
    ensures (a + b) + c == a + (b + c)
  {
  }

  /** The elements of `s` that satisfy `p`, in order. */
  function Filter<T>(s: seq<T>, p: T -> bool): (r: seq<T>)
    ensures forall i :: 0 <= i < |r| ==> r[i] in s && p(r[i])
    ensures forall i :: 0 <= i < |s| && p(s[i]) ==> s[i] in r
  {
    if s == [] then []
    else
      var rest := Filter(s[..|s| - 1], p);
      if p(s[|s| - 1]) then rest + [s[|s| - 1]] else rest
  }

  lemma FilterSnoc<T>(s: seq<T>, x: T, p: T -> bool)
    ensures Filter(s + [x], p) == Filter(s, p) + if p(x) then [x] else []
  {
    assert (s + [x])[..|s|] == s;
  }

  lemma {:induction false} FilterConcat<T>(a: seq<T>, b: seq<T>, p: T -> bool)
    ensures Filter(a + b, p) == Filter(a, p) + Filter(b, p)
  {
    if b == [] {
      assert a + b == a;
    } else {
      hide Filter;
      var m, x := b[..|b| - 1], b[|b| - 1];
      SplitLast(b);
      ConcatAssociative(a, m, [x]);
      FilterConcat(a, m, p);
      FilterSnoc(a + m, x, p);
      FilterSnoc(m, x, p);
    }
  }

  lemma FilterFirst<T>(s: seq<T>, p: T -> bool)
    requires s != []
    ensures Filter(s, p) == (if p(s[0]) then [s[0]] else []) + Filter(s[1..], p)
  {
    assert s == [s[0]] + s[1..];
    FilterConcat([s[0]], s[1..], p);
    FilterSnoc([], s[0], p);
    assert [] + [s[0]] == [s[0]];
  }

  /** What a filter keeps depends on the elements of the sequence only. */
  lemma {:induction false} FilterSame<T>(s: seq<T>, p: T -> bool, q: T -> bool)
    requires forall x | x in s :: p(x) <==> q(x)
    ensures Filter(s, p) == Filter(s, q)
  {
    if s == [] {
    } else {
      FilterSame(s[..|s| - 1], p, q);
    }
  }

  lemma {:induction false} FilterAll<T>(s: seq<T>, p: T -> bool)
    requires forall x | x in s :: p(x)
    ensures Filter(s, p) == s
  {
    if s == [] {
    } else {
      SplitLast(s);
      FilterAll(s[..|s| - 1], p);
    }
  }

  /** Filtering twice is filtering once, when the second filter is the stricter one. */
  lemma {:induction false} FilterTwice<T>(s: seq<T>, p: T -> bool, q: T -> bool)
    requires forall x | x in s :: q(x) ==> p(x)
    ensures Filter(Filter(s, p), q) == Filter(s, q)
  {
    if s == [] {
    } else {
      var m, x := s[..|s| - 1], s[|s| - 1];
      FilterTwice(m, p, q);
      FilterSnoc(Filter(m, p), x, q);
    }
  }

  lemma {:induction false} FilterNoDuplicates<T>(s: seq<T>, p: T -> bool)
    requires NoDuplicates(s)
    ensures NoDuplicates(Filter(s, p))
  {
    if s == [] {
    } else {
      FilterNoDuplicates(s[..|s| - 1], p);
    }
  }
}

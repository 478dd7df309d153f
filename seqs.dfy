/** The two list operations the builder relies on everywhere: JavaScript's
    `Array.prototype.filter` and `Array.prototype.find` / `findIndex`. */
module Seqs {
  import opened Wrappers

  /** `s.filter(p)`: the elements of `s` satisfying `p`, in their order. */
  function Filter<T>(s: seq<T>, p: T -> bool): (r: seq<T>)
    ensures |r| <= |s|
    ensures forall i :: 0 <= i < |r| ==> r[i] in s && p(r[i])
  {
    if s == [] then []
    else (if p(s[0]) then [s[0]] else []) + Filter(s[1..], p)
  }

  /** Nothing satisfying `p` is dropped by `Filter`. */
  lemma {:induction false} FilterKeeps<T>(s: seq<T>, p: T -> bool, i: nat)
    requires i < |s| && p(s[i])
    ensures s[i] in Filter(s, p)
  {
    if i > 0 {
      FilterKeeps(s[1..], p, i - 1);
    }
  }

  /** `s.findIndex(p)`, with -1 read as None. */
  function FindIndex<T>(s: seq<T>, p: T -> bool): (r: Option<nat>)
    ensures r.Some? ==> r.value < |s| && p(s[r.value])
    ensures r.Some? ==> forall j :: 0 <= j < r.value ==> !p(s[j])
    ensures r.None? ==> forall j :: 0 <= j < |s| ==> !p(s[j])
  {
    if s == [] then None
    else if p(s[0]) then Some(0)
    else match FindIndex(s[1..], p)
      case None => None
      case Some(k) => Some(k + 1)
  }

  /** `s.find(p)`, with `undefined` read as None. */
  function Find<T>(s: seq<T>, p: T -> bool): (r: Option<T>)
    ensures r.Some? <==> exists i :: 0 <= i < |s| && p(s[i])
    ensures r.Some? ==> r.value in s && p(r.value)
  {
    match FindIndex(s, p)
    case None => None
    case Some(k) => Some(s[k])
  }

  /** `s.some(p)`. */
  function Any<T>(s: seq<T>, p: T -> bool): (r: bool)
    ensures r <==> exists i :: 0 <= i < |s| && p(s[i])
  {
    FindIndex(s, p).Some?
  }

  /** `Filter` keeps exactly the elements satisfying `p`. */
  lemma FilterMembers<T>(s: seq<T>, p: T -> bool, x: T)
    ensures x in Filter(s, p) <==> x in s && p(x)
  {
    if x in s && p(x) {
      var i :| 0 <= i < |s| && s[i] == x;
      FilterKeeps(s, p, i);
    }
  }

  predicate NoDuplicates<T(==)>(s: seq<T>) {
    forall i, j :: 0 <= i < j < |s| ==> s[i] != s[j]
  }

  /** Two duplicate-free lists with no element in common concatenate to a
      duplicate-free list. */
  lemma NoDuplicatesConcat<T>(a: seq<T>, b: seq<T>)
    requires NoDuplicates(a) && NoDuplicates(b)
    requires forall x :: x in a ==> x !in b
    ensures NoDuplicates(a + b)
  {
    forall i, j | 0 <= i < j < |a + b| ensures (a + b)[i] != (a + b)[j] {
      if j >= |a| && i < |a| {
        assert (a + b)[i] in a && (a + b)[j] in b;
      }
    }
  }

  /** Filtering distributes over concatenation: a bucket of a flattened list
      is the concatenation of the buckets of its parts. */
  lemma {:induction false} FilterConcat<T>(a: seq<T>, b: seq<T>, p: T -> bool)
    ensures Filter(a + b, p) == Filter(a, p) + Filter(b, p)
  {
    if a == [] {
      assert a + b == b;
    } else {
      assert (a + b)[1..] == a[1..] + b;
      FilterConcat(a[1..], b, p);
    }
  }

  /** Filtering twice by the same predicate adds and removes nothing. */
  lemma {:induction false} FilterIdempotent<T>(s: seq<T>, p: T -> bool)
    ensures Filter(Filter(s, p), p) == Filter(s, p)
  {
    if s != [] {
      FilterIdempotent(s[1..], p);
      if p(s[0]) {
        var r := Filter(s, p);
        assert r == [s[0]] + Filter(s[1..], p);
        assert r[0] == s[0] && p(r[0]) && r[1..] == Filter(s[1..], p);
        calc {
          Filter(r, p);
          [r[0]] + Filter(r[1..], p);
          [s[0]] + Filter(Filter(s[1..], p), p);
          [s[0]] + Filter(s[1..], p);
        }
      } else {
        assert Filter(s, p) == [] + Filter(s[1..], p) == Filter(s[1..], p);
      }
    }
  }

  /** A filter of a duplicate-free list is duplicate-free. */
  lemma {:induction false} FilterNoDuplicates<T>(s: seq<T>, p: T -> bool)
    requires NoDuplicates(s)
    ensures NoDuplicates(Filter(s, p))
  {
    if s != [] {
      assert NoDuplicates(s[1..]) by {
        forall i, j | 0 <= i < j < |s[1..]| ensures s[1..][i] != s[1..][j] {
          assert s[1..][i] == s[i + 1] && s[1..][j] == s[j + 1];
        }
      }
      FilterNoDuplicates(s[1..], p);
      var rest := Filter(s[1..], p);
      if p(s[0]) {
        assert s[0] !in s[1..];
        assert s[0] !in rest;
        var r := [s[0]] + rest;
        forall i, j | 0 <= i < j < |r| ensures r[i] != r[j] {
          if i == 0 { assert r[j] == rest[j - 1]; assert rest[j - 1] in rest; }
          else { assert r[i] == rest[i - 1] && r[j] == rest[j - 1]; }
        }
      }
    }
  }

  /** Whoever satisfies `p` at two different positions makes the filter
      longer than one, and conversely. */
  lemma {:induction false} FilterLongerThanOne<T>(s: seq<T>, p: T -> bool)
    ensures |Filter(s, p)| > 1 <==> exists i, j :: 0 <= i < j < |s| && p(s[i]) && p(s[j])
  {
    if s != [] {
      FilterLongerThanOne(s[1..], p);
      var rest := Filter(s[1..], p);
      if p(s[0]) {
        if |rest| > 0 {
          assert rest[0] in s[1..];
          var k :| 0 <= k < |s[1..]| && s[1..][k] == rest[0];
          assert p(s[0]) && p(s[k + 1]);
        } else {
          forall i, j | 0 <= i < j < |s| ensures !(p(s[i]) && p(s[j])) {
            if p(s[i]) && p(s[j]) {
              assert s[j] == s[1..][j - 1];
              FilterKeeps(s[1..], p, j - 1);
            }
          }
        }
      } else {
        if exists i, j :: 0 <= i < j < |s| && p(s[i]) && p(s[j]) {
          var i, j :| 0 <= i < j < |s| && p(s[i]) && p(s[j]);
          assert i > 0;
          assert s[1..][i - 1] == s[i] && s[1..][j - 1] == s[j];
        }
        if |rest| > 1 {
          var i, j :| 0 <= i < j < |s[1..]| && p(s[1..][i]) && p(s[1..][j]);
          assert s[i + 1] == s[1..][i] && s[j + 1] == s[1..][j];
        }
      }
    }
  }

  /** `s.map(f)`. */
  function Map<A, B>(s: seq<A>, f: A -> B): (r: seq<B>)
    ensures |r| == |s| && forall i :: 0 <= i < |s| ==> r[i] == f(s[i])
  {
    seq(|s|, i requires 0 <= i < |s| => f(s[i]))
  }

  /** Mapping distributes over concatenation. */
  lemma MapConcat<A, B>(a: seq<A>, b: seq<A>, f: A -> B)
    ensures Map(a + b, f) == Map(a, f) + Map(b, f)
  {
    assert forall i :: 0 <= i < |a + b| ==> Map(a + b, f)[i] == (Map(a, f) + Map(b, f))[i];
  }

  /** What `Map` yields is the image of the list's members. */
  lemma MapMembers<A, B>(s: seq<A>, f: A -> B, y: B)
    ensures y in Map(s, f) <==> exists x :: x in s && y == f(x)
  {
    if y in Map(s, f) {
      var i :| 0 <= i < |s| && Map(s, f)[i] == y;
      assert s[i] in s;
    }
  }

  /** `pieces.join(sep)`. */
  function Join(pieces: seq<string>, sep: string): string {
    if |pieces| == 0 then ""
    else if |pieces| == 1 then pieces[0]
    else pieces[0] + sep + Join(pieces[1..], sep)
  }

  /** Joining one more piece appends the separator and the piece. */
  lemma {:induction false} JoinSnoc(pieces: seq<string>, sep: string, x: string)
    requires |pieces| > 0
    ensures Join(pieces + [x], sep) == Join(pieces, sep) + sep + x
  {
    if |pieces| == 1 {
      assert (pieces + [x])[1..] == [x];
    } else {
      assert (pieces + [x])[1..] == pieces[1..] + [x];
      JoinSnoc(pieces[1..], sep, x);
    }
  }

  /** A predicate splits a list: what passes plus what fails is all of it. */
  lemma {:induction false} FilterSplit<T>(s: seq<T>, p: T -> bool, q: T -> bool)
    requires forall x :: q(x) == !p(x)
    ensures |Filter(s, p)| + |Filter(s, q)| == |s|
  {
    if s != [] {
      FilterSplit(s[1..], p, q);
    }
  }
}

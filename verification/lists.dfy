/**
 * The two list-maintenance patterns the editor code repeats on `List<T>`:
 * "add unless already contained" (`if (!list.Contains(x)) list.Add(x)`, applied
 * to a stream of candidates) and `List<T>.Remove(x)`, which removes the first
 * occurrence only.
 */
module Lists {

  /** No element occurs twice. */
  predicate NoDup<T(==)>(s: seq<T>) {
    forall i, j :: 0 <= i < j < |s| ==> s[i] != s[j]
  }

  /** The candidates that "add unless contained" appends to `existing`: each
      candidate that is neither in `existing` nor earlier among the candidates,
      in candidate order. */
  function Fresh<T(==,!new)>(existing: seq<T>, candidates: seq<T>): (r: seq<T>)
    ensures |r| <= |candidates|
    decreases |candidates|
  {
    if candidates == [] then []
    else
      var init := candidates[..|candidates| - 1];
      var x := candidates[|candidates| - 1];
      assert candidates == init + [x];
      Fresh(existing, init) + (if x in existing || x in init then [] else [x])
  }

  /** A value is appended exactly when it is a candidate not already present. */
  lemma {:induction false} FreshMember<T(!new)>(existing: seq<T>, candidates: seq<T>, x: T)
    ensures x in Fresh(existing, candidates) <==> x in candidates && x !in existing
    decreases |candidates|
  {
    if candidates != [] {
      var init := candidates[..|candidates| - 1];
      FreshMember(existing, init, x);
      assert candidates == init + [candidates[|candidates| - 1]];
    }
  }

  /** The appended part never repeats an element. */
  lemma {:induction false} FreshNoDup<T(!new)>(existing: seq<T>, candidates: seq<T>)
    ensures NoDup(Fresh(existing, candidates))
    decreases |candidates|
  {
    if candidates != [] {
      var init := candidates[..|candidates| - 1];
      FreshNoDup(existing, init);
      FreshMember(existing, init, candidates[|candidates| - 1]);
    }
  }

  /** Appending the fresh candidates to a list without duplicates keeps it
      without duplicates. */
  lemma AppendFreshNoDup<T(!new)>(existing: seq<T>, candidates: seq<T>)
    requires NoDup(existing)
    ensures NoDup(existing + Fresh(existing, candidates))
  {
    var f := Fresh(existing, candidates);
    FreshNoDup(existing, candidates);
    var s := existing + f;
    forall i, j | 0 <= i < j < |s| ensures s[i] != s[j] {
      if j >= |existing| {
        assert s[j] == f[j - |existing|];
        FreshMember(existing, candidates, s[j]);
        if i < |existing| { assert s[i] in existing; }
      }
    }
  }

  /** Running "add unless contained" twice with the same candidates adds
      nothing the second time. */
  lemma FreshIdempotent<T(!new)>(existing: seq<T>, candidates: seq<T>)
    ensures Fresh(existing + Fresh(existing, candidates), candidates) == []
  {
    var e := existing + Fresh(existing, candidates);
    var f := Fresh(e, candidates);
    forall x ensures x !in f {
      FreshMember(e, candidates, x);
      FreshMember(existing, candidates, x);
    }
    EmptyWithoutMembers(f);
  }

  lemma EmptyWithoutMembers<T>(s: seq<T>)
    ensures (forall x :: x !in s) ==> s == []
  {
    if s != [] {
      assert s[0] in s;
    }
  }

  /** Something is appended exactly when some candidate is not yet present. */
  lemma FreshNonEmpty<T(!new)>(existing: seq<T>, candidates: seq<T>)
    ensures Fresh(existing, candidates) != [] <==> exists x :: x in candidates && x !in existing
  {
    var f := Fresh(existing, candidates);
    if f != [] {
      FreshMember(existing, candidates, f[0]);
    }
    if x :| x in candidates && x !in existing {
      FreshMember(existing, candidates, x);
    }
  }

  /** One more candidate: it is appended exactly when not present yet. */
  lemma FreshSnoc<T(!new)>(existing: seq<T>, candidates: seq<T>, x: T)
    ensures Fresh(existing, candidates + [x])
         == Fresh(existing, candidates) + (if x in existing + Fresh(existing, candidates) then [] else [x])
  {
    var c := candidates + [x];
    assert c[..|c| - 1] == candidates;
    FreshMember(existing, candidates, x);
  }

  /** `FreshSnoc` for the candidate at index `k`, as a loop over the
      candidates meets it. */
  lemma FreshStep<T(!new)>(existing: seq<T>, candidates: seq<T>, k: nat)
    requires k < |candidates|
    ensures Fresh(existing, candidates[..k + 1])
         == Fresh(existing, candidates[..k])
            + (if candidates[k] in existing + Fresh(existing, candidates[..k]) then [] else [candidates[k]])
  {
    assert candidates[..k + 1] == candidates[..k] + [candidates[k]];
    FreshSnoc(existing, candidates[..k], candidates[k]);
  }

  /** With no existing elements and no repeated candidates, every candidate is
      appended, in order. */
  lemma {:induction false} FreshAll<T(!new)>(candidates: seq<T>)
    requires NoDup(candidates)
    ensures Fresh([], candidates) == candidates
    decreases |candidates|
  {
    if candidates != [] {
      var init := candidates[..|candidates| - 1];
      var x := candidates[|candidates| - 1];
      FreshAll(init);
      assert candidates == init + [x];
    }
  }

  /** Index of the first `x` in `s`, or `|s|` when there is none. */
  function FirstIndex<T(==)>(s: seq<T>, x: T): (i: nat)
    ensures i <= |s|
    ensures i < |s| ==> s[i] == x
    ensures x !in s[..i]
    decreases |s|
  {
    if s == [] then 0
    else if s[0] == x then 0
    else
      assert s[..1 + FirstIndex(s[1..], x)] == [s[0]] + s[1..][..FirstIndex(s[1..], x)];
      1 + FirstIndex(s[1..], x)
  }

  /** `List<T>.Remove(x)`: removes the first occurrence of `x`, if any. */
  function RemoveFirst<T(==)>(s: seq<T>, x: T): (r: seq<T>)
    ensures multiset(r) == multiset(s) - multiset{x}
    ensures x in s <==> |r| == |s| - 1
    ensures x !in s <==> r == s
  {
    var i := FirstIndex(s, x);
    if i == |s| then
      assert s[..i] == s;
      s
    else
      assert s == s[..i] + [x] + s[i + 1..];
      s[..i] + s[i + 1..]
  }

  /** `Remove` called once per element of `xs`, in order. */
  function RemoveEach<T(==)>(s: seq<T>, xs: seq<T>): seq<T>
    decreases |xs|
  {
    if xs == [] then s
    else RemoveFirst(RemoveEach(s, xs[..|xs| - 1]), xs[|xs| - 1])
  }

  /** The removals take away exactly the requested elements, counted with
      multiplicity and only as far as they occur. */
  lemma {:induction false} RemoveEachMultiset<T>(s: seq<T>, xs: seq<T>)
    ensures multiset(RemoveEach(s, xs)) == multiset(s) - multiset(xs)
    decreases |xs|
  {
    if xs != [] {
      var init := xs[..|xs| - 1];
      var x := xs[|xs| - 1];
      var before := RemoveEach(s, init);
      RemoveEachMultiset(s, init);
      assert multiset(xs) == multiset(init) + multiset{x} by {
        assert xs == init + [x];
      }
      MinusTwice(multiset(s), multiset(init), multiset{x});
      calc {
        multiset(RemoveEach(s, xs));
        multiset(RemoveFirst(before, x));
        multiset(before) - multiset{x};
        (multiset(s) - multiset(init)) - multiset{x};
        multiset(s) - multiset(xs);
      }
    }
  }

  lemma MinusTwice<T>(a: multiset<T>, b: multiset<T>, c: multiset<T>)
    ensures (a - b) - c == a - (b + c)
  {
    forall y ensures ((a - b) - c)[y] == (a - (b + c))[y] {}
  }

  /** Something is removed exactly when some requested element occurs in `s`. */
  lemma RemoveEachChanges<T>(s: seq<T>, xs: seq<T>)
    ensures RemoveEach(s, xs) != s <==> exists x :: x in xs && x in s
  {
    RemoveEachMultiset(s, xs);
    if x :| x in xs && x in s {
      assert multiset(RemoveEach(s, xs))[x] < multiset(s)[x];
    } else {
      RemoveEachNone(s, xs);
    }
  }

  lemma {:induction false} RemoveEachNone<T>(s: seq<T>, xs: seq<T>)
    requires forall x :: x in xs ==> x !in s
    ensures RemoveEach(s, xs) == s
    decreases |xs|
  {
    if xs != [] {
      RemoveEachNone(s, xs[..|xs| - 1]);
      assert xs[|xs| - 1] in xs;
    }
  }

  /** `sub` is `s` with some elements left out and the rest in their order. */
  predicate IsSubsequence<T(==)>(sub: seq<T>, s: seq<T>)
    decreases |s|
  {
    sub == [] ||
    (s != [] && ((sub[0] == s[0] && IsSubsequence(sub[1..], s[1..])) || IsSubsequence(sub, s[1..])))
  }

  lemma {:induction false} SubsequenceRefl<T>(s: seq<T>)
    ensures IsSubsequence(s, s)
    decreases |s|
  {
    if s != [] { SubsequenceRefl(s[1..]); }
  }

  lemma {:induction false} SubsequenceTrans<T>(a: seq<T>, b: seq<T>, c: seq<T>)
    requires IsSubsequence(a, b) && IsSubsequence(b, c)
    ensures IsSubsequence(a, c)
    decreases |c|
  {
    if a != [] {
      if IsSubsequence(b, c[1..]) {
        SubsequenceTrans(a, b, c[1..]);
      } else if a[0] == b[0] && IsSubsequence(a[1..], b[1..]) {
        SubsequenceTrans(a[1..], b[1..], c[1..]);
      } else {
        SubsequenceTrans(a, b[1..], c[1..]);
      }
    }
  }

  lemma {:induction false} DropOneSubsequence<T>(s: seq<T>, i: nat)
    requires i < |s|
    ensures IsSubsequence(s[..i] + s[i + 1..], s)
    decreases i
  {
    if i == 0 {
      assert s[..0] + s[1..] == s[1..];
      SubsequenceRefl(s[1..]);
    } else {
      DropOneSubsequence(s[1..], i - 1);
      var t := s[..i] + s[i + 1..];
      assert t[0] == s[0] && t[1..] == s[1..][..i - 1] + s[1..][i..];
    }
  }

  /** The removals keep every remaining element in its original order. */
  lemma {:induction false} RemoveEachKeepsOrder<T>(s: seq<T>, xs: seq<T>)
    ensures IsSubsequence(RemoveEach(s, xs), s)
    decreases |xs|
  {
    if xs == [] {
      SubsequenceRefl(s);
    } else {
      var before := RemoveEach(s, xs[..|xs| - 1]);
      RemoveEachKeepsOrder(s, xs[..|xs| - 1]);
      var x := xs[|xs| - 1];
      var i := FirstIndex(before, x);
      if i < |before| {
        DropOneSubsequence(before, i);
        SubsequenceTrans(RemoveEach(s, xs), before, s);
      }
    }
  }
}

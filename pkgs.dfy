// Lists of packages (pkgs.go): filtering by a user pattern and the sorted
// union of two lists. Both methods walk their input with a loop as the
// source does and are proved equal to a recursive specification (`Filter`,
// `MergeSeq`); what the source promises is proved about those.

module PackageSets {
  import opened Wrappers
  import opened Text
  import opened Packages

  /** Sorted under Cmp, as Load leaves a list (sort.Sort with ByPkg). */
  predicate Sorted(ps: seq<Pkg>) {
    forall i, j | 0 <= i < j < |ps| :: ps[i].Cmp(ps[j]) <= 0
  }

  /** Sorted with no two Cmp-equal packages. */
  predicate StrictlySorted(ps: seq<Pkg>) {
    forall i, j | 0 <= i < j < |ps| :: ps[i].Cmp(ps[j]) < 0
  }

  /** `s` is `t` with some elements left out, the rest in their order. */
  predicate IsSubsequence(s: seq<Pkg>, t: seq<Pkg>)
    decreases |t|
  {
    || s == []
    || (&& t != []
        && ((s[0] == t[0] && IsSubsequence(s[1..], t[1..])) || IsSubsequence(s, t[1..])))
  }

  /** The packages of `ps` that `pattern` matches, in their order. */
  function Filter(glob: Glob, pattern: Bytes, ps: seq<Pkg>): seq<Pkg> {
    if ps == [] then []
    else (if ps[0].Match(glob, pattern) then [ps[0]] else []) + Filter(glob, pattern, ps[1..])
  }

  /** The two-pointer union: the smaller head goes first; on Cmp-equal heads
      the head of `a` is kept and that of `b` dropped. */
  function MergeSeq(a: seq<Pkg>, b: seq<Pkg>): seq<Pkg>
    decreases |a| + |b|
  {
    if a == [] then b
    else if b == [] then a
    else
      var c := a[0].Cmp(b[0]);
      if c == 0 then [a[0]] + MergeSeq(a[1..], b[1..])
      else if c < 0 then [a[0]] + MergeSeq(a[1..], b)
      else [b[0]] + MergeSeq(a, b[1..])
  }

  /** The heads of `b` that MergeSeq drops, one per equal-head step. */
  function Dropped(a: seq<Pkg>, b: seq<Pkg>): seq<Pkg>
    decreases |a| + |b|
  {
    if a == [] || b == [] then []
    else
      var c := a[0].Cmp(b[0]);
      if c == 0 then [b[0]] + Dropped(a[1..], b[1..])
      else if c < 0 then Dropped(a[1..], b)
      else Dropped(a, b[1..])
  }

  /** The packages of `b` that MergeSeq keeps: the heads `Dropped` does not
      take, in their order. */
  function KeptOfB(a: seq<Pkg>, b: seq<Pkg>): seq<Pkg>
    decreases |a| + |b|
  {
    if a == [] then b
    else if b == [] then []
    else
      var c := a[0].Cmp(b[0]);
      if c == 0 then KeptOfB(a[1..], b[1..])
      else if c < 0 then KeptOfB(a[1..], b)
      else [b[0]] + KeptOfB(a, b[1..])
  }

  /** A package list and the repository it was loaded from (the Go pointer
      to its Repodata, told apart by an identity number; None is nil). */
  datatype Pkgs = Pkgs(repo: Option<nat>, pkgs: seq<Pkg>)
  {
    /** Pkgs.Match: an empty pattern gives back the list itself; otherwise a
        list of the same repository with the matching packages. */
    method Match(glob: Glob, pattern: Bytes) returns (r: Pkgs)
      ensures pattern == [] ==> r == this
      ensures pattern != [] ==> r == Pkgs(repo, Filter(glob, pattern, pkgs))
    {
      if |pattern| == 0 {
        return this;
      }
      var ret := MatchingPackages(glob, pattern, pkgs);
      r := Pkgs(repo, ret);
    }

    /** Pkgs.Merge: the repository survives only when both lists share it;
        the packages are the two-pointer union. */
    method Merge(b: Pkgs) returns (r: Pkgs)
      ensures r.repo == (if repo == b.repo then repo else None)
      ensures r.pkgs == MergeSeq(pkgs, b.pkgs)
    {
      var arepo := repo;
      if repo != b.repo {
        arepo := None;
      }
      var ret := MergeLoop(pkgs, b.pkgs);
      return Pkgs(arepo, ret);
    }
  }

  /** The loop of Pkgs.Merge: advance past the smaller head and append it;
      on Cmp-equal heads skip both and append the head of `a`. */
  method MergeLoop(a: seq<Pkg>, b: seq<Pkg>) returns (ret: seq<Pkg>)
    ensures ret == MergeSeq(a, b)
  {
    ret := [];
    var pas, pbs := a, b;
    while |pas| > 0 && |pbs| > 0
      invariant ret + MergeSeq(pas, pbs) == MergeSeq(a, b)
      decreases |pas| + |pbs|
    {
      var c := pas[0].Cmp(pbs[0]);
      if c == 0 {
        Associative(ret, [pas[0]], MergeSeq(pas[1..], pbs[1..]));
        pbs := pbs[1..];
        ret := ret + [pas[0]];
        pas := pas[1..];
      } else if c < 0 {
        Associative(ret, [pas[0]], MergeSeq(pas[1..], pbs));
        ret := ret + [pas[0]];
        pas := pas[1..];
      } else {
        Associative(ret, [pbs[0]], MergeSeq(pas, pbs[1..]));
        ret := ret + [pbs[0]];
        pbs := pbs[1..];
      }
    }
    assert MergeSeq(pas, pbs) == pas + pbs by {
      if pas == [] {
        assert pas + pbs == pbs;
      } else {
        assert pas + pbs == pas;
      }
    }
    Associative(ret, pas, pbs);
    ret := ret + pas;
    ret := ret + pbs;
  }

  // ---------------------------------------------------------------------
  // Filter

  /** The loop of Pkgs.Match: append each package the pattern matches. */
  method MatchingPackages(glob: Glob, pattern: Bytes, ps: seq<Pkg>) returns (ret: seq<Pkg>)
    ensures ret == Filter(glob, pattern, ps)
  {
    ret := [];
    var i := 0;
    while i < |ps|
      invariant 0 <= i <= |ps|
      invariant ret + Filter(glob, pattern, ps[i..]) == Filter(glob, pattern, ps)
    {
      FilterStep(glob, pattern, ps, i);
      if ps[i].Match(glob, pattern) {
        Associative(ret, [ps[i]], Filter(glob, pattern, ps[i + 1..]));
        ret := ret + [ps[i]];
      } else {
        assert [] + Filter(glob, pattern, ps[i + 1..]) == Filter(glob, pattern, ps[i + 1..]);
      }
      i := i + 1;
    }
  }

  lemma FilterStep(glob: Glob, pattern: Bytes, ps: seq<Pkg>, i: nat)
    requires i < |ps|
    ensures Filter(glob, pattern, ps[i..])
         == (if ps[i].Match(glob, pattern) then [ps[i]] else []) + Filter(glob, pattern, ps[i + 1..])
  {
    assert ps[i..][1..] == ps[i + 1..];
  }

  /** Exactly the matching packages are kept. */
  lemma {:induction false} FilterMembers(glob: Glob, pattern: Bytes, ps: seq<Pkg>)
    ensures forall x :: x in Filter(glob, pattern, ps) <==> x in ps && x.Match(glob, pattern)
  {
    if ps != [] {
      FilterMembers(glob, pattern, ps[1..]);
      assert ps == [ps[0]] + ps[1..];
    }
  }

  /** ... and they keep their order. */
  lemma {:induction false} FilterSubsequence(glob: Glob, pattern: Bytes, ps: seq<Pkg>)
    ensures IsSubsequence(Filter(glob, pattern, ps), ps)
  {
    if ps != [] {
      FilterSubsequence(glob, pattern, ps[1..]);
      var f := Filter(glob, pattern, ps);
      if ps[0].Match(glob, pattern) {
        assert f == [ps[0]] + Filter(glob, pattern, ps[1..]);
        assert f[0] == ps[0] && f[1..] == Filter(glob, pattern, ps[1..]);
        assert IsSubsequence(f[1..], ps[1..]);
      } else {
        assert f == Filter(glob, pattern, ps[1..]);
      }
    }
  }

  lemma {:induction false} SubsequenceMembers(s: seq<Pkg>, t: seq<Pkg>)
    requires IsSubsequence(s, t)
    ensures forall x | x in s :: x in t
    decreases |t|
  {
    if s != [] {
      if s[0] == t[0] && IsSubsequence(s[1..], t[1..]) {
        SubsequenceMembers(s[1..], t[1..]);
        assert s == [s[0]] + s[1..];
      } else {
        SubsequenceMembers(s, t[1..]);
      }
    }
  }

  /** The first element of a sorted list is Cmp-below all of it. */
  lemma SortedHead(s: seq<Pkg>)
    requires Sorted(s) && s != []
    ensures forall x | x in s :: s[0].Cmp(x) <= 0
  {
    CmpReflexive(s[0]);
  }

  lemma SortedCons(h: Pkg, rest: seq<Pkg>)
    requires Sorted(rest)
    requires forall x | x in rest :: h.Cmp(x) <= 0
    ensures Sorted([h] + rest)
  {
    var s := [h] + rest;
    forall i, j | 0 <= i < j < |s|
      ensures s[i].Cmp(s[j]) <= 0
    {
      if i == 0 {
        assert s[j] == rest[j - 1];
      } else {
        assert s[i] == rest[i - 1] && s[j] == rest[j - 1];
      }
    }
  }

  /** An order-preserving selection from a sorted list is sorted. */
  lemma {:induction false} SubsequenceSorted(s: seq<Pkg>, t: seq<Pkg>)
    requires IsSubsequence(s, t) && Sorted(t)
    ensures Sorted(s)
    decreases |t|
  {
    if s != [] {
      assert Sorted(t[1..]);
      if s[0] == t[0] && IsSubsequence(s[1..], t[1..]) {
        SubsequenceSorted(s[1..], t[1..]);
        SubsequenceMembers(s[1..], t[1..]);
        SortedHead(t);
        assert s == [s[0]] + s[1..];
        SortedCons(s[0], s[1..]);
      } else {
        SubsequenceSorted(s, t[1..]);
      }
    }
  }

  /** Pkgs.Match keeps the repository, keeps exactly the matching packages
      in their order, and so keeps a sorted list sorted. */
  lemma MatchResult(glob: Glob, pattern: Bytes, ps: seq<Pkg>)
    ensures forall x :: x in Filter(glob, pattern, ps) <==> x in ps && x.Match(glob, pattern)
    ensures IsSubsequence(Filter(glob, pattern, ps), ps)
    ensures Sorted(ps) ==> Sorted(Filter(glob, pattern, ps))
  {
    FilterMembers(glob, pattern, ps);
    FilterSubsequence(glob, pattern, ps);
    if Sorted(ps) {
      SubsequenceSorted(Filter(glob, pattern, ps), ps);
    }
  }

  // ---------------------------------------------------------------------
  // Merge

  lemma {:induction false} MergeMembers(a: seq<Pkg>, b: seq<Pkg>)
    ensures forall x | x in MergeSeq(a, b) :: x in a || x in b
    decreases |a| + |b|
  {
    if a != [] && b != [] {
      var c := a[0].Cmp(b[0]);
      if c == 0 {
        MergeMembers(a[1..], b[1..]);
      } else if c < 0 {
        MergeMembers(a[1..], b);
      } else {
        MergeMembers(a, b[1..]);
      }
    }
  }

  /** Two sorted lists merge into a sorted list. */
  lemma {:induction false} MergeSorted(a: seq<Pkg>, b: seq<Pkg>)
    requires Sorted(a) && Sorted(b)
    ensures Sorted(MergeSeq(a, b))
    decreases |a| + |b|
  {
    if a != [] && b != [] {
      var c := a[0].Cmp(b[0]);
      SortedHead(a);
      SortedHead(b);
      assert Sorted(a[1..]) && Sorted(b[1..]);
      if c <= 0 {
        var rest := if c == 0 then MergeSeq(a[1..], b[1..]) else MergeSeq(a[1..], b);
        if c == 0 {
          MergeSorted(a[1..], b[1..]);
          MergeMembers(a[1..], b[1..]);
        } else {
          MergeSorted(a[1..], b);
          MergeMembers(a[1..], b);
        }
        forall x | x in rest
          ensures a[0].Cmp(x) <= 0
        {
          if x !in a {
            CmpTransitive(a[0], b[0], x);
          }
        }
        SortedCons(a[0], rest);
      } else {
        var rest := MergeSeq(a, b[1..]);
        MergeSorted(a, b[1..]);
        MergeMembers(a, b[1..]);
        CmpAntisymmetric(a[0], b[0]);
        forall x | x in rest
          ensures b[0].Cmp(x) <= 0
        {
          if x in a {
            CmpTransitive(b[0], a[0], x);
          }
        }
        SortedCons(b[0], rest);
      }
    }
  }

  /** All of `a` is in the result, in its order. */
  lemma {:induction false} MergeKeepsA(a: seq<Pkg>, b: seq<Pkg>)
    ensures IsSubsequence(a, MergeSeq(a, b))
    decreases |a| + |b|
  {
    if a == [] {
    } else if b == [] {
      SubsequenceReflexive(a);
    } else {
      var m := MergeSeq(a, b);
      var c := a[0].Cmp(b[0]);
      if c == 0 {
        MergeKeepsA(a[1..], b[1..]);
        assert m[0] == a[0] && m[1..] == MergeSeq(a[1..], b[1..]);
      } else if c < 0 {
        MergeKeepsA(a[1..], b);
        assert m[0] == a[0] && m[1..] == MergeSeq(a[1..], b);
      } else {
        MergeKeepsA(a, b[1..]);
        assert m[1..] == MergeSeq(a, b[1..]);
      }
    }
  }

  lemma {:induction false} SubsequenceReflexive(s: seq<Pkg>)
    ensures IsSubsequence(s, s)
  {
    if s != [] {
      SubsequenceReflexive(s[1..]);
    }
  }

  /** Nothing is lost or invented: the result and the dropped heads of `b`
      together are `a` and `b`. */
  lemma {:induction false} MergeCounts(a: seq<Pkg>, b: seq<Pkg>)
    ensures multiset(MergeSeq(a, b)) + multiset(Dropped(a, b)) == multiset(a) + multiset(b)
    decreases |a| + |b|
  {
    if a != [] && b != [] {
      var c := a[0].Cmp(b[0]);
      assert a == [a[0]] + a[1..] && b == [b[0]] + b[1..];
      if c == 0 {
        MergeCounts(a[1..], b[1..]);
        CountsBothHeads(a[0], b[0], MergeSeq(a[1..], b[1..]), Dropped(a[1..], b[1..]), a[1..], b[1..]);
      } else if c < 0 {
        MergeCounts(a[1..], b);
        CountsOneHead(a[0], MergeSeq(a[1..], b), Dropped(a[1..], b), a[1..], b);
      } else {
        MergeCounts(a, b[1..]);
        CountsOneHead(b[0], MergeSeq(a, b[1..]), Dropped(a, b[1..]), b[1..], a);
      }
    }
  }

  /** The step of MergeCounts where the heads are Cmp-equal: each side
      gains one head. */
  lemma CountsBothHeads<T>(x: T, y: T, m: seq<T>, d: seq<T>, a: seq<T>, b: seq<T>)
    requires multiset(m) + multiset(d) == multiset(a) + multiset(b)
    ensures multiset([x] + m) + multiset([y] + d) == multiset([x] + a) + multiset([y] + b)
  {
    calc {
      multiset([x] + m) + multiset([y] + d);
      (multiset{x} + multiset(m)) + (multiset{y} + multiset(d));
      (multiset{x} + multiset{y}) + (multiset(m) + multiset(d));
      (multiset{x} + multiset{y}) + (multiset(a) + multiset(b));
      (multiset{x} + multiset(a)) + (multiset{y} + multiset(b));
      multiset([x] + a) + multiset([y] + b);
    }
  }

  /** The step of MergeCounts where one head is smaller: the result and
      that side gain it. */
  lemma CountsOneHead<T>(x: T, m: seq<T>, d: seq<T>, a: seq<T>, b: seq<T>)
    requires multiset(m) + multiset(d) == multiset(a) + multiset(b)
    ensures multiset([x] + m) + multiset(d) == multiset([x] + a) + multiset(b)
    ensures multiset([x] + m) + multiset(d) == multiset(b) + multiset([x] + a)
  {
    calc {
      multiset([x] + m) + multiset(d);
      multiset{x} + (multiset(m) + multiset(d));
      multiset{x} + (multiset(a) + multiset(b));
      multiset([x] + a) + multiset(b);
    }
  }


  /** So the result is |a| + |b| long less one per equal-head step. */
  lemma MergeLength(a: seq<Pkg>, b: seq<Pkg>)
    ensures |MergeSeq(a, b)| == |a| + |b| - |Dropped(a, b)|
  {
    MergeCounts(a, b);
    assert |multiset(MergeSeq(a, b)) + multiset(Dropped(a, b))| == |multiset(a) + multiset(b)|;
  }

  /** Every dropped package of `b` is Cmp-equal to a package of `a`, which
      the result keeps. */
  lemma {:induction false} DroppedAreDuplicates(a: seq<Pkg>, b: seq<Pkg>)
    ensures forall y | y in Dropped(a, b) :: exists x | x in a :: x.Cmp(y) == 0
    decreases |a| + |b|
  {
    if a != [] && b != [] {
      var c := a[0].Cmp(b[0]);
      if c == 0 {
        DroppedAreDuplicates(a[1..], b[1..]);
        forall y | y in Dropped(a, b)
          ensures exists x | x in a :: x.Cmp(y) == 0
        {
          if y == b[0] {
            assert a[0] in a;
          } else {
            assert y in Dropped(a[1..], b[1..]);
            var x :| x in a[1..] && x.Cmp(y) == 0;
            assert x in a;
          }
        }
      } else if c < 0 {
        DroppedAreDuplicates(a[1..], b);
        forall y | y in Dropped(a, b)
          ensures exists x | x in a :: x.Cmp(y) == 0
        {
          assert y in Dropped(a[1..], b);
          var x :| x in a[1..] && x.Cmp(y) == 0;
          assert x in a;
        }
      } else {
        DroppedAreDuplicates(a, b[1..]);
      }
    }
  }

  /** So every package of `b` is in the result or Cmp-equal to one of `a`. */
  lemma MergeCoversB(a: seq<Pkg>, b: seq<Pkg>, y: Pkg)
    requires y in b
    ensures y in MergeSeq(a, b) || exists x | x in a :: x.Cmp(y) == 0
  {
    MergeCounts(a, b);
    DroppedAreDuplicates(a, b);
    assert y in multiset(a) + multiset(b);
    assert y in multiset(MergeSeq(a, b)) || y in multiset(Dropped(a, b));
  }

  /** The kept packages of `b` appear in the union in their order. */
  lemma {:induction false} KeptOfBInMerge(a: seq<Pkg>, b: seq<Pkg>)
    ensures IsSubsequence(KeptOfB(a, b), MergeSeq(a, b))
    decreases |a| + |b|
  {
    if a == [] {
      SubsequenceReflexive(b);
    } else if b != [] {
      var m := MergeSeq(a, b);
      var c := a[0].Cmp(b[0]);
      if c == 0 {
        KeptOfBInMerge(a[1..], b[1..]);
        assert m[1..] == MergeSeq(a[1..], b[1..]);
      } else if c < 0 {
        KeptOfBInMerge(a[1..], b);
        assert m[1..] == MergeSeq(a[1..], b);
      } else {
        KeptOfBInMerge(a, b[1..]);
        var k := KeptOfB(a, b);
        assert k[0] == m[0] && k[1..] == KeptOfB(a, b[1..]) && m[1..] == MergeSeq(a, b[1..]);
      }
    }
  }

  /** The kept packages of `b` are taken from `b` in its order. */
  lemma {:induction false} KeptOfBInB(a: seq<Pkg>, b: seq<Pkg>)
    ensures IsSubsequence(KeptOfB(a, b), b)
    decreases |a| + |b|
  {
    if a == [] {
      SubsequenceReflexive(b);
    } else if b != [] {
      var c := a[0].Cmp(b[0]);
      if c == 0 {
        KeptOfBInB(a[1..], b[1..]);
      } else if c < 0 {
        KeptOfBInB(a[1..], b);
      } else {
        KeptOfBInB(a, b[1..]);
        var k := KeptOfB(a, b);
        assert k[0] == b[0] && k[1..] == KeptOfB(a, b[1..]);
      }
    }
  }

  /** `b` splits into its kept and its dropped packages. */
  lemma {:induction false} KeptAndDropped(a: seq<Pkg>, b: seq<Pkg>)
    ensures multiset(KeptOfB(a, b)) + multiset(Dropped(a, b)) == multiset(b)
    decreases |a| + |b|
  {
    if a != [] && b != [] {
      var c := a[0].Cmp(b[0]);
      assert b == [b[0]] + b[1..];
      if c == 0 {
        KeptAndDropped(a[1..], b[1..]);
        assert Dropped(a, b) == [b[0]] + Dropped(a[1..], b[1..]);
      } else if c < 0 {
        KeptAndDropped(a[1..], b);
      } else {
        KeptAndDropped(a, b[1..]);
        assert KeptOfB(a, b) == [b[0]] + KeptOfB(a, b[1..]);
      }
    }
  }

  /** Pkgs.Merge interleaves: the union is all of `a` and the kept packages
      of `b`, each in its own order, and nothing else. */
  lemma MergeInterleaves(a: seq<Pkg>, b: seq<Pkg>)
    ensures IsSubsequence(a, MergeSeq(a, b))
    ensures IsSubsequence(KeptOfB(a, b), MergeSeq(a, b))
    ensures IsSubsequence(KeptOfB(a, b), b)
    ensures multiset(MergeSeq(a, b)) == multiset(a) + multiset(KeptOfB(a, b))
  {
    MergeKeepsA(a, b);
    KeptOfBInMerge(a, b);
    KeptOfBInB(a, b);
    MergeCounts(a, b);
    KeptAndDropped(a, b);
    var m, d, k := multiset(MergeSeq(a, b)), multiset(Dropped(a, b)), multiset(KeptOfB(a, b));
    assert m + d == (multiset(a) + k) + d;
    forall x
      ensures m[x] == (multiset(a) + k)[x]
    {
      assert (m + d)[x] == ((multiset(a) + k) + d)[x];
    }
  }

  /** Merging a list with itself gives the list back. */
  lemma {:induction false} MergeSelf(c: seq<Pkg>)
    ensures MergeSeq(c, c) == c
  {
    if c != [] {
      CmpReflexive(c[0]);
      MergeSelf(c[1..]);
      assert c == [c[0]] + c[1..];
    }
  }

  /** Two strictly sorted lists (no Cmp-duplicates inside either) merge into
      a strictly sorted list: the union without Cmp-duplicates. */
  lemma {:induction false} MergeStrictlySorted(a: seq<Pkg>, b: seq<Pkg>)
    requires StrictlySorted(a) && StrictlySorted(b)
    ensures StrictlySorted(MergeSeq(a, b))
    decreases |a| + |b|
  {
    if a != [] && b != [] {
      var c := a[0].Cmp(b[0]);
      StrictHead(a);
      StrictHead(b);
      assert StrictlySorted(a[1..]) && StrictlySorted(b[1..]);
      if c <= 0 {
        var rest := if c == 0 then MergeSeq(a[1..], b[1..]) else MergeSeq(a[1..], b);
        if c == 0 {
          MergeStrictlySorted(a[1..], b[1..]);
          MergeMembers(a[1..], b[1..]);
        } else {
          MergeStrictlySorted(a[1..], b);
          MergeMembers(a[1..], b);
        }
        forall x | x in rest
          ensures a[0].Cmp(x) < 0
        {
          if x !in a[1..] {
            assert b == [b[0]] + b[1..];
            if x in b[1..] {
              StrictBelow(a[0], b[0], x);
            }
          }
        }
        StrictCons(a[0], rest);
      } else {
        var rest := MergeSeq(a, b[1..]);
        MergeStrictlySorted(a, b[1..]);
        MergeMembers(a, b[1..]);
        CmpAntisymmetric(a[0], b[0]);
        forall x | x in rest
          ensures b[0].Cmp(x) < 0
        {
          if x !in b[1..] {
            assert a == [a[0]] + a[1..];
            if x in a[1..] {
              StrictBelow(b[0], a[0], x);
            }
          }
        }
        StrictCons(b[0], rest);
      }
    }
  }

  /** x <= y < z gives x < z. */
  lemma StrictBelow(x: Pkg, y: Pkg, z: Pkg)
    requires x.Cmp(y) <= 0 && y.Cmp(z) < 0
    ensures x.Cmp(z) < 0
  {
    CmpTransitive(x, y, z);
    if x.Cmp(z) == 0 {
      CmpAntisymmetric(x, z);
      CmpTransitive(z, x, y);
      CmpAntisymmetric(y, z);
    }
  }

  lemma StrictHead(s: seq<Pkg>)
    requires StrictlySorted(s) && s != []
    ensures forall x | x in s[1..] :: s[0].Cmp(x) < 0
  {
  }

  lemma StrictCons(h: Pkg, rest: seq<Pkg>)
    requires StrictlySorted(rest)
    requires forall x | x in rest :: h.Cmp(x) < 0
    ensures StrictlySorted([h] + rest)
  {
    var s := [h] + rest;
    forall i, j | 0 <= i < j < |s|
      ensures s[i].Cmp(s[j]) < 0
    {
      if i == 0 {
        assert s[j] == rest[j - 1];
      } else {
        assert s[i] == rest[i - 1] && s[j] == rest[j - 1];
      }
    }
  }
}

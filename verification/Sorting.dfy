/**
 The stable sort that Rust's `sort_by_key` and Python's `sorted` provide: the model's callers rely
 only on the facts proved here (sorted, a permutation, stable, the identity on a sorted list).
 */
module Sorting {

  ghost predicate TotalPreorder<T(!new)>(le: (T, T) -> bool) {
    && (forall x, y :: le(x, y) || le(y, x))
    && (forall x, y, z :: le(x, y) && le(y, z) ==> le(x, z))
  }

  ghost predicate SortedBy<T>(s: seq<T>, le: (T, T) -> bool) {
    forall i, j :: 0 <= i < j < |s| ==> le(s[i], s[j])
  }

  /** Puts `x` before the first element it does not exceed, so it stays ahead of its equals. */
  function Insert<T>(x: T, s: seq<T>, le: (T, T) -> bool): (r: seq<T>)
    ensures |r| == |s| + 1
    ensures multiset(r) == multiset(s) + multiset{x}
  {
    if s == [] then [x]
    else if le(x, s[0]) then [x] + s
    else
      assert s == [s[0]] + s[1..];
      [s[0]] + Insert(x, s[1..], le)
  }

  function Sort<T>(s: seq<T>, le: (T, T) -> bool): (r: seq<T>)
    ensures |r| == |s|
    ensures multiset(r) == multiset(s)
  {
    if s == [] then []
    else
      assert s == [s[0]] + s[1..];
      Insert(s[0], Sort(s[1..], le), le)
  }

  lemma {:induction false} InsertMembers<T>(x: T, s: seq<T>, le: (T, T) -> bool)
    ensures forall y :: y in Insert(x, s, le) <==> y == x || y in s
  {
    forall y
      ensures y in Insert(x, s, le) <==> y == x || y in s
    {
      assert y in Insert(x, s, le) <==> y in multiset(Insert(x, s, le));
      assert y in s <==> y in multiset(s);
    }
  }

  lemma {:induction false} SortMembers<T>(s: seq<T>, le: (T, T) -> bool)
    ensures forall y :: y in Sort(s, le) <==> y in s
  {
    forall y
      ensures y in Sort(s, le) <==> y in s
    {
      assert y in Sort(s, le) <==> y in multiset(Sort(s, le));
      assert y in s <==> y in multiset(s);
    }
  }

  lemma {:induction false} InsertSorted<T(!new)>(x: T, s: seq<T>, le: (T, T) -> bool)
    requires TotalPreorder(le) && SortedBy(s, le)
    ensures SortedBy(Insert(x, s, le), le)
  {
    if s != [] && !le(x, s[0]) {
      InsertSorted(x, s[1..], le);
      InsertMembers(x, s[1..], le);
      var t := Insert(x, s[1..], le);
      forall j | 0 <= j < |t|
        ensures le(s[0], t[j])
      {
        assert t[j] in t;
        if t[j] != x {
          var k :| 0 <= k < |s[1..]| && s[1..][k] == t[j];
          assert s[k + 1] == t[j];
        }
      }
    } else if s != [] {
      forall j | 0 <= j < |s|
        ensures le(x, s[j])
      {
        assert j > 0 ==> le(s[0], s[j]);
      }
    }
  }

  lemma {:induction false} SortSorted<T(!new)>(s: seq<T>, le: (T, T) -> bool)
    requires TotalPreorder(le)
    ensures SortedBy(Sort(s, le), le)
  {
    if s != [] {
      SortSorted(s[1..], le);
      InsertSorted(s[0], Sort(s[1..], le), le);
    }
  }

  lemma {:induction false} SortIsIdentityOnSorted<T>(s: seq<T>, le: (T, T) -> bool)
    requires SortedBy(s, le)
    ensures Sort(s, le) == s
  {
    if s != [] {
      SortIsIdentityOnSorted(s[1..], le);
      assert s == [s[0]] + s[1..];
      assert |s| > 1 ==> le(s[0], s[1]);
    }
  }

  /** The order does not tell `y` from `x`. */
  predicate Tied<T>(y: T, x: T, le: (T, T) -> bool) {
    le(y, x) && le(x, y)
  }

  /** The elements tied with `x`, in list order. */
  function Ties<T>(s: seq<T>, x: T, le: (T, T) -> bool): seq<T> {
    if s == [] then []
    else (if Tied(s[0], x, le) then [s[0]] else []) + Ties(s[1..], x, le)
  }

  lemma {:induction false} TiesCons<T>(y: T, s: seq<T>, x: T, le: (T, T) -> bool)
    ensures Tied(y, x, le) ==> Ties([y] + s, x, le) == [y] + Ties(s, x, le)
    ensures !Tied(y, x, le) ==> Ties([y] + s, x, le) == Ties(s, x, le)
  {
    assert ([y] + s)[1..] == s;
  }

  lemma {:induction false} NoTies<T>(s: seq<T>, x: T, le: (T, T) -> bool)
    requires forall i :: 0 <= i < |s| ==> !le(s[i], x)
    ensures Ties(s, x, le) == []
  {
    if s != [] {
      NoTies(s[1..], x, le);
    }
  }

  lemma {:induction false} TiesLead<T(!new)>(s: seq<T>, x: T, le: (T, T) -> bool)
    requires TotalPreorder(le) && SortedBy(s, le) && (s != [] ==> le(x, s[0]))
    ensures Ties(s, x, le) <= s
  {
    if s != [] {
      assert s == [s[0]] + s[1..];
      if le(s[0], x) {
        TiesLead(s[1..], x, le);
      } else {
        NoTies(s[1..], x, le);
      }
    }
  }

  /** `t` stands in `s` from position `p` on. */
  ghost predicate StandsAt<T>(t: seq<T>, s: seq<T>, p: nat) {
    p + |t| <= |s| && s[p..p + |t|] == t
  }

  lemma {:induction false} StandsLater<T>(t: seq<T>, s: seq<T>, p: nat)
    requires s != [] && StandsAt(t, s[1..], p)
    ensures StandsAt(t, s, p + 1)
  {
    assert s[p + 1..p + 1 + |t|] == s[1..][p..p + |t|];
  }

  /** In a sorted list the ties of `x` stand together. */
  lemma {:induction false} TiesTogether<T(!new)>(s: seq<T>, x: T, le: (T, T) -> bool) returns (p: nat)
    requires TotalPreorder(le) && SortedBy(s, le)
    ensures StandsAt(Ties(s, x, le), s, p)
  {
    if s == [] || le(x, s[0]) {
      p := 0;
      TiesLead(s, x, le);
    } else {
      var q := TiesTogether(s[1..], x, le);
      StandsLater(Ties(s[1..], x, le), s, q);
      p := q + 1;
      assert Ties(s, x, le) == Ties(s[1..], x, le);
    }
  }

  lemma {:induction false} TiesTie<T>(s: seq<T>, x: T, le: (T, T) -> bool)
    ensures forall y :: y in Ties(s, x, le) ==> y in s && le(y, x) && le(x, y)
  {
    if s != [] {
      TiesTie(s[1..], x, le);
    }
  }

  lemma {:induction false} InsertFirst<T>(y: T, s: seq<T>, le: (T, T) -> bool)
    requires s != [] ==> le(y, s[0])
    ensures Insert(y, s, le) == [y] + s
  {
  }

  lemma {:induction false} InsertLater<T>(y: T, z: T, s: seq<T>, le: (T, T) -> bool)
    requires !le(y, z)
    ensures Insert(y, [z] + s, le) == [z] + Insert(y, s, le)
  {
    assert ([z] + s)[1..] == s;
  }

  lemma {:induction false} SortCons<T>(y: T, s: seq<T>, le: (T, T) -> bool)
    ensures Sort([y] + s, le) == Insert(y, Sort(s, le), le)
  {
    assert ([y] + s)[1..] == s;
  }

  lemma {:induction false} TiesNotBelow<T(!new)>(y: T, s: seq<T>, x: T, le: (T, T) -> bool, coarse: (T, T) -> bool)
    requires TotalPreorder(le) && SortedBy(s, le) && (s != [] ==> le(y, s[0]))
    ensures Ties(s, x, coarse) != [] ==> le(y, Ties(s, x, coarse)[0])
  {
    TiesTie(s, x, coarse);
    if Ties(s, x, coarse) != [] {
      assert Ties(s, x, coarse)[0] in Ties(s, x, coarse);
      var k :| 0 <= k < |s| && s[k] == Ties(s, x, coarse)[0];
      assert k > 0 ==> le(s[0], s[k]);
    }
  }

  function InsertIf<T>(tied: bool, y: T, s: seq<T>, le: (T, T) -> bool): seq<T> {
    if tied then Insert(y, s, le) else s
  }

  lemma {:induction false} PickedFirst<T>(y: T, s: seq<T>, x: T, le: (T, T) -> bool, coarse: (T, T) -> bool)
    requires s != [] ==> le(y, s[0])
    requires Ties(s, x, coarse) != [] ==> le(y, Ties(s, x, coarse)[0])
    ensures Ties(Insert(y, s, le), x, coarse) == InsertIf(Tied(y, x, coarse), y, Ties(s, x, coarse), le)
  {
    InsertFirst(y, s, le);
    TiesCons(y, s, x, coarse);
    InsertFirst(y, Ties(s, x, coarse), le);
  }

  lemma {:induction false} InsertIfLater<T>(tied: bool, y: T, z: T, s: seq<T>, le: (T, T) -> bool)
    requires !le(y, z)
    ensures InsertIf(tied, y, [z] + s, le) == [z] + InsertIf(tied, y, s, le)
  {
    InsertLater(y, z, s, le);
  }

  lemma {:induction false} PickedLater<T>(y: T, z: T, s: seq<T>, x: T, le: (T, T) -> bool, coarse: (T, T) -> bool)
    requires !le(y, z)
    requires Ties(Insert(y, s, le), x, coarse) == InsertIf(Tied(y, x, coarse), y, Ties(s, x, coarse), le)
    ensures Ties(Insert(y, [z] + s, le), x, coarse)
         == InsertIf(Tied(y, x, coarse), y, Ties([z] + s, x, coarse), le)
  {
    InsertLater(y, z, s, le);
    TiesCons(z, s, x, coarse);
    TiesCons(z, Insert(y, s, le), x, coarse);
    InsertIfLater(Tied(y, x, coarse), y, z, Ties(s, x, coarse), le);
  }

  lemma {:induction false} InsertPicked<T(!new)>(
      y: T, s: seq<T>, x: T, le: (T, T) -> bool, coarse: (T, T) -> bool)
    requires TotalPreorder(le) && SortedBy(s, le)
    ensures Ties(Insert(y, s, le), x, coarse) == InsertIf(Tied(y, x, coarse), y, Ties(s, x, coarse), le)
  {
    if s == [] || le(y, s[0]) {
      TiesNotBelow(y, s, x, le, coarse);
      PickedFirst(y, s, x, le, coarse);
    } else {
      InsertPicked(y, s[1..], x, le, coarse);
      PickedLater(y, s[0], s[1..], x, le, coarse);
      assert s == [s[0]] + s[1..];
    }
  }

  lemma {:induction false} SortPickedStep<T>(z: T, s: seq<T>, x: T, le: (T, T) -> bool, coarse: (T, T) -> bool)
    requires Ties(Insert(z, Sort(s, le), le), x, coarse)
          == InsertIf(Tied(z, x, coarse), z, Ties(Sort(s, le), x, coarse), le)
    requires Ties(Sort(s, le), x, coarse) == Sort(Ties(s, x, coarse), le)
    ensures Ties(Sort([z] + s, le), x, coarse) == Sort(Ties([z] + s, x, coarse), le)
  {
    SortCons(z, s, le);
    TiesCons(z, s, x, coarse);
    SortCons(z, Ties(s, x, coarse), le);
  }

  /** The elements that a coarser order does not tell from `x` are sorted among themselves. */
  lemma {:induction false} SortPicked<T(!new)>(s: seq<T>, x: T, le: (T, T) -> bool, coarse: (T, T) -> bool)
    requires TotalPreorder(le)
    ensures Ties(Sort(s, le), x, coarse) == Sort(Ties(s, x, coarse), le)
  {
    if s != [] {
      SortPicked(s[1..], x, le, coarse);
      SortSorted(s[1..], le);
      InsertPicked(s[0], Sort(s[1..], le), x, le, coarse);
      SortPickedStep(s[0], s[1..], x, le, coarse);
      assert s == [s[0]] + s[1..];
    }
  }

  lemma {:induction false} TiesAreSorted<T(!new)>(s: seq<T>, x: T, le: (T, T) -> bool)
    requires TotalPreorder(le)
    ensures SortedBy(Ties(s, x, le), le)
  {
    TiesTie(s, x, le);
    var t := Ties(s, x, le);
    forall i, j | 0 <= i < j < |t|
      ensures le(t[i], t[j])
    {
      assert t[i] in t && t[j] in t;
    }
  }

  /** Stability: elements the order does not tell apart keep their order. */
  lemma {:induction false} SortIsStable<T(!new)>(s: seq<T>, x: T, le: (T, T) -> bool)
    requires TotalPreorder(le)
    ensures Ties(Sort(s, le), x, le) == Ties(s, x, le)
  {
    SortPicked(s, x, le, le);
    TiesAreSorted(s, x, le);
    SortIsIdentityOnSorted(Ties(s, x, le), le);
  }
}

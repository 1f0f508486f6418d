// Lists of things that occur once: leaving some out, and putting them elsewhere.
module Lists {
  import opened Common

  lemma SplitAt<T>(list: seq<T>, i: nat)
    requires i < |list|
    ensures list == list[..i] + [list[i]] + list[i + 1..]
  {
  }

  lemma TakeOneMore<T>(list: seq<T>, i: nat)
    requires i < |list|
    ensures list[..i + 1] == list[..i] + [list[i]]
  {
  }

  lemma WholeList<T>(list: seq<T>)
    ensures list[..0] == [] && list[0..] == list && list[..|list|] == list && list[|list|..] == []
  {
  }

  // Taking out member i leaves what comes before it and what comes after.
  lemma CutParts<T>(list: seq<T>, i: nat)
    requires i < |list|
    ensures var cut := list[..i] + list[i + 1..];
      cut[..i] == list[..i] && cut[i..] == list[i + 1..] && list[i..] == [list[i]] + list[i + 1..]
  {
  }

  // std::ranges::find: the first place of x, the length if there is none.
  function IndexOf<T(==)>(list: seq<T>, x: T): (i: nat)
    ensures i <= |list| && (forall k :: 0 <= k < i ==> list[k] != x) && (i < |list| ==> list[i] == x)
  {
    if list == [] || list[0] == x then 0 else 1 + IndexOf(list[1..], x)
  }

  // Place i of a ring of n, counted on past its end: i % n for less than two turns.
  function Turn(i: nat, n: nat): nat {
    if i < n then i else i - n
  }

  lemma TurnIsMod(i: nat, n: nat)
    requires i < 2 * n
    ensures Turn(i, n) == i % n
  {
  }

  function Others<T(==)>(list: seq<T>, block: seq<T>): seq<T> {
    if list == [] then []
    else if list[0] in block then Others(list[1..], block)
    else [list[0]] + Others(list[1..], block)
  }

  lemma {:induction false} OthersMembers<T(!new)>(list: seq<T>, block: seq<T>)
    ensures forall w :: w in Others(list, block) <==> w in list && w !in block
  {
    if list != [] {
      OthersMembers(list[1..], block);
      assert list == [list[0]] + list[1..];
    }
  }

  // The members of a come in the order of list.
  ghost predicate InOrderOf<T(!new)>(a: seq<T>, list: seq<T>) {
    forall i, j :: 0 <= i < j < |a| ==> Ahead(list, a[i], a[j])
  }

  // u stands before v.
  ghost predicate Ahead<T(!new)>(list: seq<T>, u: T, v: T) {
    exists p, q :: 0 <= p < q < |list| && list[p] == u && list[q] == v
  }

  lemma AheadInRest<T(!new)>(x: T, rest: seq<T>, u: T, v: T)
    requires Ahead(rest, u, v)
    ensures Ahead([x] + rest, u, v)
  {
    var p, q :| 0 <= p < q < |rest| && rest[p] == u && rest[q] == v;
    assert ([x] + rest)[p + 1] == u && ([x] + rest)[q + 1] == v;
  }

  lemma FirstIsAhead<T(!new)>(x: T, rest: seq<T>, v: T)
    requires v in rest
    ensures Ahead([x] + rest, x, v)
  {
    var q :| 0 <= q < |rest| && rest[q] == v;
    assert ([x] + rest)[0] == x && ([x] + rest)[q + 1] == v;
  }

  lemma OneMoreInOrder<T(!new)>(a: seq<T>, x: T, rest: seq<T>)
    requires InOrderOf(a, rest) && forall v :: v in a ==> v in rest
    ensures InOrderOf(a, [x] + rest) && InOrderOf([x] + a, [x] + rest)
  {
    forall i, j | 0 <= i < j < |a|
      ensures Ahead([x] + rest, a[i], a[j])
    {
      AheadInRest(x, rest, a[i], a[j]);
    }
    forall i, j | 0 <= i < j < |[x] + a|
      ensures Ahead([x] + rest, ([x] + a)[i], ([x] + a)[j])
    {
      assert ([x] + a)[j] == a[j - 1];
      if i == 0 {
        FirstIsAhead(x, rest, a[j - 1]);
      } else {
        assert ([x] + a)[i] == a[i - 1];
      }
    }
  }

  lemma {:induction false} OthersInOrder<T(!new)>(list: seq<T>, block: seq<T>)
    ensures InOrderOf(Others(list, block), list)
  {
    if list != [] {
      OthersInOrder(list[1..], block);
      OthersMembers(list[1..], block);
      OneMoreInOrder(Others(list[1..], block), list[0], list[1..]);
      assert list == [list[0]] + list[1..];
    }
  }

  lemma {:induction false} OthersConcat<T(!new)>(a: seq<T>, b: seq<T>, block: seq<T>)
    ensures Others(a + b, block) == Others(a, block) + Others(b, block)
  {
    if a == [] {
      assert a + b == b;
    } else {
      assert (a + b)[0] == a[0] && (a + b)[1..] == a[1..] + b;
      OthersConcat(a[1..], b, block);
    }
  }

  lemma {:induction false} OthersKeepsAll<T(!new)>(list: seq<T>, block: seq<T>)
    requires forall w :: w in list ==> w !in block
    ensures Others(list, block) == list
  {
    if list != [] {
      assert list[0] in list && list == [list[0]] + list[1..];
      OthersKeepsAll(list[1..], block);
    }
  }

  lemma {:induction false} OthersTwice<T(!new)>(list: seq<T>, a: seq<T>, b: seq<T>)
    ensures Others(Others(list, a), b) == Others(list, a + b)
  {
    if list != [] {
      OthersTwice(list[1..], a, b);
      if list[0] !in a {
        assert ([list[0]] + Others(list[1..], a))[1..] == Others(list[1..], a);
      }
    }
  }

  lemma RemoveOne<T(!new)>(block: seq<T>, w: T) returns (less: seq<T>)
    requires w in block && Distinct(block)
    ensures Distinct(less) && forall v :: v in less <==> v in block && v != w
    ensures multiset(block) == multiset(less) + multiset{w}
  {
    var k :| 0 <= k < |block| && block[k] == w;
    less := block[..k] + block[k + 1..];
    CutMultiset(block, k);
  }

  lemma CutMultiset<T>(block: seq<T>, k: nat)
    requires k < |block|
    ensures multiset(block) == multiset(block[..k] + block[k + 1..]) + multiset{block[k]}
  {
    SplitAt(block, k);
  }

  // A rearrangement keeps every window, once.
  lemma {:induction false} OthersMultiset<T(!new)>(list: seq<T>, block: seq<T>)
    requires Distinct(list) && Distinct(block) && forall w :: w in block ==> w in list
    ensures multiset(Others(list, block)) + multiset(block) == multiset(list)
  {
    assert forall i :: 0 <= i < |block| ==> block[i] in list;
    if list != [] {
      var w, rest := list[0], list[1..];
      assert list == [w] + rest;
      if w in block {
        var less := RemoveOne(block, w);
        SameOthers(rest, block, less);
        OthersMultiset(rest, less);
      } else {
        OthersMultiset(rest, block);
        assert Others(list, block) == [w] + Others(rest, block);
      }
    }
  }

  lemma {:induction false} SameOthers<T(!new)>(list: seq<T>, a: seq<T>, b: seq<T>)
    requires forall w :: w in list ==> (w in a <==> w in b)
    ensures Others(list, a) == Others(list, b)
  {
    if list != [] {
      assert list[0] in list;
      SameOthers(list[1..], a, b);
    }
  }

  function Reverse<T>(list: seq<T>): seq<T> {
    if list == [] then [] else Reverse(list[1..]) + [list[0]]
  }

  lemma {:induction false} ReverseConcat<T>(a: seq<T>, b: seq<T>)
    ensures Reverse(a + b) == Reverse(b) + Reverse(a)
  {
    if a == [] {
      assert a + b == b;
    } else {
      assert (a + b)[0] == a[0] && (a + b)[1..] == a[1..] + b;
      ReverseConcat(a[1..], b);
    }
  }

  lemma {:induction false} ReverseTwice<T>(list: seq<T>)
    ensures Reverse(Reverse(list)) == list
  {
    if list != [] {
      ReverseConcat(Reverse(list[1..]), [list[0]]);
      ReverseTwice(list[1..]);
    }
  }

  lemma {:induction false} ReverseAt<T>(list: seq<T>, i: nat)
    requires i < |list|
    ensures |Reverse(list)| == |list| && Reverse(list)[|list| - 1 - i] == list[i]
  {
    if |list| > 1 {
      ReverseAt(list[1..], if i > 0 then i - 1 else 0);
    }
  }

  lemma {:induction false} ReverseMembers<T>(list: seq<T>, x: T)
    ensures x in Reverse(list) <==> x in list
  {
    if list != [] {
      ReverseMembers(list[1..], x);
      assert list == [list[0]] + list[1..];
    }
  }

  lemma ReverseKeeps<T(!new)>(list: seq<T>)
    ensures forall x :: x in Reverse(list) <==> x in list
    ensures Distinct(list) <==> Distinct(Reverse(list))
  {
    forall x
      ensures x in Reverse(list) <==> x in list
    {
      ReverseMembers(list, x);
    }
    ReverseDistinct(list);
    ReverseDistinct(Reverse(list));
    ReverseTwice(list);
  }

  lemma ReverseDistinct<T(!new)>(list: seq<T>)
    ensures Distinct(list) ==> Distinct(Reverse(list))
  {
    var r := Reverse(list);
    if list != [] {
      ReverseAt(list, 0);
    }
    forall i, j | 0 <= i < j < |r| && Distinct(list)
      ensures r[i] != r[j]
    {
      ReverseAt(list, |r| - 1 - i);
      ReverseAt(list, |r| - 1 - j);
    }
  }

  lemma ReversePush<T>(list: seq<T>, x: T)
    ensures Reverse([x] + list) == Reverse(list) + [x]
    ensures Reverse(list + [x]) == [x] + Reverse(list)
  {
    ReverseConcat(list, [x]);
  }

  lemma OthersSelf<T(!new)>(w: T)
    ensures Others([w], [w]) == []
  {
  }

  lemma OthersAround<T(!new)>(a: seq<T>, w: T, b: seq<T>)
    requires w !in a && w !in b
    ensures Others(a + [w] + b, [w]) == a + b
  {
    calc {
      Others(a + [w] + b, [w]);
    ==  { OthersConcat(a + [w], b, [w]); }
      Others(a + [w], [w]) + Others(b, [w]);
    ==  { OthersConcat(a, [w], [w]); }
      Others(a, [w]) + Others([w], [w]) + Others(b, [w]);
    ==  { OthersSelf(w); OthersKeepsAll(a, [w]); }
      a + [] + Others(b, [w]);
    ==  { OthersKeepsAll(b, [w]); }
      a + [] + b;
    ==
      a + b;
    }
  }

  lemma CutOne<T(!new)>(list: seq<T>, i: nat)
    requires i < |list| && list[i] !in list[..i] && list[i] !in list[i + 1..]
    ensures list[..i] + list[i + 1..] == Others(list, [list[i]])
  {
    OthersAround(list[..i], list[i], list[i + 1..]);
    SplitAt(list, i);
  }

  // Cutting one member out, seen as leaving it out.
  lemma CutIsOthers<T(!new)>(list: seq<T>, i: nat)
    requires i < |list| && Distinct(list)
    ensures list[..i] + list[i + 1..] == Others(list, [list[i]])
  {
    CutOne(list, i);
  }

  // The members that satisfy p, in order.
  function Filter<T>(list: seq<T>, p: T -> bool): seq<T> {
    if list == [] then []
    else if p(list[0]) then [list[0]] + Filter(list[1..], p)
    else Filter(list[1..], p)
  }

  lemma {:induction false} FilterConcat<T>(a: seq<T>, b: seq<T>, p: T -> bool)
    ensures Filter(a + b, p) == Filter(a, p) + Filter(b, p)
  {
    if a == [] {
      assert a + b == b;
    } else {
      assert (a + b)[0] == a[0] && (a + b)[1..] == a[1..] + b;
      FilterConcat(a[1..], b, p);
    }
  }

  lemma {:induction false} FilterMembers<T>(list: seq<T>, p: T -> bool, x: T)
    ensures x in Filter(list, p) <==> x in list && p(x)
  {
    if list != [] {
      FilterMembers(list[1..], p, x);
      assert list == [list[0]] + list[1..];
    }
  }

  lemma {:induction false} FilterDistinct<T(!new)>(list: seq<T>, p: T -> bool)
    requires Distinct(list)
    ensures Distinct(Filter(list, p))
  {
    if list != [] {
      FilterDistinct(list[1..], p);
      FilterMembers(list[1..], p, list[0]);
    }
  }

  lemma {:induction false} FilterReverse<T>(list: seq<T>, p: T -> bool)
    ensures Filter(Reverse(list), p) == Reverse(Filter(list, p))
  {
    if list != [] {
      FilterConcat(Reverse(list[1..]), [list[0]], p);
      FilterReverse(list[1..], p);
    }
  }

  lemma {:induction false} FilterSame<T>(list: seq<T>, p: T -> bool, q: T -> bool)
    requires forall i :: 0 <= i < |list| ==> p(list[i]) == q(list[i])
    ensures Filter(list, p) == Filter(list, q)
  {
    if list != [] {
      FilterSame(list[1..], p, q);
    }
  }

  lemma {:induction false} FilterInOrder<T(!new)>(list: seq<T>, p: T -> bool)
    ensures InOrderOf(Filter(list, p), list)
  {
    if list != [] {
      FilterInOrder(list[1..], p);
      forall v | v in Filter(list[1..], p)
        ensures v in list[1..]
      {
        FilterMembers(list[1..], p, v);
      }
      OneMoreInOrder(Filter(list[1..], p), list[0], list[1..]);
      assert list == [list[0]] + list[1..];
    }
  }
}

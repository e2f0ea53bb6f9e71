// The order in which std::map and QMap visit their integer keys.
module KeyOrder {

  predicate IsLeast(s: set<int>, m: int) { m in s && forall k :: k in s ==> m <= k }

  lemma NonEmpty(s: set<int>)
    ensures s != {} ==> exists x :: x in s
  {
    if !exists x :: x in s {
      assert s == {};
    }
  }

  lemma LeastExists(s: set<int>)
    requires s != {}
    ensures exists m :: IsLeast(s, m)
  {
    hide IsLeast;
    NonEmpty(s);
    var x :| x in s;
    var m := LeastFrom(s, x);
  }

  lemma {:induction false} LeastFrom(s: set<int>, x: int) returns (m: int)
    requires x in s
    ensures IsLeast(s, m)
    decreases |s|
  {
    if forall k :: k in s ==> x <= k {
      m := x;
    } else {
      var y :| y in s && y < x;
      m := LeastFrom(s - {x}, y);
      LeastOfMore(s, x, y, m);
    }
  }

  lemma LeastOfMore(s: set<int>, x: int, y: int, m: int)
    requires x in s && y in s && y < x && IsLeast(s - {x}, m)
    ensures IsLeast(s, m)
  {
    assert y in s - {x};
    forall k | k in s ensures m <= k {
      assert k == x || k in s - {x};
    }
  }

  function Least(s: set<int>): (m: int)
    requires s != {}
    ensures IsLeast(s, m)
  {
    LeastExists(s);
    var m :| IsLeast(s, m);
    m
  }

  predicate Increasing(keys: seq<int>) { forall i, j :: 0 <= i < j < |keys| ==> keys[i] < keys[j] }

  function InOrder(s: set<int>): (keys: seq<int>)
    ensures forall k :: k in keys <==> k in s
  {
    if s == {} then [] else [Least(s)] + InOrder(s - {Least(s)})
  }

  lemma InOrderOf(s: set<int>)
    ensures InOrder(s) == if s == {} then [] else [Least(s)] + InOrder(s - {Least(s)})
  {
  }

  lemma NoneIncreases()
    ensures Increasing([])
  {
  }

  lemma {:induction false} InOrderIncreases(s: set<int>)
    ensures Increasing(InOrder(s)) && |InOrder(s)| == |s|
  {
    hide InOrder, Increasing, Least;
    InOrderOf(s);
    NoneIncreases();
    if s == {} {
    } else {
      var m := Least(s);
      var rest := InOrder(s - {m});
      InOrderIncreases(s - {m});
      PrependLeast(m, rest);
    }
  }

  lemma PrependLeast(m: int, rest: seq<int>)
    requires Increasing(rest) && forall k :: k in rest ==> m < k
    ensures Increasing([m] + rest)
  {
    var keys := [m] + rest;
    forall i, j | 0 <= i < j < |keys| ensures keys[i] < keys[j] {
      assert keys[j] == rest[j - 1] && rest[j - 1] in rest;
    }
  }
}

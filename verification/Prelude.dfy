/** Value types and sequence vocabulary shared by the component models. */
module Prelude {

  datatype Option<+T> = None | Some(value: T)

  datatype Result<+T, +E> = Ok(value: T) | Err(error: E)

  /** The permission modes a teammate can run under. */
  datatype PermissionMode =
    Default | Plan | BypassPermissions | DontAsk | AcceptEdits | Auto | Bubble

  predicate Distinct<T(==)>(s: seq<T>) {
    forall i, j :: 0 <= i < j < |s| ==> s[i] != s[j]
  }

  function Min(a: int, b: int): int {
    if a <= b then a else b
  }

  function Max(a: int, b: int): int {
    if a >= b then a else b
  }

  /** The last `n` elements, or all of them when there are fewer. */
  function LastN<T>(s: seq<T>, n: nat): seq<T> {
    s[|s| - Min(|s|, n)..]
  }

  function Filter<T>(s: seq<T>, keep: T -> bool): seq<T> {
    if s == [] then []
    else Filter(s[..|s| - 1], keep) + (if keep(s[|s| - 1]) then [s[|s| - 1]] else [])
  }

  /** The values of all elements, or the first error. */
  function Traverse<T, U, E>(xs: seq<T>, f: T -> Result<U, E>): Result<seq<U>, E> {
    if |xs| == 0 then Ok([])
    else match Traverse(xs[..|xs| - 1], f)
         case Err(e) => Err(e)
         case Ok(ys) =>
           match f(xs[|xs| - 1])
           case Err(e) => Err(e)
           case Ok(y) => Ok(ys + [y])
  }

  /** Every element has its value, or the first element without one decides the error. */
  ghost predicate InTurn<T, U, E>(xs: seq<T>, f: T -> Result<U, E>, r: Result<seq<U>, E>) {
    match r
    case Ok(ys) => |ys| == |xs| && forall i :: 0 <= i < |xs| ==> f(xs[i]) == Ok(ys[i])
    case Err(e) =>
      exists i :: 0 <= i < |xs| && f(xs[i]) == Err(e) && forall j :: 0 <= j < i ==> f(xs[j]).Ok?
  }

  lemma {:induction false} TraverseInTurn<T, U, E>(xs: seq<T>, f: T -> Result<U, E>)
    ensures InTurn(xs, f, Traverse(xs, f))
  {
    if |xs| > 0 {
      var n := |xs| - 1;
      TraverseInTurn(xs[..n], f);
      assert forall i :: 0 <= i < n ==> xs[..n][i] == xs[i];
      if Traverse(xs[..n], f).Err? {
        var e := Traverse(xs, f).error;
        var i :| 0 <= i < n && f(xs[..n][i]) == Err(e) && forall j :: 0 <= j < i ==> f(xs[..n][j]).Ok?;
        assert f(xs[i]) == Err(e);
      }
    }
  }

  /** Only one result is in turn. */
  lemma OnlyOneInTurn<T, U, E>(xs: seq<T>, f: T -> Result<U, E>, r: Result<seq<U>, E>)
    requires InTurn(xs, f, r)
    ensures Traverse(xs, f) == r
  {
    TraverseInTurn(xs, f);
    var q := Traverse(xs, f);
    if q.Err? && r.Err? {
      var i :| 0 <= i < |xs| && f(xs[i]) == Err(q.error) && forall j :: 0 <= j < i ==> f(xs[j]).Ok?;
      var k :| 0 <= k < |xs| && f(xs[k]) == Err(r.error) && forall j :: 0 <= j < k ==> f(xs[j]).Ok?;
    } else if q.Ok? && r.Ok? {
      forall i | 0 <= i < |xs|
        ensures q.value[i] == r.value[i]
      {
        assert f(xs[i]) == Ok(q.value[i]);
      }
      assert q.value == r.value;
    }
  }

  /** How many positions of `s` hold `x`. */
  function Count<T(==)>(s: seq<T>, x: T): nat {
    if s == [] then 0
    else Count(s[..|s| - 1], x) + (if s[|s| - 1] == x then 1 else 0)
  }

  lemma {:induction false} CountConcat<T>(a: seq<T>, b: seq<T>, x: T)
    ensures Count(a + b, x) == Count(a, x) + Count(b, x)
    decreases |b|
  {
    if b == [] {
      assert a + b == a;
    } else {
      CountConcat(a, b[..|b| - 1], x);
      assert (a + b)[..|a + b| - 1] == a + b[..|b| - 1];
    }
  }

  /** A sequence without repetitions that stays inside a finite set is no longer than the set. */
  lemma {:induction false} DistinctFits<T>(s: seq<T>, universe: set<T>)
    requires Distinct(s) && forall x :: x in s ==> x in universe
    ensures |s| <= |universe|
  {
    if s != [] {
      var last := s[|s| - 1];
      DistinctFits(s[..|s| - 1], universe - {last});
    }
  }

  lemma UpdateTwice<K, V>(m: map<K, V>, k: K, v: V, w: V)
    ensures m[k := v][k := w] == m[k := w]
  {}

  lemma Member<T>(s: set<T>) returns (x: T)
    requires s != {}
    ensures x in s
  {
    x :| x in s;
  }

  lemma Repetition<T>(s: seq<T>) returns (i: nat, j: nat)
    requires !Distinct(s)
    ensures i < j < |s| && s[i] == s[j]
  {
    i, j :| 0 <= i < j < |s| && s[i] == s[j];
  }

  /** The members of a finite set of integers, smallest first. */
  function Ascending(xs: set<int>): (s: seq<int>)
    ensures forall i, j :: 0 <= i < j < |s| ==> s[i] < s[j]
    ensures forall x :: x in s <==> x in xs
    ensures |s| == |xs|
  {
    if xs == {} then []
    else
      var top := Greatest(xs);
      Ascending(xs - {top}) + [top]
  }

  predicate IsGreatest(xs: set<int>, top: int) {
    top in xs && forall x :: x in xs ==> x <= top
  }

  function Greatest(xs: set<int>): (top: int)
    requires xs != {}
    ensures IsGreatest(xs, top)
  {
    GreatestExists(xs);
    var top :| top in xs && IsGreatest(xs, top);
    top
  }

  lemma {:induction false} GreatestExists(xs: set<int>)
    requires xs != {}
    ensures exists top :: IsGreatest(xs, top)
  {
    var y := Member(xs);
    var rest := xs - {y};
    assert forall x :: x in xs <==> x == y || x in rest;
    if rest != {} {
      GreatestExists(rest);
      var top :| IsGreatest(rest, top);
      assert IsGreatest(xs, Max(y, top));
    } else {
      assert IsGreatest(xs, y);
    }
  }
}

/**
 * The built-in list and dict behaviour the script relies on: `list.index`,
 * a dict filled by successive `d[k] = v` assignments (its contents and its key
 * order), and a loop that stops at the first iteration that raises.
 */
module Collections {
  import opened Wrappers

  /** The exceptions the modelled code can raise. */
  datatype Error =
    | ColumnNotInHeader(column: string)  // `headers.index(column)` raises ValueError
    | CellOutOfRange(column: string)     // `row[i]` past the end of the row raises IndexError
    | KeyNotFound(key: string)           // `d[key]` on a dict without that key raises KeyError
    | DivisionByZero                     // `x / 0` raises ZeroDivisionError

  /** `s.index(x)`: the first position of `x`, or None where Python raises ValueError. */
  function IndexOf<T(==)>(s: seq<T>, x: T): (r: Option<nat>)
    ensures r.None? <==> x !in s
    ensures r.Some? ==> r.value < |s| && s[r.value] == x && x !in s[..r.value]
  {
    if |s| == 0 then None
    else if s[0] == x then Some(0)
    else
      match IndexOf(s[1..], x)
      case None => None
      case Some(i) =>
        assert s[..i + 1] == [s[0]] + s[1..][..i];
        Some(i + 1)
  }

  /** `d.get(k)` on a dict whose values may be None: absent key and None value are alike. */
  function GetOrAbsent<K, V>(d: map<K, Option<V>>, k: K): (r: Option<V>)
    ensures r.Some? <==> k in d && d[k].Some?
    ensures r.Some? ==> d[k] == r
  {
    if k in d then d[k] else None
  }

  /**
   * Runs `f` on every element in order and collects the results; the first
   * failure ends the loop and becomes the outcome, as an uncaught exception does.
   */
  function Traverse<A, B, E>(xs: seq<A>, f: A -> Result<B, E>): (r: Result<seq<B>, E>)
    ensures r.Success? ==> |r.value| == |xs|
  {
    if xs == [] then Success([])
    else
      match Traverse(xs[..|xs| - 1], f)
      case Failure(e) => Failure(e)
      case Success(bs) =>
        match f(xs[|xs| - 1])
        case Failure(e) => Failure(e)
        case Success(b) => Success(bs + [b])
  }

  /** The loop succeeds exactly when every iteration does, and then collects each one's result. */
  lemma {:induction false} TraverseElements<A, B, E>(xs: seq<A>, f: A -> Result<B, E>)
    ensures Traverse(xs, f).Success? <==> forall i :: 0 <= i < |xs| ==> f(xs[i]).Success?
    ensures Traverse(xs, f).Success? ==>
              forall i :: 0 <= i < |xs| ==> f(xs[i]) == Success(Traverse(xs, f).value[i])
  {
    if xs != [] {
      var n := |xs| - 1;
      TraverseElements(xs[..n], f);
      assert forall i :: 0 <= i < n ==> xs[..n][i] == xs[i];
    }
  }

  /** A failing loop reports the error of its first failing iteration. */
  lemma {:induction false} TraverseFirstFailure<A, B, E>(xs: seq<A>, f: A -> Result<B, E>)
    requires Traverse(xs, f).Failure?
    ensures exists i :: 0 <= i < |xs| && f(xs[i]) == Failure(Traverse(xs, f).error) &&
                        forall j :: 0 <= j < i ==> f(xs[j]).Success?
  {
    var n := |xs| - 1;
    match Traverse(xs[..n], f)
    case Failure(e) =>
      TraverseFirstFailure(xs[..n], f);
      var i :| 0 <= i < n && f(xs[..n][i]) == Failure(e) &&
               forall j :: 0 <= j < i ==> f(xs[..n][j]).Success?;
      assert forall j :: 0 <= j <= i ==> xs[..n][j] == xs[j];
    case Success(_) =>
      TraverseElements(xs[..n], f);
      assert forall j :: 0 <= j < n ==> xs[..n][j] == xs[j];
  }

  /** Once an iteration has failed, the later elements change nothing. */
  lemma {:induction false} TraverseStops<A, B, E>(xs: seq<A>, n: nat, f: A -> Result<B, E>)
    requires n <= |xs| && Traverse(xs[..n], f).Failure?
    ensures Traverse(xs, f) == Traverse(xs[..n], f)
  {
    if n < |xs| {
      var m := |xs| - 1;
      assert xs[..m][..n] == xs[..n];
      TraverseStops(xs[..m], n, f);
    } else {
      assert xs[..n] == xs;
    }
  }

  /**
   * The dict left by `d[k] = v` for every `Some((k, v))` in order, starting
   * from `{}`; a `None` stands for an iteration that assigns nothing.
   */
  function Upsert<K, V>(es: seq<Option<(K, V)>>): map<K, V>
  {
    if es == [] then map[]
    else
      var d := Upsert(es[..|es| - 1]);
      match es[|es| - 1]
      case None => d
      case Some(kv) => d[kv.0 := kv.1]
  }

  /** The keys of the dict are exactly the keys ever assigned. */
  lemma {:induction false} UpsertKeys<K, V>(es: seq<Option<(K, V)>>)
    ensures forall k :: k in Upsert(es) <==>
                        exists i :: 0 <= i < |es| && es[i].Some? && es[i].value.0 == k
  {
    if es != [] {
      var n := |es| - 1;
      UpsertKeys(es[..n]);
      assert forall i :: 0 <= i < n ==> es[..n][i] == es[i];
    }
  }

  /** A key holds the value of its last assignment. */
  lemma {:induction false} UpsertLastWins<K, V>(es: seq<Option<(K, V)>>, i: nat)
    requires i < |es| && es[i].Some?
    requires forall j :: i < j < |es| && es[j].Some? ==> es[j].value.0 != es[i].value.0
    ensures es[i].value.0 in Upsert(es) && Upsert(es)[es[i].value.0] == es[i].value.1
  {
    var n := |es| - 1;
    if i < n {
      assert forall j :: i < j < n ==> es[..n][j] == es[j];
      UpsertLastWins(es[..n], i);
    }
  }

  /** The key order of the dict: each key where it was first assigned (Python 3.7+ dicts). */
  function InsertionOrder<K(==, !new), V>(es: seq<Option<(K, V)>>): (ks: seq<K>)
    ensures forall k :: k in ks <==> k in Upsert(es)
    ensures forall p, q :: 0 <= p < q < |ks| ==> ks[p] != ks[q]
  {
    if es == [] then []
    else
      var ks := InsertionOrder(es[..|es| - 1]);
      match es[|es| - 1]
      case None => ks
      case Some(kv) => if kv.0 in ks then ks else ks + [kv.0]
  }

  /** When every iteration assigns a key of its own, the key order is the iteration order. */
  lemma {:induction false} InsertionOrderOfDistinct<K(!new), V>(es: seq<Option<(K, V)>>)
    requires forall i :: 0 <= i < |es| ==> es[i].Some?
    requires forall i, j :: 0 <= i < j < |es| ==> es[i].value.0 != es[j].value.0
    ensures |InsertionOrder(es)| == |es|
    ensures forall i :: 0 <= i < |es| ==> InsertionOrder(es)[i] == es[i].value.0
  {
    if es != [] {
      var n := |es| - 1;
      var pre := es[..n];
      assert forall i :: 0 <= i < n ==> pre[i] == es[i];
      InsertionOrderOfDistinct(pre);
    }
  }

  /** Whether an iteration assigns key `k`. */
  predicate Assigns<K(==), V>(e: Option<(K, V)>, k: K) {
    e.Some? && e.value.0 == k
  }

  /** Key `a` is assigned at some iteration no later than which `b` has not been assigned. */
  ghost predicate AssignedBefore<K, V>(es: seq<Option<(K, V)>>, a: K, b: K) {
    exists i :: 0 <= i < |es| && Assigns(es[i], a) && forall j :: 0 <= j <= i ==> !Assigns(es[j], b)
  }

  /** Of two keys, the one earlier in the key order was assigned before the other's first assignment. */
  lemma {:induction false} InsertionOrderFollowsFirstAssignment<K(!new), V>(es: seq<Option<(K, V)>>)
    ensures var ks := InsertionOrder(es);
            forall p, q :: 0 <= p < q < |ks| ==> AssignedBefore(es, ks[p], ks[q])
  {
    if es != [] {
      var n := |es| - 1;
      var pre := es[..n];
      InsertionOrderFollowsFirstAssignment(pre);
      UpsertKeys(pre);
      assert forall i :: 0 <= i < n ==> pre[i] == es[i];
      var before := InsertionOrder(pre);
      var ks := InsertionOrder(es);
      assert ks == before || (es[n].Some? && es[n].value.0 !in before && ks == before + [es[n].value.0]);
      forall p, q | 0 <= p < q < |ks|
        ensures AssignedBefore(es, ks[p], ks[q])
      {
        assert ks[p] == before[p];
        if q < |before| {
          assert ks[q] == before[q];
          assert 0 <= p < q < |InsertionOrder(pre)|;
          assert AssignedBefore(pre, InsertionOrder(pre)[p], InsertionOrder(pre)[q]);
          var i :| 0 <= i < |pre| && Assigns(pre[i], before[p]) && forall j :: 0 <= j <= i ==> !Assigns(pre[j], before[q]);
          assert Assigns(es[i], ks[p]);
        } else {
          var k := es[n].value.0;
          assert ks[q] == k && k !in Upsert(pre);
          assert before[p] in Upsert(pre);
          var i :| 0 <= i < |pre| && pre[i].Some? && pre[i].value.0 == before[p];
          assert Assigns(es[i], ks[p]);
        }
      }
    }
  }

  /** One more assignment `d[k] = v`: the new value and, for a new key, a new last position in the key order. */
  lemma DictAssign<K(!new), V>(es: seq<Option<(K, V)>>, k: K, v: V)
    ensures Upsert(es + [Some((k, v))]) == Upsert(es)[k := v]
    ensures InsertionOrder(es + [Some((k, v))]) ==
              if k in Upsert(es) then InsertionOrder(es) else InsertionOrder(es) + [k]
  {
    assert (es + [Some((k, v))])[..|es|] == es;
  }

  /** The elements satisfying `p`, in order: a list filled by `append` inside an `if` in a loop. */
  function Filter<T>(xs: seq<T>, p: T -> bool): (ys: seq<T>)
    ensures |ys| <= |xs|
  {
    if xs == [] then []
    else Filter(xs[..|xs| - 1], p) + (if p(xs[|xs| - 1]) then [xs[|xs| - 1]] else [])
  }

  /** An element is kept exactly when it occurs and satisfies `p`. */
  lemma {:induction false} FilterMembers<T>(xs: seq<T>, p: T -> bool)
    ensures forall x :: x in Filter(xs, p) <==> x in xs && p(x)
  {
    if xs != [] {
      var n := |xs| - 1;
      FilterMembers(xs[..n], p);
      assert xs == xs[..n] + [xs[n]];
    }
  }

  /** Filtering keeps order: the part kept from a prefix comes before the part kept from the rest. */
  lemma {:induction false} FilterSplit<T>(xs: seq<T>, n: nat, p: T -> bool)
    requires n <= |xs|
    ensures Filter(xs, p) == Filter(xs[..n], p) + Filter(xs[n..], p)
    decreases |xs|
  {
    if n == |xs| {
      assert xs[..n] == xs;
      assert xs[n..] == [];
    } else {
      var m := |xs| - 1;
      FilterSplit(xs[..m], n, p);
      assert xs[..m][..n] == xs[..n];
      assert xs[n..][..|xs[n..]| - 1] == xs[..m][n..];
    }
  }

  /** A list without repetitions filters to a list without repetitions. */
  lemma {:induction false} FilterDistinct<T>(xs: seq<T>, p: T -> bool)
    requires forall i, j :: 0 <= i < j < |xs| ==> xs[i] != xs[j]
    ensures forall i, j :: 0 <= i < j < |Filter(xs, p)| ==> Filter(xs, p)[i] != Filter(xs, p)[j]
  {
    if xs != [] {
      var n := |xs| - 1;
      FilterDistinct(xs[..n], p);
      FilterMembers(xs[..n], p);
      assert xs[n] !in xs[..n];
    }
  }
}

// Edit distance: the recursive distance, edit scripts, and why the distance is the cost of the cheapest script and a
// metric.
module EditDistance {

  function Min(x: nat, y: nat): nat {
    if y < x then y else x
  }

  function Init<T>(s: seq<T>): seq<T>
    requires s != []
  {
    s[..|s| - 1]
  }

  function Last<T>(s: seq<T>): T
    requires s != []
  {
    s[|s| - 1]
  }

  /** The Levenshtein distance, by recursion on the last tokens. */
  function Distance<T(==)>(a: seq<T>, b: seq<T>): nat
    decreases |a| + |b|
  {
    if a == [] then |b|
    else if b == [] then |a|
    else
      Min(Min(Distance(a, Init(b)) + 1, Distance(Init(a), b) + 1),
          Distance(Init(a), Init(b)) + if Last(a) != Last(b) then 1 else 0)
  }

  // ----- Edit scripts

  datatype Edit<T> = Keep(token: T) | Replace(before: T, after: T) | Insert(token: T) | Delete(token: T)

  /** What an edit takes from the source. */
  function Takes<T>(e: Edit<T>): seq<T> {
    match e
    case Keep(x) => [x]
    case Replace(x, _) => [x]
    case Delete(x) => [x]
    case Insert(_) => []
  }

  /** What an edit gives to the target. */
  function Gives<T>(e: Edit<T>): seq<T> {
    match e
    case Keep(x) => [x]
    case Replace(_, y) => [y]
    case Insert(y) => [y]
    case Delete(_) => []
  }

  /** Keeping a token is free; every other edit costs one. */
  function Price<T>(e: Edit<T>): nat {
    if e.Keep? then 0 else 1
  }

  function Source<T>(script: seq<Edit<T>>): seq<T> {
    if script == [] then [] else Source(Init(script)) + Takes(Last(script))
  }

  function Target<T>(script: seq<Edit<T>>): seq<T> {
    if script == [] then [] else Target(Init(script)) + Gives(Last(script))
  }

  function Cost<T>(script: seq<Edit<T>>): nat {
    if script == [] then 0 else Cost(Init(script)) + Price(Last(script))
  }

  predicate Turns<T(==)>(script: seq<Edit<T>>, a: seq<T>, b: seq<T>) {
    Source(script) == a && Target(script) == b
  }

  lemma Extend<T>(script: seq<Edit<T>>, e: Edit<T>)
    ensures Source(script + [e]) == Source(script) + Takes(e)
    ensures Target(script + [e]) == Target(script) + Gives(e)
    ensures Cost(script + [e]) == Cost(script) + Price(e)
  {
    assert Init(script + [e]) == script && Last(script + [e]) == e;
  }

  lemma EmptyScript<T>()
    ensures Source<T>([]) == [] && Target<T>([]) == [] && Cost<T>([]) == 0
  {
  }

  /** Some script costs no more than the distance. */
  lemma {:induction false} CheapScript<T>(a: seq<T>, b: seq<T>) returns (script: seq<Edit<T>>)
    ensures Turns(script, a, b) && Cost(script) == Distance(a, b)
    decreases |a| + |b|
  {
    hide Source, Target, Cost;
    if a == [] && b == [] {
      EmptyScript<T>();
      return [];
    }
    var e: Edit<T>;
    if b != [] && (a == [] || Distance(a, b) == Distance(a, Init(b)) + 1) {
      script := CheapScript(a, Init(b));
      e := Insert(Last(b));
      assert b == Init(b) + [Last(b)];
    } else if b == [] || Distance(a, b) == Distance(Init(a), b) + 1 {
      script := CheapScript(Init(a), b);
      e := Delete(Last(a));
      assert a == Init(a) + [Last(a)];
    } else {
      script := CheapScript(Init(a), Init(b));
      e := if Last(a) == Last(b) then Keep(Last(a)) else Replace(Last(a), Last(b));
      assert a == Init(a) + [Last(a)] && b == Init(b) + [Last(b)];
    }
    Extend(script, e);
    script := script + [e];
  }

  /** No script costs less than the distance. */
  lemma {:induction false} NoCheaperScript<T>(script: seq<Edit<T>>)
    ensures Distance(Source(script), Target(script)) <= Cost(script)
  {
    if script != [] {
      var before := Init(script);
      NoCheaperScript(before);
      hide Distance, Takes, Gives, Price;
      OneEdit(Source(before), Target(before), Last(script));
    }
  }

  lemma OneEdit<T>(a: seq<T>, b: seq<T>, e: Edit<T>)
    ensures Distance(a + Takes(e), b + Gives(e)) <= Distance(a, b) + Price(e)
  {
    hide Distance;
    assert a + [] == a && b + [] == b;
    match e
    case Keep(x) => OneMore(a, b, x, x);
    case Replace(x, y) => OneMore(a, b, x, y);
    case Insert(y) => OneMore(a, b, y, y);
    case Delete(x) => OneMore(a, b, x, x);
  }

  /** One more token on either side costs at most one more edit. */
  lemma OneMore<T>(a: seq<T>, b: seq<T>, x: T, y: T)
    ensures Distance(a + [x], b) <= Distance(a, b) + 1
    ensures Distance(a, b + [y]) <= Distance(a, b) + 1
    ensures Distance(a + [x], b + [y]) <= Distance(a, b) + if x != y then 1 else 0
  {
    assert Init(a + [x]) == a && Init(b + [y]) == b;
  }

  // ----- Bounds

  lemma {:induction false} DistanceBounds<T>(a: seq<T>, b: seq<T>)
    ensures |a| - |b| <= Distance(a, b) && |b| - |a| <= Distance(a, b)
    ensures Distance(a, b) <= if |a| < |b| then |b| else |a|
    decreases |a| + |b|
  {
    if a != [] && b != [] {
      DistanceBounds(a, Init(b));
      DistanceBounds(Init(a), b);
      DistanceBounds(Init(a), Init(b));
    }
  }

  // ----- The distance is a metric

  lemma {:induction false} FreeScriptKeeps<T>(script: seq<Edit<T>>)
    requires Cost(script) == 0
    ensures Source(script) == Target(script)
  {
    if script != [] {
      FreeScriptKeeps(Init(script));
    }
  }

  function Unchanged<T>(a: seq<T>): (script: seq<Edit<T>>)
    ensures |script| == |a| && forall i :: 0 <= i < |a| ==> script[i] == Keep(a[i])
  {
    seq(|a|, i requires 0 <= i < |a| => Keep(a[i]))
  }

  lemma {:induction false} UnchangedIsFree<T>(a: seq<T>)
    ensures Turns(Unchanged(a), a, a) && Cost(Unchanged(a)) == 0
  {
    if a != [] {
      UnchangedIsFree(Init(a));
      assert Init(Unchanged(a)) == Unchanged(Init(a));
      assert a == Init(a) + [Last(a)];
    }
  }

  lemma {:induction false} ZeroMeansEqual<T>(a: seq<T>, b: seq<T>)
    ensures Distance(a, b) == 0 <==> a == b
  {
    var script := CheapScript(a, b);
    if Distance(a, b) == 0 {
      FreeScriptKeeps(script);
    }
    if a == b {
      UnchangedIsFree(a);
      NoCheaperScript(Unchanged(a));
    }
  }

  function Reversed<T>(script: seq<Edit<T>>): seq<Edit<T>> {
    if script == [] then [] else Reversed(Init(script)) + [Flipped(Last(script))]
  }

  /** The edit that undoes an edit. */
  function Flipped<T>(e: Edit<T>): (f: Edit<T>)
    ensures Takes(f) == Gives(e) && Gives(f) == Takes(e) && Price(f) == Price(e)
  {
    match e
    case Keep(x) => Keep(x)
    case Replace(x, y) => Replace(y, x)
    case Insert(y) => Delete(y)
    case Delete(x) => Insert(x)
  }

  lemma {:induction false} ReversedUndoes<T>(script: seq<Edit<T>>)
    ensures Turns(Reversed(script), Target(script), Source(script)) && Cost(Reversed(script)) == Cost(script)
  {
    if script != [] {
      hide Takes, Gives, Price, Flipped;
      ReversedUndoes(Init(script));
      Extend(Reversed(Init(script)), Flipped(Last(script)));
    }
  }

  lemma {:induction false} Symmetric<T>(a: seq<T>, b: seq<T>)
    ensures Distance(a, b) == Distance(b, a)
  {
    var there := CheapScript(a, b);
    var back := CheapScript(b, a);
    ReversedUndoes(there);
    NoCheaperScript(Reversed(there));
    ReversedUndoes(back);
    NoCheaperScript(Reversed(back));
  }

  /** Two scripts, the second starting where the first ends, make one that costs no more than both. */
  lemma {:induction false} Compose<T>(first: seq<Edit<T>>, second: seq<Edit<T>>) returns (both: seq<Edit<T>>)
    requires Target(first) == Source(second)
    ensures Turns(both, Source(first), Target(second))
    ensures Cost(both) <= Cost(first) + Cost(second)
    decreases |first| + |second|
  {
    if first != [] && Last(first).Delete? {
      both := Compose(Init(first), second);
      Extend(both, Last(first));
      both := both + [Last(first)];
    } else if second != [] && Last(second).Insert? {
      both := Compose(first, Init(second));
      Extend(both, Last(second));
      both := both + [Last(second)];
    } else if first == [] {
      assert second == [];
      both := [];
    } else {
      assert second != [];
      hide Merge;
      assert Last(Target(first)) == Gives(Last(first))[0] && Last(Source(second)) == Takes(Last(second))[0];
      assert Init(Target(first)) == Target(Init(first)) && Init(Source(second)) == Source(Init(second));
      both := Compose(Init(first), Init(second));
      if !(Last(first).Insert? && Last(second).Delete?) {
        var e := Merge(Last(first), Last(second));
        Extend(both, e);
        both := both + [e];
      }
    }
  }

  /** Two edits of the same middle token, as one edit. */
  function Merge<T(==)>(first: Edit<T>, second: Edit<T>): (e: Edit<T>)
    requires !first.Delete? && !second.Insert? && !(first.Insert? && second.Delete?)
    requires Gives(first) == Takes(second)
    ensures Takes(e) == Takes(first) && Gives(e) == Gives(second) && Price(e) <= Price(first) + Price(second)
  {
    if first.Insert? then Insert(if second.Keep? then second.token else second.after)
    else
      var x := if first.Keep? then first.token else first.before;
      if second.Delete? then Delete(x)
      else
        var z := if second.Keep? then second.token else second.after;
        if x == z then Keep(x) else Replace(x, z)
  }

  lemma {:induction false} Triangle<T>(a: seq<T>, b: seq<T>, c: seq<T>)
    ensures Distance(a, c) <= Distance(a, b) + Distance(b, c)
  {
    var first := CheapScript(a, b);
    var second := CheapScript(b, c);
    var both := Compose(first, second);
    NoCheaperScript(both);
  }
}

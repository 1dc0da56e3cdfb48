/** The distance behind typo recovery: the two-row loop, the metric, and the edits it counts. */
module EditDistance {

  function Min(x: int, y: int): int {
    if x < y then x else y
  }

  function Front(s: string): string
    requires s != []
  {
    s[..|s| - 1]
  }

  function Last(s: string): char
    requires s != []
  {
    s[|s| - 1]
  }

  function Cost(a: char, b: char): nat {
    if a == b then 0 else 1
  }

  function Distance(a: string, b: string): nat
    decreases |a| + |b|
  {
    if a == [] then |b|
    else if b == [] then |a|
    else Min(Distance(Front(a), b) + 1,
             Min(Distance(a, Front(b)) + 1,
                 Distance(Front(a), Front(b)) + Cost(Last(a), Last(b))))
  }

  /** One cell of the table, from its three neighbours. */
  lemma Cell(a: string, b: string, i: nat, j: nat)
    requires 0 < i <= |a| && 0 < j <= |b|
    ensures Distance(a[..i], b[..j])
         == Min(Distance(a[..i - 1], b[..j]) + 1,
                Min(Distance(a[..i], b[..j - 1]) + 1,
                    Distance(a[..i - 1], b[..j - 1]) + Cost(a[i - 1], b[j - 1])))
  {
    assert Front(a[..i]) == a[..i - 1] && Front(b[..j]) == b[..j - 1];
  }

  lemma Border(s: string)
    ensures Distance([], s) == |s| && Distance(s, []) == |s|
  {
  }

  method Levenshtein(a: string, b: string) returns (distance: nat)
    ensures distance == Distance(a, b)
  {
    hide Distance;
    Border(a);
    Border(b);
    var m, n := |a|, |b|;
    if m == 0 {
      return n;
    }
    if n == 0 {
      return m;
    }
    var prev := new nat[n + 1](index => index);
    var curr := new nat[n + 1](_ => 0);
    assert a[..0] == [];
    forall j | 0 <= j <= n { Border(b[..j]); }
    for i := 1 to m + 1
      invariant prev.Length == curr.Length == n + 1 && prev != curr && fresh(prev) && fresh(curr)
      invariant forall j :: 0 <= j <= n ==> prev[j] == Distance(a[..i - 1], b[..j])
    {
      curr[0] := i;
      Border(a[..i]);
      assert b[..0] == [];
      for j := 1 to n + 1
        invariant forall k :: 0 <= k <= n ==> prev[k] == Distance(a[..i - 1], b[..k])
        invariant forall k :: 0 <= k < j ==> curr[k] == Distance(a[..i], b[..k])
      {
        var cost := if a[i - 1] == b[j - 1] then 0 else 1;
        Cell(a, b, i, j);
        curr[j] := Min(prev[j] + 1, Min(curr[j - 1] + 1, prev[j - 1] + cost));
      }
      prev, curr := curr, prev;
    }
    assert a[..m] == a && b[..n] == b;
    distance := prev[n];
  }

  // The distance is a metric.

  lemma {:induction false} Symmetric(a: string, b: string)
    ensures Distance(a, b) == Distance(b, a)
    decreases |a| + |b|
  {
    if a != [] && b != [] {
      Symmetric(Front(a), b);
      Symmetric(a, Front(b));
      Symmetric(Front(a), Front(b));
    }
  }

  lemma {:induction false} ZeroIffEqual(a: string, b: string)
    ensures Distance(a, b) == 0 <==> a == b
    decreases |a| + |b|
  {
    if a != [] && b != [] {
      ZeroIffEqual(Front(a), Front(b));
      assert a == Front(a) + [Last(a)] && b == Front(b) + [Last(b)];
    }
  }

  lemma {:induction false} LengthBounds(a: string, b: string)
    ensures |a| - |b| <= Distance(a, b) && |b| - |a| <= Distance(a, b)
    ensures Distance(a, b) <= |a| + |b|
    decreases |a| + |b|
  {
    if a != [] && b != [] {
      LengthBounds(Front(a), b);
      LengthBounds(a, Front(b));
      LengthBounds(Front(a), Front(b));
    }
  }

  lemma {:induction false} Unfolded(a: string, b: string)
    requires a != [] && b != []
    ensures Distance(a, b) == Min(Distance(Front(a), b) + 1,
                                  Min(Distance(a, Front(b)) + 1,
                                      Distance(Front(a), Front(b)) + Cost(Last(a), Last(b))))
  {
  }

  lemma {:induction false} Triangle(a: string, b: string, c: string)
    ensures Distance(a, c) <= Distance(a, b) + Distance(b, c)
    decreases |a| + |b| + |c|
  {
    hide Distance;
    if a == [] || b == [] || c == [] {
      Border(a);
      Border(b);
      Border(c);
      LengthBounds(a, b);
      LengthBounds(b, c);
      LengthBounds(a, c);
    } else {
      Unfolded(a, b);
      Unfolded(b, c);
      Unfolded(a, c);
      Triangle(Front(a), b, c);
      Triangle(a, b, Front(c));
      Triangle(a, Front(b), c);
      Triangle(a, Front(b), Front(c));
      Triangle(Front(a), Front(b), c);
      Triangle(Front(a), Front(b), Front(c));
    }
  }

  // The distance counts edits.

  datatype Edit = Insert(at: nat, c: char) | Delete(at: nat) | Replace(at: nat, c: char)

  predicate Applies(e: Edit, s: string) {
    if e.Insert? then e.at <= |s| else e.at < |s|
  }

  function Apply(e: Edit, s: string): string
    requires Applies(e, s)
  {
    match e
    case Insert(at, c) => s[..at] + [c] + s[at..]
    case Delete(at) => s[..at] + s[at + 1..]
    case Replace(at, c) => s[..at] + [c] + s[at + 1..]
  }

  predicate ScriptApplies(script: seq<Edit>, s: string)
    decreases |script|
  {
    script == [] || (Applies(script[0], s) && ScriptApplies(script[1..], Apply(script[0], s)))
  }

  function ApplyScript(script: seq<Edit>, s: string): string
    requires ScriptApplies(script, s)
    decreases |script|
  {
    if script == [] then s else ApplyScript(script[1..], Apply(script[0], s))
  }

  lemma {:induction false} CommonSuffix(a: string, b: string, suffix: string)
    ensures Distance(a + suffix, b + suffix) <= Distance(a, b)
    decreases |suffix|
  {
    if suffix == [] {
      assert a + suffix == a && b + suffix == b;
    } else {
      CommonSuffix(a, b, Front(suffix));
      assert Front(a + suffix) == a + Front(suffix) && Front(b + suffix) == b + Front(suffix);
      assert Last(a + suffix) == Last(suffix) == Last(b + suffix);
    }
  }

  /** Two strings that differ by at most one character at the end. */
  lemma LastCharacter(p: string, c: char, d: char)
    ensures Distance(p + [c], p) <= 1 && Distance(p, p + [c]) <= 1 && Distance(p + [c], p + [d]) <= 1
  {
    ZeroIffEqual(p, p);
    assert Front(p + [c]) == p && Front(p + [d]) == p;
    if p == [] { assert p + [c] == [c]; }
  }

  lemma Inside(s: string, x: string, y: string, z: string, t: string)
    requires s == x + z && t == y + z && Distance(x, y) <= 1
    ensures Distance(s, t) <= 1
  {
    CommonSuffix(x, y, z);
  }

  lemma OneEdit(e: Edit, s: string)
    requires Applies(e, s)
    ensures Distance(s, Apply(e, s)) <= 1
  {
    hide Distance;
    var p := s[..e.at];
    match e
    case Insert(at, c) =>
      LastCharacter(p, c, c);
      Inside(s, p, p + [c], s[at..], Apply(e, s));
    case Delete(at) =>
      LastCharacter(p, s[at], s[at]);
      Inside(s, p + [s[at]], p, s[at + 1..], Apply(e, s));
    case Replace(at, c) =>
      LastCharacter(p, s[at], c);
      Inside(s, p + [s[at]], p + [c], s[at + 1..], Apply(e, s));
  }

  /** No script of edits is shorter than the distance. */
  lemma {:induction false} NoShorterScript(script: seq<Edit>, s: string)
    requires ScriptApplies(script, s)
    ensures Distance(s, ApplyScript(script, s)) <= |script|
    decreases |script|
  {
    if script == [] {
      ZeroIffEqual(s, s);
    } else {
      var t := Apply(script[0], s);
      OneEdit(script[0], s);
      NoShorterScript(script[1..], t);
      Triangle(s, t, ApplyScript(script[1..], t));
    }
  }

  lemma {:induction false} ScriptThen(script: seq<Edit>, e: Edit, s: string)
    requires ScriptApplies(script, s) && Applies(e, ApplyScript(script, s))
    ensures ScriptApplies(script + [e], s)
    ensures ApplyScript(script + [e], s) == Apply(e, ApplyScript(script, s))
    decreases |script|
  {
    if script == [] {
      assert script + [e] == [e];
      assert ScriptApplies([e][1..], Apply(e, s));
    } else {
      assert (script + [e])[1..] == script[1..] + [e];
      ScriptThen(script[1..], e, Apply(script[0], s));
    }
  }

  /** A script leaves what stands behind its string alone. */
  lemma {:induction false} ScriptBefore(script: seq<Edit>, s: string, d: char)
    requires ScriptApplies(script, s)
    ensures ScriptApplies(script, s + [d]) && ApplyScript(script, s + [d]) == ApplyScript(script, s) + [d]
    decreases |script|
  {
    if script != [] {
      assert Apply(script[0], s + [d]) == Apply(script[0], s) + [d];
      ScriptBefore(script[1..], Apply(script[0], s), d);
    }
  }

  lemma PrependEdit(e: Edit, a: string, a': string, rest: seq<Edit>)
    requires Applies(e, a) && Apply(e, a) == a' && ScriptApplies(rest, a')
    ensures ScriptApplies([e] + rest, a) && ApplyScript([e] + rest, a) == ApplyScript(rest, a')
  {
    assert ([e] + rest)[1..] == rest;
  }

  /** Which of its alternatives the distance takes. */
  lemma DistanceCases(a: string, b: string)
    requires a != [] || b != []
    ensures || (a != [] && Distance(a, b) == Distance(Front(a), b) + 1)
            || (b != [] && Distance(a, b) == Distance(a, Front(b)) + 1)
            || (a != [] && b != [] && Distance(a, b) == Distance(Front(a), Front(b)) + Cost(Last(a), Last(b)))
  {
  }

  /** The edits at the end of a string. */
  lemma EditsAtTheEnd(s: string, d: char)
    requires s != []
    ensures Applies(Delete(|s| - 1), s) && Apply(Delete(|s| - 1), s) == Front(s)
    ensures Applies(Replace(|s| - 1, d), s) && Apply(Replace(|s| - 1, d), s) == Front(s) + [d]
    ensures Applies(Insert(|s| - 1, Last(s)), Front(s)) && Apply(Insert(|s| - 1, Last(s)), Front(s)) == s
    ensures Front(s) + [Last(s)] == s
  {
  }

  /** ... and one is that short. */
  lemma {:induction false} ShortestScript(a: string, b: string) returns (script: seq<Edit>)
    ensures ScriptApplies(script, a) && ApplyScript(script, a) == b && |script| == Distance(a, b)
    decreases |a| + |b|
  {
    if a == [] && b == [] {
      return [];
    }
    DistanceCases(a, b);
    if a != [] { EditsAtTheEnd(a, if b == [] then ' ' else Last(b)); }
    if b != [] { EditsAtTheEnd(b, ' '); }
    hide Distance, Apply, Applies, ScriptApplies, ApplyScript, Front, Last;
    if a != [] && Distance(a, b) == Distance(Front(a), b) + 1 {
      var rest := ShortestScript(Front(a), b);
      PrependEdit(Delete(|a| - 1), a, Front(a), rest);
      script := [Delete(|a| - 1)] + rest;
    } else if b != [] && Distance(a, b) == Distance(a, Front(b)) + 1 {
      var rest := ShortestScript(a, Front(b));
      ScriptThen(rest, Insert(|b| - 1, Last(b)), a);
      script := rest + [Insert(|b| - 1, Last(b))];
    } else {
      var rest := ShortestScript(Front(a), Front(b));
      ScriptBefore(rest, Front(a), Last(b));
      script := rest;
      if Last(a) != Last(b) {
        PrependEdit(Replace(|a| - 1, Last(b)), a, Front(a) + [Last(b)], rest);
        script := [Replace(|a| - 1, Last(b))] + rest;
      }
    }
  }

  /** The distance is at most `n` exactly when some script of at most `n` edits leads from `a` to `b`. */
  lemma DistanceCountsEdits(a: string, b: string, n: nat)
    ensures Distance(a, b) <= n <==>
            exists script :: |script| <= n && ScriptApplies(script, a) && ApplyScript(script, a) == b
  {
    var shortest := ShortestScript(a, b);
    forall script | ScriptApplies(script, a) && ApplyScript(script, a) == b
      ensures Distance(a, b) <= |script|
    {
      NoShorterScript(script, a);
    }
  }
}

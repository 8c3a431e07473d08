/** Ordering views so that each comes after the views it needs, as far as cycles allow. */
module ViewOrder {
  import opened Sequences

  type Dependency = (string, string)

  /** The views that `a` needs: other views in the list that a dependency pair names. */
  function Needs(names: seq<string>, deps: seq<Dependency>, a: string): set<string> {
    set d | d in deps && d.0 == a && d.0 != d.1 && d.0 in names && d.1 in names :: d.1
  }

  function Elements(s: seq<string>): set<string> {
    set x | x in s
  }

  /** A walk along needs. */
  ghost predicate IsWalk(names: seq<string>, deps: seq<Dependency>, p: seq<string>)
    decreases |p|
  {
    |p| > 1 ==> p[1] in Needs(names, deps, p[0]) && IsWalk(names, deps, p[1..])
  }

  /** `v` is on a cycle or downstream of one: some walk from it comes back to a view it has passed. */
  ghost predicate ReachesCycle(names: seq<string>, deps: seq<Dependency>, v: string) {
    exists p: seq<string> :: IsWalk(names, deps, p) && p != [] && p[0] == v && !Distinct(p)
  }

  /** Each view listed comes after all it needs. */
  ghost predicate Grounded(names: seq<string>, deps: seq<Dependency>, out: seq<string>) {
    forall i :: 0 <= i < |out| ==> Needs(names, deps, out[i]) <= Elements(out[..i])
  }

  ghost predicate Partial(names: seq<string>, out: seq<string>) {
    Distinct(out) && forall x :: x in out ==> x in names
  }

  // ---------------------------------------------------------------- the algorithm

  method BuildNeeds(names: seq<string>, deps: seq<Dependency>) returns (needs: map<string, set<string>>)
    ensures forall a :: (if a in needs then needs[a] else {}) == Needs(names, deps, a)
  {
    needs := map[];
    var i := 0;
    while i < |deps|
      invariant 0 <= i <= |deps|
      invariant forall a :: (if a in needs then needs[a] else {}) == Needs(names, deps[..i], a)
    {
      var (a, b) := deps[i];
      assert deps[..i + 1] == deps[..i] + [deps[i]];
      forall x
        ensures Needs(names, deps[..i + 1], x) == Needs(names, deps[..i], x) + if x
          == a && a != b && a in names && b in names then {b} else {}
      {
      }
      if !(a == b || a !in names || b !in names) {
        needs := needs[a := (if a in needs then needs[a] else {}) + {b}];
      }
      i := i + 1;
    }
    assert deps[..i] == deps;
  }

  /** One pass over the names: those that are ready join the list. */
  method Pass(names: seq<string>, deps: seq<Dependency>, needs: map<string, set<string>>, out: seq<string>)
    returns (out': seq<string>, progress: bool)
    requires forall a :: (if a in needs then needs[a] else {}) == Needs(names, deps, a)
    requires Partial(names, out) && Grounded(names, deps, out)
    ensures out <= out' && Partial(names, out') && Grounded(names, deps, out')
    ensures progress <==> out' != out
    ensures !progress ==> forall n :: n in names && n !in out ==> !(Needs(names, deps, n) <= Elements(out))
  {
    out', progress := out, false;
    var k := 0;
    while k < |names|
      invariant 0 <= k <= |names|
      invariant out <= out' && Partial(names, out') && Grounded(names, deps, out')
      invariant progress <==> |out'| > |out|
      invariant !progress ==> forall j :: 0 <= j < k && names[j] !in out ==>
        !(Needs(names, deps, names[j]) <= Elements(out))
    {
      var n := names[k];
      if n !in out' {
        var need := if n in needs then needs[n] else {};
        if need <= Elements(out') {
          GroundedSnoc(names, deps, out', n);
          out', progress := out' + [n], true;
        }
      }
      k := k + 1;
    }
  }

  lemma {:induction false} GroundedSnoc(names: seq<string>, deps: seq<Dependency>, out: seq<string>, n: string)
    requires Grounded(names, deps, out) && Needs(names, deps, n) <= Elements(out)
    ensures Grounded(names, deps, out + [n])
  {
    forall i | 0 <= i < |out + [n]| ensures Needs(names, deps, (out + [n])[i]) <= Elements((out + [n])[..i]) {
      assert (out + [n])[..i] == out[..i];
      assert out[..|out|] == out;
    }
  }

  /** The names not listed yet, in their own order. */
  method Rest(names: seq<string>, out: seq<string>) returns (out': seq<string>)
    requires Distinct(names) && Partial(names, out)
    ensures out <= out' && Partial(names, out') && forall n :: n in names ==> n in out'
  {
    out' := out;
    var k := 0;
    while k < |names|
      invariant 0 <= k <= |names|
      invariant out <= out' && Partial(names, out')
      invariant forall j :: 0 <= j < k ==> names[j] in out'
    {
      if names[k] !in out' {
        out' := out' + [names[k]];
      }
      k := k + 1;
    }
  }

  /**
   The first `grounded` views come after all they need, and they are exactly the views from
   which no cycle can be reached; the rest follow.
   */
  method OrderViews(names: seq<string>, deps: seq<Dependency>) returns (out: seq<string>, ghost grounded: nat)
    requires Distinct(names)
    ensures Distinct(out) && Elements(out) == Elements(names) && |out| == |names|
    ensures grounded <= |out| && Grounded(names, deps, out[..grounded])
    ensures forall i :: 0 <= i < |out| ==> (i < grounded <==> !ReachesCycle(names, deps, out[i]))
  {
    var needs := BuildNeeds(names, deps);
    out := [];
    while |out| < |names|
      invariant Partial(names, out) && Grounded(names, deps, out) && |out| <= |names|
      decreases |names| - |out|
    {
      var before := out;
      var progress;
      out, progress := Pass(names, deps, needs, out);
      PartialSize(names, out);
      if !progress {
        grounded := |out|;
        ghost var listed := out;
        out := Rest(names, out);
        PartialSize(names, out);
        FullSize(names, out);
        assert out[..grounded] == listed;
        forall i | 0 <= i < |out| ensures i < grounded <==> !ReachesCycle(names, deps, out[i]) {
          Boundary(names, deps, listed, out, i);
        }
        return;
      }
    }
    grounded := |out|;
    assert out[..grounded] == out;
    FullElements(names, out);
    forall i | 0 <= i < |out| ensures !ReachesCycle(names, deps, out[i]) { GroundedIsAcyclic(names, deps, out, i); }
  }

  lemma {:induction false} PartialSize(names: seq<string>, out: seq<string>)
    requires Distinct(names) && Partial(names, out)
    ensures |out| <= |names|
  {
    Pigeonhole(out, Elements(names));
    ElementsSize(names);
  }

  lemma {:induction false} ElementsSize(s: seq<string>)
    requires Distinct(s)
    ensures |Elements(s)| == |s|
  {
    if s == [] {
      assert Elements(s) == {};
    } else {
      var front := s[..|s| - 1];
      ElementsSize(front);
      assert Elements(s) == Elements(front) + {s[|s| - 1]};
    }
  }

  lemma {:induction false} FullSize(names: seq<string>, out: seq<string>)
    requires Distinct(names) && Partial(names, out) && forall n :: n in names ==> n in out
    ensures |out| == |names| && Elements(out) == Elements(names)
  {
    assert Elements(out) == Elements(names);
    ElementsSize(names);
    ElementsSize(out);
  }

  lemma {:induction false} FullElements(names: seq<string>, out: seq<string>)
    requires Distinct(names) && Partial(names, out) && |out| >= |names|
    ensures |out| == |names| && Elements(out) == Elements(names)
  {
    PartialSize(names, out);
    ElementsSize(names);
    ElementsSize(out);
    SameSize(Elements(out), Elements(names));
  }

  lemma {:induction false} SameSize(a: set<string>, b: set<string>)
    requires a <= b && |a| == |b|
    ensures a == b
  {
    assert b == a + (b - a);
  }

  // ---------------------------------------------------------------- cycles

  /** Walks from a grounded view go back in the list, so they never return. */
  lemma {:induction false} GroundedWalk(names: seq<string>, deps: seq<Dependency>, out: seq<string>, p: seq<string>,
      i: nat)
    requires Grounded(names, deps, out) && Distinct(out) && IsWalk(names, deps, p) && p != []
    requires i < |out| && p[0] == out[i]
    ensures Distinct(p) && forall x :: x in p ==> x in out[..i + 1]
    decreases |p|
  {
    if |p| == 1 {
      assert out[..i + 1][i] == p[0];
    } else {
      assert p[1] in Elements(out[..i]);
      var j :| 0 <= j < i && out[j] == p[1];
      var rest := p[1..];
      GroundedWalk(names, deps, out, rest, j);
      forall x | x in rest ensures x != p[0] && x in out[..i + 1] {
        var k :| 0 <= k < |out[..j + 1]| && out[..j + 1][k] == x;
        assert out[k] == x && out[..i + 1][k] == x;
      }
      DistinctCons(p[0], rest);
      assert p == [p[0]] + rest;
      assert out[..i + 1][i] == p[0];
    }
  }

  lemma {:induction false} DistinctCons(x: string, s: seq<string>)
    requires Distinct(s) && x !in s
    ensures Distinct([x] + s)
  {
  }

  lemma {:induction false} GroundedIsAcyclic(names: seq<string>, deps: seq<Dependency>, out: seq<string>, i: nat)
    requires Grounded(names, deps, out) && Distinct(out) && i < |out|
    ensures !ReachesCycle(names, deps, out[i])
  {
    forall p: seq<string> | IsWalk(names, deps, p) && p != [] && p[0] == out[i] ensures Distinct(p) {
      GroundedWalk(names, deps, out, p, i);
    }
  }

  ghost predicate NeedsWithin(names: seq<string>, deps: seq<Dependency>, stuck: set<string>, v: string) {
    exists w :: w in Needs(names, deps, v) && w in stuck
  }

  /** Every view in `stuck` needs another one in it. */
  ghost predicate Stuck(names: seq<string>, deps: seq<Dependency>, stuck: set<string>) {
    forall v {:trigger NeedsWithin(names, deps, stuck, v)} :: v in stuck ==> NeedsWithin(names, deps, stuck, v)
  }

  lemma {:induction false} LongWalk(names: seq<string>, deps: seq<Dependency>, stuck: set<string>, v: string, n: nat)
    returns (p: seq<string>)
    requires Stuck(names, deps, stuck) && v in stuck
    ensures |p| == n + 1 && p[0] == v && IsWalk(names, deps, p) && forall x :: x in p ==> x in stuck
    decreases n
  {
    p := [v];
    if n > 0 {
      assert NeedsWithin(names, deps, stuck, v);
      var w :| w in Needs(names, deps, v) && w in stuck;
      var rest := LongWalk(names, deps, stuck, w, n - 1);
      p := [v] + rest;
      assert p[1..] == rest;
    }
  }

  lemma {:induction false} StuckReachesCycle(names: seq<string>, deps: seq<Dependency>, stuck: set<string>, v: string)
    requires Stuck(names, deps, stuck) && v in stuck
    ensures ReachesCycle(names, deps, v)
  {
    var p := LongWalk(names, deps, stuck, v, |stuck|);
    if Distinct(p) {
      Pigeonhole(p, stuck);
    }
  }

  lemma {:induction false} LeftoversAreStuck(names: seq<string>, deps: seq<Dependency>, listed: seq<string>)
    requires forall n :: n in names && n !in listed ==> !(Needs(names, deps, n) <= Elements(listed))
    ensures Stuck(names, deps, Elements(names) - Elements(listed))
  {
    var stuck := Elements(names) - Elements(listed);
    forall v | v in stuck ensures NeedsWithin(names, deps, stuck, v) {
      var w :| w in Needs(names, deps, v) && w !in Elements(listed);
      assert w in stuck;
    }
  }

  /** Where a pass without progress stops is where the cycles begin. */
  lemma {:induction false} Boundary(names: seq<string>, deps: seq<Dependency>, listed: seq<string>, out: seq<string>,
      i: nat)
    requires Grounded(names, deps, listed) && Partial(names, listed) && listed <= out && Partial(names, out)
    requires i < |out|
    requires forall n :: n in names && n !in listed ==> !(Needs(names, deps, n) <= Elements(listed))
    ensures i < |listed| <==> !ReachesCycle(names, deps, out[i])
  {
    if i < |listed| {
      assert out[i] == listed[i];
      GroundedIsAcyclic(names, deps, listed, i);
    } else {
      var stuck := Elements(names) - Elements(listed);
      LeftoversAreStuck(names, deps, listed);
      assert forall k :: 0 <= k < |listed| ==> listed[k] == out[k] && out[k] != out[i];
      StuckReachesCycle(names, deps, stuck, out[i]);
    }
  }

  /** Without cycles every view comes after all it needs. */
  lemma {:induction false} AcyclicOrder(names: seq<string>, deps: seq<Dependency>, out: seq<string>, grounded: nat)
    requires grounded <= |out| && Grounded(names, deps, out[..grounded])
    requires forall i :: 0 <= i < |out| ==> (i < grounded <==> !ReachesCycle(names, deps, out[i]))
    requires forall v :: v in out ==> !ReachesCycle(names, deps, v)
    ensures Grounded(names, deps, out)
  {
    if out != [] {
      assert out[|out| - 1] in out;
    }
    assert out[..grounded] == out;
  }
}

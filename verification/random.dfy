/** The generator's only side effect, Python's `random.randint`, made an
    explicit argument. A generator run is a pure function of the pattern and
    an `Rng`; a property that holds "for every random choice" is a property
    that holds for every `Rng`. */
module Random {
  import opened Base

  /** An unending stream of raw draws and the position of the next one. */
  datatype Rng = Rng(draws: nat -> nat, cursor: nat) {
    /** The source after one draw has been consumed. */
    function Next(): Rng {
      Rng(draws, cursor + 1)
    }

    /** The source after `n` draws have been consumed. */
    function Skip(n: nat): Rng {
      Rng(draws, cursor + n)
    }
  }

  /** An integer drawn, and the source left after drawing it. */
  datatype Drawn = Drawn(n: int, rng: Rng)

  /** Generated text, and the source left after generating it. */
  datatype Out = Out(text: string, rng: Rng)

  /** Python's `randint(lo, hi)`: one value of the closed range `[lo, hi]`,
      or ValueError when that range is empty. */
  function RandInt(g: Rng, lo: int, hi: int): (r: Result<Drawn>)
    ensures r.Ok? <==> lo <= hi
    ensures r.Err? ==> r.error == ValueError
    ensures r.Ok? ==> lo <= r.value.n <= hi && r.value.rng == g.Next()
  {
    if lo <= hi then Ok(Drawn(lo + Wrap(g.draws(g.cursor), hi - lo + 1), g.Next()))
    else Err(ValueError)
  }

  /** A raw draw folded into `[0, m)` by repeated subtraction (the
      remainder of `x` by `m`). Recursion keeps the fold out of the
      solver's nonlinear arithmetic. */
  function Wrap(x: nat, m: nat): (r: nat)
    requires m > 0
    ensures r < m
    decreases x
  {
    if x < m then x else Wrap(x - m, m)
  }

  /** A draw already in range is taken as it is. */
  lemma WrapSmall(a: nat, m: nat)
    requires a < m
    ensures Wrap(a, m) == a
  {
  }

  /** The members of `s` listed in increasing order: the fixed enumeration
      standing in for Python's `list(s)` (whose order the model does not claim). */
  function Ascending(s: set<int>, lo: int, hi: int): (r: seq<int>)
    requires lo <= hi
    requires forall x :: x in s ==> lo <= x < hi
    ensures |r| == |s|
    ensures forall x :: x in r <==> x in s
    ensures forall i, j :: 0 <= i < j < |r| ==> r[i] < r[j]
    decreases hi - lo
  {
    if lo == hi then
      assert s == {};
      []
    else if lo in s then
      var rest := Ascending(s - {lo}, lo + 1, hi);
      assert forall j :: 0 <= j < |rest| ==> rest[j] in s - {lo};
      [lo] + rest
    else
      Ascending(s, lo + 1, hi)
  }

  /** Python's `list(s)[randint(0, len(s) - 1)]` for a set of ASCII codes:
      a member of `s`, or ValueError when `s` is empty. */
  function Pick(s: set<int>, g: Rng): (r: Result<Drawn>)
    requires forall x :: x in s ==> 0 <= x < 128
    ensures r.Ok? <==> s != {}
    ensures r.Err? ==> r.error == ValueError
    ensures r.Ok? ==> r.value.n in s && r.value.rng == g.Next()
  {
    var k :- RandInt(g, 0, |s| - 1);
    Ok(Drawn(Ascending(s, 0, 128)[k.n], k.rng))
  }

  /** The next draws of `g` are `plan`, in order. */
  predicate Follows(g: Rng, plan: seq<nat>) {
    forall k :: 0 <= k < |plan| ==> g.draws(g.cursor + k) == plan[k]
  }

  /** A source following two plans in a row follows each in turn. */
  lemma FollowsSplit(g: Rng, a: seq<nat>, b: seq<nat>)
    requires Follows(g, a + b)
    ensures Follows(g, a) && Follows(g.Skip(|a|), b)
  {
    forall k | 0 <= k < |b|
      ensures g.Skip(|a|).draws(g.Skip(|a|).cursor + k) == b[k]
    {
      assert (a + b)[|a| + k] == b[k];
    }
    forall k | 0 <= k < |a|
      ensures g.draws(g.cursor + k) == a[k]
    {
      assert (a + b)[k] == a[k];
    }
  }

  /** A source whose first draws are exactly `plan`. */
  function Scripted(plan: seq<nat>): (g: Rng)
    ensures Follows(g, plan) && g.cursor == 0
  {
    Rng((k: nat) => if k < |plan| then plan[k] else 0, 0)
  }

  /** The draw that makes `randint(lo, hi)` return `v`. */
  lemma RandIntPlan(lo: int, hi: int, v: int) returns (plan: seq<nat>)
    requires lo <= v <= hi
    ensures |plan| == 1
    ensures forall g :: Follows(g, plan) ==> RandInt(g, lo, hi) == Ok(Drawn(v, g.Skip(1)))
  {
    plan := [v - lo];
    forall g | Follows(g, plan)
      ensures RandInt(g, lo, hi) == Ok(Drawn(v, g.Skip(1)))
    {
      assert plan[0] == v - lo;
      assert g.draws(g.cursor + 0) == plan[0];
      WrapSmall(v - lo, hi - lo + 1);
    }
  }

  /** The draw that makes `Pick(s)` return `x`. */
  lemma PickPlan(s: set<int>, x: int) returns (plan: seq<nat>)
    requires forall y :: y in s ==> 0 <= y < 128
    requires x in s
    ensures |plan| == 1
    ensures forall g :: Follows(g, plan) ==> Pick(s, g) == Ok(Drawn(x, g.Skip(1)))
  {
    var order := Ascending(s, 0, 128);
    var i :| 0 <= i < |order| && order[i] == x;
    plan := [i];
    forall g | Follows(g, plan)
      ensures Pick(s, g) == Ok(Drawn(x, g.Skip(1)))
    {
      assert plan[0] == i;
      assert g.draws(g.cursor + 0) == plan[0];
      WrapSmall(i, |s|);
      assert RandInt(g, 0, |s| - 1) == Ok(Drawn(i, g.Next()));
    }
  }

  /** Every member of a non-empty set is a possible outcome of `Pick`. */
  lemma PickReaches(s: set<int>, x: int)
    requires forall y :: y in s ==> 0 <= y < 128
    requires x in s
    ensures exists g :: Pick(s, g) == Ok(Drawn(x, g.Next()))
  {
    var plan := PickPlan(s, x);
    var g := Scripted(plan);
    assert g.Skip(1) == g.Next();
    assert Pick(s, g) == Ok(Drawn(x, g.Next()));
  }

  /** Every value of a non-empty range is a possible outcome of `randint`. */
  lemma RandIntReaches(lo: int, hi: int, v: int)
    requires lo <= v <= hi
    ensures exists g :: RandInt(g, lo, hi) == Ok(Drawn(v, g.Next()))
  {
    var plan := RandIntPlan(lo, hi, v);
    var g := Scripted(plan);
    assert g.Skip(1) == g.Next();
    assert RandInt(g, lo, hi) == Ok(Drawn(v, g.Next()));
  }
}
